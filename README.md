# mkBackend in Dafny

A model of the control core of the GGLAssociates "MK" Minecraft server backend. The model covers three groups:

- **The FastAPI handlers** `create_world`, `login` and `register`, including:
  - the admin-token gate they share;
  - the `hash.salt` password record;
  - the `ServerStatus` and `RoleID` enumerations;
  - the SQLite tables they read and write.
- **The Google Cloud integrator's bookkeeping:**
  - reading the `key=value` settings file;
  - grouping the aggregated instance list by zone;
  - flattening it into (name, external IP) pairs;
  - drawing a random machine name;
  - building the disk- and machine-type paths of a new instance;
  - listing the world archives in the storage bucket.

Modules, one file each:

| file | module | models |
|---|---|---|
| `wrappers.dfy` | `Wrappers` | `Option` |
| `text.dfy` | `Text` | Python's `str.split` with a one-character separator, `sep.join`, and `t in s` on strings |
| `pybytes.dfy` | `PyBytes` | `str(b)` of a `bytes` value, as `register` applies it to the random salt |
| `clock.dfy` | `Clock` | UTC calendar moments, `int(t.strftime("%Y%m%d%H%M%S"))` and `t + timedelta(seconds=3600)` |
| `accounts.dfy` | `Accounts` | `backend/main.py`: enums, token gate, password records, and the endpoints as step functions over the tables. A class `Database` holds the two tables and performs the endpoints on them. |
| `settings.dfy` | `Settings` | `get_settings` (both copies of it are the same code) |
| `compute.dfy` | `Compute` | `list_all_instances`, `get_running_info`, `gen_name`, and the resource paths of `create_instance` |
| `storage.dfy` | `Storage` | `list_worlds` |

Each endpoint is specified by a pure function from the old table to the reply and the new table (`CreateWorldStep`, `RegisterStep`, `LoginReply`). The methods of `Accounts.Database` are proved equal to those functions, and the lemmas state what the endpoints promise.

Some of the program's behaviour looks unintended but is modelled as written, each stated as a lemma:

- `create_world` only succeeds on an empty world table. After `SELECT ID ... LIMIT 1` finds a row, the second `fetchone()` returns `None`, and indexing it raises `TypeError`. The handler reports this as an error message.
- `register` stores `str(os.urandom(16))`, the `b'...'` repr, as the salt. `login` reads the salt back with `split('.')[1]`, so a salt with the byte 0x2E is cut short. Login then hashes the password with a strictly shorter text than register did. Barring a SHA-256 collision between those two texts, that user can no longer log in with their password.
- `gen_name`'s retry loop is entered only when the first name is taken. Its condition `name not in names` is inverted, so it keeps the taken name.
- Token expiry is compared as a `YYYYmmddHHMMSS` integer. That comparison is exactly calendar order.

Inputs that stand in for the outside world:

- the decoded token (`Credential`);
- the current UTC time (`Moment`);
- the SHA-256 hex digest (a function returning 64 hex digits);
- the salt bytes;
- the random letter choices (`pick`);
- whether SQLite accepts `create_world`'s INSERT (`insertOk`);
- the characters of the settings file, before text mode translates its line endings;
- the pages of the aggregated instance list;
- the names of the blobs in the bucket.

Behaviour of the code worth knowing:

- There is no lifecycle state machine. Delete, restart, stop and load are stubs, and `create_world` records a world with status PENDING without provisioning anything.
- Creating a world and registering need an ADMIN token. A VISITOR token gets a null reply.
- `login` tells "Username not found" apart from "Password incorrect".
- `register` answers an expired token with "User is not an admin".
- User IDs come from SQLite's rowid, one past the largest; world IDs are always 1.

## Model

| member | source | states |
|---|---|---|
| Accounts.StatusOf | backend/main.py:32-37 | `ServerStatus(v)` exists exactly for v in 1..5 and the member found has value v |
| Accounts.RoleOf | backend/main.py:39-41 | `RoleID(v)` exists exactly for v = 1, 2 and the member found has value v |
| Accounts.EnumValuesRoundTrip | backend/main.py:32-41 | looking up a member's value gives back that member, for both enumerations |
| Accounts.Gate | backend/main.py:134-141 | the handler proceeds iff a token decodes, `exp >= now` and the role is ADMIN. A missing token gives a null reply. An undecodable token raises. An expired token gets the handler's expiry message, and a non-admin a null reply. |
| Accounts.CreateWorldStep | backend/main.py:128-176 | definition of `create_world` on the world table; see the CreateWorld* rows |
| Accounts.RegisterStep | backend/main.py:275-317 | definition of `register` on the user table; see the Register* rows |
| Accounts.LoginReply | backend/main.py:221-270 | definition of `login`'s reply; see the Login* rows |
| Accounts.Record | backend/main.py:296-298 | definition of the stored `hash.salt` record; see RecordSplit |
| Accounts.HashField | backend/main.py:242 | definition of `stored_password.split('.')[0]`; see RecordFields |
| Accounts.SaltField | backend/main.py:238 | definition of `stored_password.split(".")[1]`; see RecordFields |
| Accounts.FirstUserNamed | backend/main.py:233 | `fetchone()` finds a row iff some user has the name; the row found is in the table and has that name |
| Accounts.MaxId | backend/main.py:298 | `max(rowid)` of a non-empty table bounds every ID and is the ID of some row |
| Accounts.NextUserId | backend/main.py:298 | the rowid of an inserted row exceeds every ID in the table: 1 in an empty table, otherwise one past the largest |
| Accounts.NextIdOfValidTable | backend/main.py:298 | in a table whose IDs increase, the next rowid is one past the last row's ID |
| Accounts.RecordFields | backend/main.py:238-242 | `split('.')` has a second piece iff the record holds a '.'. The first piece is the text before the first '.', the second the text between the first and second '.'. |
| Accounts.RecordSplit | backend/main.py:296-298 | a stored `digest.salt` record yields the digest back as its hash field, and the salt only up to the salt's own first '.' |
| Accounts.CreateWorldGate | backend/main.py:134-141 | without a fresh admin token the world table is unchanged; the reply is null, a raise, or "Token expired", the last iff the token is expired |
| Accounts.CreateWorldNameTaken | backend/main.py:145-147 | a name already in the table is answered with the "World exists" message and nothing changes |
| Accounts.CreateWorldFirstRow | backend/main.py:154-159 | on an empty table an accepted insert adds exactly the row (1, name, ip, PENDING) and the reply echoes that row |
| Accounts.CreateWorldOccupiedTable | backend/main.py:150-153 | on a non-empty table a new name ends in the `None[0]` TypeError message and nothing is added |
| Accounts.CreateWorldOnlyFillsEmptyTable | backend/main.py:149-157 | the world table changes only from empty to a single row, so it never grows past one row |
| Accounts.RegisterGate | backend/main.py:279-286 | without a fresh admin token the user table is unchanged; the reply is null, a raise, or "User is not an admin", the last iff the token is expired |
| Accounts.RegisterNameTaken | backend/main.py:290-292 | an existing username gets "Username already exists" and the table is kept |
| Accounts.RegisterRoleOutOfRange | backend/main.py:298-317 | a new username with a role outside -2^63..2^63-1 makes the INSERT raise OverflowError; the reply is the "Exception occured" message and the table is kept |
| Accounts.RegisterAppends | backend/main.py:294-300 | a new username with a role in SQLite's 64-bit range appends exactly one row after the old ones. The row has the username, the record `digest(password + str(salt)) + "." + str(salt)`, and the requested role. Its ID is above every existing one; in a valid table it is one past the last row's, and 1 in an empty table. The reply is "User created". |
| Accounts.RegisterKeepsTableValid | backend/main.py:290-298 | register preserves positive, strictly increasing IDs and unique usernames |
| Accounts.AppendKeepsValid | backend/main.py:298 | appending a row with a new username and the next rowid keeps IDs positive and increasing and usernames unique |
| Accounts.LoginUnknownUser | backend/main.py:232-235 | an unknown username gets "Username not found" |
| Accounts.LoginMalformedRecord | backend/main.py:236-238 | a stored password without '.' makes `split('.')[1]` raise, answered with the "Password incorrect, Error: " message |
| Accounts.LoginSucceeds | backend/main.py:238-251 | a token is issued iff the user exists, the record has a '.', the digest of password plus salt field equals the hash field, and the hour can be added. Its claims are the username, the stored role, and the stamp of a moment exactly 3600 s later. |
| Accounts.LoginWrongPassword | backend/main.py:242-253 | a known user with a mismatching digest gets "Password incorrect", never "not found" |
| Accounts.RegisterThenLoginUsesSaltPrefix | backend/main.py:296-298 | after a register that creates the user (fresh admin token, new name, 64-bit role), login succeeds iff the digest of the attempt and the salt text cut at its first '.' equals the digest registered, and the hour can be added |
| Accounts.RegisterThenLogin | backend/main.py:238-247 | a user created by register (fresh admin token, new name, 64-bit role) with a salt free of byte 0x2E logs in with the same password and receives a token with the registered role and an expiry one hour ahead |
| Accounts.SaltTextCutAtDot | backend/main.py:238 | the salt text login hashes is the whole `str(salt)` iff no salt byte is 0x2E |
| Accounts.IssuedTokenGate | backend/main.py:139-141 | a token issued at `now` passes the gate at a later moment iff its role is ADMIN and the moment is not after now + 1 hour; an admin's token passes at `now` |
| Accounts.Database.constructor | backend/main.py:85-114 | the tables start as the seeded admin row and no worlds, a user table with positive increasing IDs and unique names |
| Accounts.Database.CreateWorld | backend/main.py:128-176 | the reply and the new world table are those of `CreateWorldStep`; the user table is untouched |
| Accounts.Database.Register | backend/main.py:275-317 | the reply and the new user table are those of `RegisterStep`; the world table is untouched; positive increasing IDs and unique names are kept |
| Accounts.Database.Login | backend/main.py:221-270 | the reply is `LoginReply` of the current user table, which login only reads |
| Clock.StampOrder | backend/main.py:139 | comparing `%Y%m%d%H%M%S` stamps as integers is comparing moments in calendar order, and equal stamps mean equal moments |
| Clock.Stamp | backend/main.py:139 | definition of `int(t.strftime("%Y%m%d%H%M%S"))`; see StampOrder |
| Clock.AddHour | backend/main.py:243 | adding the hour keeps the minute and second |
| Clock.AddHourExact | backend/main.py:243 | the moment produced is exactly 3600 seconds later on the calendar's second count |
| Clock.AddHourOverflow | backend/main.py:243 | adding the hour overflows exactly at 9999-12-31 23:xx:xx |
| Clock.AddHourLater | backend/main.py:243-244 | the expiry is strictly later than now, in calendar order and as a stamp |
| PyBytes.Repr | backend/main.py:296 | `str(salt)` begins with `b` and a quote, and ends with the same quote |
| PyBytes.ReprDot | backend/main.py:296-298 | the salt text contains '.' iff some salt byte is 0x2E |
| Text.Split | pipeline/pipeline.py:16 | `split` yields at least one piece, and the first is the text before the first separator |
| Text.SplitCount | pipeline/pipeline.py:16 | a split has one more piece than the text has separators |
| Text.JoinSplit | pipeline/pipeline.py:16 | joining the pieces of a split with the separator restores the text |
| Text.SplitJoin | pipeline/pipeline.py:16 | splitting a join of separator-free pieces gives back the pieces |
| Text.SplitConcat | pipeline/pipeline.py:16 | splitting `a + sep + b` gives the pieces of `a` followed by the pieces of `b` |
| Text.SplitPartsFree | pipeline/pipeline.py:16 | no piece of a split contains the separator |
| Text.ContainsAt | backend/pipeline/pipeline.py:153 | `t in s` holds iff `t` occurs in `s` at some offset |
| Settings.Items | pipeline/pipeline.py:16 | one item per line. An item is a pair exactly when its line holds exactly one '=', and the line is then `key=value`. |
| Settings.Entry | pipeline/pipeline.py:16 | definition of one line's `split("=")` as `dict` reads it; see EntryShape |
| Settings.Dict | pipeline/pipeline.py:16 | definition of `dict(...)` over the items; see DictSucceeds, LastItemWins, DictKeys |
| Settings.Parse | pipeline/pipeline.py:13-16 | definition of the parse of the file's text; see ParseSucceeds, LastLineWins, AppendLine |
| Settings.ReadText | pipeline/pipeline.py:14-15 | `f.read()` in mode 'r' never returns a '\r', and leaves a text without '\r' as it is |
| Settings.GetSettings | pipeline/pipeline.py:13-16 | definition of `get_settings` on the file's characters; see GetSettingsLineEndings |
| Settings.ReadTextCrLf | pipeline/pipeline.py:14-15 | a "\r\n" line ending reads as '\n' |
| Settings.ReadTextLoneCr | pipeline/pipeline.py:14-15 | a '\r' not followed by '\n' reads as '\n' |
| Settings.ReadTextPrefix | pipeline/pipeline.py:14-15 | a prefix without '\r' is read unchanged |
| Settings.GetSettingsLineEndings | pipeline/pipeline.py:13-16 | a file without '\r' parses as it stands, and a "\r\n" line ending parses like '\n' |
| Settings.EntryShape | pipeline/pipeline.py:16 | a line is a usable pair iff it holds exactly one '='. Then key and value are '='-free and `line == key + "=" + value`. |
| Settings.DictSucceeds | pipeline/pipeline.py:16 | `dict(...)` succeeds iff every item is a pair |
| Settings.ParseSucceeds | pipeline/pipeline.py:13-16 | the settings parse iff every line holds exactly one '=' |
| Settings.EmptyLineFails | pipeline/pipeline.py:16 | a file with an empty line fails with ValueError |
| Settings.TrailingNewlineFails | pipeline/pipeline.py:16 | the empty file and any file ending in '\n' fail |
| Settings.LastItemWins | pipeline/pipeline.py:16 | for a repeated key `dict` keeps the value of its last item |
| Settings.DictKeys | pipeline/pipeline.py:16 | the keys of the dict are exactly the keys of the items |
| Settings.ParseKeys | pipeline/pipeline.py:13-16 | the keys of a parsed file are exactly the keys of its `key=value` lines |
| Settings.LastLineWins | pipeline/pipeline.py:13-16 | a key's setting is the value on the last line with that key |
| Settings.PairLine | pipeline/pipeline.py:16 | the line `k=v` of '='- and newline-free k and v reads back as the pair (k, v) |
| Settings.SingleLine | pipeline/pipeline.py:13-16 | a one-line file `k=v` parses to exactly {k: v}, untrimmed |
| Settings.AppendLine | pipeline/pipeline.py:13-16 | appending the line `k=v` to a parsable file adds or overrides k with v and keeps the rest |
| Compute.Put | pipeline/pipeline.py:29 | after `d[zone] = v` the zone maps to v and other zones are unaffected. An existing zone keeps its place and every other entry stays as it was. A new zone is appended at the end. Keys stay distinct. |
| Compute.Lookup | backend/pipeline/pipeline.py:57 | definition of `instances[zone]`; see LookupKey and Put |
| Compute.LookupKey | backend/pipeline/pipeline.py:56-57 | a zone can be looked up iff some entry carries it |
| Compute.ListAllInstances | backend/pipeline/pipeline.py:42-52 | the loop builds exactly the dict `NonEmptyZones` of the aggregated list |
| Compute.NonEmptyZones | pipeline/pipeline.py:26-30 | definition of the dict the loop builds; see ListAllInstances and the NonEmptyZones* rows |
| Compute.NonEmptyZonesKeys | pipeline/pipeline.py:26-30 | the keys are distinct, and are exactly the zones listed with at least one instance; every value is non-empty |
| Compute.NonEmptyZonesLastOccurrence | pipeline/pipeline.py:27-29 | a zone maps to the instances of its last non-empty response: later responses for it overwrite it or are skipped |
| Compute.NonEmptyZonesOwnInstances | pipeline/pipeline.py:27-29 | when each zone is listed once, a non-empty zone maps to its own instances |
| Compute.ZoneEndpoints | backend/pipeline/pipeline.py:57-58 | one (name, first NAT IP) pair per instance, in order |
| Compute.Flatten | backend/pipeline/pipeline.py:55-58 | definition of the nested loop's pairs; see FlattenLength and FlattenNonEmptyZones |
| Compute.RunningInfo | backend/pipeline/pipeline.py:54-59 | definition of `get_running_info`'s result; see GetRunningInfo and RunningInfoLength |
| Compute.GetRunningInfo | backend/pipeline/pipeline.py:54-59 | the result is `RunningInfo`. There is no result without a `project_id` setting (KeyError), or when a listed instance has no network interface or its first interface has no access config (IndexError). Otherwise the result is the flattened pairs; an access config without an address gives its empty `nat_i_p` and no failure. |
| Compute.FlattenLength | backend/pipeline/pipeline.py:55-58 | the flattened list has one entry per instance |
| Compute.RunningInfoLength | backend/pipeline/pipeline.py:54-59 | the running info holds one pair per instance of the dict |
| Compute.FlattenNonEmptyZones | backend/pipeline/pipeline.py:48-58 | with each zone listed once and every instance reachable, dropping the empty zones into the dict keeps every instance reachable and yields the same pairs |
| Compute.RunningInfoInListOrder | backend/pipeline/pipeline.py:42-59 | with each zone listed once and every instance reachable, the pairs are those of the aggregated list in its order, one per instance |
| Compute.Candidate | backend/pipeline/pipeline.py:66-67 | a drawn name is 16 characters, each in a..z |
| Compute.Names | backend/pipeline/pipeline.py:68-70 | the names list has the first component of each running pair, in order; a name is in it iff some running pair carries it |
| Compute.Redraw | backend/pipeline/pipeline.py:71-73 | a taken starting name is kept. A free one is redrawn until a draw collides: the name returned is then the first colliding draw. A free name comes back only when every draw was free, as the last draw (or the start when there are none). |
| Compute.GenName | backend/pipeline/pipeline.py:65-74 | gen_name returns a name iff its `get_running_info` call does not raise (a `project_id` setting and every listed instance with an interface and access config). The name is then the first drawn, 16 letters a..z, even when a running instance already has it. |
| Compute.ResourcePathSegments | pipeline/pipeline.py:72-86 | the disk- and machine-type paths split at '/' into exactly `zones`, zone, kind, type |
| Compute.DiskTypePath | pipeline/pipeline.py:72 | definition of the boot disk's `zones/<zone>/diskTypes/<type>`; see ResourcePathSegments |
| Compute.MachineTypePath | pipeline/pipeline.py:86 | definition of `zones/<zone>/machineTypes/<type>`; see ResourcePathSegments |
| Compute.ResourcePathsInjective | pipeline/pipeline.py:72-86 | zone and type can be read back from either path, and a disk-type path never equals a machine-type path |
| Storage.ListWorldsAppend | backend/pipeline/pipeline.py:153 | the listing keeps blob order: listing a concatenation concatenates the listings |
| Storage.ListWorldsSingle | backend/pipeline/pipeline.py:153 | a blob yields its name minus 7 characters iff the name contains "worlds" and is longer than 7, and nothing otherwise |
| Storage.ListWorldsMembers | backend/pipeline/pipeline.py:153 | a world is listed iff it is some qualifying blob's name with the first 7 characters dropped |
| Storage.ListWorldsLength | backend/pipeline/pipeline.py:153 | the listing is never longer than the blob list, and equally long iff every blob qualifies |
| Storage.ListWorldsFolder | backend/pipeline/pipeline.py:153 | the blob `worlds/<w>` is listed as `<w>` for non-empty w |
| Storage.ListWorlds | backend/pipeline/pipeline.py:150-153 | definition of `list_worlds` over the blob names; see the ListWorlds* rows |

## Left out

- JWT: signing, signature checks and jose's own claim validation are not modelled. A decoded token is the input `Credential`, and the `SECRET` environment variable is not modelled.
- SHA-256 is not implemented. It is an input function, assumed to return 64 lower-case hex digits.
- `os.urandom`, `random.choice` and `datetime.utcnow` are inputs: the salt bytes, the `pick` index function and the `Moment`. Microseconds are dropped because `strftime` discards them.
- SQLite is modelled as two sequences of rows. The connection, cursors, transactions and `commit` are not modelled.
- The startup DDL is represented by the constructor's initial tables and by `insertOk`. The role table is not modelled, since no handler reads it.
- The world table that startup creates lacks the IPAddress and ServerStatus columns that `create_world` inserts into. The model leaves that outcome to `insertOk` rather than modelling SQL.
- The stack-trace printing in the exception handlers is output only and is not modelled.
- Compute.Redraw: the Python loop has no bound. The model stops after `fuel` redraws. `gen_name` enters the loop only with a taken name, which ends it at once, so the bound is never reached from `GenName`.
- Compute.GetRunningInfo: `for zone in list(instances.keys())` followed by `instances[zone]` is modelled as a walk over the dict's entries. The two are the same because the keys are distinct (`Compute.NonEmptyZonesKeys`).
- The Compute Engine and Cloud Storage calls are not modelled: aggregated listing, template lookup, instance insert, get and delete, `wait_for_extended_operation`, and bucket upload, download, listing and delete. Their results are inputs, or the calls are left out.
- In `create_instance`, only the path strings are modelled. The rest of the instance request built from the template is left out.
- `list_files`, `put_file`, `get_file`, `delete_file` and `delete_instance` are single SDK calls and are not modelled.
- Opening the settings file and decoding its bytes are not modelled. `Settings.GetSettings` takes the file's characters and models only the newline translation of mode 'r'.
- Accounts.NextUserId: when the largest ID is already 2^63-1, SQLite picks an unused rowid at random, or fails with SQLITE_FULL. The model still gives max + 1, so it does not capture that case.
- The stub endpoints (`delete_world`, `restart_world`, `stop_world`, `load_world`, `/`) only echo their argument and are not modelled.
- Request validation by FastAPI/pydantic is not modelled.
- Concurrency is not modelled. Each handler is modelled as one atomic step on the tables.
