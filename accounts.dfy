/**
 * The account and world tables behind the backend's endpoints
 * (`create_world`, `login`, `register`): the token gate the privileged
 * endpoints share, the `hash.salt` password record, and the rows the
 * handlers insert.  JWT signing and checking, SHA-256 and the random salt
 * are inputs: a decoded token arrives as a `Credential`, the digest as a
 * function, the salt as its bytes.
 */
module Accounts {
  import opened Wrappers
  import opened Text
  import opened PyBytes
  import opened Clock

  // ---------------------------------------------------------------------
  // Enumerations

  datatype ServerStatus = Off | Pending | On | PendingDown | Error
  {
    function Value(): int
    {
      match this
      case Off => 1
      case Pending => 2
      case On => 3
      case PendingDown => 4
      case Error => 5
    }
  }

  /** `ServerStatus(v)`: the member with value `v`, if any. */
  function StatusOf(v: int): (s: Option<ServerStatus>)
    ensures s.Some? <==> 1 <= v <= 5
    ensures s.Some? ==> s.value.Value() == v
  {
    if v == 1 then Some(Off)
    else if v == 2 then Some(Pending)
    else if v == 3 then Some(On)
    else if v == 4 then Some(PendingDown)
    else if v == 5 then Some(Error)
    else None
  }

  datatype RoleID = Admin | Visitor
  {
    function Value(): int
    {
      match this
      case Admin => 1
      case Visitor => 2
    }
  }

  /** `RoleID(v)`: the member with value `v`, if any. */
  function RoleOf(v: int): (r: Option<RoleID>)
    ensures r.Some? <==> v == 1 || v == 2
    ensures r.Some? ==> r.value.Value() == v
  {
    if v == 1 then Some(Admin) else if v == 2 then Some(Visitor) else None
  }

  /** Each enumeration value names exactly one member. */
  lemma EnumValuesRoundTrip(s: ServerStatus, r: RoleID)
    ensures StatusOf(s.Value()) == Some(s)
    ensures RoleOf(r.Value()) == Some(r)
  {
  }

  // ---------------------------------------------------------------------
  // Tokens, replies and rows

  /** The claims a token carries: `{'username', 'roleId', 'exp'}`. */
  datatype Claims = Claims(username: string, roleId: int, exp: int)

  /**
   * The `token` field of a request after `jwt.decode`: absent (None),
   * refused by the decoder (bad signature, malformed, or a claim missing),
   * or decoded into its claims.
   */
  datatype Credential = NoToken | Undecodable | Bearer(claims: Claims)

  /** The exceptions whose `repr` ends up in an error message. */
  datatype Fault =
    | NoneNotSubscriptable   // TypeError: indexing the None of a spent cursor
    | IndexOutOfRange        // IndexError: a password record without '.'
    | InsertRejected         // sqlite3 error from an INSERT the table refuses
    | DateOverflow           // OverflowError: the expiry would pass year 9999
    | IntegerOverflow        // OverflowError: an int SQLite cannot store as a 64-bit INTEGER

  /** What a handler hands back to the web layer. */
  datatype Response =
    | Nothing                                   // the handler falls off its end (JSON null)
    | Message(text: string)                     // {"message": text}
    | Failure(prefix: string, fault: Fault)     // {"message": prefix + repr(fault)}
    | WorldCreated(id: int, name: string, ipAddress: string, serverStatus: int)
    | TokenIssued(claims: Claims)               // {"token": jwt.encode(claims)}
    | Raised                                    // an exception escapes the handler

  datatype UserRow = UserRow(id: int, username: string, password: string, roleId: int)

  datatype WorldRow = WorldRow(id: int, worldName: string, ipAddress: string, serverStatus: int)

  const TokenExpired := "Token expired"
  const NotAdmin := "User is not an admin"
  const WorldExists := "World exists with this name, please choose another name"
  const ExceptionPrefix := "Exception occured, Error: "
  const UsernameNotFound := "Username not found"
  const PasswordIncorrect := "Password incorrect"
  const PasswordIncorrectPrefix := "Password incorrect, Error: "
  const UsernameTaken := "Username already exists"
  const UserCreated := "User created"

  /** Token lifetime: `timedelta(seconds=3600)`. */
  const TokenLifetime := 3600

  /** The range of an SQLite INTEGER, a signed 64-bit integer. */
  const MinInteger := -0x8000_0000_0000_0000
  const MaxInteger := 0x7FFF_FFFF_FFFF_FFFF

  /** Whether `sqlite3` can bind the Python int `v` as a parameter. */
  predicate IsSqliteInteger(v: int)
  {
    MinInteger <= v <= MaxInteger
  }

  // ---------------------------------------------------------------------
  // Passwords

  predicate IsHexDigest(h: string)
  {
    |h| == 64 && forall k :: 0 <= k < |h| ==> h[k] in HexDigits
  }

  /** `sha256(text.encode()).hexdigest()`: 64 lower-case hex digits, never a '.'. */
  type Sha256Hex = f: string -> string | forall s :: IsHexDigest(f(s))
    witness (s: string) => seq(64, _ => '0')

  /** The stored password: `digest(password + salt) + "." + salt`. */
  function Record(digest: string -> string, password: string, salt: string): string
  {
    digest(password + salt) + "." + salt
  }

  /** `stored.split('.')[0]`: the hash part of a record. */
  function HashField(stored: string): string
  {
    Split(stored, '.')[0]
  }

  /** `stored.split('.')[1]`: the salt part of a record that has a '.'. */
  function SaltField(stored: string): string
    requires '.' in stored
  {
    Split(stored, '.')[1]
  }

  /** The fields are the text before the first '.' and between the first and second '.'. */
  lemma RecordFields(stored: string)
    ensures |Split(stored, '.')| >= 2 <==> '.' in stored
    ensures HashField(stored) == Before(stored, '.')
    ensures '.' in stored ==> SaltField(stored) == Before(After(stored, '.'), '.')
  {
    if '.' in stored {
      SplitSecond(stored, '.');
    }
  }

  /** A record splits back into its digest and the salt up to the salt's first '.'. */
  lemma {:induction false} RecordSplit(digest: Sha256Hex, password: string, salt: string)
    ensures '.' in Record(digest, password, salt)
    ensures HashField(Record(digest, password, salt)) == digest(password + salt)
    ensures SaltField(Record(digest, password, salt)) == Before(salt, '.')
  {
    var h := digest(password + salt);
    assert IsHexDigest(h);
    BeforeFront(h, salt, '.');
    assert Record(digest, password, salt) == h + ['.'] + salt;
    RecordFields(Record(digest, password, salt));
  }

  // ---------------------------------------------------------------------
  // The gate shared by the privileged endpoints

  datatype Verdict = Proceed | Deny(response: Response)

  /**
   * `if request.token != None`, `jwt.decode`, the expiry comparison
   * `exp < now` and the role check `role_id == RoleID.ADMIN.value`.
   */
  function Gate(cred: Credential, now: int, expired: string): (v: Verdict)
    ensures v.Proceed? <==> cred.Bearer? && cred.claims.exp >= now && cred.claims.roleId == RoleID.Admin.Value()
    ensures cred.NoToken? ==> v == Deny(Nothing)
    ensures cred.Undecodable? ==> v == Deny(Raised)
    ensures cred.Bearer? && cred.claims.exp < now ==> v == Deny(Message(expired))
    ensures cred.Bearer? && cred.claims.exp >= now && cred.claims.roleId != 1 ==> v == Deny(Nothing)
  {
    match cred
    case NoToken => Deny(Nothing)
    case Undecodable => Deny(Raised)
    case Bearer(claims) =>
      if claims.exp < now then Deny(Message(expired))
      else if claims.roleId == RoleID.Admin.Value() then Proceed
      else Deny(Nothing)
  }

  // ---------------------------------------------------------------------
  // Queries

  predicate HasWorldNamed(worlds: seq<WorldRow>, name: string)
  {
    exists k :: 0 <= k < |worlds| && worlds[k].worldName == name
  }

  predicate HasUserNamed(users: seq<UserRow>, name: string)
  {
    exists k :: 0 <= k < |users| && users[k].username == name
  }

  /** `fetchone()` of `SELECT ... FROM UserTable WHERE Username = ?`: the first matching row. */
  function FirstUserNamed(users: seq<UserRow>, name: string): (r: Option<UserRow>)
    ensures r.Some? <==> HasUserNamed(users, name)
    ensures r.Some? ==> r.value in users && r.value.username == name
  {
    if users == [] then None
    else if users[0].username == name then Some(users[0])
    else FirstUserNamed(users[1..], name)
  }

  /** The largest ID of a non-empty table: `max(rowid)`. */
  function MaxId(users: seq<UserRow>): (m: int)
    requires users != []
    ensures forall k :: 0 <= k < |users| ==> users[k].id <= m
    ensures exists k :: 0 <= k < |users| && users[k].id == m
  {
    if |users| == 1 then users[0].id
    else
      var rest := MaxId(users[1..]);
      if users[0].id > rest then users[0].id
      else
        var k :| 0 <= k < |users[1..]| && users[1..][k].id == rest;
        assert users[k + 1].id == rest;
        rest
  }

  /**
   * The ID SQLite gives an `INTEGER PRIMARY KEY` row inserted without
   * one: 1 in an empty table, otherwise one past the largest ID.
   */
  function NextUserId(users: seq<UserRow>): (id: int)
    ensures forall k :: 0 <= k < |users| ==> users[k].id < id
    ensures users == [] ==> id == 1
    ensures users != [] ==> exists k :: 0 <= k < |users| && users[k].id == id - 1
  {
    if users == [] then 1 else MaxId(users) + 1
  }

  /** The table's standing facts: positive IDs in increasing order, no username twice. */
  predicate UsersValid(users: seq<UserRow>)
  {
    && (forall k :: 0 <= k < |users| ==> users[k].id > 0)
    && (forall j, k :: 0 <= j < k < |users| ==> users[j].id < users[k].id)
    && (forall j, k :: 0 <= j < k < |users| ==> users[j].username != users[k].username)
  }

  /** The row the startup code seeds: admin, salt "1234", role 1. */
  const SeedAdmin := UserRow(1, "admin", "ac9689e2272427085e35b9d3e3e8bed88cb3434828b43b86fc0596cad4c6e270.1234", 1)

  // ---------------------------------------------------------------------
  // The endpoints as functions of the tables

  /** `create_world`: the reply and the new WorldTable. */
  function CreateWorldStep(worlds: seq<WorldRow>, cred: Credential, now: int,
                           worldName: string, ipAddress: string, insertOk: bool): (Response, seq<WorldRow>)
  {
    match Gate(cred, now, TokenExpired)
    case Deny(response) => (response, worlds)
    case Proceed =>
      if HasWorldNamed(worlds, worldName) then (Message(WorldExists), worlds)
      else if worlds != [] then (Failure(ExceptionPrefix, NoneNotSubscriptable), worlds)
      else if !insertOk then (Failure(ExceptionPrefix, InsertRejected), worlds)
      else
        var status := ServerStatus.Pending.Value();
        (WorldCreated(1, worldName, ipAddress, status), [WorldRow(1, worldName, ipAddress, status)])
  }

  /** `register`: the reply and the new UserTable. */
  function RegisterStep(users: seq<UserRow>, cred: Credential, now: int, username: string,
                        password: string, roleId: int, salt: seq<byte>, digest: string -> string): (Response, seq<UserRow>)
  {
    match Gate(cred, now, NotAdmin)
    case Deny(response) => (response, users)
    case Proceed =>
      if HasUserNamed(users, username) then (Message(UsernameTaken), users)
      else if !IsSqliteInteger(roleId) then (Failure(ExceptionPrefix, IntegerOverflow), users)
      else (Message(UserCreated), users + [UserRow(NextUserId(users), username, Record(digest, password, Repr(salt)), roleId)])
  }

  /** `login`: the reply, given the UserTable. */
  function LoginReply(users: seq<UserRow>, username: string, password: string, now: Moment,
                      digest: string -> string): Response
  {
    match FirstUserNamed(users, username)
    case None => Message(UsernameNotFound)
    case Some(row) =>
      if '.' !in row.password then Failure(PasswordIncorrectPrefix, IndexOutOfRange)
      else if digest(password + SaltField(row.password)) != HashField(row.password) then Message(PasswordIncorrect)
      else match AddHour(now)
        case None => Failure(PasswordIncorrectPrefix, DateOverflow)
        case Some(expiry) => TokenIssued(Claims(username, row.roleId, Stamp(expiry)))
  }

  // ---------------------------------------------------------------------
  // What the endpoints promise

  /** Without a fresh admin token create_world replies with the gate's answer and keeps the table. */
  lemma CreateWorldGate(worlds: seq<WorldRow>, cred: Credential, now: int, worldName: string,
                        ipAddress: string, insertOk: bool)
    requires !(cred.Bearer? && cred.claims.exp >= now && cred.claims.roleId == RoleID.Admin.Value())
    ensures var (resp, after) := CreateWorldStep(worlds, cred, now, worldName, ipAddress, insertOk);
      && after == worlds
      && resp in {Nothing, Raised, Message(TokenExpired)}
      && (resp == Message(TokenExpired) <==> cred.Bearer? && cred.claims.exp < now)
  {
  }

  /** A name already in the table is refused and the table kept. */
  lemma CreateWorldNameTaken(worlds: seq<WorldRow>, cred: Credential, now: int, worldName: string,
                             ipAddress: string, insertOk: bool)
    requires Gate(cred, now, TokenExpired).Proceed?
    requires HasWorldNamed(worlds, worldName)
    ensures CreateWorldStep(worlds, cred, now, worldName, ipAddress, insertOk) == (Message(WorldExists), worlds)
  {
  }

  /** On an empty table an accepted insert adds exactly the row (1, name, ip, PENDING) and echoes it. */
  lemma CreateWorldFirstRow(cred: Credential, now: int, worldName: string, ipAddress: string)
    requires Gate(cred, now, TokenExpired).Proceed?
    ensures var (resp, after) := CreateWorldStep([], cred, now, worldName, ipAddress, true);
      && after == [WorldRow(1, worldName, ipAddress, ServerStatus.Pending.Value())]
      && resp == WorldCreated(after[0].id, after[0].worldName, after[0].ipAddress, after[0].serverStatus)
      && StatusOf(resp.serverStatus) == Some(Pending)
  {
  }

  /** On a non-empty table a new name hits the second fetchone() and nothing is added. */
  lemma CreateWorldOccupiedTable(worlds: seq<WorldRow>, cred: Credential, now: int, worldName: string,
                                 ipAddress: string, insertOk: bool)
    requires Gate(cred, now, TokenExpired).Proceed?
    requires worlds != [] && !HasWorldNamed(worlds, worldName)
    ensures CreateWorldStep(worlds, cred, now, worldName, ipAddress, insertOk)
            == (Failure(ExceptionPrefix, NoneNotSubscriptable), worlds)
  {
  }

  /** create_world only ever changes an empty table, so it never holds more than one row of its making. */
  lemma CreateWorldOnlyFillsEmptyTable(worlds: seq<WorldRow>, cred: Credential, now: int, worldName: string,
                                       ipAddress: string, insertOk: bool)
    ensures var after := CreateWorldStep(worlds, cred, now, worldName, ipAddress, insertOk).1;
      && (after != worlds ==> worlds == [] && |after| == 1)
      && (|worlds| <= 1 ==> |after| <= 1)
  {
  }

  /** Without a fresh admin token register replies with the gate's answer and keeps the table. */
  lemma RegisterGate(users: seq<UserRow>, cred: Credential, now: int, username: string, password: string,
                     roleId: int, salt: seq<byte>, digest: string -> string)
    requires !(cred.Bearer? && cred.claims.exp >= now && cred.claims.roleId == RoleID.Admin.Value())
    ensures var (resp, after) := RegisterStep(users, cred, now, username, password, roleId, salt, digest);
      && after == users
      && resp in {Nothing, Raised, Message(NotAdmin)}
      && (resp == Message(NotAdmin) <==> cred.Bearer? && cred.claims.exp < now)
  {
  }

  /** A username already present is refused and the table kept. */
  lemma RegisterNameTaken(users: seq<UserRow>, cred: Credential, now: int, username: string, password: string,
                          roleId: int, salt: seq<byte>, digest: string -> string)
    requires Gate(cred, now, NotAdmin).Proceed?
    requires HasUserNamed(users, username)
    ensures RegisterStep(users, cred, now, username, password, roleId, salt, digest) == (Message(UsernameTaken), users)
  {
  }

  /** A new username with a role SQLite cannot store is refused with OverflowError and the table kept. */
  lemma RegisterRoleOutOfRange(users: seq<UserRow>, cred: Credential, now: int, username: string, password: string,
                               roleId: int, salt: seq<byte>, digest: string -> string)
    requires Gate(cred, now, NotAdmin).Proceed?
    requires !HasUserNamed(users, username)
    requires roleId < MinInteger || MaxInteger < roleId
    ensures RegisterStep(users, cred, now, username, password, roleId, salt, digest)
            == (Failure(ExceptionPrefix, IntegerOverflow), users)
  {
  }

  /**
   * A new username with a 64-bit role adds exactly one row at the end, with
   * the `hash.salt` record of `str(salt)` and the requested role.  Its ID
   * exceeds every ID in the table; in a valid table it is one past the
   * last row's, and 1 in an empty one.
   */
  lemma RegisterAppends(users: seq<UserRow>, cred: Credential, now: int, username: string, password: string,
                        roleId: int, salt: seq<byte>, digest: string -> string)
    requires Gate(cred, now, NotAdmin).Proceed?
    requires !HasUserNamed(users, username)
    requires MinInteger <= roleId <= MaxInteger
    ensures var (resp, after) := RegisterStep(users, cred, now, username, password, roleId, salt, digest);
      && resp == Message(UserCreated)
      && |after| == |users| + 1
      && after[..|users|] == users
      && after[|users|].username == username
      && after[|users|].password == digest(password + Repr(salt)) + "." + Repr(salt)
      && after[|users|].roleId == roleId
      && (forall k :: 0 <= k < |users| ==> after[|users|].id > after[k].id)
      && (UsersValid(users) ==> after[|users|].id == if users == [] then 1 else users[|users| - 1].id + 1)
  {
    var after := RegisterStep(users, cred, now, username, password, roleId, salt, digest).1;
    assert after == users + [after[|users|]];
    if UsersValid(users) && users != [] {
      NextIdOfValidTable(users);
    }
  }

  /** In a table whose IDs increase the next ID is one past the last row's. */
  lemma NextIdOfValidTable(users: seq<UserRow>)
    requires UsersValid(users) && users != []
    ensures NextUserId(users) == users[|users| - 1].id + 1
  {
    var k :| 0 <= k < |users| && users[k].id == NextUserId(users) - 1;
    assert k == |users| - 1 || users[k].id < users[|users| - 1].id;
  }

  /** register keeps IDs increasing and usernames unique. */
  lemma RegisterKeepsTableValid(users: seq<UserRow>, cred: Credential, now: int, username: string, password: string,
                                roleId: int, salt: seq<byte>, digest: string -> string)
    requires UsersValid(users)
    ensures UsersValid(RegisterStep(users, cred, now, username, password, roleId, salt, digest).1)
  {
    var after := RegisterStep(users, cred, now, username, password, roleId, salt, digest).1;
    if after != users {
      var row := after[|users|];
      assert after == users + [row];
      AppendKeepsValid(users, row);
    }
  }

  /** A row with a new name and an ID above all others keeps the table valid. */
  lemma AppendKeepsValid(users: seq<UserRow>, row: UserRow)
    requires UsersValid(users) && !HasUserNamed(users, row.username)
    requires row.id == NextUserId(users)
    ensures UsersValid(users + [row])
  {
    var after := users + [row];
    forall j, k | 0 <= j < k < |after|
      ensures after[j].id < after[k].id && after[j].username != after[k].username
    {
      if k == |users| {
        assert after[j] == users[j];
      }
    }
  }

  /** An unknown username gets "Username not found". */
  lemma LoginUnknownUser(users: seq<UserRow>, username: string, password: string, now: Moment,
                         digest: string -> string)
    requires !HasUserNamed(users, username)
    ensures LoginReply(users, username, password, now, digest) == Message(UsernameNotFound)
  {
  }

  /** A stored password without '.' makes `split('.')[1]` raise, reported as an error message. */
  lemma LoginMalformedRecord(users: seq<UserRow>, username: string, password: string, now: Moment,
                             digest: string -> string)
    requires HasUserNamed(users, username)
    requires '.' !in FirstUserNamed(users, username).value.password
    ensures LoginReply(users, username, password, now, digest) == Failure(PasswordIncorrectPrefix, IndexOutOfRange)
  {
  }

  /**
   * Login succeeds exactly when the digest of the password followed by the
   * text between the first and second '.' equals the text before the first
   * '.' (and the expiry does not overflow); the token then carries the
   * username, the stored role and the stamp one hour after now.
   */
  lemma LoginSucceeds(users: seq<UserRow>, username: string, password: string, now: Moment,
                      digest: string -> string)
    ensures LoginReply(users, username, password, now, digest).TokenIssued?
            <==> && HasUserNamed(users, username)
                 && var stored := FirstUserNamed(users, username).value.password;
                 && '.' in stored
                 && digest(password + Before(After(stored, '.'), '.')) == Before(stored, '.')
                 && AddHour(now).Some?
    ensures LoginReply(users, username, password, now, digest).TokenIssued? ==>
            && LoginReply(users, username, password, now, digest).claims
               == Claims(username, FirstUserNamed(users, username).value.roleId, Stamp(AddHour(now).value))
            && Seconds(AddHour(now).value) == Seconds(now) + TokenLifetime
  {
    if HasUserNamed(users, username) {
      RecordFields(FirstUserNamed(users, username).value.password);
    }
    AddHourExact(now);
  }

  /** With a matching record and a wrong password the reply is "Password incorrect", never "not found". */
  lemma LoginWrongPassword(users: seq<UserRow>, username: string, password: string, now: Moment,
                           digest: string -> string)
    requires HasUserNamed(users, username)
    requires var stored := FirstUserNamed(users, username).value.password;
      '.' in stored && digest(password + Before(After(stored, '.'), '.')) != Before(stored, '.')
    ensures LoginReply(users, username, password, now, digest) == Message(PasswordIncorrect)
  {
    RecordFields(FirstUserNamed(users, username).value.password);
  }

  /**
   * After register, login hashes the password with the salt text only up
   * to the salt's first '.': it succeeds exactly when that digest equals
   * the digest of the registered password and the full salt text.
   */
  lemma {:induction false} RegisterThenLoginUsesSaltPrefix(users: seq<UserRow>, cred: Credential, t0: int,
                                                          username: string, password: string, roleId: int,
                                                          salt: seq<byte>, digest: Sha256Hex, attempt: string,
                                                          now: Moment)
    requires Gate(cred, t0, NotAdmin).Proceed? && !HasUserNamed(users, username)
    requires MinInteger <= roleId <= MaxInteger
    ensures var after := RegisterStep(users, cred, t0, username, password, roleId, salt, digest).1;
      LoginReply(after, username, attempt, now, digest).TokenIssued?
      <==> digest(attempt + Before(Repr(salt), '.')) == digest(password + Repr(salt)) && AddHour(now).Some?
  {
    var after := RegisterStep(users, cred, t0, username, password, roleId, salt, digest).1;
    var row := UserRow(NextUserId(users), username, Record(digest, password, Repr(salt)), roleId);
    assert after == users + [row];
    FirstUserAppended(users, row, username);
    RecordSplit(digest, password, Repr(salt));
  }

  /**
   * The round trip: a user registered with a salt holding no 0x2E byte
   * logs in with the same password and receives a token with the role
   * registered.
   */
  lemma RegisterThenLogin(users: seq<UserRow>, cred: Credential, t0: int, username: string, password: string,
                          roleId: int, salt: seq<byte>, digest: Sha256Hex, now: Moment)
    requires Gate(cred, t0, NotAdmin).Proceed? && !HasUserNamed(users, username)
    requires MinInteger <= roleId <= MaxInteger
    requires Dot !in salt
    requires AddHour(now).Some?
    ensures var after := RegisterStep(users, cred, t0, username, password, roleId, salt, digest).1;
      LoginReply(after, username, password, now, digest) == TokenIssued(Claims(username, roleId, Stamp(AddHour(now).value)))
  {
    var after := RegisterStep(users, cred, t0, username, password, roleId, salt, digest).1;
    var row := UserRow(NextUserId(users), username, Record(digest, password, Repr(salt)), roleId);
    assert after == users + [row];
    FirstUserAppended(users, row, username);
    ReprDot(salt);
    RecordSplit(digest, password, Repr(salt));
  }

  /** When the salt has a 0x2E byte, login hashes a strict prefix of the salt text. */
  lemma SaltTextCutAtDot(salt: seq<byte>)
    ensures Before(Repr(salt), '.') == Repr(salt) <==> Dot !in salt
  {
    ReprDot(salt);
    if '.' in Repr(salt) {
      assert |Before(Repr(salt), '.')| < |Repr(salt)|;
    }
  }

  lemma {:induction false} FirstUserAppended(users: seq<UserRow>, row: UserRow, name: string)
    requires !HasUserNamed(users, name) && row.username == name
    ensures FirstUserNamed(users + [row], name) == Some(row)
  {
    if users != [] {
      assert (users + [row])[1..] == users[1..] + [row];
      assert !HasUserNamed(users[1..], name);
      FirstUserAppended(users[1..], row, name);
    }
  }

  /**
   * A token issued at `now` passes the gate at a later `moment` exactly
   * when the role is admin and `moment` is no later than one hour after
   * `now`; in particular it passes at `now` itself.
   */
  lemma IssuedTokenGate(users: seq<UserRow>, username: string, password: string, now: Moment,
                        digest: string -> string, moment: Moment, expired: string)
    requires LoginReply(users, username, password, now, digest).TokenIssued?
    ensures var claims := LoginReply(users, username, password, now, digest).claims;
      && AddHour(now).Some?
      && (Gate(Bearer(claims), Stamp(moment), expired).Proceed?
          <==> claims.roleId == RoleID.Admin.Value() && !Earlier(AddHour(now).value, moment))
      && (claims.roleId == RoleID.Admin.Value() ==> Gate(Bearer(claims), Stamp(now), expired).Proceed?)
  {
    LoginSucceeds(users, username, password, now, digest);
    StampOrder(AddHour(now).value, moment);
    AddHourLater(now);
  }

  // ---------------------------------------------------------------------
  // The database the handlers share

  class Database {
    var users: seq<UserRow>
    var worlds: seq<WorldRow>

    /** A database as the startup code creates it: the seeded admin and no worlds. */
    constructor ()
      ensures users == [SeedAdmin] && worlds == []
      ensures UsersValid(users)
    {
      users := [SeedAdmin];
      worlds := [];
    }

    /**
     * POST /create_world.  `insertOk` says whether SQLite accepts the
     * INSERT, which names the IPAddress and ServerStatus columns.
     */
    method CreateWorld(cred: Credential, now: Moment, worldName: string, ipAddress: string, insertOk: bool)
      returns (resp: Response)
      modifies this
      ensures users == old(users)
      ensures (resp, worlds) == CreateWorldStep(old(worlds), cred, Stamp(now), worldName, ipAddress, insertOk)
    {
      var verdict := Gate(cred, Stamp(now), TokenExpired);
      if verdict.Deny? {
        return verdict.response;
      }
      if HasWorldNamed(worlds, worldName) {
        return Message(WorldExists);
      }
      // SELECT ID ... LIMIT 1 yields at most one row: the first fetchone()
      // takes it, the second returns None and `None[0]` raises.
      if worlds != [] {
        return Failure(ExceptionPrefix, NoneNotSubscriptable);
      }
      if !insertOk {
        return Failure(ExceptionPrefix, InsertRejected);
      }
      var row := WorldRow(1, worldName, ipAddress, ServerStatus.Pending.Value());
      assert worlds + [row] == [row];
      worlds := worlds + [row];
      resp := WorldCreated(row.id, row.worldName, row.ipAddress, row.serverStatus);
    }

    /** POST /register.  `salt` is the value of `os.urandom(16)`. */
    method Register(cred: Credential, now: Moment, username: string, password: string, roleId: int,
                    salt: seq<byte>, digest: Sha256Hex)
      returns (resp: Response)
      modifies this
      ensures worlds == old(worlds)
      ensures (resp, users) == RegisterStep(old(users), cred, Stamp(now), username, password, roleId, salt, digest)
      ensures UsersValid(old(users)) ==> UsersValid(users)
    {
      var verdict := Gate(cred, Stamp(now), NotAdmin);
      if verdict.Deny? {
        return verdict.response;
      }
      if HasUserNamed(users, username) {
        return Message(UsernameTaken);
      }
      // binding an int outside SQLite's 64-bit INTEGER raises OverflowError
      if !IsSqliteInteger(roleId) {
        return Failure(ExceptionPrefix, IntegerOverflow);
      }
      var saltText := Repr(salt);
      var hashed := digest(password + saltText);
      var row := UserRow(NextUserId(users), username, hashed + "." + saltText, roleId);
      if UsersValid(users) {
        AppendKeepsValid(users, row);
      }
      users := users + [row];
      resp := Message(UserCreated);
    }

    /** POST /login: reads the table only. */
    method Login(username: string, password: string, now: Moment, digest: Sha256Hex) returns (resp: Response)
      ensures resp == LoginReply(users, username, password, now, digest)
    {
      var row := FirstUserNamed(users, username);
      if row.None? {
        return Message(UsernameNotFound);
      }
      var stored := row.value.password;
      var parts := Split(stored, '.');
      RecordFields(stored);
      if |parts| < 2 {
        return Failure(PasswordIncorrectPrefix, IndexOutOfRange);
      }
      var salt := parts[1];
      // the second SELECT returns the RoleID of the same first row
      var roleId := row.value.roleId;
      var hashed := digest(password + salt);
      if parts[0] == hashed {
        var expiry := AddHour(now);
        if expiry.None? {
          return Failure(PasswordIncorrectPrefix, DateOverflow);
        }
        resp := TokenIssued(Claims(username, roleId, Stamp(expiry.value)));
      } else {
        resp := Message(PasswordIncorrect);
      }
    }
  }
}
