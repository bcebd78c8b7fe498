/**
 * `get_settings`: the settings file read whole in text mode, cut into
 * lines at '\n', each line cut at '=' and the pieces handed to
 * `dict(...)`.  Both copies of the parser (the nested one in the
 * integrator class and the module-level one) are the same code.  The
 * file's characters are an input; text mode's newline translation is
 * modelled, the decoding of its bytes is not.
 */
module Settings {
  import opened Wrappers
  import opened Text

  type Pair = (string, string)

  /** One line through `x.split("=")`: `dict` accepts it only as exactly two pieces. */
  function Entry(line: string): Option<Pair>
  {
    var parts := Split(line, '=');
    if |parts| == 2 then Some((parts[0], parts[1])) else None
  }

  /** `dict(items)`: items taken in order, any item that is not a pair fails the whole call. */
  function Dict(items: seq<Option<Pair>>): Option<map<string, string>>
    decreases |items|
  {
    if items == [] then Some(map[])
    else
      match Dict(items[..|items| - 1])
      case None => None
      case Some(m) =>
        match items[|items| - 1]
        case None => None
        case Some(kv) => Some(m[kv.0 := kv.1])
  }

  /**
   * The items `x.split("=") for x in text.split('\n')`: one per line, a
   * pair exactly for the lines with one '=', which are `key=value`.
   */
  function Items(text: string): (items: seq<Option<Pair>>)
    ensures |items| == |Split(text, '\n')|
    ensures forall k :: 0 <= k < |items| ==> items[k] == Entry(Split(text, '\n')[k])
    ensures forall k :: 0 <= k < |items| ==> (items[k].Some? <==> Count(Split(text, '\n')[k], '=') == 1)
    ensures forall k :: 0 <= k < |items| && items[k].Some? ==>
      Split(text, '\n')[k] == items[k].value.0 + "=" + items[k].value.1
  {
    var lines := Split(text, '\n');
    assert forall k :: 0 <= k < |lines| ==>
      && (Entry(lines[k]).Some? <==> Count(lines[k], '=') == 1)
      && (Entry(lines[k]).Some? ==> lines[k] == Entry(lines[k]).value.0 + "=" + Entry(lines[k]).value.1) by {
      forall k | 0 <= k < |lines| {
        EntryShape(lines[k]);
      }
    }
    seq(|lines|, k requires 0 <= k < |lines| => Entry(lines[k]))
  }

  /** `dict(...)` of the items of a text; None where Python raises ValueError. */
  function Parse(text: string): Option<map<string, string>>
  {
    Dict(Items(text))
  }

  /**
   * What `f.read()` returns on a file opened with mode 'r': universal
   * newlines turn each "\r\n" and each lone '\r' into '\n'.
   */
  function ReadText(raw: string): (text: string)
    ensures '\r' !in text
    ensures '\r' !in raw ==> text == raw
    ensures |text| <= |raw|
    decreases |raw|
  {
    if raw == [] then []
    else if raw[0] == '\r' then
      if |raw| > 1 && raw[1] == '\n' then "\n" + ReadText(raw[2..]) else "\n" + ReadText(raw[1..])
    else [raw[0]] + ReadText(raw[1..])
  }

  /** `get_settings(settings_file)` on a file holding the characters `raw`. */
  function GetSettings(raw: string): Option<map<string, string>>
  {
    Parse(ReadText(raw))
  }

  /**
   * A "\r\n" line ending reads as '\n', so a file written with Windows line
   * endings gives the settings of the same file written with '\n'.
   */
  lemma {:induction false} ReadTextCrLf(a: string, b: string)
    requires '\r' !in a
    ensures ReadText(a + "\r\n" + b) == a + "\n" + ReadText(b)
    decreases |a|
  {
    var s := a + "\r\n" + b;
    if a == [] {
      assert s[0] == '\r' && s[1] == '\n' && s[2..] == b;
    } else {
      var tail := a[1..] + "\r\n" + b;
      assert s[0] == a[0] && s[1..] == tail;
      ReadTextCrLf(a[1..], b);
      AppendAssoc([a[0]], a[1..], "\n" + ReadText(b));
    }
  }

  /** A lone '\r', not followed by '\n', also reads as '\n'. */
  lemma ReadTextLoneCr(a: string, b: string)
    requires '\r' !in a && (b == [] || b[0] != '\n')
    ensures ReadText(a + "\r" + b) == a + "\n" + ReadText(b)
  {
    AppendAssoc(a, ['\r'], b);
    ReadTextPrefix(a, ['\r'] + b);
    assert (['\r'] + b)[1..] == b;
    AppendAssoc(a, "\n", ReadText(b));
  }

  /** A prefix without '\r' is read unchanged. */
  lemma {:induction false} ReadTextPrefix(a: string, t: string)
    requires '\r' !in a
    ensures ReadText(a + t) == a + ReadText(t)
    decreases |a|
  {
    if a == [] {
      assert a + t == t;
    } else {
      assert (a + t)[0] == a[0] && (a + t)[1..] == a[1..] + t;
      ReadTextPrefix(a[1..], t);
      AppendAssoc([a[0]], a[1..], ReadText(t));
    }
  }

  /** A file without '\r' is parsed as it stands; a "\r\n" ending is parsed as '\n'. */
  lemma GetSettingsLineEndings(raw: string, a: string, b: string)
    requires '\r' !in a
    ensures '\r' !in raw ==> GetSettings(raw) == Parse(raw)
    ensures GetSettings(a + "\r\n" + b) == Parse(a + "\n" + ReadText(b))
  {
    ReadTextCrLf(a, b);
  }

  /** A line is usable exactly when it has one '=', and its key and value are kept verbatim. */
  lemma EntryShape(line: string)
    ensures Entry(line).Some? <==> Count(line, '=') == 1
    ensures Entry(line).Some? ==>
      var (k, v) := Entry(line).value; '=' !in k && '=' !in v && line == k + "=" + v
  {
    SplitCount(line, '=');
    JoinSplit(line, '=');
    SplitPartsFree(line, '=');
    var parts := Split(line, '=');
    if |parts| == 2 {
      assert Join(parts, '=') == parts[0] + "=" + parts[1];
    }
  }

  lemma {:induction false} DictSucceeds(items: seq<Option<Pair>>)
    ensures Dict(items).Some? <==> forall k :: 0 <= k < |items| ==> items[k].Some?
    decreases |items|
  {
    if items != [] {
      var init := items[..|items| - 1];
      DictSucceeds(init);
      assert forall k :: 0 <= k < |init| ==> items[k] == init[k];
    }
  }

  /** Parsing succeeds exactly when every line holds exactly one '='. */
  lemma ParseSucceeds(text: string)
    ensures Parse(text).Some? ==> forall k :: 0 <= k < |Split(text, '\n')| ==> Count(Split(text, '\n')[k], '=') == 1
    ensures (forall k :: 0 <= k < |Split(text, '\n')| ==> Count(Split(text, '\n')[k], '=') == 1) ==> Parse(text).Some?
  {
    var lines := Split(text, '\n');
    DictSucceeds(Items(text));
    forall k | 0 <= k < |lines| ensures Entry(lines[k]).Some? <==> Count(lines[k], '=') == 1 {
      EntryShape(lines[k]);
    }
  }

  /** An empty line fails the parse. */
  lemma EmptyLineFails(text: string)
    requires "" in Split(text, '\n')
    ensures Parse(text) == None
  {
    var lines := Split(text, '\n');
    var k :| 0 <= k < |lines| && lines[k] == "";
    assert Entry(lines[k]) == None;
    assert Items(text)[k] == None;
    DictSucceeds(Items(text));
  }

  /** The empty file and any file ending in '\n' end in an empty line, so they fail. */
  lemma TrailingNewlineFails(text: string)
    ensures Parse("") == None
    ensures Parse(text + "\n") == None
  {
    assert Split("", '\n') == [""];
    EmptyLineFails("");
    SplitConcat(text, "", '\n');
    assert text + "\n" == text + ['\n'] + "";
    assert Split(text + "\n", '\n') == Split(text, '\n') + [""];
    EmptyLineFails(text + "\n");
  }

  /** When a key occurs on several items, the value of the last of them is kept. */
  lemma {:induction false} LastItemWins(items: seq<Option<Pair>>, i: nat, key: string, value: string)
    requires Dict(items).Some?
    requires i < |items| && items[i] == Some((key, value))
    requires forall j :: i < j < |items| ==> items[j].Some? && items[j].value.0 != key
    ensures key in Dict(items).value && Dict(items).value[key] == value
    decreases |items|
  {
    var init := items[..|items| - 1];
    if i < |items| - 1 {
      assert init[i] == items[i];
      forall j | i < j < |init| ensures init[j].Some? && init[j].value.0 != key {
        assert init[j] == items[j];
      }
      LastItemWins(init, i, key, value);
    }
  }

  /** The map's keys are exactly the keys of the items. */
  lemma {:induction false} DictKeys(items: seq<Option<Pair>>, key: string)
    requires Dict(items).Some?
    ensures key in Dict(items).value <==> exists k :: 0 <= k < |items| && items[k].Some? && items[k].value.0 == key
    decreases |items|
  {
    if items != [] {
      var n := |items| - 1;
      var init := items[..n];
      DictKeys(init, key);
      if key != items[n].value.0 {
        if exists k :: 0 <= k < |items| && items[k].Some? && items[k].value.0 == key {
          var k :| 0 <= k < |items| && items[k].Some? && items[k].value.0 == key;
          assert init[k] == items[k];
        }
        if key in Dict(init).value {
          var k :| 0 <= k < |init| && init[k].Some? && init[k].value.0 == key;
          assert init[k] == items[k];
        }
      }
    }
  }

  /** The keys of the lines that are `key=value` pairs. */
  function LineKeys(lines: seq<string>): set<string>
  {
    set k | 0 <= k < |lines| && Entry(lines[k]).Some? :: Entry(lines[k]).value.0
  }

  /** For a parsed file the keys are exactly the keys of its lines. */
  lemma ParseKeys(text: string)
    requires Parse(text).Some?
    ensures Parse(text).value.Keys == LineKeys(Split(text, '\n'))
  {
    KeysOfLines(Items(text), Split(text, '\n'), Parse(text).value);
  }

  lemma KeysOfLines(items: seq<Option<Pair>>, lines: seq<string>, m: map<string, string>)
    requires Dict(items) == Some(m)
    requires |items| == |lines| && forall k :: 0 <= k < |items| ==> items[k] == Entry(lines[k])
    ensures m.Keys == LineKeys(lines)
  {
    forall key ensures key in m <==> key in LineKeys(lines) {
      DictKeys(items, key);
      if key in m {
        var k :| 0 <= k < |items| && items[k].Some? && items[k].value.0 == key;
        assert Entry(lines[k]).value.0 in LineKeys(lines);
      }
    }
  }

  /** For a parsed file, a key's value is the value on the last line with that key. */
  lemma LastLineWins(text: string, i: nat, key: string, value: string)
    requires Parse(text).Some?
    requires i < |Split(text, '\n')| && Entry(Split(text, '\n')[i]) == Some((key, value))
    requires forall j :: i < j < |Split(text, '\n')| && Entry(Split(text, '\n')[j]).Some? ==>
      Entry(Split(text, '\n')[j]).value.0 != key
    ensures key in Parse(text).value && Parse(text).value[key] == value
  {
    var items := Items(text);
    DictSucceeds(items);
    assert items[i] == Some((key, value));
    forall j | i < j < |items| ensures items[j].Some? && items[j].value.0 != key {
      assert items[j] == Entry(Split(text, '\n')[j]);
    }
    LastItemWins(items, i, key, value);
  }

  /** The line `k=v` for a key and value free of '=' and '\n'. */
  lemma PairLine(key: string, value: string)
    requires '=' !in key && '=' !in value && '\n' !in key && '\n' !in value
    ensures '\n' !in key + "=" + value
    ensures Entry(key + "=" + value) == Some((key, value))
  {
    var line := key + "=" + value;
    assert line == key + ['='] + value;
    BeforeFront(key, value, '=');
    assert Split(line, '=') == [key] + Split(value, '=');
  }

  /** A single line `k=v` yields exactly that pair, untrimmed. */
  lemma SingleLine(key: string, value: string)
    requires '=' !in key && '=' !in value && '\n' !in key && '\n' !in value
    ensures Parse(key + "=" + value) == Some(map[key := value])
  {
    var line := key + "=" + value;
    PairLine(key, value);
    assert Split(line, '\n') == [line];
    var items := Items(line);
    assert items == [Some((key, value))];
    assert items[..0] == [];
    assert Dict(items) == Some(map[][key := value]);
  }

  /** Appending a line `k=v` to a parsable file adds or overrides the key `k` with `v`. */
  lemma AppendLine(text: string, key: string, value: string)
    requires Parse(text).Some?
    requires '=' !in key && '=' !in value && '\n' !in key && '\n' !in value
    ensures Parse(text + "\n" + key + "=" + value) == Some(Parse(text).value[key := value])
  {
    var line := key + "=" + value;
    var whole := text + "\n" + key + "=" + value;
    PairLine(key, value);
    LineShape(text, key, value);
    SplitConcat(text, line, '\n');
    assert Split(line, '\n') == [line];
    ItemsSnoc(text, whole, line);
    DictSnoc(Items(text), Entry(line));
  }

  lemma LineShape(text: string, key: string, value: string)
    ensures text + "\n" + key + "=" + value == text + ['\n'] + (key + "=" + value)
  {
  }

  /** A file with one more line has one more item, that line's. */
  lemma ItemsSnoc(text: string, whole: string, line: string)
    requires Split(whole, '\n') == Split(text, '\n') + [line]
    ensures Items(whole) == Items(text) + [Entry(line)]
  {
    var lines, before := Split(whole, '\n'), Items(text);
    assert forall k :: 0 <= k < |before| ==> before[k] == Entry(lines[k]);
  }

  lemma DictSnoc(items: seq<Option<Pair>>, last: Option<Pair>)
    requires Dict(items).Some? && last.Some?
    ensures Dict(items + [last]) == Some(Dict(items).value[last.value.0 := last.value.1])
  {
    assert (items + [last])[..|items|] == items;
  }
}
