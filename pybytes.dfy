/**
 * `str(b)` for a Python `bytes` value `b`, as `register` applies it to the
 * random salt: the repr text `b'...'`, with CPython's choice of quote and
 * its escapes.
 */
module PyBytes {

  newtype byte = x: int | 0 <= x < 256

  const HexDigits := "0123456789abcdef"

  const Dot: byte := 0x2E

  /** The quote CPython picks: `"` when the bytes hold `'` but no `"`, else `'`. */
  function Quote(b: seq<byte>): (q: char)
    ensures q == '\'' || q == '"'
  {
    if 0x27 in b && 0x22 !in b then '"' else '\''
  }

  /** How one byte is written inside the quotes. */
  function Escape(x: byte, q: char): string
  {
    if x as int as char == q || x == 0x5C then ['\\', x as int as char]
    else if x == 0x09 then "\\t"
    else if x == 0x0A then "\\n"
    else if x == 0x0D then "\\r"
    else if x < 0x20 || x >= 0x7F then "\\x" + [HexDigits[x / 16], HexDigits[x % 16]]
    else [x as int as char]
  }

  function EscapeAll(b: seq<byte>, q: char): string
  {
    if b == [] then "" else Escape(b[0], q) + EscapeAll(b[1..], q)
  }

  /** `str(b)` (equivalently `repr(b)`) for bytes `b`. */
  function Repr(b: seq<byte>): (r: string)
    ensures |r| >= 3 && r[0] == 'b' && r[1] == Quote(b) && r[|r| - 1] == Quote(b)
  {
    ['b', Quote(b)] + EscapeAll(b, Quote(b)) + [Quote(b)]
  }

  /** A byte shows up as a '.' exactly when it is the byte 0x2E. */
  lemma EscapeDot(x: byte, q: char)
    requires q == '\'' || q == '"'
    ensures '.' in Escape(x, q) <==> x == Dot
  {
    if x < 0x20 || x >= 0x7F {
      assert '.' !in HexDigits;
    }
  }

  lemma {:induction false} EscapeAllDot(b: seq<byte>, q: char)
    requires q == '\'' || q == '"'
    ensures '.' in EscapeAll(b, q) <==> Dot in b
  {
    if b != [] {
      EscapeDot(b[0], q);
      EscapeAllDot(b[1..], q);
      assert b == [b[0]] + b[1..];
    }
  }

  /** The salt text contains a '.' exactly when some salt byte is 0x2E. */
  lemma ReprDot(b: seq<byte>)
    ensures '.' in Repr(b) <==> Dot in b
  {
    EscapeAllDot(b, Quote(b));
  }
}
