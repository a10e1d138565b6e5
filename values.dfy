/**
  The values an attribute can hold, with Python's `str()` and `repr()` of each
  and of a dict of them.
*/
module Values {
  import opened Digits
  import opened DateTimes
  import opened AttrBag

  datatype Value =
    | Str(s: string)
    | Int(i: int)
    | Bool(b: bool)
    | NoneValue
    | Time(t: ValidDateTime)

  /** `str(v)`, which is also what an f-string substitutes. */
  function Text(v: Value): string
  {
    match v
    case Str(s) => s
    case Int(i) => IntText(i)
    case Bool(b) => if b then "True" else "False"
    case NoneValue => "None"
    case Time(t) => IsoFormat(t, ' ')
  }

  /** `repr(v)` */
  function Repr(v: Value): string
  {
    match v
    case Str(s) => ReprStr(s)
    case Time(t) => ReprDateTime(t)
    case _ => Text(v)
  }

  /** The quote `repr` puts around a string: `"` only when the text has a `'` and no `"`. */
  function QuoteFor(s: string): char
  {
    if '\'' in s && '"' !in s then '"' else '\''
  }

  function HexDigit(d: nat): char
    requires d < 16
  {
    "0123456789abcdef"[d]
  }

  predicate IsHexDigit(c: char)
  {
    '0' <= c <= '9' || 'a' <= c <= 'f'
  }

  function HexValue(c: char): nat
    requires IsHexDigit(c)
  {
    if c <= '9' then c as int - '0' as int else c as int - 'a' as int + 10
  }

  /**
    Characters `repr` writes as \xhh: the C0 controls other than tab, newline and
    carriage return (which get their own escapes), DEL and the C1 controls, the
    no-break space and the soft hyphen.
  */
  predicate HexEscaped(c: char)
  {
    c as int < 0x20 || 0x7f <= c as int <= 0xa0 || c as int == 0xad
  }

  /** How `repr` writes one character inside quotes `q`. */
  function Escape(c: char, q: char): string
  {
    if c == q || c == '\\' then ['\\', c]
    else if c == '\t' then "\\t"
    else if c == '\n' then "\\n"
    else if c == '\r' then "\\r"
    else if HexEscaped(c) then ['\\', 'x', HexDigit(c as int / 16), HexDigit(c as int % 16)]
    else [c]
  }

  function EscapeAll(s: string, q: char): string
  {
    if s == [] then [] else Escape(s[0], q) + EscapeAll(s[1..], q)
  }

  /** `repr(s)` for a string. */
  function ReprStr(s: string): string
  {
    [QuoteFor(s)] + EscapeAll(s, QuoteFor(s)) + [QuoteFor(s)]
  }

  /** Reads back the inside of a Python string literal, for the escapes `repr` writes. */
  function Unescape(t: string): string
  {
    if t == [] then []
    else if t[0] != '\\' || |t| == 1 then [t[0]] + Unescape(t[1..])
    else if t[1] == 't' then ['\t'] + Unescape(t[2..])
    else if t[1] == 'n' then ['\n'] + Unescape(t[2..])
    else if t[1] == 'r' then ['\r'] + Unescape(t[2..])
    else if t[1] == 'x' && |t| >= 4 && IsHexDigit(t[2]) && IsHexDigit(t[3])
    then [(16 * HexValue(t[2]) + HexValue(t[3])) as char] + Unescape(t[4..])
    else [t[1]] + Unescape(t[2..])
  }

  lemma HexDigitValue(d: nat)
    requires d < 16
    ensures IsHexDigit(HexDigit(d)) && HexValue(HexDigit(d)) == d
  {
  }

  /** Reading back one escaped character gives that character. */
  lemma UnescapeEscape(c: char, q: char, rest: string)
    requires q == '\'' || q == '"'
    ensures Unescape(Escape(c, q) + rest) == [c] + Unescape(rest)
  {
    var t := Escape(c, q) + rest;
    if c == q || c == '\\' || c == '\t' || c == '\n' || c == '\r' {
      assert t[2..] == rest;
    } else if HexEscaped(c) {
      HexDigitValue(c as int / 16);
      HexDigitValue(c as int % 16);
      assert t[4..] == rest;
      assert (16 * (c as int / 16) + c as int % 16) as char == c;
    } else {
      assert t[1..] == rest;
    }
  }

  lemma {:induction false} UnescapeEscapeAll(s: string, q: char)
    requires q == '\'' || q == '"'
    ensures Unescape(EscapeAll(s, q)) == s
  {
    if s != [] {
      UnescapeEscape(s[0], q, EscapeAll(s[1..], q));
      UnescapeEscapeAll(s[1..], q);
      assert s == [s[0]] + s[1..];
    }
  }

  /**
    `repr(s)` is a quoted literal whose inside reads back as `s`: distinct strings
    are shown distinctly.
  */
  lemma ReprStrRoundTrip(s: string)
    ensures var r := ReprStr(s);
      && |r| >= 2
      && r[0] == r[|r| - 1] == QuoteFor(s)
      && Unescape(r[1..|r| - 1]) == s
  {
    var r := ReprStr(s);
    assert r[1..|r| - 1] == EscapeAll(s, QuoteFor(s));
    UnescapeEscapeAll(s, QuoteFor(s));
  }

  /** One dict entry as `repr` shows it: `'key': value`. */
  function Entry(e: (string, Value)): string
  {
    ReprStr(e.0) + ": " + Repr(e.1)
  }

  /** The entries, in insertion order, separated by ", ". */
  function Entries(b: Bag<Value>): string
  {
    if b == [] then ""
    else if |b| == 1 then Entry(b[0])
    else Entries(b[..|b| - 1]) + ", " + Entry(b[|b| - 1])
  }

  /** `repr(d)` for a dict with string keys. */
  function ReprDict(b: Bag<Value>): string
  {
    "{" + Entries(b) + "}"
  }

  lemma EntriesAppend(b: Bag<Value>, e: (string, Value))
    ensures Entries(b + [e]) == if b == [] then Entry(e) else Entries(b) + ", " + Entry(e)
  {
    assert (b + [e])[..|b|] == b;
  }

  /**
    The dict is shown in insertion order: a key assigned for the first time is
    shown last, after everything shown before.
  */
  lemma ReprDictPutNew(b: Bag<Value>, k: string, v: Value)
    requires k !in Keys(b)
    ensures ReprDict(Put(b, k, v))
         == (if b == [] then "{" else "{" + Entries(b) + ", ") + Entry((k, v)) + "}"
  {
    PutAppends(b, k, v);
    EntriesAppend(b, (k, v));
  }
}
