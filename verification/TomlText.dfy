/** Strings as TOML v1.0.0 writes them between quotes, and decimal integers. */
module TomlText {
  import opened Schema
  import opened StableSort

  // ----- basic strings (section "String" of TOML v1.0.0) -----

  const DEL: char := 0x7F as char

  function Hex(n: nat): char
    requires n < 16
  {
    if n < 10 then '0' + (n as char) else 'A' + ((n - 10) as char)
  }

  function UnHex(c: char): Option<nat> {
    if '0' <= c <= '9' then Some((c - '0') as nat)
    else if 'A' <= c <= 'F' then Some((c - 'A') as nat + 10)
    else if 'a' <= c <= 'f' then Some((c - 'a') as nat + 10)
    else None
  }

  function EscChar(c: char): string {
    if c == '\"' then "\\\""
    else if c == '\\' then "\\\\"
    else if c == '\n' then "\\n"
    else if c == '\r' then "\\r"
    else if c == '\t' then "\\t"
    else if c < ' ' then "\\u00" + [Hex(c as nat / 16), Hex(c as nat % 16)]
    else [c]
  }

  function EscBody(s: string): string {
    if s == "" then "" else EscChar(s[0]) + EscBody(s[1..])
  }

  /** A whole basic string with its quotes. */
  function Esc(s: string): string {
    "\"" + EscBody(s) + "\""
  }

  /** A character that may stand in a basic string unescaped. */
  predicate IsPlain(c: char) {
    c != '\"' && c != '\\' && (c >= ' ' || c == '\t') && c != DEL
  }

  /** The characters up to the closing quote, and what follows it. */
  function ReadBody(s: string): Option<(string, string)> {
    if s == "" then None
    else if s[0] == '\"' then Some(("", s[1..]))
    else if s[0] != '\\' then (if IsPlain(s[0]) then Prepend(s[0], ReadBody(s[1..])) else None)
    else if |s| < 2 then None
    else if s[1] == '\"' then Prepend('\"', ReadBody(s[2..]))
    else if s[1] == '\\' then Prepend('\\', ReadBody(s[2..]))
    else if s[1] == 'n' then Prepend('\n', ReadBody(s[2..]))
    else if s[1] == 'r' then Prepend('\r', ReadBody(s[2..]))
    else if s[1] == 't' then Prepend('\t', ReadBody(s[2..]))
    else if s[1] == 'u' && |s| >= 6 then
      var code := Hex4(s[2..6]);
      if code.None? || 0xD800 <= code.value < 0xE000 then None
      else Prepend(code.value as char, ReadBody(s[6..]))
    else None
  }

  function Prepend(c: char, r: Option<(string, string)>): Option<(string, string)> {
    if r.None? then None else Some(([c] + r.value.0, r.value.1))
  }

  function Hex4(s: string): (r: Option<nat>)
    requires |s| == 4
    ensures r.Some? ==> r.value < 0x1_0000
  {
    match (UnHex(s[0]), UnHex(s[1]), UnHex(s[2]), UnHex(s[3]))
    case (Some(a), Some(b), Some(c), Some(d)) =>
      assert a < 16 && b < 16 && c < 16 && d < 16;
      Some(((a * 16 + b) * 16 + c) * 16 + d)
    case _ => None
  }

  /** What a TOML reader makes of a quoted string. */
  function ReadQuoted(s: string): Option<string> {
    if s == "" || s[0] != '\"' then None
    else
      var r := ReadBody(s[1..]);
      if r.Some? && r.value.1 == "" then Some(r.value.0) else None
  }

  lemma EscapedControl(c: char, rest: string)
    requires c < ' '
    ensures var hi, lo := Hex(c as nat / 16), Hex(c as nat % 16);
            var s := "\\u00" + [hi, lo] + rest;
            s[2..6] == ['0', '0', hi, lo] && s[6..] == rest && Hex4(s[2..6]) == Some(c as nat)
  {
    var hi, lo := Hex(c as nat / 16), Hex(c as nat % 16);
    var s := "\\u00" + [hi, lo] + rest;
    assert s[2] == '0' && s[3] == '0' && s[4] == hi && s[5] == lo;
    assert s[2..6] == ['0', '0', hi, lo];
    assert UnHex(hi) == Some(c as nat / 16) && UnHex(lo) == Some(c as nat % 16) && UnHex('0') == Some(0);
  }

  lemma EscapedChar(c: char, rest: string)
    ensures ReadBody(EscChar(c) + rest) == if c == DEL then None else Prepend(c, ReadBody(rest))
  {
    var s := EscChar(c) + rest;
    if c < ' ' && c != '\n' && c != '\r' && c != '\t' {
      EscapedControl(c, rest);
    } else if |EscChar(c)| == 2 {
      assert s[2..] == rest;
    } else {
      assert s[1..] == rest;
    }
  }

  lemma {:induction false} EscapedBody(s: string)
    ensures ReadBody(EscBody(s) + "\"") == if DEL in s then None else Some((s, ""))
  {
    if s == "" {
      assert EscBody(s) + "\"" == "\"" && "\""[1..] == "";
    } else {
      EscapedBody(s[1..]);
      Assoc(EscChar(s[0]), EscBody(s[1..]), "\"");
      EscapedChar(s[0], EscBody(s[1..]) + "\"");
      HeadTail(s);
      assert [s[0]] + s[1..] == s;
    }
  }

  /** Reading an escaped string gives it back, exactly when it has no U+007F,
      which is written as it is and which TOML does not allow there. */
  lemma EscRoundTrip(s: string)
    ensures ReadQuoted(Esc(s)) == if DEL in s then None else Some(s)
  {
    EscapedBody(s);
    Assoc("\"", EscBody(s), "\"");
    assert Esc(s)[1..] == EscBody(s) + "\"";
  }

  // ----- decimal integers -----

  function Digits(n: nat): (s: string)
    ensures s != "" && forall c :: c in s ==> '0' <= c <= '9'
  {
    var last := '0' + ((n % 10) as char);
    if n < 10 then [last] else Digits(n / 10) + [last]
  }

  function DecimalOf(n: int): string {
    if n < 0 then "-" + Digits(-n) else Digits(n)
  }

  function ValueOf(s: string): (r: Option<nat>)
  {
    if s == "" then None
    else
      var c := s[|s| - 1];
      if !('0' <= c <= '9') then None
      else if |s| == 1 then Some((c - '0') as nat)
      else
        var front := ValueOf(s[..|s| - 1]);
        if front.None? then None else Some(10 * front.value + (c - '0') as nat)
  }

  predicate IsI64(n: int) {
    -0x8000_0000_0000_0000 <= n < 0x8000_0000_0000_0000
  }

  /** An optional sign and digits, within 64 bits. */
  function ParseI64(s: string): Option<int> {
    var signed := s != "" && (s[0] == '-' || s[0] == '+');
    var v := ValueOf(if signed then s[1..] else s);
    if v.None? then None
    else
      var magnitude: int := v.value;
      var n := if signed && s[0] == '-' then -magnitude else magnitude;
      if IsI64(n) then Some(n) else None
  }

  lemma {:induction false} DigitsRoundTrip(n: nat)
    ensures ValueOf(Digits(n)) == Some(n)
  {
    var last := '0' + ((n % 10) as char);
    assert (last - '0') as nat == n % 10;
    if n >= 10 {
      DigitsRoundTrip(n / 10);
      assert (Digits(n / 10) + [last])[..|Digits(n / 10)|] == Digits(n / 10);
    }
  }

  lemma UnsignedIs(s: string, n: nat)
    requires s != "" && s[0] != '-' && s[0] != '+' && ValueOf(s) == Some(n)
    ensures ParseI64(s) == if IsI64(n) then Some(n) else None
  {
  }

  lemma NegativeIs(s: string, n: int)
    requires n < 0 && ValueOf(s) == Some(-n)
    ensures ParseI64("-" + s) == if IsI64(n) then Some(n) else None
  {
    assert ("-" + s)[1..] == s;
  }

  lemma DecimalRoundTrip(n: int)
    ensures ParseI64(DecimalOf(n)) == if IsI64(n) then Some(n) else None
  {
    if n < 0 {
      DigitsRoundTrip(-n);
      NegativeIs(Digits(-n), n);
    } else {
      DigitsRoundTrip(n);
      assert Digits(n)[0] in Digits(n);
      UnsignedIs(Digits(n), n);
    }
  }

  // ----- splitting at a character -----

  function SplitOnce(s: string, c: char): Option<(string, string)> {
    if s == "" then None
    else if s[0] == c then Some(("", s[1..]))
    else
      var r := SplitOnce(s[1..], c);
      if r.None? then None else Some(([s[0]] + r.value.0, r.value.1))
  }

  lemma {:induction false} SplitAtFirst(a: string, c: char, b: string)
    requires c !in a
    ensures SplitOnce(a + [c] + b, c) == Some((a, b))
  {
    var s := a + [c] + b;
    if a == "" {
      assert s == [c] + b && s[1..] == b;
    } else {
      SplitAtFirst(a[1..], c, b);
      assert s[1..] == a[1..] + [c] + b;
      assert [a[0]] + a[1..] == a;
    }
  }

  lemma {:induction false} NothingToSplit(s: string, c: char)
    requires c !in s
    ensures SplitOnce(s, c) == None
  {
    if s != "" {
      NothingToSplit(s[1..], c);
    }
  }

  /** The first part has no separator. */
  lemma {:induction false} SplitParts(s: string, c: char)
    requires c in s
    ensures SplitOnce(s, c).Some?
    ensures c !in SplitOnce(s, c).value.0
    ensures s == SplitOnce(s, c).value.0 + [c] + SplitOnce(s, c).value.1
  {
    if s[0] != c {
      SplitParts(s[1..], c);
      assert [s[0]] + s[1..] == s;
    } else {
      assert s == "" + [c] + s[1..];
    }
  }
}
