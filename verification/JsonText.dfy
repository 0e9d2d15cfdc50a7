/** The characters of the catalog's JSON (src/metadata.cpp:11-35, 84-193): how strings and
    numbers are written, and how the reader takes them off the front of the remaining text.
    A character stands for a byte. */
module JsonText {
  import opened Wrappers

  datatype JsonError = Malformed

  type Parsed<T> = Result<(T, string), JsonError>

  // ------------------------------------------------------------------- escaping

  /** Four hexadecimal digits of a control character, of which the first two are zero. */
  function HexDigit(n: nat): char
    requires n < 16
  {
    "0123456789abcdef"[n]
  }

  function EscapeChar(c: char): string {
    if c == '\"' then ['\\', '\"']
    else if c == '\\' then ['\\', '\\']
    else if c == 8 as char then ['\\', 'b']
    else if c == 12 as char then ['\\', 'f']
    else if c == '\n' then ['\\', 'n']
    else if c == '\r' then ['\\', 'r']
    else if c == '\t' then ['\\', 't']
    else if c as int < 0x20 then ['\\', 'u', '0', '0', HexDigit(c as int / 16), HexDigit(c as int % 16)]
    else [c]
  }

  /** Each character replaced by a string. */
  function Spread(f: char -> string, s: string): string {
    if s == "" then "" else f(s[0]) + Spread(f, s[1..])
  }

  function Escape(s: string): string {
    Spread(EscapeChar, s)
  }

  lemma {:induction false} SpreadSnoc(f: char -> string, s: string, c: char)
    ensures Spread(f, s + [c]) == Spread(f, s) + f(c)
  {
    if s == "" {
      assert (s + [c])[1..] == "" && f(c) + "" == f(c);
    } else {
      SpreadSnoc(f, s[1..], c);
      assert (s + [c])[1..] == s[1..] + [c];
    }
  }

  method EscapeJson(value: string) returns (out: string)
    ensures out == Escape(value)
  {
    out := "";
    for i := 0 to |value|
      invariant out == Escape(value[..i])
    {
      SpreadSnoc(EscapeChar, value[..i], value[i]);
      assert value[..i + 1] == value[..i] + [value[i]];
      out := out + EscapeChar(value[i]);
    }
    assert value[..|value|] == value;
  }

  // ------------------------------------------------------------------- scanning

  /** isspace in the C locale. */
  predicate IsSpace(c: char) {
    c == ' ' || 9 <= c as int <= 13
  }

  predicate Blank(s: string) {
    forall i :: 0 <= i < |s| ==> IsSpace(s[i])
  }

  function SkipSpace(s: string): (t: string)
    ensures |t| <= |s| && (t != "" ==> !IsSpace(t[0]))
  {
    if s == "" || !IsSpace(s[0]) then s else SkipSpace(s[1..])
  }

  lemma {:induction false} SkipsBlank(blank: string, s: string)
    requires Blank(blank) && (s == "" || !IsSpace(s[0]))
    ensures SkipSpace(blank + s) == s
  {
    if blank == "" {
      assert blank + s == s;
    } else {
      SkipsBlank(blank[1..], s);
      assert (blank + s)[1..] == blank[1..] + s;
    }
  }

  /** The character, after any white space. */
  function Consume(s: string, c: char): (r: Option<string>)
    ensures r.Some? ==> |r.value| < |s|
  {
    var t := SkipSpace(s);
    if t != "" && t[0] == c then Some(t[1..]) else None
  }

  lemma Consumes(blank: string, c: char, d: char, s: string)
    requires Blank(blank) && !IsSpace(c)
    ensures Consume(blank + [c] + s, d) == if c == d then Some(s) else None
  {
    SkipsBlank(blank, [c] + s);
    assert blank + [c] + s == blank + ([c] + s);
    assert ([c] + s)[1..] == s;
  }

  // -------------------------------------------------------------------- strings

  function HexValue(c: char): Option<nat> {
    if '0' <= c <= '9' then Some(c as int - '0' as int)
    else if 'a' <= c <= 'f' then Some(c as int - 'a' as int + 10)
    else if 'A' <= c <= 'F' then Some(c as int - 'A' as int + 10)
    else None
  }

  /** The number that the first k hexadecimal digits stand for. */
  function HexNumber(s: string, k: nat): Option<nat>
    requires k <= |s|
  {
    if k == 0 then Some(0)
    else
      var high, digit := HexNumber(s, k - 1), HexValue(s[k - 1]);
      if high.None? || digit.None? then None else Some(high.value * 16 + digit.value)
  }

  /** The character after a backslash, at the front of the text, and what follows it. */
  function EscapeToken(s: string): (r: Parsed<char>)
    ensures r.Ok? ==> |r.value.1| < |s|
  {
    if s == "" then Err(Malformed)
    else if s[0] == '\"' || s[0] == '\\' || s[0] == '/' then Ok((s[0], s[1..]))
    else if s[0] == 'b' then Ok((8 as char, s[1..]))
    else if s[0] == 'f' then Ok((12 as char, s[1..]))
    else if s[0] == 'n' then Ok(('\n', s[1..]))
    else if s[0] == 'r' then Ok(('\r', s[1..]))
    else if s[0] == 't' then Ok(('\t', s[1..]))
    else if s[0] == 'u' then UnicodeToken(s[1..])
    else Err(Malformed)
  }

  /** Four hexadecimal digits of an ASCII character. */
  function UnicodeToken(s: string): (r: Parsed<char>)
    ensures r.Ok? ==> |r.value.1| < |s|
  {
    if |s| < 4 then Err(Malformed)
    else
      var value := HexNumber(s[..4], 4);
      if value.Some? && value.value <= 0x7f then Ok((value.value as char, s[4..])) else Err(Malformed)
  }

  lemma {:induction false} NoHexNumber(s: string, k: nat)
    requires k <= |s| && HexNumber(s, k).None?
    ensures HexNumber(s, |s|).None?
    decreases |s| - k
  {
    if k < |s| { NoHexNumber(s, k + 1); }
  }

  /** Up to the closing quote. */
  function StringBody(s: string): (r: Parsed<string>)
    ensures r.Ok? ==> |r.value.1| < |s|
    decreases |s|
  {
    if s == "" then Err(Malformed)
    else if s[0] == '\"' then Ok(("", s[1..]))
    else if s[0] != '\\' then Prepend(s[0], StringBody(s[1..]))
    else match EscapeToken(s[1..])
      case Err(e) => Err(e)
      case Ok((c, rest)) => Prepend(c, StringBody(rest))
  }

  function Prepend(c: char, r: Parsed<string>): Parsed<string> {
    match r
    case Err(e) => Err(e)
    case Ok((s, rest)) => Ok(([c] + s, rest))
  }

  function StringToken(s: string): (r: Parsed<string>)
    ensures r.Ok? ==> |r.value.1| < |s|
  {
    var t := SkipSpace(s);
    if t == "" || t[0] != '\"' then Err(Malformed) else StringBody(t[1..])
  }

  function Quoted(s: string): string {
    ['\"'] + Escape(s) + ['\"']
  }

  lemma HexControl(c: char)
    requires c as int < 0x20
    ensures HexNumber(['0', '0', HexDigit(c as int / 16), HexDigit(c as int % 16)], 4) == Some(c as int)
  {
    HexDigitValue(c as int / 16);
    HexDigitValue(c as int % 16);
    var s := ['0', '0', HexDigit(c as int / 16), HexDigit(c as int % 16)];
    assert HexValue('0') == Some(0) && HexNumber(s, 0) == Some(0);
    assert HexNumber(s, 1) == Some(0);
    assert HexNumber(s, 2) == Some(0);
    assert HexNumber(s, 3) == Some(c as int / 16);
  }

  lemma HexDigitValue(n: nat)
    requires n < 16
    ensures HexValue(HexDigit(n)) == Some(n)
  {
  }

  lemma ReadsPlain(c: char, rest: string)
    requires c != '\"' && c != '\\'
    ensures StringBody([c] + rest) == Prepend(c, StringBody(rest))
  {
    assert ([c] + rest)[1..] == rest;
  }

  lemma ReadsAfterBackslash(c: char, token: string, rest: string)
    requires EscapeToken(token + rest) == Ok((c, rest))
    ensures StringBody(['\\'] + token + rest) == Prepend(c, StringBody(rest))
  {
    assert (['\\'] + token + rest)[1..] == token + rest;
  }

  lemma ReadsLetter(d: char, rest: string)
    requires d in {'\"', '\\', 'b', 'f', 'n', 'r', 't'}
    ensures EscapeToken([d] + rest).Ok? && EscapeToken([d] + rest).value.1 == rest
  {
    assert ([d] + rest)[1..] == rest;
  }

  lemma ReadsControl(c: char, rest: string)
    requires c as int < 0x20
    ensures EscapeToken(['u', '0', '0', HexDigit(c as int / 16), HexDigit(c as int % 16)] + rest) == Ok((c, rest))
  {
    var s := ['u', '0', '0', HexDigit(c as int / 16), HexDigit(c as int % 16)] + rest;
    HexControl(c);
    assert s[1..][..4] == ['0', '0', HexDigit(c as int / 16), HexDigit(c as int % 16)];
    assert s[1..][4..] == rest;
  }

  /** One escaped character is read back. */
  lemma ReadsEscaped(c: char, rest: string)
    ensures StringBody(EscapeChar(c) + rest) == Prepend(c, StringBody(rest))
  {
    var e := EscapeChar(c);
    if |e| == 1 {
      ReadsPlain(c, rest);
    } else if |e| == 2 {
      ReadsLetter(e[1], rest);
      ReadsAfterBackslash(c, [e[1]], rest);
      assert e == ['\\'] + [e[1]];
    } else {
      ReadsControl(c, rest);
      ReadsAfterBackslash(c, e[1..], rest);
      assert e == ['\\'] + e[1..];
    }
  }

  lemma SpreadFront(f: char -> string, s: string, t: string)
    requires s != ""
    ensures Spread(f, s) + t == f(s[0]) + (Spread(f, s[1..]) + t)
  {
  }

  /** What is escaped and quoted is read back, whatever the string and whatever follows. */
  lemma {:induction false} ReadsEscape(s: string, rest: string)
    ensures StringBody(Escape(s) + (['\"'] + rest)) == Ok((s, rest))
  {
    var end := ['\"'] + rest;
    if s == "" {
      assert Escape(s) + end == end && end[1..] == rest;
    } else {
      ReadsEscape(s[1..], rest);
      SpreadFront(EscapeChar, s, end);
      ReadsEscaped(s[0], Escape(s[1..]) + end);
      assert [s[0]] + s[1..] == s;
    }
  }

  lemma QuotedBody(s: string, rest: string)
    ensures var t := Quoted(s) + rest; t[0] == '\"' && t[1..] == Escape(s) + (['\"'] + rest)
  {
  }

  lemma ReadsQuoted(blank: string, s: string, rest: string)
    requires Blank(blank)
    ensures StringToken(blank + Quoted(s) + rest) == Ok((s, rest))
  {
    QuotedBody(s, rest);
    SkipsBlank(blank, Quoted(s) + rest);
    assert blank + Quoted(s) + rest == blank + (Quoted(s) + rest);
    ReadsEscape(s, rest);
  }

  // -------------------------------------------------------------------- numbers

  const TwoTo64: nat := 0x1_0000_0000_0000_0000

  predicate IsDigit(c: char) {
    '0' <= c <= '9'
  }

  function Digits(n: nat): (s: string)
    ensures s != "" && forall i :: 0 <= i < |s| ==> IsDigit(s[i])
  {
    if n < 10 then [('0' as int + n) as char] else Digits(n / 10) + [('0' as int + n % 10) as char]
  }

  function DigitValue(c: char): nat
    requires IsDigit(c)
  {
    c as int - '0' as int
  }

  function DigitsValue(s: string): nat
    requires forall i :: 0 <= i < |s| ==> IsDigit(s[i])
  {
    if s == "" then 0 else 10 * DigitsValue(s[..|s| - 1]) + DigitValue(s[|s| - 1])
  }

  lemma {:induction false} ValueOfDigits(n: nat)
    ensures DigitsValue(Digits(n)) == n
  {
    if n < 10 {
      assert Digits(n)[..0] == "";
    } else {
      ValueOfDigits(n / 10);
      assert Digits(n)[..|Digits(n)| - 1] == Digits(n / 10);
    }
  }

  /** The length of the run of digits at the front. */
  function DigitRun(s: string): (n: nat)
    ensures n <= |s| && (forall i :: 0 <= i < n ==> IsDigit(s[i])) && (n < |s| ==> !IsDigit(s[n]))
  {
    if s == "" || !IsDigit(s[0]) then 0 else 1 + DigitRun(s[1..])
  }

  lemma {:induction false} RunOfDigits(d: string, rest: string)
    requires (forall i :: 0 <= i < |d| ==> IsDigit(d[i])) && (rest == "" || !IsDigit(rest[0]))
    ensures DigitRun(d + rest) == |d|
  {
    if d == "" {
      assert d + rest == rest;
    } else {
      RunOfDigits(d[1..], rest);
      assert (d + rest)[1..] == d[1..] + rest;
    }
  }

  function NumberToken(s: string): (r: Parsed<nat>)
    ensures r.Ok? ==> |r.value.1| < |s| && r.value.0 < TwoTo64
  {
    var t := SkipSpace(s);
    var n := DigitRun(t);
    if n == 0 || DigitsValue(t[..n]) >= TwoTo64 then Err(Malformed) else Ok((DigitsValue(t[..n]), t[n..]))
  }

  lemma ReadsNumber(blank: string, n: nat, rest: string)
    requires Blank(blank) && n < TwoTo64 && (rest == "" || !IsDigit(rest[0]))
    ensures NumberToken(blank + Digits(n) + rest) == Ok((n, rest))
  {
    var d := Digits(n);
    var t := d + rest;
    SkipsBlank(blank, t);
    assert blank + d + rest == blank + t;
    RunOfDigits(d, rest);
    assert t[..|d|] == d && t[|d|..] == rest;
    ValueOfDigits(n);
  }

  // ------------------------------------------------------------------- booleans

  function BoolText(b: bool): string {
    if b then "true" else "false"
  }

  predicate StartsWith(s: string, prefix: string) {
    |prefix| <= |s| && s[..|prefix|] == prefix
  }

  function BoolToken(s: string): (r: Parsed<bool>)
    ensures r.Ok? ==> |r.value.1| < |s|
  {
    var t := SkipSpace(s);
    if StartsWith(t, "true") then Ok((true, t[4..]))
    else if StartsWith(t, "false") then Ok((false, t[5..]))
    else Err(Malformed)
  }

  lemma ReadsBool(blank: string, b: bool, rest: string)
    requires Blank(blank)
    ensures BoolToken(blank + BoolText(b) + rest) == Ok((b, rest))
  {
    var t := BoolText(b) + rest;
    SkipsBlank(blank, t);
    assert blank + BoolText(b) + rest == blank + t;
    assert t[..|BoolText(b)|] == BoolText(b) && t[|BoolText(b)|..] == rest;
    if !b { assert t[..4][0] == 'f'; }
  }
}
