/** The JavaScript string operations the services rely on: prefix and substring
    tests, UTF-16 length, decimal rendering of integers (template literals),
    `parseInt` with an implicit radix, and `path.join` of two components. */
module Text {
  import opened Wrappers

  /** `s.startsWith(prefix)`. */
  predicate StartsWith(s: string, prefix: string) {
    prefix <= s
  }

  /** `s.includes(sub)`; also the store's `contains` string filter. */
  predicate Contains(s: string, sub: string)
    decreases |s|
  {
    sub <= s || (|s| > 0 && Contains(s[1..], sub))
  }

  lemma {:induction false} ContainsAt(s: string, sub: string, i: nat)
    requires i + |sub| <= |s| && s[i..i + |sub|] == sub
    ensures Contains(s, sub)
    decreases i
  {
    if i > 0 {
      assert s[1..][i - 1..i - 1 + |sub|] == s[i..i + |sub|];
      ContainsAt(s[1..], sub, i - 1);
    }
  }

  /** JavaScript strings are UTF-16: a character outside the Basic Multilingual
      Plane counts as two code units in `length` and `substring`. */
  function Utf16Width(c: char): nat {
    if c as int > 0xFFFF then 2 else 1
  }

  function Utf16Length(s: string): (n: nat)
    ensures |s| <= n <= 2 * |s|
    ensures (forall i :: 0 <= i < |s| ==> s[i] as int <= 0xFFFF) ==> n == |s|
  {
    if s == [] then 0 else Utf16Width(s[0]) + Utf16Length(s[1..])
  }

  lemma {:induction false} Utf16LengthAppend(a: string, b: string)
    ensures Utf16Length(a + b) == Utf16Length(a) + Utf16Length(b)
  {
    if a != [] {
      assert (a + b)[0] == a[0] && (a + b)[1..] == a[1..] + b;
      Utf16LengthAppend(a[1..], b);
    } else {
      assert a + b == b;
    }
  }

  // ---------------------------------------------------------------------------
  // Decimal rendering, as `${n}` does for a non-negative integer

  function DigitChar(d: nat): (c: char)
    requires d < 10
    ensures IsDigit(c)
  {
    "0123456789"[d]
  }

  predicate IsDigit(c: char) {
    '0' <= c <= '9'
  }

  function DigitValue(c: char): nat
    requires IsDigit(c)
  {
    c as int - '0' as int
  }

  function NatToString(n: nat): (s: string)
    ensures |s| > 0
    ensures forall i :: 0 <= i < |s| ==> IsDigit(s[i])
    decreases n
  {
    if n < 10 then [DigitChar(n)] else NatToString(n / 10) + [DigitChar(n % 10)]
  }

  /** `${x}` for an integer. */
  function IntToString(x: int): string {
    if x < 0 then "-" + NatToString(-x) else NatToString(x)
  }

  /** The value of a non-empty run of decimal digits. */
  function DigitsValue(s: string): nat
    requires forall i :: 0 <= i < |s| ==> IsDigit(s[i])
    decreases |s|
  {
    if s == [] then 0 else DigitsValue(s[..|s| - 1]) * 10 + DigitValue(s[|s| - 1])
  }

  lemma {:induction false} DigitsValueOfNatToString(n: nat)
    ensures DigitsValue(NatToString(n)) == n
    decreases n
  {
    var s := NatToString(n);
    if n >= 10 {
      assert s[..|s| - 1] == NatToString(n / 10);
      DigitsValueOfNatToString(n / 10);
      assert DigitValue(DigitChar(n % 10)) == n % 10;
    } else {
      assert DigitValue(DigitChar(n)) == n;
    }
  }

  // ---------------------------------------------------------------------------
  // parseInt(s) with no radix argument

  /** The characters `parseInt` skips before the number (ECMAScript's
      WhiteSpace and LineTerminator productions). */
  predicate IsJsWhitespace(c: char) {
    c == ' ' || c == '\t' || c == '\n' || c == '\r' || c == '\U{000B}' || c == '\U{000C}'
    || c == '\U{00A0}' || c == '\U{1680}' || ('\U{2000}' <= c <= '\U{200A}')
    || c == '\U{2028}' || c == '\U{2029}' || c == '\U{202F}' || c == '\U{205F}'
    || c == '\U{3000}' || c == '\U{FEFF}'
  }

  function TrimStart(s: string): (r: string)
    ensures |r| <= |s| && r == s[|s| - |r|..]
    ensures r == [] || !IsJsWhitespace(r[0])
    ensures forall i :: 0 <= i < |s| - |r| ==> IsJsWhitespace(s[i])
    decreases |s|
  {
    if s != [] && IsJsWhitespace(s[0]) then TrimStart(s[1..]) else s
  }

  predicate IsHexDigit(c: char) {
    IsDigit(c) || ('a' <= c <= 'f') || ('A' <= c <= 'F')
  }

  function HexDigitValue(c: char): nat
    requires IsHexDigit(c)
  {
    if IsDigit(c) then DigitValue(c)
    else if 'a' <= c <= 'f' then c as int - 'a' as int + 10
    else c as int - 'A' as int + 10
  }

  /** Length of the longest prefix of `s` whose characters satisfy the digit test
      for the given radix (10 or 16). */
  function DigitRun(s: string, hex: bool): (n: nat)
    ensures n <= |s|
    ensures forall i :: 0 <= i < n ==> if hex then IsHexDigit(s[i]) else IsDigit(s[i])
    ensures n < |s| ==> !(if hex then IsHexDigit(s[n]) else IsDigit(s[n]))
    decreases |s|
  {
    if s != [] && (if hex then IsHexDigit(s[0]) else IsDigit(s[0])) then 1 + DigitRun(s[1..], hex) else 0
  }

  function RunValue(s: string, hex: bool): nat
    requires forall i :: 0 <= i < |s| ==> if hex then IsHexDigit(s[i]) else IsDigit(s[i])
    decreases |s|
  {
    if s == [] then 0
    else RunValue(s[..|s| - 1], hex) * (if hex then 16 else 10)
         + (if hex then HexDigitValue(s[|s| - 1]) else DigitValue(s[|s| - 1]))
  }

  lemma {:induction false} RunValueDecimal(s: string)
    requires forall i :: 0 <= i < |s| ==> IsDigit(s[i])
    ensures RunValue(s, false) == DigitsValue(s)
    decreases |s|
  {
    if s != [] {
      RunValueDecimal(s[..|s| - 1]);
    }
  }

  /** `parseInt(s)`: skip leading white space, read an optional sign, then a
      `0x`/`0X` prefix selects radix 16; the longest run of digits is the value,
      and no digit at all gives `NaN` (here `None`). */
  function ParseInt(s: string): (r: Option<int>)
    ensures r.Some? && r.value < 0 ==> TrimStart(s) != [] && TrimStart(s)[0] == '-'
  {
    ParseSigned(TrimStart(s))
  }

  /** What `parseInt` reads after the white space: an optional sign, then
      the unsigned number. */
  function ParseSigned(t: string): (r: Option<int>)
    ensures r.Some? && r.value < 0 ==> t != [] && t[0] == '-'
  {
    if t != [] && t[0] == '-' then
      match ParseUnsigned(t[1..])
      case None => None
      case Some(m) => Some(-m)
    else if t != [] && t[0] == '+' then ParseUnsigned(t[1..])
    else ParseUnsigned(t)
  }

  /** Where `parseInt` looks for digits: `s` after its leading white space and
      at most one sign; a suffix of `s`. */
  function Unsigned(s: string): (u: string)
    ensures |u| <= |s| && u == s[|s| - |u|..]
  {
    var t := TrimStart(s);
    if t != [] && (t[0] == '-' || t[0] == '+') then t[1..] else t
  }

  /** Without a digit where the digits should start, `parseInt` gives `NaN`. */
  lemma ParseIntWithoutDigit(s: string)
    requires Unsigned(s) == [] || !IsDigit(Unsigned(s)[0])
    ensures ParseInt(s) == None
  {
    assert DigitRun(Unsigned(s), false) == 0;
  }

  /** The unsigned part: a `0x`/`0X` prefix selects radix 16. */
  function ParseUnsigned(u: string): (r: Option<int>)
    ensures r.Some? ==> r.value >= 0
  {
    if |u| >= 2 && u[0] == '0' && (u[1] == 'x' || u[1] == 'X') then ParseRun(u[2..], true)
    else ParseRun(u, false)
  }

  /** The value of the longest run of digits at the start of `body`. */
  function ParseRun(body: string, hex: bool): (r: Option<int>)
    ensures r.Some? ==> r.value >= 0
  {
    var n := DigitRun(body, hex);
    if n == 0 then None else Some(RunValue(body[..n], hex))
  }

  lemma {:induction false} DigitRunOfDigits(s: string)
    requires forall i :: 0 <= i < |s| ==> IsDigit(s[i])
    ensures DigitRun(s, false) == |s|
    decreases |s|
  {
    if s != [] {
      DigitRunOfDigits(s[1..]);
    }
  }

  /** A plain numeral parses to the number its digits spell. */
  lemma ParseIntOfDigits(s: string)
    requires s != [] && forall i :: 0 <= i < |s| ==> IsDigit(s[i])
    ensures ParseInt(s) == Some(DigitsValue(s))
  {
    TrimStartOfDigit(s);
    ParseUnsignedOfDigits(s);
    assert s[0] != '-' && s[0] != '+';
  }

  lemma ParseUnsignedOfDigits(s: string)
    requires s != [] && forall i :: 0 <= i < |s| ==> IsDigit(s[i])
    ensures ParseUnsigned(s) == Some(DigitsValue(s))
  {
    assert |s| >= 2 ==> IsDigit(s[1]);
    ParseRunOfDigits(s);
  }

  lemma TrimStartOfDigit(s: string)
    requires s != [] && IsDigit(s[0])
    ensures TrimStart(s) == s
  {
    assert !IsJsWhitespace(s[0]);
  }

  lemma ParseRunOfDigits(s: string)
    requires s != [] && forall i :: 0 <= i < |s| ==> IsDigit(s[i])
    ensures ParseRun(s, false) == Some(DigitsValue(s))
  {
    DigitRunOfDigits(s);
    assert s[..|s|] == s;
    RunValueDecimal(s);
  }

  /** Leading white space is all `TrimStart` drops. */
  lemma {:induction false} TrimStartOfPadded(w: string, t: string)
    requires forall i :: 0 <= i < |w| ==> IsJsWhitespace(w[i])
    requires t == [] || !IsJsWhitespace(t[0])
    ensures TrimStart(w + t) == t
    decreases |w|
  {
    if w != [] {
      assert (w + t)[0] == w[0] && (w + t)[1..] == w[1..] + t;
      TrimStartOfPadded(w[1..], t);
    } else {
      assert w + t == t;
    }
  }

  /** The digit run stops where the digits stop. */
  lemma {:induction false} DigitRunOfPrefix(d: string, rest: string, hex: bool)
    requires forall i :: 0 <= i < |d| ==> if hex then IsHexDigit(d[i]) else IsDigit(d[i])
    requires rest == [] || !(if hex then IsHexDigit(rest[0]) else IsDigit(rest[0]))
    ensures DigitRun(d + rest, hex) == |d|
    decreases |d|
  {
    if d != [] {
      assert (d + rest)[0] == d[0] && (d + rest)[1..] == d[1..] + rest;
      DigitRunOfPrefix(d[1..], rest, hex);
    } else {
      assert d + rest == rest;
    }
  }

  /** The signed value of an unsigned result. */
  function Signed(sg: string, value: int): int {
    if sg == "-" then -value else value
  }

  /** After white space, `parseInt` reads from the first other character. */
  lemma ParseIntOfPadded(w: string, t: string)
    requires forall i :: 0 <= i < |w| ==> IsJsWhitespace(w[i])
    requires t != [] && !IsJsWhitespace(t[0])
    ensures ParseInt(w + t) == ParseSigned(t)
  {
    TrimStartOfPadded(w, t);
  }

  /** `parseInt` reads an optional sign and applies it to the value of the
      unsigned rest. */
  lemma ParseSignedOfSign(sg: string, body: string)
    requires sg == "" || sg == "+" || sg == "-"
    requires body != [] && (sg != "" || IsDigit(body[0]))
    ensures ParseUnsigned(body).None? ==> ParseSigned(sg + body).None?
    ensures ParseUnsigned(body).Some? ==> ParseSigned(sg + body) == Some(Signed(sg, ParseUnsigned(body).value))
  {
    var t := sg + body;
    if sg == "" {
      assert t == body;
    } else {
      assert t[0] == sg[0] && t[1..] == body;
    }
  }

  /** The first character after the white space is a sign or a digit. */
  lemma SignOrDigitNotSpace(sg: string, body: string)
    requires sg == "" || sg == "+" || sg == "-"
    requires body != [] && (sg != "" || IsDigit(body[0]))
    ensures !IsJsWhitespace((sg + body)[0])
  {
    assert (sg + body)[0] == if sg == "" then body[0] else sg[0];
  }

  lemma Regroup(a: string, b: string, c: string, d: string)
    ensures a + b + c + d == a + (b + (c + d))
  {
  }

  /** `parseInt` of a padded, signed decimal numeral followed by anything
      that does not continue it: the numeral's value with its sign, e.g.
      `" 7"`, `"-5"`, `"+3"`, `"12abc"`. */
  lemma ParseIntOfNumeral(w: string, sg: string, d: string, rest: string)
    requires forall i :: 0 <= i < |w| ==> IsJsWhitespace(w[i])
    requires sg == "" || sg == "+" || sg == "-"
    requires d != [] && forall i :: 0 <= i < |d| ==> IsDigit(d[i])
    requires rest == [] || !IsDigit(rest[0])
    requires d != "0" || rest == [] || (rest[0] != 'x' && rest[0] != 'X')
    ensures ParseInt(w + sg + d + rest) == Some(Signed(sg, DigitsValue(d)))
  {
    Regroup(w, sg, d, rest);
    DecimalUnsigned(d, rest);
    ParseSignedOfSign(sg, d + rest);
    SignOrDigitNotSpace(sg, d + rest);
    ParseIntOfPadded(w, sg + (d + rest));
  }

  lemma DecimalUnsigned(d: string, rest: string)
    requires d != [] && forall i :: 0 <= i < |d| ==> IsDigit(d[i])
    requires rest == [] || !IsDigit(rest[0])
    requires d != "0" || rest == [] || (rest[0] != 'x' && rest[0] != 'X')
    ensures ParseUnsigned(d + rest) == Some(DigitsValue(d))
  {
    var body := d + rest;
    assert body[0] == d[0];
    assert |body| >= 2 ==> body[1] == (if |d| >= 2 then d[1] else rest[0]);
    assert !(|body| >= 2 && body[0] == '0' && (body[1] == 'x' || body[1] == 'X')) by {
      if |d| == 1 && d[0] == '0' {
        assert d == "0";
      }
    }
    DigitRunOfPrefix(d, rest, false);
    assert body[..|d|] == d;
    RunValueDecimal(d);
  }

  /** `parseInt` of a padded, signed hexadecimal numeral after `0x` or `0X`,
      e.g. `"0x1A"` or `" -0XffZ"`: the radix-16 value with its sign. */
  lemma ParseIntOfHexNumeral(w: string, sg: string, prefix: string, h: string, rest: string)
    requires forall i :: 0 <= i < |w| ==> IsJsWhitespace(w[i])
    requires sg == "" || sg == "+" || sg == "-"
    requires prefix == "0x" || prefix == "0X"
    requires h != [] && forall i :: 0 <= i < |h| ==> IsHexDigit(h[i])
    requires rest == [] || !IsHexDigit(rest[0])
    ensures ParseInt(w + sg + prefix + h + rest) == Some(Signed(sg, RunValue(h, true)))
  {
    var body := prefix + (h + rest);
    RegroupHex(w, sg, prefix, h, rest);
    HexUnsigned(prefix, h + rest);
    HexRunOfPrefix(h, rest);
    assert ParseUnsigned(body) == Some(RunValue(h, true));
    assert body[0] == '0';
    ParseSignedOfSign(sg, body);
    SignOrDigitNotSpace(sg, body);
    ParseIntOfPadded(w, sg + body);
  }

  lemma RegroupHex(a: string, b: string, c: string, d: string, e: string)
    ensures a + b + c + d + e == a + (b + (c + (d + e)))
  {
  }

  lemma HexUnsigned(prefix: string, u: string)
    requires prefix == "0x" || prefix == "0X"
    ensures ParseUnsigned(prefix + u) == ParseRun(u, true)
  {
    var body := prefix + u;
    assert body[0] == '0' && body[1] == prefix[1] && |body| >= 2;
    assert body[2..] == u;
  }

  lemma HexRunOfPrefix(h: string, rest: string)
    requires h != [] && forall i :: 0 <= i < |h| ==> IsHexDigit(h[i])
    requires rest == [] || !IsHexDigit(rest[0])
    ensures ParseRun(h + rest, true) == Some(RunValue(h, true))
  {
    DigitRunOfPrefix(h, rest, true);
    assert (h + rest)[..|h|] == h;
  }

  lemma ParseIntOfNatToString(n: nat)
    ensures ParseInt(NatToString(n)) == Some(n)
  {
    ParseIntOfDigits(NatToString(n));
    DigitsValueOfNatToString(n);
  }

  // ---------------------------------------------------------------------------
  // JavaScript truthiness of optional values: `None` stands for `undefined` or
  // `null`, and the empty string and the number 0 are falsy too.

  predicate Truthy(o: Option<string>) {
    o.Some? && o.value != ""
  }

  /** `o || fallback` for an optional string. */
  function StringOr(o: Option<string>, fallback: string): (r: string)
    ensures Truthy(o) ==> r == o.value
    ensures !Truthy(o) ==> r == fallback
  {
    if Truthy(o) then o.value else fallback
  }

  /** `o || fallback` for an optional integer. */
  function NumberOr(o: Option<int>, fallback: int): (r: int)
    ensures o.Some? && o.value != 0 ==> r == o.value
    ensures o.None? || o.value == 0 ==> r == fallback
  {
    if o.Some? && o.value != 0 then o.value else fallback
  }

  /** `path.join(dir, name)` for a plain file name. */
  function Join(dir: string, name: string): (p: string)
    ensures StartsWith(p, dir + "/")
  {
    dir + "/" + name
  }
}
