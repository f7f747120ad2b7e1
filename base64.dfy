/** `Buffer.from(s).toString('base64')`: the UTF-8 bytes of a string, encoded
    with the base 64 alphabet and `=` padding of section 4 of RFC 4648. */
module Base64 {
  import opened Wrappers

  type Byte = x: int | 0 <= x < 256

  /** A 6-bit value. */
  type Sextet = x: int | 0 <= x < 64

  // ---------------------------------------------------------------------------
  // UTF-8 (what `Buffer.from(string)` produces)

  /** The UTF-8 encoding of one Unicode scalar value (section 3 of RFC 3629). */
  function Utf8Char(c: char): (bs: seq<Byte>)
    ensures 1 <= |bs| <= 4
    ensures (c as int < 0x80) <==> |bs| == 1
  {
    var v := c as int;
    if v < 0x80 then [v]
    else if v < 0x800 then [0xC0 + v / 64, 0x80 + v % 64]
    else if v < 0x10000 then [0xE0 + v / 4096, 0x80 + (v / 64) % 64, 0x80 + v % 64]
    else [0xF0 + v / 262144, 0x80 + (v / 4096) % 64, 0x80 + (v / 64) % 64, 0x80 + v % 64]
  }

  function Utf8(s: string): (bs: seq<Byte>)
    ensures |s| <= |bs| <= 4 * |s|
  {
    if s == [] then [] else Utf8Char(s[0]) + Utf8(s[1..])
  }

  lemma {:induction false} Utf8Append(a: string, b: string)
    ensures Utf8(a + b) == Utf8(a) + Utf8(b)
  {
    if a != [] {
      assert (a + b)[0] == a[0] && (a + b)[1..] == a[1..] + b;
      Utf8Append(a[1..], b);
    } else {
      assert a + b == b;
    }
  }

  /** ASCII text is its own UTF-8 encoding, one byte per character. */
  lemma {:induction false} Utf8Ascii(s: string)
    requires forall i :: 0 <= i < |s| ==> s[i] as int < 0x80
    ensures |Utf8(s)| == |s|
    ensures forall i :: 0 <= i < |s| ==> Utf8(s)[i] == s[i] as int
  {
    if s != [] {
      Utf8Ascii(s[1..]);
    }
  }

  // ---------------------------------------------------------------------------
  // The alphabet of Table 1 of RFC 4648

  function Digit(v: Sextet): (c: char)
    ensures IsDigitChar(c)
  {
    if v < 26 then ('A' as int + v) as char
    else if v < 52 then ('a' as int + (v - 26)) as char
    else if v < 62 then ('0' as int + (v - 52)) as char
    else if v == 62 then '+'
    else '/'
  }

  predicate IsDigitChar(c: char) {
    ('A' <= c <= 'Z') || ('a' <= c <= 'z') || ('0' <= c <= '9') || c == '+' || c == '/'
  }

  function DigitValue(c: char): (v: Sextet)
    requires IsDigitChar(c)
  {
    if 'A' <= c <= 'Z' then c as int - 'A' as int
    else if 'a' <= c <= 'z' then c as int - 'a' as int + 26
    else if '0' <= c <= '9' then c as int - '0' as int + 52
    else if c == '+' then 62
    else 63
  }

  lemma DigitRoundTrip(v: Sextet)
    ensures DigitValue(Digit(v)) == v
  {
  }

  /** Every character of an encoding is an alphabet character or the pad `=`. */
  predicate IsEncodingChar(c: char) {
    IsDigitChar(c) || c == '='
  }

  // ---------------------------------------------------------------------------
  // Encoding: each 24-bit group of three bytes becomes four characters; a final
  // group of one or two bytes is padded with `==` or `=` (section 4 of RFC 4648).

  function EncodeGroup(b0: Byte, b1: Byte, b2: Byte): (s: string)
    ensures |s| == 4
  {
    [Digit(b0 / 4), Digit((b0 % 4) * 16 + b1 / 16), Digit((b1 % 16) * 4 + b2 / 64), Digit(b2 % 64)]
  }

  function Encode(bs: seq<Byte>): (s: string)
    ensures |s| == 4 * ((|bs| + 2) / 3)
    ensures forall i :: 0 <= i < |s| ==> IsEncodingChar(s[i])
    decreases |bs|
  {
    if |bs| == 0 then ""
    else if |bs| == 1 then [Digit(bs[0] / 4), Digit((bs[0] % 4) * 16), '=', '=']
    else if |bs| == 2 then [Digit(bs[0] / 4), Digit((bs[0] % 4) * 16 + bs[1] / 16), Digit((bs[1] % 16) * 4), '=']
    else EncodeGroup(bs[0], bs[1], bs[2]) + Encode(bs[3..])
  }

  // ---------------------------------------------------------------------------
  // Decoding, the inverse the seed is checked against

  function DecodeGroup(s: string): (r: Option<seq<Byte>>)
    requires |s| == 4
  {
    if !IsDigitChar(s[0]) || !IsDigitChar(s[1]) then None
    else
      var c0, c1 := DigitValue(s[0]), DigitValue(s[1]);
      if s[2] == '=' && s[3] == '=' then Some([c0 * 4 + c1 / 16])
      else if !IsDigitChar(s[2]) then None
      else
        var c2 := DigitValue(s[2]);
        if s[3] == '=' then Some([c0 * 4 + c1 / 16, (c1 % 16) * 16 + c2 / 4])
        else if !IsDigitChar(s[3]) then None
        else
          var c3 := DigitValue(s[3]);
          Some([c0 * 4 + c1 / 16, (c1 % 16) * 16 + c2 / 4, (c2 % 4) * 64 + c3])
  }

  function Decode(s: string): (r: Option<seq<Byte>>)
    decreases |s|
  {
    if s == [] then Some([])
    else if |s| < 4 then None
    else
      match DecodeGroup(s[..4])
      case None => None
      case Some(g) =>
        if |g| < 3 && |s| > 4 then None
        else match Decode(s[4..])
          case None => None
          case Some(rest) => Some(g + rest)
  }

  lemma FirstByte(b0: Byte, b1: Byte)
    ensures (b0 / 4) * 4 + ((b0 % 4) * 16 + b1 / 16) / 16 == b0
    ensures ((b0 % 4) * 16 + b1 / 16) % 16 == b1 / 16
  {
  }

  lemma SecondByte(b1: Byte, b2: Byte)
    ensures (b1 / 16) * 16 + ((b1 % 16) * 4 + b2 / 64) / 4 == b1
    ensures ((b1 % 16) * 4 + b2 / 64) % 4 == b2 / 64
  {
  }

  lemma GroupRoundTrip(b0: Byte, b1: Byte, b2: Byte)
    ensures DecodeGroup(EncodeGroup(b0, b1, b2)) == Some([b0, b1, b2])
  {
    var c0, c1, c2, c3 := b0 / 4, (b0 % 4) * 16 + b1 / 16, (b1 % 16) * 4 + b2 / 64, b2 % 64;
    var s := EncodeGroup(b0, b1, b2);
    DigitRoundTrip(c0);
    DigitRoundTrip(c1);
    DigitRoundTrip(c2);
    DigitRoundTrip(c3);
    assert DigitValue(s[0]) == c0 && DigitValue(s[1]) == c1;
    assert DigitValue(s[2]) == c2 && DigitValue(s[3]) == c3;
    assert s[2] != '=' && s[3] != '=';
    FirstByte(b0, b1);
    SecondByte(b1, b2);
    assert (c2 % 4) * 64 + c3 == b2;
  }

  lemma SingleRoundTrip(b0: Byte)
    ensures Decode(Encode([b0])) == Some([b0])
  {
    var s := Encode([b0]);
    DigitRoundTrip(b0 / 4);
    DigitRoundTrip((b0 % 4) * 16);
    assert DecodeGroup(s) == Some([b0]);
    assert s[..4] == s && s[4..] == [];
    assert Decode(s[4..]) == Some([]);
    assert [b0] + [] == [b0];
  }

  lemma PairRoundTrip(b0: Byte, b1: Byte)
    ensures Decode(Encode([b0, b1])) == Some([b0, b1])
  {
    var s := Encode([b0, b1]);
    DigitRoundTrip(b0 / 4);
    DigitRoundTrip((b0 % 4) * 16 + b1 / 16);
    DigitRoundTrip((b1 % 16) * 4);
    FirstByte(b0, b1);
    SecondByte(b1, 0);
    assert DigitValue(s[0]) == b0 / 4 && DigitValue(s[1]) == (b0 % 4) * 16 + b1 / 16;
    assert DigitValue(s[2]) == (b1 % 16) * 4 && s[2] != '=' && s[3] == '=';
    assert DecodeGroup(s) == Some([b0, b1]);
    assert s[..4] == s && s[4..] == [];
    assert Decode(s[4..]) == Some([]);
    assert [b0, b1] + [] == [b0, b1];
  }

  lemma DecodeAppend(g: string, rest: string, x: seq<Byte>, y: seq<Byte>)
    requires |g| == 4 && DecodeGroup(g) == Some(x) && |x| == 3 && Decode(rest) == Some(y)
    ensures Decode(g + rest) == Some(x + y)
  {
    var s := g + rest;
    assert s[..4] == g && s[4..] == rest;
  }

  lemma EncodeCons(b0: Byte, b1: Byte, b2: Byte, rest: seq<Byte>)
    ensures Encode([b0, b1, b2] + rest) == EncodeGroup(b0, b1, b2) + Encode(rest)
  {
    var bs := [b0, b1, b2] + rest;
    assert bs[0] == b0 && bs[1] == b1 && bs[2] == b2 && bs[3..] == rest;
  }

  lemma GroupThenRest(b0: Byte, b1: Byte, b2: Byte, rest: seq<Byte>)
    requires Decode(Encode(rest)) == Some(rest)
    ensures Decode(Encode([b0, b1, b2] + rest)) == Some([b0, b1, b2] + rest)
  {
    EncodeCons(b0, b1, b2, rest);
    GroupRoundTrip(b0, b1, b2);
    DecodeAppend(EncodeGroup(b0, b1, b2), Encode(rest), [b0, b1, b2], rest);
  }

  /** Decoding an encoding gives back the bytes. */
  lemma {:induction false} DecodeEncode(bs: seq<Byte>)
    ensures Decode(Encode(bs)) == Some(bs)
    decreases |bs|
  {
    if |bs| == 1 {
      assert bs == [bs[0]];
      SingleRoundTrip(bs[0]);
    } else if |bs| == 2 {
      assert bs == [bs[0], bs[1]];
      PairRoundTrip(bs[0], bs[1]);
    } else if |bs| >= 3 {
      var head: seq<Byte>, rest := [bs[0], bs[1], bs[2]], bs[3..];
      assert bs == head + rest;
      DecodeEncode(rest);
      GroupThenRest(bs[0], bs[1], bs[2], rest);
    }
  }

  /** The first `4k` characters of an encoding are the encoding of the first `3k` bytes. */
  lemma {:induction false} EncodePrefix(bs: seq<Byte>, k: nat)
    requires 3 * k <= |bs|
    ensures Encode(bs)[..4 * k] == Encode(bs[..3 * k])
    decreases k
  {
    if k > 0 {
      EncodePrefix(bs[3..], k - 1);
      assert bs[..3 * k][3..] == bs[3..][..3 * (k - 1)];
      assert bs[..3 * k][..3] == bs[..3];
    }
  }
}
