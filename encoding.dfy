/**
 * The two encodings the device activation applies to the device UI password before it
 * is stored as a tag: UTF-8 (`str.encode("utf-8")`) and base64 with the standard
 * alphabet and `=` padding (section 4 of RFC 4648, `base64.b64encode`). Each comes with
 * a decoder, and decoding an encoding gives the input back.
 */
module Encoding {
  import opened Wrappers

  type byte = x: int | 0 <= x < 256

  // ----- UTF-8 -----

  predicate IsContinuation(b: byte) {
    0x80 <= b < 0xC0
  }

  predicate IsScalar(v: int) {
    0 <= v < 0xD800 || 0xE000 <= v < 0x11_0000
  }

  /** The UTF-8 bytes of one character: one to four bytes by the size of its code point. */
  function EncodeChar(c: char): (bs: seq<byte>)
    ensures 1 <= |bs| <= 4
  {
    var v := c as int;
    if v < 0x80 then [v]
    else if v < 0x800 then [0xC0 + v / 64, 0x80 + v % 64]
    else if v < 0x1_0000 then [0xE0 + v / 4096, 0x80 + v / 64 % 64, 0x80 + v % 64]
    else [0xF0 + v / 262144, 0x80 + v / 4096 % 64, 0x80 + v / 64 % 64, 0x80 + v % 64]
  }

  function Utf8Encode(s: string): seq<byte>
    decreases |s|
  {
    if s == [] then [] else EncodeChar(s[0]) + Utf8Encode(s[1..])
  }

  /**
   * The first character of well-formed UTF-8 and the number of bytes it takes:
   * no overlong form, no surrogate, nothing above U+10FFFF.
   */
  function DecodeFirst(bs: seq<byte>): (r: Option<(char, nat)>)
    requires bs != []
    ensures r.Some? ==> 1 <= r.value.1 <= |bs|
  {
    var b0 := bs[0] as int;
    if b0 < 0x80 then Some((b0 as char, 1))
    else if 0xC0 <= b0 < 0xE0 && |bs| >= 2 && IsContinuation(bs[1]) then
      var v := (b0 - 0xC0) * 64 + (bs[1] as int - 0x80);
      if v >= 0x80 then Some((v as char, 2)) else None
    else if 0xE0 <= b0 < 0xF0 && |bs| >= 3 && IsContinuation(bs[1]) && IsContinuation(bs[2]) then
      var v := (b0 - 0xE0) * 4096 + (bs[1] as int - 0x80) * 64 + (bs[2] as int - 0x80);
      if v >= 0x800 && IsScalar(v) then Some((v as char, 3)) else None
    else if 0xF0 <= b0 < 0xF8 && |bs| >= 4 && IsContinuation(bs[1]) && IsContinuation(bs[2]) && IsContinuation(bs[3]) then
      var v := (b0 - 0xF0) * 262144 + (bs[1] as int - 0x80) * 4096 + (bs[2] as int - 0x80) * 64 + (bs[3] as int - 0x80);
      if 0x1_0000 <= v < 0x11_0000 then Some((v as char, 4)) else None
    else None
  }

  /** `bytes.decode("utf-8")`; `None` where Python raises `UnicodeDecodeError`. */
  function Utf8Decode(bs: seq<byte>): Option<string>
    decreases |bs|
  {
    if bs == [] then Some([])
    else
      match DecodeFirst(bs)
      case None => None
      case Some((c, n)) =>
        match Utf8Decode(bs[n..])
        case None => None
        case Some(rest) => Some([c] + rest)
  }

  lemma TwoBytes(v: int)
    requires 0x80 <= v < 0x800
    ensures 0xC0 <= 0xC0 + v / 64 < 0xE0 && (v / 64) * 64 + v % 64 == v
  {
  }

  lemma ThreeBytes(v: int)
    requires 0x800 <= v < 0x1_0000
    ensures 0xE0 <= 0xE0 + v / 4096 < 0xF0
    ensures (v / 4096) * 4096 + (v / 64 % 64) * 64 + v % 64 == v
  {
    assert v / 64 == (v / 4096) * 64 + v / 64 % 64;
  }

  lemma FourBytes(v: int)
    requires 0x1_0000 <= v < 0x11_0000
    ensures 0xF0 <= 0xF0 + v / 262144 < 0xF8
    ensures (v / 262144) * 262144 + (v / 4096 % 64) * 4096 + (v / 64 % 64) * 64 + v % 64 == v
  {
    assert v / 4096 == (v / 262144) * 64 + v / 4096 % 64;
    assert v / 64 == (v / 4096) * 64 + v / 64 % 64;
  }

  /** The decoder reads exactly one encoded character back from the front. */
  lemma DecodeFirstOfEncodeChar(c: char, rest: seq<byte>)
    ensures DecodeFirst(EncodeChar(c) + rest) == Some((c, |EncodeChar(c)|))
  {
    var v := c as int;
    var bs := EncodeChar(c) + rest;
    if v < 0x80 {
    } else if v < 0x800 {
      TwoBytes(v);
    } else if v < 0x1_0000 {
      ThreeBytes(v);
    } else {
      FourBytes(v);
    }
  }

  /** UTF-8 round trip: decoding the encoding of a string gives the string. */
  lemma {:induction false} Utf8RoundTrip(s: string)
    ensures Utf8Decode(Utf8Encode(s)) == Some(s)
    decreases |s|
  {
    if s != [] {
      var first, rest := EncodeChar(s[0]), Utf8Encode(s[1..]);
      var bs := Utf8Encode(s);
      assert bs == first + rest;
      DecodeFirstOfEncodeChar(s[0], rest);
      assert bs[|first|..] == rest;
      Utf8RoundTrip(s[1..]);
      assert s == [s[0]] + s[1..];
    }
  }

  // ----- Base64 -----

  /** The character for a six-bit value, by the ranges of the alphabet. */
  function Sextet(i: int): (c: char)
    requires 0 <= i < 64
  {
    if i < 26 then ('A' as int + i) as char
    else if i < 52 then ('a' as int + i - 26) as char
    else if i < 62 then ('0' as int + i - 52) as char
    else if i == 62 then '+'
    else '/'
  }

  predicate IsBase64Char(c: char) {
    'A' <= c <= 'Z' || 'a' <= c <= 'z' || '0' <= c <= '9' || c == '+' || c == '/'
  }

  /** The six-bit value of an alphabet character. */
  function SextetValue(c: char): (i: int)
    requires IsBase64Char(c)
    ensures 0 <= i < 64
  {
    if 'A' <= c <= 'Z' then c as int - 'A' as int
    else if 'a' <= c <= 'z' then c as int - 'a' as int + 26
    else if '0' <= c <= '9' then c as int - '0' as int + 52
    else if c == '+' then 62
    else 63
  }

  /** Three bytes as four characters. */
  function EncodeTriple(b0: byte, b1: byte, b2: byte): string {
    var n := b0 as int * 65536 + b1 as int * 256 + b2;
    [Sextet(n / 262144), Sextet(n / 4096 % 64), Sextet(n / 64 % 64), Sextet(n % 64)]
  }

  /** `base64.b64encode(bs)`: groups of three bytes, the last group padded with `=`. */
  function Base64Encode(bs: seq<byte>): (s: string)
    ensures |s| == 4 * ((|bs| + 2) / 3)
    decreases |bs|
  {
    if |bs| == 0 then ""
    else if |bs| == 1 then [Sextet(bs[0] / 4), Sextet(bs[0] % 4 * 16), '=', '=']
    else if |bs| == 2 then [Sextet(bs[0] / 4), Sextet(bs[0] % 4 * 16 + bs[1] / 16), Sextet(bs[1] % 16 * 4), '=']
    else EncodeTriple(bs[0], bs[1], bs[2]) + Base64Encode(bs[3..])
  }

  /** Four characters of the alphabet as three bytes. */
  function DecodeQuad(c0: char, c1: char, c2: char, c3: char): seq<byte>
    requires IsBase64Char(c0) && IsBase64Char(c1) && IsBase64Char(c2) && IsBase64Char(c3)
  {
    var n := SextetValue(c0) * 262144 + SextetValue(c1) * 4096 + SextetValue(c2) * 64 + SextetValue(c3);
    [n / 65536, n / 256 % 256, n % 256]
  }

  /** The decoder: groups of four characters, `=` only as padding in the last group. */
  function Base64Decode(s: string): Option<seq<byte>>
    decreases |s|
  {
    if |s| == 0 then Some([])
    else if |s| < 4 then None
    else if |s| == 4 && IsBase64Char(s[0]) && IsBase64Char(s[1]) && s[2] == '=' && s[3] == '=' then
      Some([SextetValue(s[0]) * 4 + SextetValue(s[1]) / 16])
    else if |s| == 4 && IsBase64Char(s[0]) && IsBase64Char(s[1]) && IsBase64Char(s[2]) && s[3] == '=' then
      Some([SextetValue(s[0]) * 4 + SextetValue(s[1]) / 16, SextetValue(s[1]) % 16 * 16 + SextetValue(s[2]) / 4])
    else if IsBase64Char(s[0]) && IsBase64Char(s[1]) && IsBase64Char(s[2]) && IsBase64Char(s[3]) then
      match Base64Decode(s[4..])
      case None => None
      case Some(rest) => Some(DecodeQuad(s[0], s[1], s[2], s[3]) + rest)
    else None
  }

  // ----- Properties of base64 -----

  lemma SextetRoundTrip(i: int)
    requires 0 <= i < 64
    ensures IsBase64Char(Sextet(i)) && SextetValue(Sextet(i)) == i
  {
  }

  /** The test vectors of section 10 of RFC 4648: "", "f", "fo", "foo", "foob", "fooba" and "foobar". */
  lemma StandardTestVectors()
    ensures Base64Encode([]) == ""
    ensures Base64Encode([0x66]) == "Zg=="
    ensures Base64Encode([0x66, 0x6F]) == "Zm8="
    ensures Base64Encode([0x66, 0x6F, 0x6F]) == "Zm9v"
    ensures Base64Encode([0x66, 0x6F, 0x6F, 0x62]) == "Zm9vYg=="
    ensures Base64Encode([0x66, 0x6F, 0x6F, 0x62, 0x61]) == "Zm9vYmE="
    ensures Base64Encode([0x66, 0x6F, 0x6F, 0x62, 0x61, 0x72]) == "Zm9vYmFy"
  {
    ShortTestVectors();
    TestVectorAfterFoo([0x62], "Yg==");
    TestVectorAfterFoo([0x62, 0x61], "YmE=");
    TestVectorAfterFoo([0x62, 0x61, 0x72], "YmFy");
    var foo: seq<byte> := [0x66, 0x6F, 0x6F];
    assert foo + [0x62] == [0x66, 0x6F, 0x6F, 0x62];
    assert foo + [0x62, 0x61] == [0x66, 0x6F, 0x6F, 0x62, 0x61];
    assert foo + [0x62, 0x61, 0x72] == [0x66, 0x6F, 0x6F, 0x62, 0x61, 0x72];
  }

  /** The vectors of at most one group. */
  lemma ShortTestVectors()
    ensures Base64Encode([]) == ""
    ensures Base64Encode([0x66]) == "Zg=="
    ensures Base64Encode([0x66, 0x6F]) == "Zm8="
    ensures Base64Encode([0x66, 0x6F, 0x6F]) == "Zm9v"
    ensures Base64Encode([0x62]) == "Yg=="
    ensures Base64Encode([0x62, 0x61]) == "YmE="
    ensures Base64Encode([0x62, 0x61, 0x72]) == "YmFy"
  {
    assert EncodeTriple(0x66, 0x6F, 0x6F) == "Zm9v";
    assert EncodeTriple(0x62, 0x61, 0x72) == "YmFy";
  }

  /** "foo" is a full group, so what follows it is encoded on its own after "Zm9v". */
  lemma TestVectorAfterFoo(rest: seq<byte>, encoded: string)
    requires Base64Encode(rest) == encoded
    ensures Base64Encode([0x66, 0x6F, 0x6F] + rest) == "Zm9v" + encoded
  {
    var bs: seq<byte> := [0x66, 0x6F, 0x6F] + rest;
    assert bs[3..] == rest;
    assert EncodeTriple(0x66, 0x6F, 0x6F) == "Zm9v";
  }


  /** Every character of an encoding is an alphabet character or padding. */
  lemma {:induction false} Base64EncodeChars(bs: seq<byte>)
    ensures var s := Base64Encode(bs);
      forall i :: 0 <= i < |s| ==> IsBase64Char(s[i]) || s[i] == '='
    decreases |bs|
  {
    if |bs| == 1 {
      SextetRoundTrip(bs[0] / 4);
      SextetRoundTrip(bs[0] % 4 * 16);
    } else if |bs| == 2 {
      SextetRoundTrip(bs[0] / 4);
      SextetRoundTrip(bs[0] % 4 * 16 + bs[1] / 16);
      SextetRoundTrip(bs[1] % 16 * 4);
    } else if |bs| >= 3 {
      Base64EncodeChars(bs[3..]);
      var n := bs[0] as int * 65536 + bs[1] as int * 256 + bs[2];
      SextetRoundTrip(n / 262144);
      SextetRoundTrip(n / 4096 % 64);
      SextetRoundTrip(n / 64 % 64);
      SextetRoundTrip(n % 64);
      var t := EncodeTriple(bs[0], bs[1], bs[2]);
      var s := t + Base64Encode(bs[3..]);
      assert forall i :: 4 <= i < |s| ==> s[i] == Base64Encode(bs[3..])[i - 4];
    }
  }

  /** The four sextets of a 24-bit group put back together, and its three bytes read off. */
  lemma TripleArithmetic(b0: byte, b1: byte, b2: byte, n: int)
    requires n == b0 as int * 65536 + b1 as int * 256 + b2
    ensures 0 <= n / 262144 < 64
    ensures n / 262144 * 262144 + n / 4096 % 64 * 4096 + n / 64 % 64 * 64 + n % 64 == n
    ensures n / 65536 == b0 && n / 256 % 256 == b1 && n % 256 == b2
  {
    assert n / 4096 == n / 262144 * 64 + n / 4096 % 64;
    assert n / 64 == n / 4096 * 64 + n / 64 % 64;
    assert n / 256 == b0 * 256 + b1;
  }

  lemma DecodeTriple(b0: byte, b1: byte, b2: byte)
    ensures var t := EncodeTriple(b0, b1, b2);
      && IsBase64Char(t[0]) && IsBase64Char(t[1]) && IsBase64Char(t[2]) && IsBase64Char(t[3])
      && DecodeQuad(t[0], t[1], t[2], t[3]) == [b0, b1, b2]
  {
    var n := b0 as int * 65536 + b1 as int * 256 + b2;
    TripleArithmetic(b0, b1, b2, n);
    var q0, q1, q2, q3 := n / 262144, n / 4096 % 64, n / 64 % 64, n % 64;
    DecodeSextets(q0, q1, q2, q3, n);
    EncodeTripleSextets(b0, b1, b2, n);
  }

  /** The characters of a group are the sextets of its 24-bit number, most significant first. */
  lemma EncodeTripleSextets(b0: byte, b1: byte, b2: byte, n: int)
    requires n == b0 as int * 65536 + b1 as int * 256 + b2
    ensures 0 <= n / 262144 < 64
    ensures EncodeTriple(b0, b1, b2) == [Sextet(n / 262144), Sextet(n / 4096 % 64), Sextet(n / 64 % 64), Sextet(n % 64)]
  {
  }

  /** Four sextets written as characters decode to the bytes of the 24-bit group they make. */
  lemma DecodeSextets(q0: int, q1: int, q2: int, q3: int, n: int)
    requires 0 <= q0 < 64 && 0 <= q1 < 64 && 0 <= q2 < 64 && 0 <= q3 < 64
    requires q0 * 262144 + q1 * 4096 + q2 * 64 + q3 == n
    ensures IsBase64Char(Sextet(q0)) && IsBase64Char(Sextet(q1)) && IsBase64Char(Sextet(q2)) && IsBase64Char(Sextet(q3))
    ensures DecodeQuad(Sextet(q0), Sextet(q1), Sextet(q2), Sextet(q3)) == [n / 65536, n / 256 % 256, n % 256]
  {
    SextetRoundTrip(q0);
    SextetRoundTrip(q1);
    SextetRoundTrip(q2);
    SextetRoundTrip(q3);
  }

  /** A final group of one byte, written as two characters and `==`, decodes to that byte. */
  lemma OneByteRoundTrip(b0: byte)
    ensures Base64Decode(Base64Encode([b0])) == Some([b0])
  {
    SextetRoundTrip(b0 / 4);
    SextetRoundTrip(b0 % 4 * 16);
  }

  /** A final group of two bytes, written as three characters and `=`, decodes to those bytes. */
  lemma TwoBytesRoundTrip(b0: byte, b1: byte)
    ensures Base64Decode(Base64Encode([b0, b1])) == Some([b0, b1])
  {
    var c0, c1, c2 := b0 / 4, b0 % 4 * 16 + b1 / 16, b1 % 16 * 4;
    SextetRoundTrip(c0);
    SextetRoundTrip(c1);
    SextetRoundTrip(c2);
    assert c1 / 16 == b0 % 4 && c1 % 16 == b1 / 16;
    assert c0 * 4 + c1 / 16 == b0;
    assert c1 % 16 * 16 + c2 / 4 == b1;
    var s := Base64Encode([b0, b1]);
    assert s == [Sextet(c0), Sextet(c1), Sextet(c2), '='];
  }

  /** Base64 round trip: decoding the encoding of some bytes gives the bytes. */
  lemma {:induction false} Base64RoundTrip(bs: seq<byte>)
    ensures Base64Decode(Base64Encode(bs)) == Some(bs)
    decreases |bs|
  {
    if |bs| == 1 {
      assert bs == [bs[0]];
      OneByteRoundTrip(bs[0]);
    } else if |bs| == 2 {
      assert bs == [bs[0], bs[1]];
      TwoBytesRoundTrip(bs[0], bs[1]);
    } else if |bs| >= 3 {
      Base64RoundTrip(bs[3..]);
      GroupRoundTrip(bs);
    }
  }

  /** A leading group of three bytes decodes back when the rest of the encoding does. */
  lemma GroupRoundTrip(bs: seq<byte>)
    requires |bs| >= 3 && Base64Decode(Base64Encode(bs[3..])) == Some(bs[3..])
    ensures Base64Decode(Base64Encode(bs)) == Some(bs)
  {
    SplitGroup(bs);
    DecodeGroup(bs[0], bs[1], bs[2], Base64Encode(bs[3..]), bs[3..]);
  }

  /** Bytes from three on are their first group followed by the rest, and so is their encoding. */
  lemma SplitGroup(bs: seq<byte>)
    requires |bs| >= 3
    ensures bs == [bs[0], bs[1], bs[2]] + bs[3..]
    ensures Base64Encode(bs) == EncodeTriple(bs[0], bs[1], bs[2]) + Base64Encode(bs[3..])
  {
    var head := [bs[0], bs[1], bs[2]];
    assert forall i :: 0 <= i < |bs| ==> bs[i] == (head + bs[3..])[i];
  }

  /** The encoding of three bytes, followed by text that decodes, decodes to the bytes and what follows. */
  lemma DecodeGroup(b0: byte, b1: byte, b2: byte, rest: string, tail: seq<byte>)
    requires Base64Decode(rest) == Some(tail)
    ensures Base64Decode(EncodeTriple(b0, b1, b2) + rest) == Some([b0, b1, b2] + tail)
  {
    var t := EncodeTriple(b0, b1, b2);
    DecodeTriple(b0, b1, b2);
    var s := t + rest;
    assert s[..4] == t && s[4..] == rest;
    assert s[0] == t[0] && s[1] == t[1] && s[2] == t[2] && s[3] == t[3];
    assert !IsBase64Char('=');
  }
}
