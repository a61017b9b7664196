/**
 * `countryToFlag` of website/src/components/flag.tsx: an ISO country code becomes the
 * flag emoji made of the matching regional indicator symbols. The code is upper-cased
 * and every UTF-16 code unit the pattern `/./g` matches (every unit but a line
 * terminator) is replaced by the code point 127397 above it, so "A" (U+0041) becomes
 * U+1F1E6 and "Z" becomes U+1F1FF.
 */
module Flag {
  import opened Wrappers
  import opened Strings

  const RegionalIndicatorOffset := 127397
  const RegionalIndicatorA := 0x1F1E6
  const RegionalIndicatorZ := 0x1F1FF

  /** The characters `.` does not match without the `s` flag. */
  predicate IsLineTerminator(c: char) {
    c == '\n' || c == '\r' || c == '\U{2028}' || c == '\U{2029}'
  }

  /** `String.fromCodePoint(unit + 127397)` for one UTF-16 code unit. */
  function Shifted(unit: int): (c: char)
    requires 0 <= unit < 0x1_0000
    ensures c as int == unit + RegionalIndicatorOffset
  {
    (unit + RegionalIndicatorOffset) as char
  }

  /**
   * The replacement of one upper-cased character: a line terminator stays, a
   * character of the basic plane is shifted, and a character above it is two
   * UTF-16 code units, each matched and shifted on its own.
   */
  function FlagOfChar(c: char): (r: string)
    ensures 1 <= |r| <= 2
    ensures (c as int) < 0x1_0000 ==> |r| == 1
  {
    var u := UpperAscii(c);
    if IsLineTerminator(u) then [u]
    else if (u as int) < 0x1_0000 then [Shifted(u as int)]
    else
      var v := u as int - 0x1_0000;
      [Shifted(0xD800 + v / 0x400), Shifted(0xDC00 + v % 0x400)]
  }

  function FlagOfString(s: string): string {
    if s == [] then [] else FlagOfChar(s[0]) + FlagOfString(s[1..])
  }

  /** `countryToFlag(isoCode)`: `undefined` for a missing code, otherwise the shifted text. */
  function CountryToFlag(isoCode: Option<string>): (r: Option<string>)
    ensures r.None? <==> isoCode.None?
    ensures isoCode == Some([]) ==> r == Some([])
  {
    match isoCode
    case None => None
    case Some(code) => Some(FlagOfString(code))
  }

  predicate IsAsciiLetter(c: char) {
    'A' <= c <= 'Z' || 'a' <= c <= 'z'
  }

  predicate IsUpperLetter(c: char) {
    'A' <= c <= 'Z'
  }

  /** Each letter, in either case, becomes the regional indicator of its capital. */
  lemma LetterFlag(c: char)
    requires IsAsciiLetter(c)
    ensures FlagOfChar(c) == [(RegionalIndicatorA + (UpperAscii(c) as int - 'A' as int)) as char]
    ensures RegionalIndicatorA <= FlagOfChar(c)[0] as int <= RegionalIndicatorZ
  {
  }

  /** Text of the basic plane keeps its length: one output character per input character. */
  lemma {:induction false} FlagKeepsLength(s: string)
    requires forall i :: 0 <= i < |s| ==> (s[i] as int) < 0x1_0000
    ensures |FlagOfString(s)| == |s|
  {
    if s != [] {
      FlagKeepsLength(s[1..]);
    }
  }

  /** The mapping ignores case: a lower-case code gives the same flag as the code itself. */
  lemma {:induction false} FlagIgnoresCase(s: string)
    ensures FlagOfString(ToLowerAscii(s)) == FlagOfString(s)
  {
    if s != [] {
      assert UpperAscii(LowerAscii(s[0])) == UpperAscii(s[0]);
      assert ToLowerAscii(s)[1..] == ToLowerAscii(s[1..]);
      FlagIgnoresCase(s[1..]);
    }
  }

  /** Reading a regional indicator back as the capital letter it stands for. */
  function LetterOfIndicator(c: char): char {
    if RegionalIndicatorA <= c as int <= RegionalIndicatorZ then
      ('A' as int + (c as int - RegionalIndicatorA)) as char
    else c
  }

  function CountryOfFlag(f: string): (r: string)
    ensures |r| == |f|
  {
    if f == [] then [] else [LetterOfIndicator(f[0])] + CountryOfFlag(f[1..])
  }

  /** The flag of a code of capital letters reads back as that code. */
  lemma {:induction false} FlagRoundTrip(s: string)
    requires forall i :: 0 <= i < |s| ==> IsUpperLetter(s[i])
    ensures CountryOfFlag(FlagOfString(s)) == s
  {
    if s != [] {
      LetterFlag(s[0]);
      var head := FlagOfChar(s[0]);
      assert (head + FlagOfString(s[1..]))[1..] == FlagOfString(s[1..]);
      FlagRoundTrip(s[1..]);
    }
  }

  /** Two codes of capital letters with the same flag are the same code. */
  lemma FlagInjectiveOnCapitals(s: string, t: string)
    requires forall i :: 0 <= i < |s| ==> IsUpperLetter(s[i])
    requires forall i :: 0 <= i < |t| ==> IsUpperLetter(t[i])
    requires CountryToFlag(Some(s)) == CountryToFlag(Some(t))
    ensures s == t
  {
    FlagRoundTrip(s);
    FlagRoundTrip(t);
  }
}
