/**
 * The lap-time text format `mm:ss.SSS` of the admin and timekeeper pages:
 * milliseconds to text and text back to milliseconds (website/src/support-functions/time.js).
 * Times are non-negative integer milliseconds.
 */
module TimeFormat {
  import opened Wrappers
  import opened Strings

  /** `str.slice(-3)`: the last three characters, or all of a shorter string. */
  function Last3(s: string): (r: string)
    ensures |s| >= 3 ==> r == s[|s| - 3..]
    ensures |s| < 3 ==> r == s
  {
    if |s| >= 3 then s[|s| - 3..] else s
  }

  /** The millisecond field is the last three digits of the whole number, zero-padded. */
  lemma MillisecondField(n: nat)
    ensures PadStart(Last3(NatToString(n)), 3, '0') == ZeroPad(n % 1000, 3)
  {
    if n < 1000 {
      ShortMillisecondField(n);
    } else {
      LongMillisecondField(n);
    }
  }

  /** Below 1000 the whole text is the field. */
  lemma ShortMillisecondField(n: nat)
    requires n < 1000
    ensures PadStart(Last3(NatToString(n)), 3, '0') == ZeroPad(n % 1000, 3)
  {
    assert Pow10(3) == 1000;
    NatToStringShort(n, 3);
    SmallRemainder(n);
  }

  lemma SmallRemainder(n: nat)
    requires n < 1000
    ensures n % 1000 == n
  {
  }

  /** From 1000 on the last three characters are already three digits. */
  lemma LongMillisecondField(n: nat)
    requires n >= 1000
    ensures PadStart(Last3(NatToString(n)), 3, '0') == ZeroPad(n % 1000, 3)
  {
    assert Pow10(3) == 1000;
    LastThreeDigits(n);
    ZeroPadLength(n % 1000, 3);
  }

  lemma LastThreeDigits(n: nat)
    requires n >= 1000
    ensures Last3(NatToString(n)) == ZeroPad(n % 1000, 3)
  {
    var s := NatToString(n);
    var p := Pow10(3);
    assert p == 1000;
    NatToStringLong(n, 3);
    var head, tail := s[..|s| - 3], s[|s| - 3..];
    assert s == head + tail;
    assert AllDigits(head) && AllDigits(tail);
    DigitsValueConcat(head, tail);
    DigitsValueBound(tail);
    DigitsValueOfNatToString(n);
    Remainder(DigitsValue(head), p, DigitsValue(tail));
    var z := ZeroPad(n % 1000, 3);
    ZeroPadValue(n % 1000, 3);
    ZeroPadLength(n % 1000, 3);
    DigitsValueInjective(tail, z);
  }

  lemma Remainder(q: nat, p: nat, r: nat)
    requires p == 1000 && r < 1000
    ensures (q * p + r) % 1000 == r
  {
  }

  lemma MinutesAndSeconds(t: nat)
    ensures t / 1000 / 60 == t / 60000
    ensures t == t / 60000 * 60000 + t / 1000 % 60 * 1000 + t % 1000
  {
    var q := t / 1000;
    assert t == q * 1000 + t % 1000;
    SixtyThousand(t);
    assert q == q / 60 * 60 + q % 60;
  }

  lemma SixtyThousand(t: nat) ensures t / 1000 / 60 == t / 60000 {}

  /**
   * `convertMsToString(timeInMS, showMills)`: minutes, a colon, seconds of the minute
   * and, when `showMills` holds, a dot and the milliseconds. Minutes are padded to two
   * digits but not cut, so from 100 minutes on the text grows.
   */
  function ConvertMsToString(timeInMS: nat, showMills: bool): (r: string)
    ensures r == ZeroPad(timeInMS / 60000, 2) + ":" + ZeroPad(timeInMS / 1000 % 60, 2)
                 + (if showMills then "." + ZeroPad(timeInMS % 1000, 3) else "")
  {
    var millisecondsAsString := PadStart(Last3(NatToString(timeInMS)), 3, '0');
    var seconds := timeInMS / 1000;
    var secondsAsString := ZeroPad(timeInMS / 1000 % 60, 2);
    var minutesAsString := ZeroPad(seconds / 60, 2);
    MillisecondField(timeInMS);
    SixtyThousand(timeInMS);
    var timeAsString := minutesAsString + ":" + secondsAsString;
    if showMills then timeAsString + "." + millisecondsAsString else timeAsString
  }

  /** Below 100 minutes the text is exactly `mm:ss.SSS` (or `mm:ss` without milliseconds). */
  lemma ConvertMsToStringShape(t: nat, showMills: bool)
    requires t < 6000000
    ensures var r := ConvertMsToString(t, showMills);
      && |r| == (if showMills then 9 else 5)
      && r[2] == ':' && AllDigits(r[0..2]) && AllDigits(r[3..5])
      && '0' <= r[3] <= '5'
      && (showMills ==> r[5] == '.' && AllDigits(r[6..9]))
  {
    var r := ConvertMsToString(t, showMills);
    var m, sec := ZeroPad(t / 60000, 2), ZeroPad(t / 1000 % 60, 2);
    Fields(t, m, sec);
    if showMills {
      var ms := ZeroPad(t % 1000, 3);
      MsField(t, ms);
      Slices(m, sec, ms, r);
    } else {
      assert r == m + ":" + sec;
      assert r[0..2] == m && r[3..5] == sec;
    }
    DigitsValueOfTwo(sec);
  }

  /** Minutes and seconds below 100 minutes: two digits each, holding their values. */
  lemma Fields(t: nat, m: string, sec: string)
    requires t < 6000000 && m == ZeroPad(t / 60000, 2) && sec == ZeroPad(t / 1000 % 60, 2)
    ensures |m| == 2 && AllDigits(m) && DigitsValue(m) == t / 60000
    ensures |sec| == 2 && AllDigits(sec) && DigitsValue(sec) == t / 1000 % 60
  {
    assert Pow10(2) == 100;
    ZeroPadLength(t / 60000, 2);
    ZeroPadLength(t / 1000 % 60, 2);
    ZeroPadValue(t / 60000, 2);
    ZeroPadValue(t / 1000 % 60, 2);
  }

  lemma MsField(t: nat, ms: string)
    requires ms == ZeroPad(t % 1000, 3)
    ensures |ms| == 3 && AllDigits(ms) && DigitsValue(ms) == t % 1000
  {
    assert Pow10(3) == 1000;
    ZeroPadLength(t % 1000, 3);
    ZeroPadValue(t % 1000, 3);
  }

  /** The fields of `mm:ss.SSS` sit at positions [0,2), [3,5) and [6,9). */
  lemma Slices(m: string, sec: string, ms: string, r: string)
    requires |m| == 2 && |sec| == 2 && |ms| == 3 && r == m + ":" + sec + "." + ms
    ensures |r| == 9 && r[0..2] == m && r[2] == ':' && r[3..5] == sec && r[5] == '.' && r[6..9] == ms
  {
  }

  /**
   * `convertStringToMs(stringTime)`: the characters at positions [0,2), [3,5) and [6,9)
   * are read with `parseInt` as minutes, seconds and milliseconds. A field without a
   * leading number makes the whole sum `NaN`, here `None`.
   */
  function ConvertStringToMs(stringTime: string): (r: Option<int>)
    ensures r.Some? <==> ParseInt(Substring(stringTime, 6, 9)).Some?
                         && ParseInt(Substring(stringTime, 3, 5)).Some?
                         && ParseInt(Substring(stringTime, 0, 2)).Some?
  {
    var milliseconds := ParseInt(Substring(stringTime, 6, 9));
    var seconds := ParseInt(Substring(stringTime, 3, 5));
    var minutes := ParseInt(Substring(stringTime, 0, 2));
    if milliseconds.None? || seconds.None? || minutes.None? then None
    else Some(milliseconds.value + seconds.value * 1000 + minutes.value * 60000)
  }

  /** Three numeric fields give their weighted sum. */
  lemma ConvertStringToMsOfFields(s: string, minutes: int, seconds: int, milliseconds: int)
    requires ParseInt(Substring(s, 6, 9)) == Some(milliseconds)
    requires ParseInt(Substring(s, 3, 5)) == Some(seconds)
    requires ParseInt(Substring(s, 0, 2)) == Some(minutes)
    ensures ConvertStringToMs(s) == Some(milliseconds + seconds * 1000 + minutes * 60000)
  {
  }

  /** On a string whose three fields are digits the result is the weighted sum of the fields. */
  lemma ConvertStringToMsFields(s: string)
    requires |s| >= 9 && AllDigits(s[0..2]) && AllDigits(s[3..5]) && AllDigits(s[6..9])
    ensures ConvertStringToMs(s)
         == Some(DigitsValue(s[0..2]) * 60000 + DigitsValue(s[3..5]) * 1000 + DigitsValue(s[6..9]))
  {
    ParseIntOfDigits(s[6..9]);
    ParseIntOfDigits(s[3..5]);
    ParseIntOfDigits(s[0..2]);
    ConvertStringToMsOfFields(s, DigitsValue(s[0..2]), DigitsValue(s[3..5]), DigitsValue(s[6..9]));
  }

  /** A text whose fields at [0,2), [3,5) and [6,9) are digit strings parses to their weighted sum. */
  lemma ParseFields(r: string, m: string, sec: string, ms: string)
    requires |m| == 2 && |sec| == 2 && |ms| == 3 && AllDigits(m) && AllDigits(sec) && AllDigits(ms)
    requires |r| == 9 && r[0..2] == m && r[3..5] == sec && r[6..9] == ms
    ensures ConvertStringToMs(r) == Some(DigitsValue(m) * 60000 + DigitsValue(sec) * 1000 + DigitsValue(ms))
  {
    ConvertStringToMsFields(r);
  }

  /** Formatting and parsing back return the original time below 100 minutes. */
  lemma RoundTrip(t: nat)
    requires t < 6000000
    ensures ConvertStringToMs(ConvertMsToString(t, true)) == Some(t)
  {
    ParseFormatted(t, ConvertMsToString(t, true));
  }

  /** The text `mm:ss.SSS` of a time below 100 minutes parses back to the time. */
  lemma ParseFormatted(t: nat, r: string)
    requires t < 6000000
    requires r == ZeroPad(t / 60000, 2) + ":" + ZeroPad(t / 1000 % 60, 2) + "." + ZeroPad(t % 1000, 3)
    ensures ConvertStringToMs(r) == Some(t)
  {
    var m, sec, ms := ZeroPad(t / 60000, 2), ZeroPad(t / 1000 % 60, 2), ZeroPad(t % 1000, 3);
    Fields(t, m, sec);
    MsField(t, ms);
    Slices(m, sec, ms, r);
    ParseFields(r, m, sec, ms);
    Recombine(t, DigitsValue(m), DigitsValue(sec), DigitsValue(ms));
  }

  /** Minutes, seconds of the minute and milliseconds of a time add back up to it. */
  lemma Recombine(t: nat, minutes: int, seconds: int, milliseconds: int)
    requires minutes == t / 60000 && seconds == t / 1000 % 60 && milliseconds == t % 1000
    ensures minutes * 60000 + seconds * 1000 + milliseconds == t
  {
    MinutesAndSeconds(t);
  }
}
