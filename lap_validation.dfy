/**
 * The validators of the editable columns of the race admin's laps table
 * (website/src/admin/race-admin/support-functions/lapsTableConfig.tsx). A validator
 * gets the cell's value, `None` while it is `undefined`, and returns `None` to
 * accept it or the rejected pattern's text as the error message.
 */
module LapValidation {
  import opened Wrappers
  import opened Strings
  import opened TimeFormat

  /** The source text of the time column's regular expression. */
  const TimePattern: string := "[0-5]{1}\\d{1}:[0-5]{1}\\d{1}\\.\\d{3}$"

  /** The source text of the resets column's regular expression. */
  const ResetsPattern: string := "^[0-9]+$"

  /** `[0-5]\d:[0-5]\d\.\d{3}` matches the nine characters of `v` from position `i`. */
  predicate LapTimeAt(v: string, i: nat)
    requires i + 9 <= |v|
  {
    && '0' <= v[i] <= '5' && IsDigit(v[i + 1]) && v[i + 2] == ':'
    && '0' <= v[i + 3] <= '5' && IsDigit(v[i + 4]) && v[i + 5] == '.'
    && IsDigit(v[i + 6]) && IsDigit(v[i + 7]) && IsDigit(v[i + 8])
  }

  /**
   * `new RegExp(TimePattern).test(v)`: the pattern has no `^`, so a match may begin
   * anywhere; `$` makes it end at the end of the text.
   */
  predicate TimeRegexTest(v: string) {
    exists i: nat :: i + 9 <= |v| && LapTimeAt(v, i) && i + 9 == |v|
  }

  /** `new RegExp(ResetsPattern).test(v)`: the whole text is one or more ASCII digits. */
  predicate ResetsRegexTest(v: string) {
    |v| >= 1 && AllDigits(v)
  }

  /** The time column's validator as written. */
  function ValidateTime(value: Option<string>): (r: Option<string>)
    ensures r.None? <==> value.None? || TimeRegexTest(value.value)
    ensures r.Some? ==> r.value == TimePattern
  {
    if value.None? then None
    else if TimeRegexTest(value.value) then None
    else Some(TimePattern)
  }

  /** The resets column's validator. */
  function ValidateResets(value: Option<string>): (r: Option<string>)
    ensures r.None? <==> value.None? || (|value.value| >= 1 && AllDigits(value.value))
    ensures r.Some? ==> r.value == ResetsPattern
  {
    if value.None? then None
    else if ResetsRegexTest(value.value) then None
    else Some(ResetsPattern)
  }

  /**
   * The time validator with the pattern anchored at both ends (`^…$`): only a text of
   * the form `mm:ss.SSS` is let through.
   */
  function ValidateTimeAnchored(value: Option<string>): (r: Option<string>)
    ensures r.None? <==> value.None? || (|value.value| == 9 && LapTimeAt(value.value, 0))
    ensures r.Some? ==> r.value == "^" + TimePattern
  {
    if value.None? then None
    else if |value.value| == 9 && LapTimeAt(value.value, 0) then None
    else Some("^" + TimePattern)
  }

  // ----- Properties -----

  /** The unanchored test looks only at the last nine characters. */
  lemma TimeRegexTestIsSuffix(v: string)
    ensures TimeRegexTest(v) <==> |v| >= 9 && LapTimeAt(v, |v| - 9)
  {
    if |v| >= 9 && LapTimeAt(v, |v| - 9) {
      var i: nat := |v| - 9;
      assert i + 9 <= |v| && LapTimeAt(v, i) && i + 9 == |v|;
    }
  }

  /** What the anchored validator accepts the written one accepts too. */
  lemma AnchoredIsStricter(value: Option<string>)
    ensures ValidateTimeAnchored(value).None? ==> ValidateTime(value).None?
  {
    if value.Some? {
      TimeRegexTestIsSuffix(value.value);
    }
  }

  /**
   * Counterexamples for the validator as written: it accepts the text the table shows
   * for a lap of 100 minutes, which `convertStringToMs` cannot read, and a text with
   * one more leading digit, which it reads as a different time.
   */
  lemma UnanchoredAcceptsMisreadTexts()
    ensures ValidateTime(Some("100:00.000")).None? && ConvertStringToMs("100:00.000").None?
    ensures ValidateTime(Some("0112:34.567")).None? && ConvertStringToMs("0112:34.567") == Some(62004)
  {
    LongTextMisread();
    ShiftedTextMisread();
  }

  /** `100:00.000` passes the unanchored test, and its seconds field `:0` has no number. */
  lemma LongTextMisread()
    ensures ValidateTime(Some("100:00.000")).None? && ConvertStringToMs("100:00.000").None?
  {
    var long := "100:00.000";
    TimeRegexTestIsSuffix(long);
    assert Substring(long, 3, 5) == ":0";
    assert LeadingDigits(":0") == [];
    assert !IsJsWhitespace(':');
  }

  /** `0112:34.567` passes the unanchored test, and its fields read as 1, 2 and 4. */
  lemma ShiftedTextMisread()
    ensures ValidateTime(Some("0112:34.567")).None? && ConvertStringToMs("0112:34.567") == Some(62004)
  {
    var shifted := "0112:34.567";
    TimeRegexTestIsSuffix(shifted);
    assert Substring(shifted, 6, 9) == "4.5" && Substring(shifted, 3, 5) == "2:" && Substring(shifted, 0, 2) == "01";
    assert LeadingDigits(".5") == [] && LeadingDigits(":") == [];
    assert LeadingDigits("4.5") == "4" && LeadingDigits("2:") == "2" && LeadingDigits("01") == "01";
    assert DigitsValue("4") == 4 && DigitsValue("2") == 2;
    assert DigitsValue("01") == 1 by {
      assert "01"[..1] == "0";
      assert DigitsValue("0") == 0;
    }
  }

  /** The time the table shows for 100 minutes is `100:00.000`. */
  lemma HundredMinutesText()
    ensures ConvertMsToString(6000000, true) == "100:00.000"
  {
    assert DigitChar(0) == '0' && DigitChar(1) == '1';
    assert NatToString(1) == "1";
    assert NatToString(10) == NatToString(1) + [DigitChar(0)];
    assert NatToString(100) == NatToString(10) + [DigitChar(0)];
    assert NatToString(0) == "0";
    assert Repeat('0', 1) == "0" && Repeat('0', 2) == "00";
    assert ZeroPad(100, 2) == "100";
    assert ZeroPad(0, 2) == Repeat('0', 1) + "0";
    assert ZeroPad(0, 3) == Repeat('0', 2) + "0";
    assert 6000000 / 60000 == 100 && 6000000 / 1000 % 60 == 0 && 6000000 % 1000 == 0;
  }

  /**
   * The anchored validator closes the gap: an accepted text is read as its minutes,
   * seconds and milliseconds, below one hour, and formatting that time gives the text back.
   */
  lemma AnchoredTimeRoundTrip(v: string)
    requires ValidateTimeAnchored(Some(v)).None?
    ensures var t := DigitsValue(v[0..2]) * 60000 + DigitsValue(v[3..5]) * 1000 + DigitsValue(v[6..9]);
      && ConvertStringToMs(v) == Some(t)
      && t < 3600000
      && ConvertMsToString(t, true) == v
  {
    var m, sec, ms := v[0..2], v[3..5], v[6..9];
    AnchoredFields(v, m, sec, ms);
    ConvertStringToMsFields(v);
    FormatFields(m, sec, ms);
    assert v == m + ":" + sec + "." + ms;
  }

  /** The fields of an accepted text are digit strings, minutes and seconds below 60. */
  lemma AnchoredFields(v: string, m: string, sec: string, ms: string)
    requires |v| == 9 && LapTimeAt(v, 0)
    requires m == v[0..2] && sec == v[3..5] && ms == v[6..9]
    ensures AllDigits(m) && AllDigits(sec) && AllDigits(ms)
    ensures '0' <= m[0] <= '5' && '0' <= sec[0] <= '5'
  {
  }

  /** Formatting the sum of the fields of a text `mm:ss.SSS` with `mm` and `ss` below 60 gives the text. */
  lemma FormatFields(m: string, sec: string, ms: string)
    requires |m| == 2 && |sec| == 2 && |ms| == 3 && AllDigits(m) && AllDigits(sec) && AllDigits(ms)
    requires '0' <= m[0] <= '5' && '0' <= sec[0] <= '5'
    ensures var t := DigitsValue(m) * 60000 + DigitsValue(sec) * 1000 + DigitsValue(ms);
      t < 3600000 && ConvertMsToString(t, true) == m + ":" + sec + "." + ms
  {
    DigitsValueOfTwo(m);
    DigitsValueOfTwo(sec);
    assert Pow10(3) == 1000 && Pow10(2) == 100;
    DigitsValueBound(ms);
    var mv, sv, msv := DigitsValue(m), DigitsValue(sec), DigitsValue(ms);
    FieldsOfSum(mv, sv, msv);
    FormatOfFields(mv * 60000 + sv * 1000 + msv, m, sec, ms);
  }

  /** A time whose minutes, seconds and milliseconds are the values of three fields formats as those fields. */
  lemma FormatOfFields(t: nat, m: string, sec: string, ms: string)
    requires |m| == 2 && |sec| == 2 && |ms| == 3 && AllDigits(m) && AllDigits(sec) && AllDigits(ms)
    requires t < 3600000
    requires t / 60000 == DigitsValue(m) && t / 1000 % 60 == DigitsValue(sec) && t % 1000 == DigitsValue(ms)
    ensures ConvertMsToString(t, true) == m + ":" + sec + "." + ms
  {
    var m', sec', ms' := ZeroPad(t / 60000, 2), ZeroPad(t / 1000 % 60, 2), ZeroPad(t % 1000, 3);
    Fields(t, m', sec');
    MsField(t, ms');
    DigitsValueInjective(m', m);
    DigitsValueInjective(sec', sec);
    DigitsValueInjective(ms', ms);
  }

  lemma FieldsOfSum(m: nat, s: nat, ms: nat)
    requires m < 60 && s < 60 && ms < 1000
    ensures var t := m * 60000 + s * 1000 + ms;
      t < 3600000 && t / 60000 == m && t / 1000 % 60 == s && t % 1000 == ms
  {
    var t := m * 60000 + s * 1000 + ms;
    assert t / 1000 == m * 60 + s;
    assert t % 1000 == ms;
  }

  /** Every time below one hour, as the table shows it, passes the anchored validator. */
  lemma AnchoredAcceptsShownTimes(t: nat)
    requires t < 3600000
    ensures ValidateTimeAnchored(Some(ConvertMsToString(t, true))).None?
  {
    var r := ConvertMsToString(t, true);
    ConvertMsToStringShape(t, true);
    Fields(t, ZeroPad(t / 60000, 2), ZeroPad(t / 1000 % 60, 2));
    Slices(ZeroPad(t / 60000, 2), ZeroPad(t / 1000 % 60, 2), ZeroPad(t % 1000, 3), r);
    DigitsValueOfTwo(r[0..2]);
    assert r[0..2][0] == r[0];
    assert '0' <= r[0] <= '5';
    assert r[6..9][0] == r[6] && r[6..9][1] == r[7] && r[6..9][2] == r[8];
    assert r[0..2][1] == r[1] && r[3..5][1] == r[4];
  }

  /** Every count of resets, written in decimal, is accepted. */
  lemma DecimalResetsAccepted(n: nat)
    ensures ValidateResets(Some(NatToString(n))).None?
  {
  }
}
