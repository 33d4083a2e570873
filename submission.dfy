/** What the submit check makes of the displays the form itself produces,
    and the Luhn check the handler evidently means instead. */
module Submission {
  import opened Strings
  import opened CardFormat
  import opened Masking
  import opened Checksum

  /** The number of digits that fills a brand's display. */
  function FullLength(b: Brand): nat {
    match b
    case Regular => 16
    case Amex => 15
    case Diners => 14
  }

  /** A full regular display alerts: the space before the last group is
      added as is, with a doubled digit right before it. */
  lemma RegularDisplayAlerts(d: string)
    requires AllDigits(d) && |d| == 16
    ensures SubmitVerdict(Formatted(Regular, d)) == Alert
  {
    var s := Formatted(Regular, d);
    ByFourGrouping(d);
    assert |s| == 19 && s[14] == ' ' && IsJsWhitespace(' ');
    InnerBlankAlerts(s, 14);
  }

  /** A full Amex (15 digits) or Diners (14 digits) display alerts: a space
      after the first or second group is added as is. */
  lemma WideDisplayAlerts(b: Brand, d: string)
    requires b != Regular && AllDigits(d) && |d| == FullLength(b)
    ensures SubmitVerdict(Formatted(b, d)) == Alert
  {
    var s := Formatted(b, d);
    FourSixGrouping(d);
    assert IsJsWhitespace(' ');
    if b == Amex {
      assert |s| == 17 && s[4] == ' ';
      InnerBlankAlerts(s, 4);
    } else {
      assert |s| == 16 && s[11] == ' ';
      InnerBlankAlerts(s, 11);
    }
  }

  /** A full display masked on blur holds `*` and alerts. */
  lemma MaskedDisplayAlerts(b: Brand, d: string)
    requires AllDigits(d) && |d| == FullLength(b)
    ensures SubmitVerdict(Mask(Formatted(b, d))) == Alert
  {
    var m := Mask(Formatted(b, d));
    if b == Regular {
      MaskedRegularNumber(d);
    } else {
      MaskedWideNumber(b, d);
    }
    assert m[5] == '*';
    MaskedNumberAlerts(m);
  }

  /** Every complete display alerts, whatever its digits, masked or not. */
  lemma FullLengthDisplayAlerts(b: Brand, d: string)
    requires AllDigits(d) && |d| == FullLength(b)
    ensures SubmitVerdict(Formatted(b, d)) == Alert
    ensures SubmitVerdict(Mask(Formatted(b, d))) == Alert
  {
    if b == Regular {
      RegularDisplayAlerts(d);
    } else {
      WideDisplayAlerts(b, d);
    }
    MaskedDisplayAlerts(b, d);
  }

  /** The check the handler evidently means: the display's digits pass the
      Luhn check. */
  function IntendedVerdict(number: string): (r: Outcome)
    ensures r != Unresolved
  {
    if LuhnValid(Digits(number)) then Silent else Alert
  }

  /** The intended check looks only at the digits, so the grouping spaces
      the form inserts do not change its answer. */
  lemma IntendedIgnoresGrouping(b: Brand, d: string)
    requires AllDigits(d)
    ensures IntendedVerdict(Formatted(b, d)) == IntendedVerdict(d)
  {
    FormattedShape(b, d);
  }

  /** The intended check rejects every display whose digits differ from a
      valid number's in one place. */
  lemma IntendedRejectsTypo(b: Brand, d: string, j: nat, c: char)
    requires AllDigits(d) && LuhnValid(d) && j < |d| && IsDigit(c) && c != d[j]
    ensures IntendedVerdict(d) == Silent
    ensures IntendedVerdict(Formatted(b, d[j := c])) == Alert
  {
    LuhnDetectsSingleSubstitution(d, j, c);
    IntendedIgnoresGrouping(b, d[j := c]);
  }

  /** A Luhn-valid 16-digit test number. */
  const ValidTestNumber: string := "4532015112830366"

  /** Luhn sums of the test number's first 4 and 8 digits. */
  lemma ExampleFirstHalf()
    ensures AllDigits(ValidTestNumber)
    ensures LuhnSum(ValidTestNumber, 4, false) == 21
    ensures LuhnSum(ValidTestNumber, 8, false) == 24
  {
    var d := ValidTestNumber;
    assert AllDigits(d);
    assert LuhnSum(d, 1, true) == 8;
    assert LuhnSum(d, 2, false) == 13;
    assert LuhnSum(d, 3, true) == 19;
    assert LuhnSum(d, 4, false) == 21;
    assert LuhnSum(d, 5, true) == 21;
    assert LuhnSum(d, 6, false) == 22;
    assert LuhnSum(d, 7, true) == 23;
  }

  /** Luhn sum of the test number's first 12 digits. */
  lemma ExampleThreeQuarters()
    ensures AllDigits(ValidTestNumber)
    ensures LuhnSum(ValidTestNumber, 12, false) == 38
  {
    var d := ValidTestNumber;
    ExampleFirstHalf();
    assert LuhnSum(d, 9, true) == 26;
    assert LuhnSum(d, 10, false) == 28;
    assert LuhnSum(d, 11, true) == 35;
  }

  /** The Luhn sum of the test number is 50. */
  lemma ExampleIsLuhnValid()
    ensures AllDigits(ValidTestNumber) && LuhnValid(ValidTestNumber)
  {
    var d := ValidTestNumber;
    ExampleThreeQuarters();
    assert LuhnSum(d, 13, true) == 38;
    assert LuhnSum(d, 14, false) == 41;
    assert LuhnSum(d, 15, true) == 44;
    assert LuhnSum(d, 16, false) == 50;
  }

  /** The test number is a regular number. */
  lemma ExampleIsRegular()
    ensures Classify(ValidTestNumber) == Some(Regular)
  {
    var d := ValidTestNumber;
    assert |d| == 16 && d[0] == '4' && AllDigits(d);
  }

  /** Even typed without spaces, the number alerts: its `8` is doubled to
      `1+6`. */
  lemma BareExampleAlerts()
    ensures SubmitVerdict(ValidTestNumber) == Alert
  {
    var d := ValidTestNumber;
    assert |d| == 16 && d[10] == '8' && IsDigit(d[10]);
    HighDoubledDigitAlerts(d, 10);
  }

  /** The intended check passes the test number's display. */
  lemma ExampleIntendedSilent()
    ensures IntendedVerdict(Formatted(Regular, ValidTestNumber)) == Silent
  {
    ExampleIsLuhnValid();
    IntendedIgnoresGrouping(Regular, ValidTestNumber);
    assert Digits(ValidTestNumber) == ValidTestNumber;
  }

  /** The test number with its last digit changed from 6 to 7. */
  const TypoTestNumber: string := "4532015112830367"

  /** The intended check rejects the mistyped number. */
  lemma ExampleTypoRejected()
    ensures IntendedVerdict(TypoTestNumber) == Alert
  {
    var d := ValidTestNumber;
    ExampleIsLuhnValid();
    assert d[15 := '7'] == TypoTestNumber;
    LuhnDetectsSingleSubstitution(d, 15, '7');
    assert Digits(TypoTestNumber) == TypoTestNumber by {
      assert AllDigits(TypoTestNumber);
    }
  }

  /** The check as written rejects the mistyped number too. */
  lemma ExampleTypoAlerts()
    ensures SubmitVerdict(TypoTestNumber) == Alert
  {
    var e := TypoTestNumber;
    assert |e| == 16 && e[10] == '8' && IsDigit(e[10]);
    HighDoubledDigitAlerts(e, 10);
  }

  /** A valid test number: it is a regular number whose display the
      intended check passes, yet the check as written alerts on it, both as
      displayed and as bare digits. */
  lemma ValidNumberAlerts()
    ensures AllDigits(ValidTestNumber) && LuhnValid(ValidTestNumber)
    ensures Classify(ValidTestNumber) == Some(Regular)
    ensures IntendedVerdict(Formatted(Regular, ValidTestNumber)) == Silent
    ensures SubmitVerdict(Formatted(Regular, ValidTestNumber)) == Alert
    ensures SubmitVerdict(ValidTestNumber) == Alert
  {
    ExampleIsLuhnValid();
    ExampleIsRegular();
    ExampleIntendedSilent();
    assert |ValidTestNumber| == FullLength(Regular);
    RegularDisplayAlerts(ValidTestNumber);
    BareExampleAlerts();
  }
}
