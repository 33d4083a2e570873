/** The card-number formatter of `changeNumber`: brand detection by the
    three anchored regular expressions, then digit grouping by chained
    non-global `replace` calls. */
module CardFormat {
  import opened Strings

  datatype Brand = Amex | Diners | Regular

  /** `/^3[47]\d{0,13}$/` */
  predicate IsAmexNumber(d: string) {
    AllDigits(d) && 2 <= |d| <= 15 && d[0] == '3' && (d[1] == '4' || d[1] == '7')
  }

  /** `/^3(?:0[0-5]|[68]\d)\d{0,11}$/` */
  predicate IsDinersNumber(d: string) {
    AllDigits(d) && 3 <= |d| <= 14 && d[0] == '3'
    && ((d[1] == '0' && '0' <= d[2] <= '5') || d[1] == '6' || d[1] == '8')
  }

  /** `/^\d{0,16}$/` */
  predicate IsRegularNumber(d: string) {
    AllDigits(d) && |d| <= 16
  }

  /** The first rule of the `if`/`else if` chain that accepts `d`, if any. */
  function Classify(d: string): Option<Brand> {
    if IsAmexNumber(d) then Some(Amex)
    else if IsDinersNumber(d) then Some(Diners)
    else if IsRegularNumber(d) then Some(Regular)
    else None
  }

  /** `cardNumberMaxLength` set by each rule. */
  function MaxLength(b: Brand): nat {
    match b
    case Amex => 17
    case Diners => 16
    case Regular => 19
  }

  /** A regular expression made of `\d` classes and literal spaces only, such
      as `/(\d{4}) (\d{6})/`: it has `width` characters and the positions in
      `blanks` are the literal spaces. */
  datatype GroupPattern = GroupPattern(width: nat, blanks: set<nat>)

  const Four := GroupPattern(4, {})                 // /(\d{4})/
  const FourSix := GroupPattern(11, {4})            // /(\d{4}) (\d{6})/
  const FourFour := GroupPattern(9, {4})            // /(\d{4}) (\d{4})/
  const FourFourFour := GroupPattern(14, {4, 9})    // /(\d{4}) (\d{4}) (\d{4})/

  predicate MatchesAt(s: string, i: nat, p: GroupPattern) {
    i + p.width <= |s|
    && forall k :: 0 <= k < p.width ==>
         if k in p.blanks then s[i + k] == ' ' else IsDigit(s[i + k])
  }

  /** Where a non-global regular-expression search starting at `from` stops. */
  function LeftmostMatch(s: string, p: GroupPattern, from: nat): (r: Option<nat>)
    decreases |s| - from
    ensures r.Some? ==> from <= r.value && MatchesAt(s, r.value, p)
    ensures r.Some? ==> forall j :: from <= j < r.value ==> !MatchesAt(s, j, p)
    ensures r.None? ==> forall j :: from <= j ==> !MatchesAt(s, j, p)
  {
    if from + p.width > |s| then None
    else if MatchesAt(s, from, p) then Some(from)
    else LeftmostMatch(s, p, from + 1)
  }

  /** `s.replace(/(...)/, '$1 ...')` for the replacements of `changeNumber`:
      each of them rebuilds the matched text and appends one space. */
  function ReplaceFirst(s: string, p: GroupPattern): string {
    match LeftmostMatch(s, p, 0)
    case None => s
    case Some(i) => s[..i + p.width] + " " + s[i + p.width..]
  }

  /** The display string a rule produces from the digit string `d`. */
  function Formatted(b: Brand, d: string): string {
    if b == Regular then
      ReplaceFirst(ReplaceFirst(ReplaceFirst(d, Four), FourFour), FourFourFour)
    else
      ReplaceFirst(ReplaceFirst(d, Four), FourSix)
  }

  /** Grouping 4-6-rest, one space after each complete group. */
  function GroupedFourSix(d: string): string {
    if |d| < 4 then d
    else if |d| < 10 then d[..4] + " " + d[4..]
    else d[..4] + " " + d[4..10] + " " + d[10..]
  }

  /** Grouping 4-4-4-rest, one space after each complete group. */
  function GroupedByFour(d: string): string {
    if |d| < 4 then d
    else if |d| < 8 then d[..4] + " " + d[4..]
    else if |d| < 12 then d[..4] + " " + d[4..8] + " " + d[8..]
    else d[..4] + " " + d[4..8] + " " + d[8..12] + " " + d[12..]
  }

  lemma ReplaceAtStart(s: string, p: GroupPattern)
    requires MatchesAt(s, 0, p)
    ensures ReplaceFirst(s, p) == s[..p.width] + " " + s[p.width..]
  {
    var r := LeftmostMatch(s, p, 0);
    assert r.Some? && r.value == 0;
  }

  lemma ReplaceNothing(s: string, p: GroupPattern)
    requires forall j: nat :: !MatchesAt(s, j, p)
    ensures ReplaceFirst(s, p) == s
  {
    var r := LeftmostMatch(s, p, 0);
    assert r.None?;
  }

  /** A match needs a space wherever the pattern has one. */
  lemma NoMatchWithoutBlank(s: string, j: nat, p: GroupPattern, k: nat)
    requires k < p.width && k in p.blanks
    requires j + p.width <= |s| ==> s[j + k] != ' '
    ensures !MatchesAt(s, j, p)
  {
  }

  /** Inserting a space after the first four digits of a digit string. */
  lemma FirstGroup(d: string)
    requires AllDigits(d)
    ensures ReplaceFirst(d, Four) == if |d| < 4 then d else d[..4] + " " + d[4..]
  {
    if |d| < 4 {
      ReplaceNothing(d, Four);
    } else {
      ReplaceAtStart(d, Four);
    }
  }

  /** The Amex and Diners rules group 4-6-rest. */
  lemma {:induction false} FourSixGrouping(d: string)
    requires AllDigits(d)
    ensures Formatted(Amex, d) == GroupedFourSix(d)
    ensures Formatted(Diners, d) == GroupedFourSix(d)
  {
    FirstGroup(d);
    var s1 := ReplaceFirst(d, Four);
    if |d| < 4 {
      forall j: nat ensures !MatchesAt(s1, j, FourSix) {
        NoMatchWithoutBlank(s1, j, FourSix, 4);
      }
      ReplaceNothing(s1, FourSix);
    } else if |d| < 10 {
      forall j: nat ensures !MatchesAt(s1, j, FourSix) {
        NoMatchWithoutBlank(s1, j, FourSix, 4);
      }
      ReplaceNothing(s1, FourSix);
    } else {
      assert MatchesAt(s1, 0, FourSix) by {
        forall k | 0 <= k < 11
          ensures if k in FourSix.blanks then s1[k] == ' ' else IsDigit(s1[k])
        {
          if k > 4 { assert s1[k] == d[k - 1]; }
        }
      }
      ReplaceAtStart(s1, FourSix);
      assert s1[..11] == d[..4] + " " + d[4..10];
      assert s1[11..] == d[10..];
    }
  }

  /** The regular rule groups 4-4-4-rest. */
  lemma {:induction false} ByFourGrouping(d: string)
    requires AllDigits(d)
    ensures Formatted(Regular, d) == GroupedByFour(d)
  {
    FirstGroup(d);
    var s1 := ReplaceFirst(d, Four);
    var s2 := ReplaceFirst(s1, FourFour);
    if |d| < 8 {
      forall j: nat ensures !MatchesAt(s1, j, FourFour) {
        NoMatchWithoutBlank(s1, j, FourFour, 4);
      }
      ReplaceNothing(s1, FourFour);
      assert s2 == s1;
      forall j: nat ensures !MatchesAt(s2, j, FourFourFour) {
        NoMatchWithoutBlank(s2, j, FourFourFour, 9);
      }
      ReplaceNothing(s2, FourFourFour);
    } else {
      assert MatchesAt(s1, 0, FourFour) by {
        forall k | 0 <= k < 9
          ensures if k in FourFour.blanks then s1[k] == ' ' else IsDigit(s1[k])
        {
          if k > 4 { assert s1[k] == d[k - 1]; }
        }
      }
      ReplaceAtStart(s1, FourFour);
      assert s2 == d[..4] + " " + d[4..8] + " " + d[8..] by {
        assert s1[..9] == d[..4] + " " + d[4..8];
        assert s1[9..] == d[8..];
      }
      if |d| < 12 {
        forall j: nat ensures !MatchesAt(s2, j, FourFourFour) {
          NoMatchWithoutBlank(s2, j, FourFourFour, 9);
        }
        ReplaceNothing(s2, FourFourFour);
      } else {
        assert MatchesAt(s2, 0, FourFourFour) by {
          forall k | 0 <= k < 14
            ensures if k in FourFourFour.blanks then s2[k] == ' ' else IsDigit(s2[k])
          {
            if 4 < k < 9 { assert s2[k] == d[k - 1]; }
            if k > 9 { assert s2[k] == d[k - 2]; }
          }
        }
        ReplaceAtStart(s2, FourFourFour);
        assert s2[..14] == d[..4] + " " + d[4..8] + " " + d[8..12];
        assert s2[14..] == d[12..];
      }
    }
  }

  /** Exactly one brand applies to every digit string of at most 16 digits,
      and none to a longer one. */
  lemma NoRuleIffTooLong(d: string)
    requires AllDigits(d)
    ensures Classify(d).None? <==> |d| > 16
    ensures !(IsAmexNumber(d) && IsDinersNumber(d))
  {
  }

  predicate DigitsAndSpaces(s: string) {
    forall i :: 0 <= i < |s| ==> IsDigit(s[i]) || s[i] == ' '
  }

  lemma SpacedShape(a: string, b: string)
    requires AllDigits(a) && DigitsAndSpaces(b)
    ensures DigitsAndSpaces(a + " " + b)
    ensures Digits(a + " " + b) == a + Digits(b)
  {
    var s := a + " " + b;
    forall i | 0 <= i < |s| ensures IsDigit(s[i]) || s[i] == ' ' {
      if i < |a| {
        assert s[i] == a[i];
      } else if i > |a| {
        assert s[i] == b[i - |a| - 1];
      }
    }
    DigitsAfterSpace(a, b);
  }

  /** A digit string is a string of digits and spaces. */
  lemma DigitsHaveNoOtherChar(d: string)
    requires AllDigits(d)
    ensures DigitsAndSpaces(d)
  {
  }

  lemma FourSixShape(d: string)
    requires AllDigits(d)
    ensures DigitsAndSpaces(GroupedFourSix(d))
    ensures Digits(GroupedFourSix(d)) == d
    ensures |GroupedFourSix(d)| <= |d| + 2
  {
    if |d| < 4 {
      assert GroupedFourSix(d) == d;
    } else if |d| < 10 {
      TwoGroups(d, 4);
    } else {
      ThreeGroups(d, 4, 10);
    }
  }

  lemma ByFourShape(d: string)
    requires AllDigits(d)
    ensures DigitsAndSpaces(GroupedByFour(d))
    ensures Digits(GroupedByFour(d)) == d
    ensures |GroupedByFour(d)| <= |d| + 3
  {
    if |d| < 4 {
      assert GroupedByFour(d) == d;
    } else if |d| < 8 {
      TwoGroups(d, 4);
    } else if |d| < 12 {
      ThreeGroups(d, 4, 8);
    } else {
      FourGroups(d);
    }
  }

  lemma FourGroups(d: string)
    requires AllDigits(d) && 12 <= |d|
    ensures DigitsAndSpaces(d[..4] + " " + d[4..8] + " " + d[8..12] + " " + d[12..])
    ensures Digits(d[..4] + " " + d[4..8] + " " + d[8..12] + " " + d[12..]) == d
  {
    var a, b, c, e := d[..4], d[4..8], d[8..12], d[12..];
    assert AllDigits(a) && AllDigits(b) && AllDigits(c) && AllDigits(e);
    FourPieces(a, b, c, e);
    assert a + b + c + e == d;
  }

  lemma TwoGroups(d: string, i: nat)
    requires AllDigits(d) && i <= |d|
    ensures DigitsAndSpaces(d[..i] + " " + d[i..])
    ensures Digits(d[..i] + " " + d[i..]) == d
  {
    var a, b := d[..i], d[i..];
    assert AllDigits(a) && AllDigits(b);
    assert DigitsAndSpaces(a + " " + b) && Digits(a + " " + b) == a + b by {
      DigitsHaveNoOtherChar(b);
      SpacedShape(a, b);
    }
    assert a + b == d;
  }

  lemma ThreeGroups(d: string, i: nat, j: nat)
    requires AllDigits(d) && i <= j <= |d|
    ensures DigitsAndSpaces(d[..i] + " " + d[i..j] + " " + d[j..])
    ensures Digits(d[..i] + " " + d[i..j] + " " + d[j..]) == d
  {
    var a, b, c := d[..i], d[i..j], d[j..];
    assert AllDigits(a) && AllDigits(b) && AllDigits(c);
    ThreePieces(a, b, c);
    assert a + b + c == d;
  }

  /** Three digit strings joined by spaces. */
  lemma ThreePieces(a: string, b: string, c: string)
    requires AllDigits(a) && AllDigits(b) && AllDigits(c)
    ensures DigitsAndSpaces(a + " " + b + " " + c)
    ensures Digits(a + " " + b + " " + c) == a + b + c
  {
    var tail := b + " " + c;
    assert DigitsAndSpaces(tail) && Digits(tail) == b + c by {
      DigitsHaveNoOtherChar(c);
      SpacedShape(b, c);
    }
    SpacedShape(a, tail);
    AppendAssoc(a + " ", b + " ", c);
    AppendAssoc(a + " ", b, " ");
    AppendAssoc(a, b, c);
  }

  /** Four digit strings joined by spaces. */
  lemma FourPieces(a: string, b: string, c: string, e: string)
    requires AllDigits(a) && AllDigits(b) && AllDigits(c) && AllDigits(e)
    ensures DigitsAndSpaces(a + " " + b + " " + c + " " + e)
    ensures Digits(a + " " + b + " " + c + " " + e) == a + b + c + e
  {
    var tail := b + " " + c + " " + e;
    ThreePieces(b, c, e);
    SpacedShape(a, tail);
    AppendAssoc(a + " ", b + " " + c + " ", e);
    AppendAssoc(a + " ", b + " " + c, " ");
    AppendAssoc(a + " ", b + " ", c);
    AppendAssoc(a + " ", b, " ");
    AppendAssoc(a, b + c, e);
    AppendAssoc(a, b, c);
  }

  /** Concatenation is associative. */
  lemma AppendAssoc(a: string, b: string, c: string)
    ensures a + b + c == a + (b + c)
  {
  }

  /** Spaces go only at group boundaries; removing them gives back the
      digits; and the display never exceeds the rule's maximum length. */
  lemma FormattedShape(b: Brand, d: string)
    requires AllDigits(d)
    ensures DigitsAndSpaces(Formatted(b, d))
    ensures Digits(Formatted(b, d)) == d
    ensures Classify(d) == Some(b) ==> |Formatted(b, d)| <= MaxLength(b)
  {
    if b == Regular {
      ByFourGrouping(d);
      ByFourShape(d);
    } else {
      FourSixGrouping(d);
      FourSixShape(d);
    }
  }

  /** The worked example: an Amex test number becomes `3714 496353 98431`
      with a maximum length of 17. */
  lemma AmexExample()
    ensures Classify("371449635398431") == Some(Amex)
    ensures Formatted(Amex, "371449635398431") == "3714 496353 98431"
    ensures MaxLength(Amex) == 17
  {
    var d := "371449635398431";
    assert AllDigits(d);
    FourSixGrouping(d);
  }

  /** A trailing space appears when the digits end exactly at a group
      boundary, as in `3714 ` and `1234 5678 `. */
  lemma TrailingSpaceExamples()
    ensures Formatted(Amex, "3714") == "3714 "
    ensures Formatted(Regular, "12345678") == "1234 5678 "
  {
    assert AllDigits("3714");
    FourSixGrouping("3714");
    assert AllDigits("12345678");
    ByFourGrouping("12345678");
  }
}
