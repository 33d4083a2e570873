/** The submit check `invaildCard`. It walks the display string from its
    last character to its first and adds each character, or its doubled
    value, to `sum`, which starts as the number 0. The first character added
    makes `sum` a string, so every later `+=` appends text. The final
    `sum % 10 !== 0` converts that text back with `Number`. */
module Checksum {
  import opened Strings
  import opened JsNumbers

  /** What the submit check does: raise the alert, stay silent, or (for a
      literal whose value `Number` rounds to a double) depend on floating
      point, which this model does not decide. */
  datatype Outcome = Alert | Silent | Unresolved

  /** `num` after `num = num * 2` and, when it exceeds 9,
      `num.toString().split('').join('+')`, step by step as the handler
      computes it. */
  function DoubleAsJs(c: char): JsValue {
    var num := Times2(CharToNumber(c));
    if GreaterThanNine(num) then Str(JoinWithPlus(ToJsString(num))) else num
  }

  /** The same value by cases: a digit `d` gives `2d`, or the text `1+e`
      when `2d = 10 + e`; white space gives 0; anything else NaN. */
  function DoubledAddend(c: char): JsValue {
    if IsDigit(c) then
      (var v := 2 * DigitValue(c); if v > 9 then Str(['1', '+', DigitChar(v - 10)]) else Int(v))
    else if IsJsWhitespace(c) then Int(0)
    else NaN
  }

  lemma DoubledAddendMatchesJs(c: char)
    ensures DoubledAddend(c) == DoubleAsJs(c)
  {
    if IsDigit(c) && 2 * DigitValue(c) > 9 {
      var v := 2 * DigitValue(c);
      var s := NatToDecimal(v);
      assert s == NatToDecimal(1) + [DigitChar(v % 10)];
      assert s == ['1', DigitChar(v - 10)];
      JoinWithPlusShape(s);
      assert JoinWithPlus(s)[2 * 0 + 1] == '+' && JoinWithPlus(s)[2 * 1] == s[1];
    }
  }

  /** One iteration of the loop. */
  function Step(sum: JsValue, c: char, isOdd: bool): JsValue {
    if isOdd then Plus(sum, Str([c])) else Plus(sum, DoubledAddend(c))
  }

  /** `isOdd` when the loop reaches the character with `k` characters after
      it: `true` at first, negated after every character. */
  function IsOddAt(k: nat): bool {
    if k == 0 then true else !IsOddAt(k - 1)
  }

  /** The flag is set exactly at an even distance from the end. */
  lemma {:induction false} IsOddAtParity(k: nat)
    ensures IsOddAt(k) <==> k % 2 == 0
  {
    if k > 0 {
      IsOddAtParity(k - 1);
    }
  }

  /** `sum` after the last `k` characters of `number` have been visited. */
  function SumAfter(number: string, k: nat): JsValue
    requires k <= |number|
    decreases k, 1
  {
    if k == 0 then Int(0) else SumThrough(number, k)
  }

  /** The `k`-th visit from the end: one loop step on the sum before it. */
  function SumThrough(number: string, k: nat): JsValue
    requires 1 <= k <= |number|
    decreases k, 0
  {
    Step(SumAfter(number, k - 1), number[|number| - k], IsOddAt(k - 1))
  }

  /** 2^53: below it every integer is a double. */
  const ExactLimit: nat := 0x20_0000_0000_0000

  /** `sum % 10 !== 0` */
  function RemainderVerdict(sum: JsValue): Outcome {
    match sum
    case Int(n) => if n % 10 == 0 then Silent else Alert
    case NaN => Alert
    case Str(s) =>
      var t := Trim(s);
      if t == "" then Silent
      else if !IsNumericLiteral(t) then Alert
      else if AllDigits(t) && DecimalValue(t) < ExactLimit then
        (if DecimalValue(t) % 10 == 0 then Silent else Alert)
      else Unresolved
  }

  /** What submitting the display `number` does. */
  function SubmitVerdict(number: string): Outcome {
    RemainderVerdict(SumAfter(number, |number|))
  }

  /** The text each visited character appends to `sum` once `sum` is
      text: the character itself, or its doubled addend as text. */
  function Piece(c: char, isOdd: bool): string {
    if isOdd then [c]
    else if IsDigit(c) then
      (var v := 2 * DigitValue(c); if v > 9 then ['1', '+', DigitChar(v - 10)] else [DigitChar(v)])
    else if IsJsWhitespace(c) then "0"
    else "NaN"
  }

  /** All pieces appended while visiting the last `k` characters. */
  function Appended(number: string, k: nat): string
    requires k <= |number|
  {
    if k == 0 then ""
    else Appended(number, k - 1) + Piece(number[|number| - k], IsOddAt(k - 1))
  }

  /** A doubled position's piece is the text of its doubled addend, so
      `Piece` and `DoubledAddend` spell the same case table. */
  lemma DoubledPieceIsAddendText(c: char)
    ensures Piece(c, false) == ToJsString(DoubledAddend(c))
  {
    if IsDigit(c) && 2 * DigitValue(c) <= 9 {
      assert NatToDecimal(2 * DigitValue(c)) == [DigitChar(2 * DigitValue(c))];
    } else if !IsDigit(c) && IsJsWhitespace(c) {
      assert NatToDecimal(0) == "0";
    }
  }

  /** Adding to text appends the piece. */
  lemma StepOnText(x: string, c: char, isOdd: bool)
    ensures Step(Str(x), c, isOdd) == Str(x + Piece(c, isOdd))
  {
    if !isOdd {
      DoubledPieceIsAddendText(c);
    }
  }

  /** One more visited character: `SumAfter` takes one loop step. */
  lemma UnfoldSum(number: string, k: nat)
    requires 1 <= k <= |number|
    ensures SumAfter(number, k)
         == Step(SumAfter(number, k - 1), number[|number| - k], IsOddAt(k - 1))
  {
  }

  /** One more visited character: `Appended` gains its piece. */
  lemma UnfoldText(number: string, k: nat)
    requires 1 <= k <= |number|
    ensures Appended(number, k)
         == Appended(number, k - 1) + Piece(number[|number| - k], IsOddAt(k - 1))
  {
  }

  /** The first visited character turns the number 0 into the text `0`
      followed by that character's piece. */
  lemma FirstStep(number: string)
    requires 1 <= |number|
    ensures SumAfter(number, 1) == Str("0" + Appended(number, 1))
  {
    var c := number[|number| - 1];
    UnfoldSum(number, 1);
    UnfoldText(number, 1);
    assert NatToDecimal(0) == "0";
    assert SumAfter(number, 1) == Plus(Int(0), Str([c]));
    assert Appended(number, 1) == [c];
  }

  /** Once `sum` is text, each later step appends the piece. */
  lemma LaterStep(number: string, k: nat)
    requires 2 <= k <= |number|
    requires SumAfter(number, k - 1) == Str("0" + Appended(number, k - 1))
    ensures SumAfter(number, k) == Str("0" + Appended(number, k))
  {
    var c := number[|number| - k];
    var isOdd := IsOddAt(k - 1);
    var a := Appended(number, k - 1);
    UnfoldSum(number, k);
    UnfoldText(number, k);
    StepOnText("0" + a, c, isOdd);
    assert ("0" + a) + Piece(c, isOdd) == "0" + (a + Piece(c, isOdd));
  }

  /** Once a character has been visited, `sum` is the text `0` followed by
      the pieces. */
  lemma {:induction false} SumIsText(number: string, k: nat)
    requires 1 <= k <= |number|
    ensures SumAfter(number, k) == Str("0" + Appended(number, k))
  {
    if k == 1 {
      FirstStep(number);
    } else {
      assert SumAfter(number, k - 1) == Str("0" + Appended(number, k - 1)) by {
        SumIsText(number, k - 1);
      }
      assert SumAfter(number, k) == Str("0" + Appended(number, k)) by {
        LaterStep(number, k);
      }
    }
  }

  lemma {:induction false} AppendedPrefix(number: string, m: nat, k: nat)
    requires m <= k <= |number|
    ensures |Appended(number, m)| <= |Appended(number, k)|
    ensures Appended(number, k)[..|Appended(number, m)|] == Appended(number, m)
  {
    if m < k {
      AppendedPrefix(number, m, k - 1);
      var a, b := Appended(number, m), Appended(number, k - 1);
      assert Appended(number, k) == b + Piece(number[|number| - k], IsOddAt(k - 1));
      assert Appended(number, k)[..|a|] == b[..|a|];
    }
  }

  /** Where `p`, the piece of the character with `k` characters after it,
      sits in the final text. */
  lemma PieceOffset(number: string, k: nat, p: string) returns (off: nat)
    requires k < |number| && p == Piece(number[|number| - 1 - k], IsOddAt(k))
    ensures off == 1 + |Appended(number, k)|
    ensures off + |p| <= |"0" + Appended(number, |number|)|
    ensures forall t :: 0 <= t < |p| ==> ("0" + Appended(number, |number|))[off + t] == p[t]
  {
    var a := Appended(number, k);
    var b := Appended(number, k + 1);
    var all := Appended(number, |number|);
    assert b == a + p by {
      UnfoldText(number, k + 1);
      assert |number| - (k + 1) == |number| - 1 - k;
    }
    assert |b| <= |all| && all[..|b|] == b by {
      AppendedPrefix(number, k + 1, |number|);
    }
    off := 1 + |a|;
    TextAfterPrefix(a, p, all);
  }

  /** Text that starts with `a + p`, behind one more character, holds `p`
      right after `a`. */
  lemma TextAfterPrefix(a: string, p: string, all: string)
    requires |a + p| <= |all| && all[..|a + p|] == a + p
    ensures 1 + |a| + |p| <= |"0" + all|
    ensures forall t :: 0 <= t < |p| ==> ("0" + all)[1 + |a| + t] == p[t]
  {
    forall t | 0 <= t < |p| ensures ("0" + all)[1 + |a| + t] == p[t] {
      assert all[|a| + t] == all[..|a + p|][|a| + t] == (a + p)[|a| + t];
    }
  }

  /** What a doubled character appends: never white space first; `NaN` for
      a character that is neither digit nor white space; `1+d` for a digit
      from 5 to 9. */
  lemma DoubledPiece(c: char)
    ensures var p := Piece(c, false);
      && |p| >= 1 && !IsJsWhitespace(p[0])
      && (!IsDigit(c) && !IsJsWhitespace(c) ==> p == "NaN")
      && (IsDigit(c) && c >= '5' ==> |p| == 3 && p[0] == '1' && p[1] == '+')
  {
  }

  /** A display whose final text, once trimmed, is no numeric literal
      alerts: `Number` gives NaN. */
  lemma TextNotLiteralAlerts(number: string)
    requires 1 <= |number|
    requires var t := Trim("0" + Appended(number, |number|));
      t != "" && !IsNumericLiteral(t)
    ensures SubmitVerdict(number) == Alert
  {
    SumIsText(number, |number|);
  }

  /** The empty display never alerts: the loop does not run and `0 % 10` is
      0. */
  lemma EmptyNumberSilent()
    ensures SubmitVerdict("") == Silent
  {
  }

  /** A character that no numeric literal contains, `*` among them, always
      alerts: visited as is, it lands in the text; doubled, it is NaN and
      appends `NaN`. */
  lemma ForeignCharAlerts(number: string, j: nat)
    requires j < |number| && IsForeign(number[j])
    ensures SubmitVerdict(number) == Alert
  {
    var off := PieceStart(number, |number| - 1 - j);
    ForeignPieceStart(number[j], IsOddAt(|number| - 1 - j));
    ForeignCharNotLiteral("0" + Appended(number, |number|), off);
    TextNotLiteralAlerts(number);
  }

  /** The piece of a foreign character starts with a foreign character:
      the character itself, or the `N` of `NaN`. */
  lemma ForeignPieceStart(c: char, isOdd: bool)
    requires IsForeign(c)
    ensures |Piece(c, isOdd)| >= 1 && IsForeign(Piece(c, isOdd)[0])
  {
    DoubledPiece(c);
    assert IsForeign('N');
  }

  /** A masked display (one holding `*`) always alerts. */
  lemma MaskedNumberAlerts(number: string)
    requires '*' in number
    ensures SubmitVerdict(number) == Alert
  {
    var j :| 0 <= j < |number| && number[j] == '*';
    assert IsForeign('*');
    ForeignCharAlerts(number, j);
  }

  /** A digit from 5 to 9 at the 2nd, 4th, ... position from the end always
      alerts: it appends `1+d`, and `+` after `1` is not a number. */
  lemma HighDoubledDigitAlerts(number: string, j: nat)
    requires j < |number| && IsDigit(number[j]) && number[j] >= '5'
    requires (|number| - 1 - j) % 2 == 1
    ensures SubmitVerdict(number) == Alert
  {
    var k := |number| - 1 - j;
    assert !IsOddAt(k) by {
      IsOddAtParity(k);
    }
    var off := SignAfterOne(number, k);
    MisplacedSignNotLiteral("0" + Appended(number, |number|), off + 1);
    TextNotLiteralAlerts(number);
  }

  /** A doubled digit from 5 to 9 puts `1+` into the final text. */
  lemma SignAfterOne(number: string, k: nat) returns (off: nat)
    requires k < |number| && !IsOddAt(k)
    requires IsDigit(number[|number| - 1 - k]) && number[|number| - 1 - k] >= '5'
    ensures var text := "0" + Appended(number, |number|);
      off + 1 < |text| && text[off] == '1' && text[off + 1] == '+'
  {
    var j := |number| - 1 - k;
    var p := Piece(number[j], IsOddAt(k));
    off := PieceOffset(number, k, p);
    DoubledPiece(number[j]);
    assert p[0] == '1' && p[1] == '+';
    assert ("0" + Appended(number, |number|))[off + 0] == p[0];
    assert ("0" + Appended(number, |number|))[off + 1] == p[1];
  }

  /** The first character of the piece of the character with `k`
      characters after it, and where it sits in the final text. */
  lemma PieceStart(number: string, k: nat) returns (off: nat)
    requires k < |number|
    ensures var text := "0" + Appended(number, |number|);
      && off == 1 + |Appended(number, k)|
      && off < |text|
      && text[off] == Piece(number[|number| - 1 - k], IsOddAt(k))[0]
  {
    var j := |number| - 1 - k;
    var p := Piece(number[j], IsOddAt(k));
    DoubledPiece(number[j]);
    off := PieceOffset(number, k, p);
    assert ("0" + Appended(number, |number|))[off + 0] == p[0];
  }

  /** A character visited as is appends exactly one character. */
  lemma OneCharPiece(number: string, k: nat)
    requires k < |number| && IsOddAt(k)
    ensures Appended(number, k + 1) == Appended(number, k) + [number[|number| - 1 - k]]
  {
    UnfoldText(number, k + 1);
    assert |number| - (k + 1) == |number| - 1 - k;
  }

  /** A character visited as is, at the 1st, 3rd, ... position from the
      end, lands in the text right before the first character of the next
      doubled piece. */
  lemma AdjacentPieces(number: string, k: nat) returns (off: nat)
    requires k + 1 < |number| && IsOddAt(k)
    ensures var text := "0" + Appended(number, |number|);
      && off + 1 < |text|
      && text[off] == number[|number| - 1 - k]
      && text[off + 1] == Piece(number[|number| - 2 - k], false)[0]
  {
    var c := number[|number| - 1 - k];
    off := PieceStart(number, k);
    assert Piece(c, IsOddAt(k)) == [c];
    var next := PieceStart(number, k + 1);
    assert !IsOddAt(k + 1) && |number| - 1 - (k + 1) == |number| - 2 - k;
    assert next == off + 1 by {
      OneCharPiece(number, k);
    }
  }

  /** White space after the first character, at the 1st, 3rd, ...
      position from the end, always alerts: it lands in the text with the
      next doubled piece after it. */
  lemma InnerBlankAlerts(number: string, j: nat)
    requires 1 <= j < |number| && IsJsWhitespace(number[j])
    requires (|number| - 1 - j) % 2 == 0
    ensures SubmitVerdict(number) == Alert
  {
    var text := "0" + Appended(number, |number|);
    assert IsOddAt(|number| - 1 - j) by {
      IsOddAtParity(|number| - 1 - j);
    }
    var off := AdjacentPieces(number, |number| - 1 - j);
    assert |number| - 2 - (|number| - 1 - j) == j - 1;
    DoubledPiece(number[j - 1]);
    assert text[0] == '0';
    InnerWhitespaceNotLiteral(text, off, off + 1);
    TextNotLiteralAlerts(number);
  }

  // ---- The check the handler evidently means: Luhn mod 10 ----

  /** A digit's term in the Luhn sum (ISO/IEC 7812-1, Annex B). */
  function LuhnTerm(c: char, doubled: bool): nat
    requires IsDigit(c)
  {
    var v := DigitValue(c);
    if !doubled then v else if 2 * v > 9 then 2 * v - 9 else 2 * v
  }

  /** The Luhn sum of the first `n` digits of `d`, read from the `n`-th
      digit leftwards; `doubled` says whether that `n`-th digit is
      doubled. */
  function LuhnSum(d: string, n: nat, doubled: bool): nat
    requires AllDigits(d) && n <= |d|
  {
    if n == 0 then 0 else LuhnTerm(d[n - 1], doubled) + LuhnSum(d, n - 1, !doubled)
  }

  /** The last digit is not doubled, the one before it is, and so on; the
      number is valid when the sum is a multiple of 10. */
  predicate LuhnValid(d: string)
    requires AllDigits(d)
  {
    LuhnSum(d, |d|, false) % 10 == 0
  }

  /** Digits at or after position `n` do not take part in the sum. */
  lemma {:induction false} LuhnSumIgnoresRest(d: string, e: string, n: nat, doubled: bool)
    requires AllDigits(d) && AllDigits(e) && n <= |d| && n <= |e| && d[..n] == e[..n]
    ensures LuhnSum(d, n, doubled) == LuhnSum(e, n, doubled)
  {
    if n > 0 {
      assert d[n - 1] == d[..n][n - 1] == e[..n][n - 1] == e[n - 1];
      assert d[..n - 1] == d[..n][..n - 1];
      assert e[..n - 1] == e[..n][..n - 1];
      LuhnSumIgnoresRest(d, e, n - 1, !doubled);
    }
  }

  /** Replacing one digit changes the sum by the change in that digit's
      term and nothing else. */
  lemma {:induction false} LuhnSumUpdate(d: string, n: nat, j: nat, c: char, doubled: bool)
    requires AllDigits(d) && j < n <= |d| && IsDigit(c)
    ensures AllDigits(d[j := c])
    ensures var dj := doubled != ((n - 1 - j) % 2 == 1);
      LuhnSum(d[j := c], n, doubled) == LuhnSum(d, n, doubled) - LuhnTerm(d[j], dj) + LuhnTerm(c, dj)
  {
    var e := d[j := c];
    assert AllDigits(e);
    if j == n - 1 {
      assert e[..n - 1] == d[..n - 1];
      LuhnSumIgnoresRest(e, d, n - 1, !doubled);
    } else {
      LuhnSumUpdate(d, n - 1, j, c, !doubled);
    }
  }

  /** Different digits have different terms, all below 10. */
  lemma LuhnTermInjective(a: char, b: char, doubled: bool)
    requires IsDigit(a) && IsDigit(b) && a != b
    ensures LuhnTerm(a, doubled) != LuhnTerm(b, doubled)
    ensures LuhnTerm(a, doubled) < 10 && LuhnTerm(b, doubled) < 10
  {
  }

  /** The Luhn check catches every single-digit substitution. */
  lemma LuhnDetectsSingleSubstitution(d: string, j: nat, c: char)
    requires AllDigits(d) && LuhnValid(d) && j < |d| && IsDigit(c) && c != d[j]
    ensures AllDigits(d[j := c]) && !LuhnValid(d[j := c])
  {
    var dj := (|d| - 1 - j) % 2 == 1;
    LuhnSumUpdate(d, |d|, j, c, false);
    LuhnTermInjective(d[j], c, dj);
    NonMultipleShift(LuhnSum(d, |d|, false), LuhnTerm(c, dj) - LuhnTerm(d[j], dj));
  }

  /** A multiple of 10 moved by less than 10, but not 0, is no multiple of
      10. */
  lemma NonMultipleShift(before: int, delta: int)
    requires before % 10 == 0 && -10 < delta < 10 && delta != 0
    ensures (before + delta) % 10 != 0
  {
    var q := before / 10;
    assert before == 10 * q;
  }
}
