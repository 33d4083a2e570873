/** The JavaScript coercions the submit handler relies on: `+` between
    numbers and strings, `*` on a one-character string, `String(n)`, and
    `Number(s)` for strings (the StringNumericLiteral grammar of ECMA-262,
    section "ToNumber Applied to the String Type"). Only integer-valued
    numbers occur before the final remainder, so a number is an `int`. */
module JsNumbers {
  import opened Strings

  datatype JsValue = Int(n: int) | NaN | Str(s: string)

  /** `String(v)` */
  function ToJsString(v: JsValue): string {
    match v
    case Int(n) => IntToDecimal(n)
    case NaN => "NaN"
    case Str(s) => s
  }

  /** `a + b`: concatenation as soon as one side is a string. */
  function Plus(a: JsValue, b: JsValue): JsValue {
    if a.Str? || b.Str? then Str(ToJsString(a) + ToJsString(b))
    else if a.NaN? || b.NaN? then NaN
    else Int(a.n + b.n)
  }

  /** `Number(c)` for a one-character string: a digit is its value, white
      space trims to the empty string and so to 0, anything else is NaN. */
  function CharToNumber(c: char): JsValue {
    if IsDigit(c) then Int(DigitValue(c))
    else if IsJsWhitespace(c) then Int(0)
    else NaN
  }

  /** `v * 2` */
  function Times2(v: JsValue): JsValue
    requires !v.Str?
  {
    match v
    case Int(n) => Int(2 * n)
    case NaN => NaN
  }

  /** `v > 9` for a number; NaN compares false. */
  predicate GreaterThanNine(v: JsValue) {
    v.Int? && v.n > 9
  }

  /** `s.split('').join('+')` */
  function JoinWithPlus(s: string): string {
    if |s| <= 1 then s else [s[0]] + "+" + JoinWithPlus(s[1..])
  }

  /** The joined text holds the characters of `s` at even positions and `+`
      at odd ones. */
  lemma {:induction false} JoinWithPlusShape(s: string)
    requires |s| >= 1
    ensures |JoinWithPlus(s)| == 2 * |s| - 1
    ensures forall i :: 0 <= i < |s| ==> JoinWithPlus(s)[2 * i] == s[i]
    ensures forall i :: 0 <= i < |s| - 1 ==> JoinWithPlus(s)[2 * i + 1] == '+'
  {
    if |s| > 1 {
      JoinWithPlusShape(s[1..]);
      var r, t := JoinWithPlus(s), JoinWithPlus(s[1..]);
      assert r == [s[0], '+'] + t;
      forall i | 1 <= i < |s| ensures r[2 * i] == s[i] {
        assert r[2 * i] == t[2 * (i - 1)];
      }
      forall i | 1 <= i < |s| - 1 ensures r[2 * i + 1] == '+' {
        assert r[2 * i + 1] == t[2 * (i - 1) + 1];
      }
    }
  }

  // ---- Number(s) for strings ----

  function TrimStart(s: string): (r: string)
    ensures |r| <= |s| && r == s[|s| - |r|..]
    ensures forall i :: 0 <= i < |s| - |r| ==> IsJsWhitespace(s[i])
    ensures |r| > 0 ==> !IsJsWhitespace(r[0])
  {
    if s != [] && IsJsWhitespace(s[0]) then TrimStart(s[1..]) else s
  }

  function TrimEnd(s: string): (r: string)
    ensures |r| <= |s| && r == s[..|r|]
    ensures forall i :: |r| <= i < |s| ==> IsJsWhitespace(s[i])
    ensures |r| > 0 ==> !IsJsWhitespace(r[|r| - 1])
  {
    if s != [] && IsJsWhitespace(s[|s| - 1]) then TrimEnd(s[..|s| - 1]) else s
  }

  /** The white space `Number(s)` ignores around the literal. */
  function Trim(s: string): string {
    TrimEnd(TrimStart(s))
  }

  predicate IsSign(c: char) {
    c == '+' || c == '-'
  }

  predicate IsExponentMark(c: char) {
    c == 'e' || c == 'E'
  }

  predicate IsHexDigit(c: char) {
    IsDigit(c) || 'a' <= c <= 'f' || 'A' <= c <= 'F'
  }

  /** Index of the first exponent mark, or the length. */
  function FirstExponentMark(t: string): (k: nat)
    ensures k <= |t|
    ensures k < |t| ==> IsExponentMark(t[k])
    ensures forall i :: 0 <= i < k ==> !IsExponentMark(t[i])
  {
    if t == [] then 0
    else if IsExponentMark(t[0]) then 0
    else 1 + FirstExponentMark(t[1..])
  }

  /** Index of the first `.`, or the length. */
  function FirstDot(t: string): (k: nat)
    ensures k <= |t|
    ensures k < |t| ==> t[k] == '.'
    ensures forall i :: 0 <= i < k ==> t[i] != '.'
  {
    if t == [] then 0
    else if t[0] == '.' then 0
    else 1 + FirstDot(t[1..])
  }

  /** DecimalDigits, with an optional sign: SignedInteger. */
  predicate IsSignedInteger(t: string) {
    (|t| >= 1 && AllDigits(t)) || (|t| >= 2 && IsSign(t[0]) && AllDigits(t[1..]))
  }

  /** `DecimalDigits`, `DecimalDigits .`, `DecimalDigits . DecimalDigits` or
      `. DecimalDigits`. */
  predicate IsMantissa(m: string) {
    var p := FirstDot(m);
    AllDigits(m[..p])
    && (p == |m| ==> |m| >= 1)
    && (p < |m| ==> AllDigits(m[p + 1..]) && (p >= 1 || |m| >= 2))
  }

  /** StrUnsignedDecimalLiteral */
  predicate IsUnsignedDecimal(t: string) {
    t == "Infinity"
    || (var k := FirstExponentMark(t);
        IsMantissa(t[..k]) && (k < |t| ==> IsSignedInteger(t[k + 1..])))
  }

  /** StrDecimalLiteral */
  predicate IsStrDecimal(t: string) {
    IsUnsignedDecimal(t) || (|t| >= 1 && IsSign(t[0]) && IsUnsignedDecimal(t[1..]))
  }

  /** NonDecimalIntegerLiteral: `0b`, `0o` or `0x` and at least one digit. */
  predicate IsNonDecimalInteger(t: string) {
    |t| >= 3 && t[0] == '0'
    && ((t[1] in "bB" && forall i :: 2 <= i < |t| ==> t[i] in "01")
        || (t[1] in "oO" && forall i :: 2 <= i < |t| ==> '0' <= t[i] <= '7')
        || (t[1] in "xX" && forall i :: 2 <= i < |t| ==> IsHexDigit(t[i])))
  }

  /** StrNumericLiteral: what `Number` accepts once white space is trimmed. */
  predicate IsNumericLiteral(t: string) {
    IsStrDecimal(t) || IsNonDecimalInteger(t)
  }

  /** Characters that occur in some numeric literal. */
  predicate IsLiteralChar(c: char) {
    IsHexDigit(c) || c in "+-.eEInfinityxXoObB"
  }

  /** A character no numeric literal contains and no trim removes. */
  predicate IsForeign(c: char) {
    !IsLiteralChar(c) && !IsJsWhitespace(c)
  }

  lemma MantissaChars(m: string)
    requires IsMantissa(m)
    ensures forall i :: 0 <= i < |m| ==> IsDigit(m[i]) || m[i] == '.'
    ensures |m| >= 1 && !IsSign(m[0])
  {
    var p := FirstDot(m);
    forall i | 0 <= i < |m| ensures IsDigit(m[i]) || m[i] == '.' {
      if i < p { assert m[..p][i] == m[i]; }
      else if i > p { assert m[p + 1..][i - p - 1] == m[i]; }
    }
  }

  lemma UnsignedDecimalChars(t: string)
    requires IsUnsignedDecimal(t)
    ensures forall i :: 0 <= i < |t| ==> IsLiteralChar(t[i])
    ensures forall i :: 0 <= i < |t| && IsSign(t[i]) ==> i > 0 && IsExponentMark(t[i - 1])
  {
    if t != "Infinity" {
      var k := FirstExponentMark(t);
      MantissaChars(t[..k]);
      forall i | 0 <= i < |t|
        ensures IsLiteralChar(t[i])
        ensures IsSign(t[i]) ==> i > 0 && IsExponentMark(t[i - 1])
      {
        if i < k {
          assert t[..k][i] == t[i];
        } else if i > k {
          var e := t[k + 1..];
          assert e[i - k - 1] == t[i];
          if i > k + 1 {
            assert AllDigits(e[1..]) || AllDigits(e);
            assert IsDigit(t[i]) by {
              if AllDigits(e) { assert IsDigit(e[i - k - 1]); }
              else { assert e[1..][i - k - 2] == t[i]; }
            }
          }
        }
      }
    }
  }

  lemma NonDecimalChars(t: string)
    requires IsNonDecimalInteger(t)
    ensures forall i :: 0 <= i < |t| ==> IsLiteralChar(t[i]) && !IsSign(t[i])
  {
    forall i | 0 <= i < |t| ensures IsLiteralChar(t[i]) && !IsSign(t[i]) {
      if i >= 2 {
        assert IsHexDigit(t[i]);
      }
    }
  }

  /** Every character of a numeric literal is a literal character, and a
      sign stands only at the start or right after an exponent mark. */
  lemma LiteralShape(t: string)
    ensures IsNumericLiteral(t) ==> forall i :: 0 <= i < |t| ==> IsLiteralChar(t[i])
    ensures IsNumericLiteral(t) ==>
              forall i :: 0 < i < |t| && IsSign(t[i]) ==> IsExponentMark(t[i - 1])
  {
    if IsUnsignedDecimal(t) {
      UnsignedDecimalChars(t);
    } else if IsStrDecimal(t) {
      var u := t[1..];
      UnsignedDecimalChars(u);
      forall i | 0 < i < |t|
        ensures IsLiteralChar(t[i])
        ensures IsSign(t[i]) ==> IsExponentMark(t[i - 1])
      {
        assert u[i - 1] == t[i];
      }
    } else if IsNonDecimalInteger(t) {
      NonDecimalChars(t);
    }
  }

  /** A string whose first character is not white space keeps every
      character up to its last non-white-space one when trimmed. */
  lemma TrimKeeps(s: string, j: nat)
    requires j < |s| && !IsJsWhitespace(s[0]) && !IsJsWhitespace(s[j])
    ensures |Trim(s)| > j && Trim(s)[..j + 1] == s[..j + 1]
  {
    assert TrimStart(s) == s;
  }

  /** A character that no literal contains makes the string NaN. */
  lemma ForeignCharNotLiteral(s: string, i: nat)
    requires i < |s| && !IsJsWhitespace(s[0]) && IsForeign(s[i])
    ensures Trim(s) != "" && !IsNumericLiteral(Trim(s))
  {
    var t := Trim(s);
    assert |t| > i && t[i] == s[i] by {
      TrimKeeps(s, i);
    }
    LiteralShape(t);
  }

  /** A sign that neither starts the string nor follows an exponent mark
      makes the string NaN. */
  lemma MisplacedSignNotLiteral(s: string, i: nat)
    requires 0 < i < |s| && !IsJsWhitespace(s[0])
    requires IsSign(s[i]) && !IsExponentMark(s[i - 1])
    ensures Trim(s) != "" && !IsNumericLiteral(Trim(s))
  {
    var t := Trim(s);
    assert |t| > i && t[i] == s[i] && t[i - 1] == s[i - 1] by {
      TrimKeeps(s, i);
    }
    LiteralShape(t);
  }

  /** No white space character occurs in a literal. */
  lemma WhitespaceNotLiteralChar(c: char)
    requires IsJsWhitespace(c)
    ensures !IsLiteralChar(c)
  {
  }

  /** White space with text on both sides makes the string NaN. */
  lemma InnerWhitespaceNotLiteral(s: string, i: nat, j: nat)
    requires i < j < |s| && !IsJsWhitespace(s[0])
    requires IsJsWhitespace(s[i]) && !IsJsWhitespace(s[j])
    ensures Trim(s) != "" && !IsNumericLiteral(Trim(s))
  {
    var t := Trim(s);
    assert |t| > j && t[i] == s[i] by {
      TrimKeeps(s, j);
    }
    WhitespaceNotLiteralChar(s[i]);
    LiteralShape(t);
  }
}
