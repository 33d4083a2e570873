/** Characters and strings as the card form's script sees them: the `\d`
    digit class, JavaScript's white space, and integer <-> decimal text. */
module Strings {

  datatype Option<T> = None | Some(value: T)

  /** `\d` (and `[0-9]`) in a JavaScript regular expression. */
  predicate IsDigit(c: char) {
    '0' <= c <= '9'
  }

  predicate AllDigits(s: string) {
    forall i :: 0 <= i < |s| ==> IsDigit(s[i])
  }

  /** The WhiteSpace and LineTerminator code points of ECMA-262, which is
      what `String.prototype.trim` removes and what `Number(...)` skips. */
  predicate IsJsWhitespace(c: char) {
    var n := c as int;
    n == 0x09 || n == 0x0A || n == 0x0B || n == 0x0C || n == 0x0D || n == 0x20
    || n == 0xA0 || n == 0x1680 || (0x2000 <= n <= 0x200A) || n == 0x2028
    || n == 0x2029 || n == 0x202F || n == 0x205F || n == 0x3000 || n == 0xFEFF
  }

  function DigitValue(c: char): (v: nat)
    requires IsDigit(c)
    ensures v < 10
  {
    c as int - '0' as int
  }

  function DigitChar(v: nat): (c: char)
    requires v < 10
    ensures IsDigit(c) && DigitValue(c) == v
  {
    ('0' as int + v) as char
  }

  /** `s.replace(/\D/g, '')`: every digit of `s`, in order, and nothing else. */
  function Digits(s: string): (r: string)
    ensures AllDigits(r)
    ensures |r| <= |s|
    ensures AllDigits(s) ==> r == s
  {
    if s == [] then []
    else (if IsDigit(s[0]) then [s[0]] else []) + Digits(s[1..])
  }

  /** Every occurrence of every digit survives `Digits`; with `AllDigits`
      of the result this says that exactly the non-digits are dropped. */
  lemma {:induction false} DigitsKeepsEveryDigit(s: string)
    ensures forall c :: IsDigit(c) ==> multiset(Digits(s))[c] == multiset(s)[c]
  {
    if s != [] {
      assert s == [s[0]] + s[1..];
      DigitsKeepsEveryDigit(s[1..]);
    }
  }

  /** A digit string followed by a space: the space disappears. */
  lemma DigitsAfterSpace(a: string, b: string)
    requires AllDigits(a)
    ensures Digits(a + " " + b) == a + Digits(b)
  {
    var t := " " + b;
    assert t[0] == ' ' && t[1..] == b;
    assert Digits(t) == Digits(b);
    DigitsAppend(a, t);
    assert a + " " + b == a + t;
  }

  lemma {:induction false} DigitsAppend(a: string, b: string)
    ensures Digits(a + b) == Digits(a) + Digits(b)
  {
    if a == [] {
      assert a + b == b;
    } else {
      var ab := a + b;
      assert ab[0] == a[0] && ab[1..] == a[1..] + b;
      DigitsAppend(a[1..], b);
      assert Digits(ab) == (if IsDigit(a[0]) then [a[0]] else []) + Digits(a[1..] + b);
      assert Digits(a) == (if IsDigit(a[0]) then [a[0]] else []) + Digits(a[1..]);
    }
  }

  /** The number a string of decimal digits denotes. */
  function DecimalValue(s: string): nat
    requires AllDigits(s)
  {
    if s == [] then 0 else 10 * DecimalValue(s[..|s| - 1]) + DigitValue(s[|s| - 1])
  }

  /** `String(n)` for a non-negative integer: shortest decimal text. */
  function NatToDecimal(n: nat): (r: string)
    ensures |r| >= 1 && AllDigits(r)
    ensures DecimalValue(r) == n
    ensures n < 10 <==> |r| == 1
    ensures r[0] == '0' ==> n == 0
  {
    if n < 10 then [DigitChar(n)]
    else
      var prefix := NatToDecimal(n / 10);
      var r := prefix + [DigitChar(n % 10)];
      assert r[..|r| - 1] == prefix;
      r
  }

  /** `String(n)` for an integer-valued JavaScript number. */
  function IntToDecimal(n: int): (r: string)
    ensures n >= 0 ==> AllDigits(r) && DecimalValue(r) == n
    ensures n >= 0 ==> |r| >= 1 && r[0] != '-' && (r[0] == '0' ==> n == 0)
    ensures n < 0 ==> |r| >= 2 && r[0] == '-' && r[1] != '0'
    ensures n < 0 ==> AllDigits(r[1..]) && DecimalValue(r[1..]) == -n
  {
    if n >= 0 then NatToDecimal(n) else "-" + NatToDecimal(-n)
  }

  /** A leading nonzero digit makes a digit string denote at least 1. */
  lemma {:induction false} LeadingDigitPositive(s: string)
    requires |s| >= 1 && AllDigits(s) && s[0] != '0'
    ensures DecimalValue(s) >= 1
    decreases |s|
  {
    if |s| > 1 {
      var prefix := s[..|s| - 1];
      assert prefix[0] == s[0];
      LeadingDigitPositive(prefix);
    } else {
      assert DecimalValue(s) == DigitValue(s[0]);
    }
  }

  /** The decimal text of a number is unique: every non-empty digit string
      without a leading zero (other than "0" itself) that denotes `n` is
      `NatToDecimal(n)`. */
  lemma {:induction false} DecimalTextUnique(s: string, n: nat)
    requires |s| >= 1 && AllDigits(s) && DecimalValue(s) == n
    requires s[0] == '0' ==> |s| == 1
    ensures s == NatToDecimal(n)
    decreases |s|
  {
    var last := DigitValue(s[|s| - 1]);
    if |s| == 1 {
      assert n == last;
      assert DigitChar(last) == s[0];
    } else {
      var prefix := s[..|s| - 1];
      assert prefix[0] == s[0];
      LeadingDigitPositive(prefix);
      assert n == 10 * DecimalValue(prefix) + last;
      assert n / 10 == DecimalValue(prefix) && n % 10 == last;
      DecimalTextUnique(prefix, n / 10);
      assert DigitChar(last) == s[|s| - 1];
      assert s == prefix + [s[|s| - 1]];
    }
  }
}
