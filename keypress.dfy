/** The `number-only` and `letter-only` directives. Each listens to
    `keypress`; the typed character (whose code is `event.charCode`) and
    the field's value before the key are parameters, and a handler's answer
    is whether the key is let through (`preventDefault` not called). */
module Keypress {
  import opened Strings

  /** `event.charCode >= 48 && event.charCode <= 57`: the codes of `0`
      to `9`. */
  predicate IsDigitCode(code: int) {
    48 <= code <= 57
  }

  /** What a `keypress` handler leaves behind: the field's value and
      whether the key goes on to be inserted. */
  datatype KeyResult = KeyResult(value: string, accepted: bool)

  /** `number-only`: the value loses every character outside `0`-`9`, and
      only a digit key goes through. */
  function NumberOnly(value: string, key: char): KeyResult {
    KeyResult(Digits(value), IsDigitCode(key as int))
  }

  /** `letter-only`: the value stays, and every key but a digit goes
      through. */
  function LetterOnly(value: string, key: char): KeyResult {
    KeyResult(value, !IsDigitCode(key as int))
  }

  /** The value after the key, when the key is inserted at the end. */
  function AfterKey(r: KeyResult, key: char): string {
    if r.accepted then r.value + [key] else r.value
  }

  /** A digit code is exactly the code of a character that `\d` matches. */
  lemma DigitCodeIsDigit(key: char)
    ensures IsDigitCode(key as int) <==> IsDigit(key)
  {
  }

  /** After a key, a `number-only` field holds digits only, and every digit
      it held before is still there, in order. */
  lemma NumberOnlyKeepsDigits(value: string, key: char)
    ensures AllDigits(AfterKey(NumberOnly(value, key), key))
    ensures AfterKey(NumberOnly(value, key), key)[..|Digits(value)|] == Digits(value)
    ensures NumberOnly(value, key).accepted <==> IsDigitCode(key as int)
  {
    var r := NumberOnly(value, key);
    if r.accepted {
      DigitCodeIsDigit(key);
      var after := AfterKey(r, key);
      assert after == Digits(value) + [key];
      assert forall i :: 0 <= i < |Digits(value)| ==> after[i] == Digits(value)[i];
    }
  }

  /** A `letter-only` field never gains a digit from a key, and its value
      is left as it was; each key passes exactly one of the two
      directives. */
  lemma LetterOnlyRejectsDigits(value: string, key: char)
    ensures LetterOnly(value, key).value == value
    ensures LetterOnly(value, key).accepted <==> !IsDigit(key)
    ensures LetterOnly(value, key).accepted != NumberOnly(value, key).accepted
    ensures Digits(AfterKey(LetterOnly(value, key), key)) == Digits(value)
  {
    DigitCodeIsDigit(key);
    if !IsDigitCode(key as int) {
      DigitsAppend(value, [key]);
      assert Digits([key]) == Digits([key][1..]);
    }
  }
}
