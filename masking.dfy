/** The card-number field as a small state machine: the display string, the
    cached copy taken when masking, the masking flag and the input's maximum
    length. Each handler of the form is a transition on this state. */
module Masking {
  import opened Strings
  import opened CardFormat

  /** The character at `index` after `maskCardNumber`'s `forEach`. */
  function MaskedChar(c: char, index: nat): char {
    if index > 4 && index < 14 && !IsJsWhitespace(c) then '*' else c
  }

  /** The display after masking: positions 5 to 13 that are not white space
      become `*`. */
  function Mask(s: string): string {
    seq(|s|, i requires 0 <= i < |s| => MaskedChar(s[i], i))
  }

  /** `maskCardNumber`'s `split('')`, `forEach` and `join('')`, on an array. */
  method MaskDisplay(s: string) returns (r: string)
    ensures r == Mask(s)
    ensures |r| == |s|
    ensures forall i :: 0 <= i < |s| && (i <= 4 || i >= 14 || IsJsWhitespace(s[i])) ==> r[i] == s[i]
    ensures forall i :: 4 < i < 14 && i < |s| && !IsJsWhitespace(s[i]) ==> r[i] == '*'
  {
    var arr := new char[|s|](i requires 0 <= i < |s| => s[i]);
    var index := 0;
    while index < arr.Length
      invariant 0 <= index <= arr.Length == |s|
      invariant forall i :: 0 <= i < index ==> arr[i] == MaskedChar(s[i], i)
      invariant forall i :: index <= i < arr.Length ==> arr[i] == s[i]
    {
      if index > 4 && index < 14 && !IsJsWhitespace(arr[index]) {
        arr[index] := '*';
      }
      index := index + 1;
    }
    r := arr[..];
  }

  /** Masking a masked display changes nothing. */
  lemma MaskIdempotent(s: string)
    ensures Mask(Mask(s)) == Mask(s)
  {
    var m := Mask(s);
    assert forall i :: 0 <= i < |m| ==> Mask(m)[i] == m[i];
  }

  /** `formData.cardNumber`, `mainCardNumber`, `isCardNumberMasked` and
      `cardNumberMaxLength`. */
  datatype NumberField = NumberField(display: string, cache: string, masked: bool, maxLength: nat)

  /** `maskCardNumber`: cache the display, then mask it. */
  function MaskField(f: NumberField): NumberField {
    f.(cache := f.display, display := Mask(f.display))
  }

  /** `unMaskCardNumber`, which `focusCardNumber` calls unconditionally. */
  function Unmask(f: NumberField): NumberField {
    f.(display := f.cache)
  }

  /** `blurCardNumber` */
  function Blur(f: NumberField): NumberField {
    if f.masked then MaskField(f) else f
  }

  /** `toggleMask` */
  function Toggle(f: NumberField): NumberField {
    var g := f.(masked := !f.masked);
    if g.masked then MaskField(g) else Unmask(g)
  }

  /** `changeNumber` with the input's value `input`: the first matching rule
      formats the digits and sets the maximum length; with no rule the raw
      input stays. The cache is not touched. */
  function Typed(f: NumberField, input: string): NumberField {
    var value := Digits(input);
    match Classify(value)
    case Some(b) => f.(display := Formatted(b, value), maxLength := MaxLength(b))
    case None => f.(display := input)
  }

  /** The display shows what the flag says: the masked cache when masking is
      on, the cache itself when it is off. */
  predicate Consistent(f: NumberField) {
    if f.masked then f.display == Mask(f.cache) else f.display == f.cache
  }

  /** Masking keeps the length; positions up to 4, from 14 on and white
      space are kept; the rest becomes `*`; and the cache receives the
      display as it was before masking. */
  lemma MaskFieldEffect(f: NumberField)
    ensures var g := MaskField(f);
      && |g.display| == |f.display|
      && g.cache == f.display
      && (forall i :: 0 <= i < |f.display| && (i <= 4 || i >= 14 || IsJsWhitespace(f.display[i])) ==>
            g.display[i] == f.display[i])
      && (forall i :: 4 < i < 14 && i < |f.display| && !IsJsWhitespace(f.display[i]) ==>
            g.display[i] == '*')
      && MaskField(g).display == g.display
  {
    MaskIdempotent(f.display);
  }

  /** Blur with masking on, then focus, gives back the display as it was
      before the blur; blur with masking off does nothing; focus always
      shows the cache. */
  lemma BlurThenFocus(f: NumberField)
    ensures f.masked ==> Unmask(Blur(f)).display == f.display
    ensures !f.masked ==> Blur(f) == f
    ensures Unmask(f).display == f.cache
  {
  }

  /** After a blur with masking on, the state is consistent. */
  lemma BlurMakesConsistent(f: NumberField)
    requires f.masked
    ensures Consistent(Blur(f))
  {
  }

  /** Toggling twice from a consistent state restores flag, display and
      cache. */
  lemma ToggleTwice(f: NumberField)
    requires Consistent(f)
    ensures Toggle(Toggle(f)) == f
  {
    if !f.masked {
      MaskIdempotent(f.cache);
    }
  }

  /** Toggling twice from an unmasked state whose display differs from the
      cache brings the display back and replaces the stale cache with it. */
  lemma ToggleTwiceFromStaleState(f: NumberField)
    requires !f.masked
    ensures Toggle(Toggle(f)).display == f.display
    ensures Toggle(Toggle(f)).cache == f.display
  {
  }

  /** With masking on, focus and typing leave the cache as it was; a toggle
      with no blur before it then shows that cache, so the typed text is
      lost, and toggling back masks the old cache rather than the typed
      text. A click on the eye button always blurs the input first, so this
      needs a toggle the template does not offer (see
      `ToggleClickAfterTypingShowsTyped`). */
  lemma ToggleAfterTypingShowsCache(f: NumberField, input: string)
    requires f.masked
    ensures var g := Typed(Unmask(f), input);
      && Toggle(g).display == f.cache
      && !Toggle(g).masked
      && Toggle(Toggle(g)).display == Mask(f.cache)
      && Toggle(Toggle(g)).cache == f.cache
  {
  }

  /** With masking on, a click on the eye button blurs the input before
      the toggle runs: the blur caches the typed display, and the toggle
      shows the typed text. */
  lemma ToggleClickAfterTypingShowsTyped(f: NumberField, input: string)
    requires f.masked
    ensures var g := Typed(Unmask(f), input);
      && Toggle(Blur(g)).display == g.display
      && Toggle(Blur(g)).cache == g.display
      && !Toggle(Blur(g)).masked
  {
  }

  /** With masking off, the blur does not cache anything: typing, leaving
      the field and coming back shows the old cache, and the typed text is
      lost. */
  lemma UnmaskedTypingLostOnReturn(f: NumberField, input: string)
    requires !f.masked
    ensures Blur(Typed(f, input)) == Typed(f, input)
    ensures Unmask(Blur(Typed(f, input))).display == f.cache
  {
  }

  /** Typing never refreshes the cache or the flag. With masking off, the
      next focus therefore shows the cached value, whatever was typed; with
      masking on, the blur before any focus refreshes the cache first
      (`TypedSurvivesBlurFocus`). */
  lemma TypingLeavesCacheStale(f: NumberField, input: string)
    ensures Typed(f, input).cache == f.cache
    ensures Unmask(Typed(f, input)).display == f.cache
    ensures Typed(f, input).masked == f.masked
  {
  }

  /** With masking on, typed text survives blur and focus. */
  lemma TypedSurvivesBlurFocus(f: NumberField, input: string)
    requires f.masked
    ensures Unmask(Blur(Typed(f, input))).display == Typed(f, input).display
  {
  }

  /** When a rule matches, the display is digits and spaces whose digits are
      exactly the input's; when none does (more than 16 digits), the display
      is the raw input and the maximum length does not change. */
  lemma TypedDisplay(f: NumberField, input: string)
    ensures var g := Typed(f, input);
      && (|Digits(input)| <= 16 ==>
            DigitsAndSpaces(g.display) && Digits(g.display) == Digits(input)
            && |g.display| <= g.maxLength && g.maxLength in {16, 17, 19})
      && (|Digits(input)| > 16 ==> g.display == input && g.maxLength == f.maxLength)
  {
    var d := Digits(input);
    NoRuleIffTooLong(d);
    match Classify(d)
    case Some(b) => FormattedShape(b, d);
    case None =>
  }

  /** Typing the displayed value again reproduces the same state. */
  lemma RetypeIsStable(f: NumberField, input: string)
    ensures Typed(Typed(f, input), Typed(f, input).display) == Typed(f, input)
  {
    var d := Digits(input);
    match Classify(d)
    case Some(b) => FormattedShape(b, d);
    case None =>
  }

  /** The masked form of a full 16-digit regular number shows its first and
      last four digits. */
  lemma MaskedRegularNumber(d: string)
    requires AllDigits(d) && |d| == 16
    ensures Mask(Formatted(Regular, d)) == d[..4] + " **** **** " + d[12..]
  {
    ByFourGrouping(d);
    var s := Formatted(Regular, d);
    var m := Mask(s);
    var want := d[..4] + " **** **** " + d[12..];
    assert |m| == |want| == 19;
    forall i | 0 <= i < 19 ensures m[i] == want[i] {
      if i < 4 { assert s[i] == d[i]; }
      else if i == 4 || i == 9 { assert s[i] == ' '; }
      else if i < 9 { assert s[i] == d[i - 1]; }
      else if i < 14 { assert s[i] == d[i - 2]; }
      else if i > 14 { assert s[i] == d[i - 3]; }
    }
  }

  /** The masked form of a full Amex (15 digits) or Diners (14 digits)
      number shows its first four digits and its digits from the
      thirteenth on. */
  lemma MaskedWideNumber(b: Brand, d: string)
    requires b != Regular && AllDigits(d)
    requires |d| == (if b == Amex then 15 else 14)
    ensures Mask(Formatted(b, d)) == d[..4] + " ****** **" + d[12..]
  {
    FourSixGrouping(d);
    var s := Formatted(b, d);
    var m := Mask(s);
    var want := d[..4] + " ****** **" + d[12..];
    assert |m| == |want|;
    forall i | 0 <= i < |m| ensures m[i] == want[i] {
      if i < 4 { assert s[i] == d[i]; }
      else if i == 4 || i == 11 { assert s[i] == ' '; }
      else if i < 11 { assert s[i] == d[i - 1]; }
      else { assert s[i] == d[i - 2]; }
    }
  }
}
