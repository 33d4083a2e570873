# Card form component: formatting, masking, expiry and the submit check

This project models the script of the `CardForm` Vue component of a credit
card entry form (`src/components/form-template.js`) and proves properties of
it. The model covers five parts of the component:

- **Card-number formatting (`changeNumber`).** The handler strips every
  non-digit and picks the first brand rule that matches: American Express,
  Diners Club, or a regular number of at most 16 digits. It then inserts
  group spaces with non-global `replace` calls and sets
  `cardNumberMaxLength`. Brand detection follows the three anchored regular
  expressions. Each `replace` is modelled literally, as a leftmost match of
  a pattern of `\d` classes and spaces (`CardFormat.ReplaceFirst`), and then
  proved equal to the closed forms 4-6-rest and 4-4-4-rest.
- **Masking (`maskCardNumber`, `unMaskCardNumber`, `focusCardNumber`,
  `blurCardNumber`, `toggleMask`, and the mask applied on `mounted`).** The
  state is the display, the cached `mainCardNumber`, the masking flag and
  the maximum length. It is modelled in two forms:
  - the `Masking.NumberField` value, with one transition function per
    handler;
  - the class `CardFormComponent.CardForm`, whose methods change the fields
    in place and promise the matching transition.
- **Expiry (`minCardMonth`, the `cardYear` watcher, `generateMonthValue`).**
  The clock is passed in as the current year and month.
- **The submit check (`invaildCard`).** The model follows JavaScript's
  coercions:
  - the first `sum += num` turns the number 0 into text;
  - a doubled digit above 9 becomes text such as `1+6`;
  - the final `sum % 10` converts the text back with `Number`, following
    the StringNumericLiteral grammar of ECMA-262 ("ToNumber Applied to the
    String Type").

  `Checksum.SumAfter` is the loop's specification, and
  `CardFormComponent.CardForm.SumDisplay` runs the loop itself. The Luhn
  mod 10 check of ISO/IEC 7812-1 (Annex B), which the handler evidently
  means, is modelled beside it.
- **The `number-only` and `letter-only` keypress directives.**

The code differs from what one might expect in four places:

- **The cache (`mainCardNumber`).** The code copies the whole display,
  spaces included, and only when masking. Typing never refreshes the cache
  (`Masking.TypingLeavesCacheStale`). With masking off, the user loses
  typed text: typing, leaving the field and coming back shows the old
  cache (`Masking.UnmaskedTypingLostOnReturn`). From the flag-off state,
  two toggles bring the typed text back and copy it into the cache
  (`Masking.ToggleTwiceFromStaleState`). With masking on, a toggle right
  after typing would show the old cache
  (`Masking.ToggleAfterTypingShowsCache`). But that needs a toggle with no
  blur before it. A click on the eye button always blurs the input first,
  and that blur caches the typed text, which the toggle then shows
  (`Masking.ToggleClickAfterTypingShowsTyped`).
- **Doubled values.** A doubled value above 9 is not summed. Its digits are
  joined with `+`, and that text, such as `1+6`, is appended to `sum`.
- **The Luhn-valid test number.** The check raises the alert for
  `4532015112830366`, which passes the Luhn check
  (`Submission.ValidNumberAlerts`).
- **The month rule.** The watcher's key names no property of the
  component, so the watcher never runs and a year change clears no month
  (`Expiry.AsWrittenKeepsDisabledMonth`).

## Model

| member | source | states |
|---|---|---|
| Strings.Digits | src/components/form-template.js:199 | `replace(/\D/g, '')` keeps only digits, never lengthens, and leaves a digit string as it is |
| Strings.DigitsKeepsEveryDigit | src/components/form-template.js:199 | every digit occurs as often in the stripped string as in the input |
| Strings.DigitsAppend | src/components/form-template.js:199 | stripping distributes over concatenation |
| Strings.NatToDecimal | src/components/form-template.js:234 | `toString()` of a non-negative integer is a non-empty digit string denoting it, one character long exactly below 10, with no leading zero unless the number is 0 |
| Strings.DecimalTextUnique | src/components/form-template.js:234 | the shortest decimal text is unique: every digit string without a leading zero that denotes `n` is `toString()` of `n` |
| Strings.IntToDecimal | src/components/form-template.js:234 | `toString()` of a negative integer is `-` followed by the shortest decimal text of its magnitude; of a non-negative one it is the shortest decimal text of the number |
| Keypress.DigitCodeIsDigit | src/components/form-template.js:116 | the char codes 48 to 57 are exactly the `\d` characters |
| Keypress.NumberOnlyKeepsDigits | src/components/form-template.js:112-123 | after a key a `number-only` field holds digits only and keeps its earlier digits as a prefix; the key passes exactly when its code is 48 to 57 |
| Keypress.LetterOnlyRejectsDigits | src/components/form-template.js:124-134 | `letter-only` leaves the value alone, lets through exactly the non-digit keys (the opposite of `number-only`), and never adds a digit |
| CardFormat.LeftmostMatch | src/components/form-template.js:202 | a non-global search finds the leftmost position where the pattern matches, or reports that there is none |
| CardFormat.FirstGroup | src/components/form-template.js:202 | `replace(/(\d{4})/, '$1 ')` on digits puts one space after the first four, and does nothing below four digits |
| CardFormat.FourSixGrouping | src/components/form-template.js:201-206 | the Amex and Diners replace chains group the digits 4-6-rest with a space after each complete group |
| CardFormat.ByFourGrouping | src/components/form-template.js:207-209 | the regular replace chain groups the digits 4-4-4-rest with a space after each complete group |
| CardFormat.NoRuleIffTooLong | src/components/form-template.js:201-210 | on a digit string some rule matches exactly when it has at most 16 digits; the Amex and Diners rules never both match |
| CardFormat.FourSixShape | src/components/form-template.js:202-205 | the 4-6 grouping holds digits and spaces only, its digits are the input, and it adds at most two characters |
| CardFormat.ByFourShape | src/components/form-template.js:208 | the 4-4-4 grouping holds digits and spaces only, its digits are the input, and it adds at most three characters |
| CardFormat.FormattedShape | src/components/form-template.js:199-210 | a formatted display holds digits and spaces only, removing the spaces gives back the digits, and it fits the maximum length of the rule that chose it |
| CardFormat.AmexExample | src/components/form-template.js:200-203 | `371449635398431` is Amex, displays as `3714 496353 98431`, and has maximum length 17 |
| CardFormat.TrailingSpaceExamples | src/components/form-template.js:202-208 | `3714` (Amex) gives `3714 ` and `12345678` (regular) gives `1234 5678 ` |
| Masking.MaskDisplay | src/components/form-template.js:251-257 | the `split`/`forEach`/`join` loop keeps the length, keeps positions up to 4, from 14 on and white space, and writes `*` everywhere else |
| Masking.MaskIdempotent | src/components/form-template.js:249-258 | masking a masked display changes nothing |
| Masking.MaskFieldEffect | src/components/form-template.js:249-258 | `maskCardNumber` keeps the length, stars exactly positions 5 to 13 that are not white space, caches the display as it was before masking, and a second mask leaves the display alone |
| Masking.BlurThenFocus | src/components/form-template.js:244-264 | blur with masking on and then focus gives back the display from before the blur; blur with masking off changes nothing; focus always shows the cache |
| Masking.BlurMakesConsistent | src/components/form-template.js:244-258 | after a blur with masking on, the display is the masked cache |
| Masking.ToggleTwice | src/components/form-template.js:265-272 | from a state whose display agrees with the flag, two toggles restore flag, display and cache |
| Masking.ToggleTwiceFromStaleState | src/components/form-template.js:265-272 | from an unmasked state, two toggles show the display again and overwrite the cache with it |
| Masking.ToggleAfterTypingShowsCache | src/components/form-template.js:265-272 | with masking on, after focus and typing a toggle with no blur before it shows the old cache, not the typed text, and toggling back masks the old cache |
| Masking.TypingLeavesCacheStale | src/components/form-template.js:197-212 | typing never touches the cache or the flag, so with masking off the next focus shows the cache whatever was typed |
| Masking.UnmaskedTypingLostOnReturn | src/components/form-template.js:244-264 | with masking off, blur leaves a typed state unchanged and the next focus shows the old cache: the typed text is lost |
| Masking.ToggleClickAfterTypingShowsTyped | src/components/form-template.js:244-272 | with masking on, the blur that a click on the eye button causes caches the typed display, so the toggle shows the typed text |
| Masking.TypedSurvivesBlurFocus | src/components/form-template.js:244-264 | with masking on, the typed display comes back after blur and focus |
| Masking.TypedDisplay | src/components/form-template.js:197-212 | with at most 16 digits the display is digits and spaces whose digits are the input's and the maximum length is 16, 17 or 19 and fits it; with more, the display is the raw input and the maximum length is unchanged |
| Masking.RetypeIsStable | src/components/form-template.js:197-212 | feeding the formatted display back into `changeNumber` reproduces the same state |
| Masking.MaskedRegularNumber | src/components/form-template.js:249-258 | a full regular display masks to its first four digits, ` **** **** ` and its last four |
| Masking.MaskedWideNumber | src/components/form-template.js:249-258 | a full Amex or Diners display masks to its first four digits, ` ****** **` and its digits from the thirteenth on |
| Expiry.MonthLabelRoundTrip | src/components/form-template.js:190-192 | `generateMonthValue` gives every month a two-digit label that reads back as the month |
| Expiry.MonthLabelsOrdered | src/components/form-template.js:190-192 | month labels are distinct and sort like the months |
| Expiry.MinCardMonthRange | src/components/form-template.js:174-178 | `minCardMonth` lies between 1 and the current month, and exceeds 1 only when the current year is selected |
| Expiry.SelectYearKeepsMonthAllowed | src/components/form-template.js:180-185 | with the watcher run, the month is one the select allows, only the month changes, only to empty, and exactly when it was below the minimum |
| Expiry.SelectYearClearsEarlierMonth | src/components/form-template.js:180-185 | choosing the current year clears an earlier month; choosing another year keeps the month |
| Expiry.AsWrittenKeepsDisabledMonth | src/components/form-template.js:179-185 | as written, choosing the current year in October keeps March selected although it is disabled |
| JsNumbers.JoinWithPlusShape | src/components/form-template.js:234 | `split('').join('+')` puts the characters at even positions and `+` between them |
| JsNumbers.TrimStart | src/components/form-template.js:240 | `Number` skips leading white space only, up to the first other character |
| JsNumbers.TrimEnd | src/components/form-template.js:240 | `Number` skips trailing white space only, back to the last other character |
| JsNumbers.LiteralShape | src/components/form-template.js:240 | every character of a numeric literal is a literal character, and a sign stands only first or after an exponent mark |
| JsNumbers.ForeignCharNotLiteral | src/components/form-template.js:240 | text holding a character no literal uses converts to NaN |
| JsNumbers.MisplacedSignNotLiteral | src/components/form-template.js:240 | text with a sign that is neither first nor after an exponent mark converts to NaN |
| JsNumbers.InnerWhitespaceNotLiteral | src/components/form-template.js:240 | text with white space between other characters converts to NaN |
| Checksum.DoubledAddendMatchesJs | src/components/form-template.js:232-235 | `num * 2` and the `join('+')` give `2d` for a digit up to 4, the text `1+e` for a digit from 5, 0 for white space and NaN otherwise |
| Checksum.IsOddAtParity | src/components/form-template.js:226-238 | `isOdd` is set exactly at an even distance from the end |
| Checksum.DoubledPieceIsAddendText | src/components/form-template.js:232-236 | the text appended for a doubled position is the text of the doubled addend |
| Checksum.StepOnText | src/components/form-template.js:229-237 | once `sum` is text, each step appends the character or its doubled addend as text |
| Checksum.SumIsText | src/components/form-template.js:225-239 | after the first character, `sum` is the text `0` followed by every appended piece in loop order |
| Checksum.PieceOffset | src/components/form-template.js:227-239 | each character's piece sits in the final text right after the pieces of the characters behind it |
| Checksum.DoubledPiece | src/components/form-template.js:232-236 | a doubled piece never starts with white space, is `NaN` for a foreign character, and `1+d` for a digit from 5 |
| Checksum.TextNotLiteralAlerts | src/components/form-template.js:240-242 | when the final text is no numeric literal, the alert is raised |
| Checksum.EmptyNumberSilent | src/components/form-template.js:223-242 | the empty number never alerts |
| Checksum.ForeignCharAlerts | src/components/form-template.js:223-242 | a character outside every numeric literal, anywhere in the number, raises the alert |
| Checksum.MaskedNumberAlerts | src/components/form-template.js:223-242 | a number holding `*` raises the alert |
| Checksum.HighDoubledDigitAlerts | src/components/form-template.js:223-242 | a digit 5 to 9 at the 2nd, 4th, ... position from the end raises the alert |
| Checksum.InnerBlankAlerts | src/components/form-template.js:223-242 | white space after the first character at the 1st, 3rd, ... position from the end raises the alert |
| Checksum.LuhnSumUpdate | src/components/form-template.js:229-237 | in the Luhn sum with alternate digits doubled, replacing one digit changes only that digit's term |
| Checksum.LuhnDetectsSingleSubstitution | src/components/form-template.js:223-242 | the intended Luhn check rejects every single-digit change of a valid number |
| Submission.RegularDisplayAlerts | src/components/form-template.js:223-242 | every full 16-digit regular display raises the alert |
| Submission.WideDisplayAlerts | src/components/form-template.js:223-242 | every full Amex or Diners display raises the alert |
| Submission.MaskedDisplayAlerts | src/components/form-template.js:223-242 | every full display, masked, raises the alert |
| Submission.FullLengthDisplayAlerts | src/components/form-template.js:223-242 | every complete display, masked or not, raises the alert, whatever its digits |
| Submission.IntendedVerdict | src/components/form-template.js:240-242 | the intended check always reaches a verdict |
| Submission.IntendedIgnoresGrouping | src/components/form-template.js:223-242 | the intended check gives the same verdict with or without the grouping spaces |
| Submission.IntendedRejectsTypo | src/components/form-template.js:223-242 | the intended check passes a valid number and rejects its display after any single-digit change |
| Submission.ExampleIsLuhnValid | src/components/form-template.js:223-242 | `4532015112830366` is a digit string whose Luhn sum is a multiple of 10 |
| Submission.ExampleTypoRejected | src/components/form-template.js:223-242 | the intended check rejects `4532015112830367` |
| Submission.ExampleTypoAlerts | src/components/form-template.js:223-242 | the check as written rejects `4532015112830367` |
| Submission.ValidNumberAlerts | src/components/form-template.js:223-242 | `4532015112830366` is valid and regular and passes the intended check, yet the check as written alerts on its display and on its bare digits |
| CardFormComponent.CardForm.constructor | src/components/form-template.js:158-188 | `data()` and `mounted()`: the number starts masked with the initial number cached, maximum length 19, and display and flag agree |
| CardFormComponent.CardForm.MaskCardNumber | src/components/form-template.js:249-258 | the cache takes the old display and the display becomes its mask |
| CardFormComponent.CardForm.UnMaskCardNumber | src/components/form-template.js:259-261 | the display becomes the cache |
| CardFormComponent.CardForm.FocusCardNumber | src/components/form-template.js:262-264 | focus unmasks, whatever the flag |
| CardFormComponent.CardForm.BlurCardNumber | src/components/form-template.js:244-248 | blur masks when masking is on, after which display and flag agree |
| CardFormComponent.CardForm.ToggleMask | src/components/form-template.js:265-272 | the flag flips and the display then agrees with it |
| CardFormComponent.CardForm.ChangeNumber | src/components/form-template.js:197-212 | the new state is the formatting transition; with at most 16 digits the display is digits and spaces holding the input's digits within the maximum length; the emitted value is the display |
| CardFormComponent.CardForm.ChangeYear | src/components/form-template.js:216-218 | choosing a year stores and emits it and, the watcher never firing, changes nothing else |
| CardFormComponent.CardForm.YearChanged | src/components/form-template.js:179-185 | choosing a year with the watcher run after it, as intended: only the month may change, to empty, and the result is a month the select allows |
| CardFormComponent.CardForm.ClearEarlyMonth | src/components/form-template.js:180-185 | the watcher's body leaves a month the select allows |
| CardFormComponent.CardForm.AddCharacter | src/components/form-template.js:228-237 | one loop body computes the loop step of the specification |
| CardFormComponent.CardForm.Visit | src/components/form-template.js:227-239 | one iteration takes `sum` from its value after `k` characters to its value after `k + 1` |
| CardFormComponent.CardForm.SumDisplay | src/components/form-template.js:224-239 | the loop computes `sum` after every character, from last to first |
| CardFormComponent.CardForm.InvalidCard | src/components/form-template.js:223-243 | the outcome is the submit verdict on the display; an empty display is silent; a masked one always alerts |

## Left out

- The template markup, CSS, the `Card` preview child and the background props are presentation only.
- The `changeName`, `changeMonth` and `changeCvv` handlers only copy an input's value and emit it, so they are not modelled.
- `$emit` is modelled as a method's return value, and `alert` as the `Alert` outcome.
- `new Date()` is replaced by the current year and month as parameters.
- Vue reactivity, DOM events and `preventDefault` are left out. A directive returns whether the key goes through, and the model inserts an accepted key at the end of the value: the caret position is not modelled.
- The browser's `maxlength` truncation of typed input is not modelled.
- A `formData` seed year is assumed to be empty or a number: a non-empty string year never equals the number `minCardYear` under `===`, and the constructor takes no such year. The empty month `''` is modelled as 0, which is what it compares as, and the empty year as `None`.
- `mainCardNumber` starts as `undefined` and is modelled as the empty string. The mount handler overwrites it before it is read.
- JavaScript strings are UTF-16 code units; the model uses Dafny characters.
- Checksum.RemainderVerdict: every numeric literal other than a digit string below 2^53 is left `Unresolved`, including exact ones such as `0e8`, because `Number` on such text is not modelled (double rounding, exponents, fractions).
- CardFormComponent.CardForm.InvalidCard: every numeric literal other than a digit string below 2^53 is left `Unresolved`, including exact ones such as `0e8`, as for `Checksum.RemainderVerdict`.

## Findings

| source | as written | input that shows it | evidently intended | confidence | as-written member | corrected member |
|---|---|---|---|---|---|---|
| src/components/form-template.js:180-185 | the watcher is registered under `cardYear`, which is not a property of the component (the year lives at `formData.cardYear`), so it never runs and an earlier month stays selected | month 3 selected, current year chosen, current month 10 | clear the month when the year change makes it fall below `minCardMonth` | high; not executed | Expiry.AsWrittenKeepsDisabledMonth | CardFormComponent.CardForm.YearChanged |
| src/components/form-template.js:223-242 | `sum += num` concatenates text once a character is added, and a doubled digit above 9 becomes the text `1+e`, so every complete display, masked or not, raises the alert | `4532015112830366` (Luhn-valid), as displayed or as bare digits | the Luhn mod 10 check on the digits of the number | high; not executed | Submission.ValidNumberAlerts | Submission.IntendedRejectsTypo |
