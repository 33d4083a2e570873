/** The `CardForm` component's state and handlers. `formData` and the
    component's own data are fields; each handler is a method whose new
    state is the matching transition of the field model. The current year
    and month, read from the clock in the component, are parameters. */
module CardFormComponent {
  import opened Strings
  import opened CardFormat
  import opened Masking
  import opened Expiry
  import opened JsNumbers
  import opened Checksum

  class CardForm {
    /** `formData.cardNumber`: what the card-number input shows. */
    var cardNumber: string
    /** `mainCardNumber`: the display as it was when last masked. */
    var mainCardNumber: string
    var isCardNumberMasked: bool
    var cardNumberMaxLength: nat
    /** `formData.cardMonth`, 0 for the empty selection. */
    var cardMonth: nat
    /** `formData.cardYear`, `None` for the empty selection. */
    var cardYear: Option<int>
    /** `minCardYear`: the year the form was created in. */
    const minCardYear: int

    /** The card-number field's part of the state. */
    function NumberState(): NumberField
      reads this
    {
      NumberField(cardNumber, mainCardNumber, isCardNumberMasked, cardNumberMaxLength)
    }

    /** The expiry selects' part of the state. */
    function Selection(): ExpirySelection
      reads this
    {
      ExpirySelection(cardMonth, cardYear)
    }

    /** `data()` followed by `mounted()`, which masks the initial number. */
    constructor (number: string, month: nat, year: Option<int>, currentYear: int)
      ensures minCardYear == currentYear
      ensures NumberState() == MaskField(NumberField(number, "", true, 19))
      ensures Consistent(NumberState())
      ensures Selection() == ExpirySelection(month, year)
    {
      cardNumber := number;
      mainCardNumber := "";
      isCardNumberMasked := true;
      cardNumberMaxLength := 19;
      cardMonth := month;
      cardYear := year;
      minCardYear := currentYear;
      new;
      MaskCardNumber();
    }

    /** `maskCardNumber` */
    method MaskCardNumber()
      modifies this`cardNumber, this`mainCardNumber
      ensures NumberState() == MaskField(old(NumberState()))
      ensures mainCardNumber == old(cardNumber) && cardNumber == Mask(mainCardNumber)
    {
      mainCardNumber := cardNumber;
      cardNumber := MaskDisplay(cardNumber);
    }

    /** `unMaskCardNumber` */
    method UnMaskCardNumber()
      modifies this`cardNumber
      ensures NumberState() == Unmask(old(NumberState()))
      ensures cardNumber == mainCardNumber
    {
      cardNumber := mainCardNumber;
    }

    /** `focusCardNumber` */
    method FocusCardNumber()
      modifies this`cardNumber
      ensures NumberState() == Unmask(old(NumberState()))
      ensures cardNumber == mainCardNumber
    {
      UnMaskCardNumber();
    }

    /** `blurCardNumber` */
    method BlurCardNumber()
      modifies this`cardNumber, this`mainCardNumber
      ensures NumberState() == Blur(old(NumberState()))
      ensures isCardNumberMasked ==> Consistent(NumberState())
    {
      if isCardNumberMasked {
        MaskCardNumber();
      }
    }

    /** `toggleMask`: after it the display always agrees with the flag. */
    method ToggleMask()
      modifies this`isCardNumberMasked, this`cardNumber, this`mainCardNumber
      ensures NumberState() == Toggle(old(NumberState()))
      ensures isCardNumberMasked == !old(isCardNumberMasked)
      ensures Consistent(NumberState())
    {
      isCardNumberMasked := !isCardNumberMasked;
      if isCardNumberMasked {
        MaskCardNumber();
      } else {
        UnMaskCardNumber();
      }
    }

    /** `changeNumber`, with the input's value `input`; returns the value
      emitted as `input-card-number`. */
    method ChangeNumber(input: string) returns (emitted: string)
      modifies this`cardNumber, this`cardNumberMaxLength
      ensures NumberState() == Typed(old(NumberState()), input)
      ensures emitted == cardNumber
      ensures |Digits(input)| <= 16 ==>
                DigitsAndSpaces(cardNumber) && Digits(cardNumber) == Digits(input)
                && |cardNumber| <= cardNumberMaxLength
    {
      cardNumber := input;
      var value := Digits(cardNumber);
      var brand := Classify(value);
      if brand.Some? {
        cardNumber := Formatted(brand.value, value);
        cardNumberMaxLength := MaxLength(brand.value);
      }
      emitted := cardNumber;
      TypedDisplay(old(NumberState()), input);
    }

    /** The `cardYear` select's `v-model` followed by `changeYear`. The
      watcher is registered under `cardYear`, which is not a property of
      the component, so nothing else happens. */
    method ChangeYear(y: Option<int>) returns (emitted: Option<int>)
      modifies this`cardYear
      ensures Selection() == SelectYearAsWritten(old(Selection()), y)
      ensures emitted == y
    {
      cardYear := y;
      emitted := cardYear;
    }

    /** The watcher's body: clear a month below `minCardMonth`. */
    method ClearEarlyMonth(currentMonth: int)
      modifies this`cardMonth
      ensures cardMonth == MonthAfterYearChange(old(cardMonth), MinCardMonth(cardYear, minCardYear, currentMonth))
      ensures MonthAllowed(Selection(), minCardYear, currentMonth)
    {
      if cardMonth < MinCardMonth(cardYear, minCardYear, currentMonth) {
        cardMonth := 0;
      }
    }

    /** Choosing a year with the watcher run after it, as intended: the
      month is cleared when it falls below the new minimum. */
    method YearChanged(y: Option<int>, currentMonth: int) returns (emitted: Option<int>)
      modifies this`cardYear, this`cardMonth
      ensures Selection() == SelectYear(old(Selection()), y, minCardYear, currentMonth)
      ensures MonthAllowed(Selection(), minCardYear, currentMonth)
      ensures emitted == y
    {
      emitted := ChangeYear(y);
      ClearEarlyMonth(currentMonth);
    }

    /** One pass of `invaildCard`'s loop body for the character `c`:
      added as is when `isOdd`, doubled otherwise. */
    static method AddCharacter(sum: JsValue, c: char, isOdd: bool) returns (next: JsValue)
      ensures next == Step(sum, c, isOdd)
    {
      if isOdd {
        next := Plus(sum, Str([c]));
      } else {
        var num := Times2(CharToNumber(c));
        if GreaterThanNine(num) {
          num := Str(JoinWithPlus(ToJsString(num)));
        }
        DoubledAddendMatchesJs(c);
        next := Plus(sum, num);
      }
    }

    /** The loop body at the character with `k` characters after it: `sum`
      goes from its value after `k` characters to its value after `k + 1`. */
    static method Visit(ghost number: string, ghost k: nat, c: char, sum: JsValue, isOdd: bool)
      returns (next: JsValue)
      requires k < |number| && c == number[|number| - 1 - k]
      requires sum == SumAfter(number, k) && isOdd == IsOddAt(k)
      ensures next == SumAfter(number, k + 1)
    {
      next := AddCharacter(sum, c, isOdd);
      UnfoldSum(number, k + 1);
    }

    /** `invaildCard`'s loop: from the last character of `number` to its
      first, with `isOdd` flipping after each. */
    static method SumDisplay(number: string) returns (sum: JsValue)
      ensures sum == SumAfter(number, |number|)
    {
      sum := Int(0);
      var isOdd := true;
      var i := |number| - 1;
      while i >= 0
        invariant -1 <= i < |number|
        invariant sum == SumAfter(number, |number| - 1 - i)
        invariant isOdd == IsOddAt(|number| - 1 - i)
      {
        sum := Visit(number, |number| - 1 - i, number[i], sum, isOdd);
        isOdd := !isOdd;
        i := i - 1;
      }
    }

    /** `invaildCard`: sums the display, then reports whether
      `sum % 10 !== 0` raises the alert. */
    method InvalidCard() returns (outcome: Outcome)
      ensures outcome == SubmitVerdict(cardNumber)
      ensures cardNumber == "" ==> outcome == Silent
      ensures '*' in cardNumber ==> outcome == Alert
    {
      var sum := SumDisplay(cardNumber);
      outcome := RemainderVerdict(sum);
      if '*' in cardNumber {
        MaskedNumberAlerts(cardNumber);
      }
    }
  }
}
