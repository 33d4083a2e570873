/** The expiry selects: month labels, the smallest month that may be chosen,
    and the rule that clears the month when the year changes. The current
    year and month, which the form reads from the clock, are parameters. A
    month is held as its numeric value, 0 standing for the empty selection;
    a year is `None` while nothing is selected. */
module Expiry {
  import opened Strings

  /** `generateMonthValue(n)`: `0n` below 10, otherwise `n` itself, shown as
      text. */
  function MonthLabel(n: int): string {
    if n < 10 then "0" + IntToDecimal(n) else IntToDecimal(n)
  }

  /** Every month 1 to 12 gets a two-digit label that reads back as the
      month. This is why a selected month can be held as a number. */
  lemma MonthLabelRoundTrip(n: int)
    requires 1 <= n <= 12
    ensures var s := MonthLabel(n); |s| == 2 && AllDigits(s) && DecimalValue(s) == n
  {
    var s := MonthLabel(n);
    if n < 10 {
      assert s == "0" + [DigitChar(n)];
      assert s[..1] == "0";
    } else {
      assert s == "1" + [DigitChar(n - 10)];
      assert s[..1] == "1";
    }
  }

  /** Month labels sort like the months they stand for. */
  lemma MonthLabelsOrdered(m: int, n: int)
    requires 1 <= m < n <= 12
    ensures MonthLabel(m) != MonthLabel(n)
    ensures MonthLabel(m)[0] < MonthLabel(n)[0]
         || (MonthLabel(m)[0] == MonthLabel(n)[0] && MonthLabel(m)[1] < MonthLabel(n)[1])
  {
    MonthLabelRoundTrip(m);
    MonthLabelRoundTrip(n);
  }

  /** `minCardMonth`: the current month when the selected year is the
      current year, otherwise 1. */
  function MinCardMonth(cardYear: Option<int>, minCardYear: int, currentMonth: int): int {
    if cardYear == Some(minCardYear) then currentMonth else 1
  }

  /** The body of the `cardYear` watcher: a month below the minimum is
      cleared. */
  function MonthAfterYearChange(cardMonth: nat, minMonth: int): nat {
    if cardMonth < minMonth then 0 else cardMonth
  }

  /** The two selects. */
  datatype ExpirySelection = ExpirySelection(month: nat, year: Option<int>)

  /** A month that the month select would let the user pick, or no month. */
  predicate MonthAllowed(e: ExpirySelection, minCardYear: int, currentMonth: int) {
    e.month == 0 || e.month >= MinCardMonth(e.year, minCardYear, currentMonth)
  }

  /** Choosing a year as the component is written: `v-model` stores it and
      `changeYear` announces it. The watcher is registered under `cardYear`,
      which names no property of the component, so it never runs. */
  function SelectYearAsWritten(e: ExpirySelection, y: Option<int>): ExpirySelection {
    e.(year := y)
  }

  /** Choosing a year with the watcher run after it, as intended. */
  function SelectYear(e: ExpirySelection, y: Option<int>, minCardYear: int, currentMonth: int): ExpirySelection {
    var e' := e.(year := y);
    e'.(month := MonthAfterYearChange(e'.month, MinCardMonth(y, minCardYear, currentMonth)))
  }

  /** The minimum month lies between 1 and the current month. */
  lemma MinCardMonthRange(cardYear: Option<int>, minCardYear: int, currentMonth: int)
    requires 1 <= currentMonth <= 12
    ensures 1 <= MinCardMonth(cardYear, minCardYear, currentMonth) <= currentMonth
    ensures MinCardMonth(cardYear, minCardYear, currentMonth) > 1 ==> cardYear == Some(minCardYear)
  {
  }

  /** With the watcher, the selected month is always one the select allows;
      only the month can change, and only to the empty selection, and that
      happens exactly when the month was below the minimum. */
  lemma SelectYearKeepsMonthAllowed(e: ExpirySelection, y: Option<int>, minCardYear: int, currentMonth: int)
    ensures var r := SelectYear(e, y, minCardYear, currentMonth);
      && MonthAllowed(r, minCardYear, currentMonth)
      && r.year == y
      && (r.month == e.month || r.month == 0)
      && (r.month != e.month <==> 0 < e.month < MinCardMonth(y, minCardYear, currentMonth))
  {
  }

  /** Choosing the current year while an earlier month is selected clears
      the month; choosing any other year keeps it. */
  lemma SelectYearClearsEarlierMonth(e: ExpirySelection, y: Option<int>, minCardYear: int, currentMonth: int)
    ensures y == Some(minCardYear) && 1 <= e.month < currentMonth ==>
              SelectYear(e, y, minCardYear, currentMonth).month == 0
    ensures y != Some(minCardYear) ==> SelectYear(e, y, minCardYear, currentMonth).month == e.month
  {
  }

  /** As written, choosing the current year leaves an earlier month selected
      although the select shows it disabled: in October, March stays. */
  lemma AsWrittenKeepsDisabledMonth()
    ensures var e := SelectYearAsWritten(ExpirySelection(3, None), Some(2026));
      e.month == 3 && !MonthAllowed(e, 2026, 10)
  {
  }
}
