/**
 * Calendar months as integers: `year * 12 + (month - 1)`. This is what the
 * source's month-start timestamps (`to_period("M").to_timestamp()`) and
 * `pd.DateOffset(months=k)` amount to once days are dropped.
 */
module Calendar {

  /** A calendar date as the source's `datetime.date` holds it. */
  datatype Date = Date(year: int, month: int, day: int)

  /** The month that starts on the first of `month` in `year`. */
  function MonthIndex(year: int, month: int): int
  {
    year * 12 + (month - 1)
  }

  function YearOf(m: int): int
  {
    m / 12
  }

  function MonthOf(m: int): int
  {
    m % 12 + 1
  }

  /** Month-start normalisation: the day of the month is dropped. */
  function MonthStart(d: Date): int
  {
    MonthIndex(d.year, d.month)
  }

  /** Month indices and (year, month) pairs are in one-to-one correspondence. */
  lemma MonthIndexRoundTrip(year: int, month: int)
    requires 1 <= month <= 12
    ensures YearOf(MonthIndex(year, month)) == year
    ensures MonthOf(MonthIndex(year, month)) == month
  {
    var m := MonthIndex(year, month);
    assert m == year * 12 + (month - 1);
    assert 0 <= month - 1 < 12;
  }

  /**
   * Adding one to a month index is the calendar's next month: the month
   * after December is January of the next year.
   */
  lemma NextMonth(year: int, month: int)
    requires 1 <= month <= 12
    ensures MonthIndex(year, month) + 1
         == if month == 12 then MonthIndex(year + 1, 1) else MonthIndex(year, month + 1)
  {
  }

  /** Thirty years on (`pd.DateOffset(years=30)` from a month start) is 360 months on. */
  lemma ThirtyYears(year: int, month: int)
    requires 1 <= month <= 12
    ensures MonthIndex(year, month) + 360 == MonthIndex(year + 30, month)
  {
  }
}
