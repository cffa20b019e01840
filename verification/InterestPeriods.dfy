/** The month an interest row of IBKR's statement is for (interestPeriodOf in src/books/statementAttribution.ts). */
module InterestPeriods {
  import opened Wrappers

  datatype Month = Month(year: int, month: int)

  datatype Day = Day(month: Month, day: int)

  predicate IsMonth(m: Month) {
    1 <= m.month <= 12
  }

  predicate LeapYear(year: int) {
    year % 4 == 0 && (year % 100 != 0 || year % 400 == 0)
  }

  function DaysIn(m: Month): (days: int)
    requires IsMonth(m)
    ensures 28 <= days <= 31
  {
    if m.month == 2 then (if LeapYear(m.year) then 29 else 28)
    else if m.month in {4, 6, 9, 11} then 30 else 31
  }

  predicate IsDay(d: Day) {
    IsMonth(d.month) && 1 <= d.day <= DaysIn(d.month)
  }

  function Previous(m: Month): (previous: Month)
    requires IsMonth(m)
    ensures IsMonth(previous)
  {
    if m.month == 1 then Month(m.year - 1, 12) else Month(m.year, m.month - 1)
  }

  function Following(m: Month): (following: Month)
    requires IsMonth(m)
    ensures IsMonth(following)
  {
    if m.month == 12 then Month(m.year + 1, 1) else Month(m.year, m.month + 1)
  }

  /** A date with more days than its month has, as JavaScript's Date reads it: the days beyond go on in the next month. */
  function Carried(m: Month, day: int): (d: Day)
    requires IsMonth(m) && day >= 1
    ensures IsDay(d)
    decreases day
  {
    if day <= DaysIn(m) then Day(m, day) else Carried(Following(m), day - DaysIn(m))
  }

  /** The month a row's description names, or else setUTCMonth one back on the row's day. */
  function InterestMonthOf(named: Option<Month>, row: Day): (m: Month)
    requires IsDay(row) && (named.Some? ==> IsMonth(named.value))
    ensures IsMonth(m)
  {
    match named
    case Some(month) => month
    case None => Carried(Previous(row.month), row.day).month
  }

  /** First and last day. */
  function InterestPeriodOf(named: Option<Month>, row: Day): (Day, Day)
    requires IsDay(row) && (named.Some? ==> IsMonth(named.value))
  {
    var m := InterestMonthOf(named, row);
    (Day(m, 1), Day(m, DaysIn(m)))
  }

  /**
   A row that names no month is for the month before it exactly when that month has the row's day;
   for any other row the days carry over and it is for its own month, not the one before.
   */
  lemma UnnamedInterestMonth(row: Day)
    requires IsDay(row)
    ensures InterestMonthOf(None, row) == Previous(row.month) <==> row.day <= DaysIn(Previous(row.month))
    ensures InterestMonthOf(None, row) == if row.day <= DaysIn(Previous(row.month)) then Previous(row.month) else row.month
  {
    var previous := Previous(row.month);
    assert Following(previous) == row.month;
    if row.day > DaysIn(previous) {
      assert Carried(previous, row.day) == Carried(row.month, row.day - DaysIn(previous));
      assert row.day - DaysIn(previous) <= DaysIn(row.month);
    }
  }

  /** Interest booked on 31 March 2026 without a month in its words is counted as March's. */
  lemma InterestOfTheThirtyFirst()
    ensures InterestMonthOf(None, Day(Month(2026, 3), 31)) == Month(2026, 3)
  {
    UnnamedInterestMonth(Day(Month(2026, 3), 31));
  }
}
