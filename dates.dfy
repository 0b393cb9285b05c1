/** Calendar dates as day numbers.

    Day 0 is Monday 2024-01-01; day d is d days later (negative numbers are
    earlier days). Only the weekday and day arithmetic (`timedelta(days=n)`)
    matter to the docket engine, so the Gregorian formatting is left out. */
module Dates {

  /** ISO weekday rank of a day: 1 = Monday, ..., 5 = Friday, 6 = Saturday, 7 = Sunday. */
  function IsoWeekday(d: int): (w: int)
    ensures 1 <= w <= 7
    ensures w == 1 <==> d % 7 == 0
  {
    d % 7 + 1
  }

  predicate IsWeekend(d: int) {
    IsoWeekday(d) > 5
  }

  /** Weekdays advance one by one and Sunday is followed by Monday. */
  lemma NextDay(d: int)
    ensures IsoWeekday(d + 1) == if IsoWeekday(d) == 7 then 1 else IsoWeekday(d) + 1
  {
    var q := d / 7;
    assert d == 7 * q + d % 7;
    if d % 7 == 6 {
      assert d + 1 == 7 * (q + 1);
    } else {
      assert d + 1 == 7 * q + (d % 7 + 1);
    }
  }

  /** Two days after a Saturday is a Monday; two days after a Sunday is a Tuesday. */
  lemma TwoDaysAfterWeekend(d: int)
    requires IsWeekend(d)
    ensures IsoWeekday(d + 2) == IsoWeekday(d) - 5
  {
    NextDay(d);
    NextDay(d + 1);
  }
}
