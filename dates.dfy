/** Calendar dates as day numbers.

    A date is its proleptic Gregorian ordinal, the number Python's
    `date.toordinal()` gives: day 1 is 1 January of year 1, a Monday.
    "The day after" is the next ordinal, and the weekday follows
    Python's `date.weekday()` numbering (Monday = 0 ... Sunday = 6). */
module Dates {

  type Date = int

  /** Weekday of a date, Monday = 0, Friday = 4, Saturday = 5. */
  function Weekday(d: Date): (w: int)
    ensures 0 <= w < 7
    ensures w == 0 <==> (d - 1) % 7 == 0
  {
    (d + 6) % 7
  }

  /** The day after `d`, as `+ DateOffset(days=1)` gives it. */
  function NextDay(d: Date): (n: Date)
    ensures Weekday(n) == (Weekday(d) + 1) % 7
  {
    d + 1
  }

  /** The statistics page shows placeholder data when its as-of date
      is a Friday or a Saturday. Day 5 of the ordinal count is a Friday,
      so these are the ordinals 5 and 6 modulo 7. */
  predicate IsFridayOrSaturday(d: Date): (b: bool)
    ensures b <==> d % 7 == 5 || d % 7 == 6
  {
    Weekday(d) == 4 || Weekday(d) == 5
  }
}
