/** Worked examples: concrete runs with June 2023 dates.
    Dates are ordinals: 738685 is Wednesday 14 June 2023. The date
    formatter is given the strings `strftime` writes for these days, and
    the rounded percent change (8.57... for 152 against 140) is given as 9. */
module Scenarios {
  import opened Dates
  import opened Decimal
  import opened Holidays
  import opened Narrative
  import opened Core

  const Jun13: Date := 738684
  const Jun14: Date := 738685
  const Jun15: Date := 738686
  const Jun16: Date := 738687
  const Jun17: Date := 738688
  const Jun18: Date := 738689

  function FormatJune(d: Date): string
  {
    if d == Jun14 then "Wednesday Jun. 14, 2023"
    else if d == Jun15 then "Thursday Jun. 15, 2023"
    else if d == Jun16 then "Friday Jun. 16, 2023"
    else if d == Jun17 then "Saturday Jun. 17, 2023"
    else if d == Jun18 then "Sunday Jun. 18, 2023"
    else ""
  }

  function Fmt(): Formatting
  {
    Formatting(FormatJune, (ytd, lastYear) => 9)
  }

  /** No regional holidays; Easter 2023 was 9 April (ordinal 738619). */
  function QuietCalendar(today: Date): Context
  {
    Context(today, [], 738619)
  }

  const History: seq<Record> := [Record(Jun14, 150)]

  /** One day after the last record, two more homicides, more than last
      year: the first message says "on" the as-of date, the suffix reports
      an increase from 2022, and the record is appended. */
  lemma ScenarioOneDayIncrease()
    ensures Run(Snapshot(Jun15, [2023, 2022], 152, [140]), History, QuietCalendar(Jun16), Fmt(), false) ==
      RunResult(Messages([
        ChangeMessage(2, "on " + "Thursday Jun. 15, 2023"),
        YtdSentence(Jun15, 152, FormatJune) + YoySuffix(Increase, 2022, 9)]),
        History + [Record(Jun15, 152)])
  {
    var s := Snapshot(Jun15, [2023, 2022], 152, [140]);
    assert Weekday(Jun15) == 3;
    assert Screen(s, History, QuietCalendar(Jun16)) == Proceed;
    assert TrendOf(152, 140) == Increase;
  }

  /** A Saturday as-of date is skipped even though it is new. */
  lemma ScenarioSaturdayIsSkipped()
    ensures Run(Snapshot(Jun17, [2023, 2022], 150, [140]), History, QuietCalendar(Jun18), Fmt(), false) ==
      RunResult(Nothing, History)
  {
    assert Weekday(Jun17) == 5;
  }

  /** Four days after the last record with no change, on a dry run: the
      comparison starts the day after the last record, the count equals
      last year's, and nothing is recorded. */
  lemma ScenarioGapNoChange()
    ensures Run(Snapshot(Jun18, [2023, 2022], 150, [150]), History, QuietCalendar(Jun18), Fmt(), true) ==
      RunResult(Messages([
        ChangeMessage(0, "since " + "Thursday Jun. 15, 2023"),
        YtdSentence(Jun18, 150, FormatJune) + YoySuffix(Unchanged, 2022, 9)]),
        History)
  {
    var s := Snapshot(Jun18, [2023, 2022], 150, [150]);
    assert Weekday(Jun18) == 6;
    assert Screen(s, History, QuietCalendar(Jun18)) == Proceed;
    assert TrendOf(150, 150) == Unchanged;
  }

  /** A regional calendar with Independence Day, which is on the
      allow-list, and Flag Day (14 June), which is not. */
  const Calendar2023: seq<(Date, string)> := [(738705, "Independence Day"), (Jun14, "Flag Day")]

  /** On 4 July the Independence Day entry makes the run skip. */
  lemma ScenarioHolidayToday()
    ensures Run(Snapshot(Jun15, [2023, 2022], 152, [140]), History, Context(738705, Calendar2023, 738619), Fmt(), false) ==
      RunResult(Nothing, History)
  {
    assert LastObserved(Calendar2023, 0);
    assert Weekday(Jun15) == 3;
    HolidayIsSkipped(Snapshot(Jun15, [2023, 2022], 152, [140]), History, Context(738705, Calendar2023, 738619), Fmt(), false);
  }

  /** On Flag Day, which is not on the allow-list, the run posts and
      records the count. */
  lemma ScenarioUnlistedHolidayPosts()
    ensures var r := Run(Snapshot(Jun14, [2023, 2022], 150, [140]), [Record(Jun13, 148)], Context(Jun14, Calendar2023, 738619), Fmt(), false);
      r.outcome.Messages? && r.history == [Record(Jun13, 148), Record(Jun14, 150)]
  {
    assert Weekday(Jun14) == 2;
    IsHolidayIff(Calendar2023, 738619, Jun14);
  }

  /** Replaying the first scenario's snapshot on the history it produced
      posts nothing. */
  lemma ScenarioReplay()
    ensures Run(Snapshot(Jun15, [2023, 2022], 152, [140]), History + [Record(Jun15, 152)], QuietCalendar(Jun16), Fmt(), false) ==
      RunResult(Nothing, History + [Record(Jun15, 152)])
  {
    assert Weekday(Jun15) == 3;
  }
}
