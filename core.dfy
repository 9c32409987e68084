/** The update check (`check_for_update`): gate a freshly parsed snapshot of
    the homicide statistics table against weekends, holidays and the
    history of recorded totals, word the two messages, and record the new
    total unless the run is a dry run.

    Page fetching, CSV storage, date formatting and percent rounding are
    outside the model: the parsed snapshot, the loaded history, today's
    date, the regional holiday calendar, the Easter date and the two
    formatting functions are inputs. */
module Core {
  import opened Wrappers
  import opened Dates
  import opened Decimal
  import opened Holidays
  import opened Narrative

  /** One row of the history table: an as-of date and the year-to-date total. */
  datatype Record = Record(date: Date, total: int)

  /** The parsed statistics table. `years` are the header's year labels,
      current year first; `ytd` is the cell tagged as the current total and
      `priorCounts` the remaining count cells of the first body row. */
  datatype Snapshot = Snapshot(asOf: Date, years: seq<int>, ytd: int, priorCounts: seq<int>)
  {
    /** The parsed counts, in the order of the year labels. */
    function Homicides(): seq<int>
    {
      [ytd] + priorCounts
    }
  }

  /** What the run learns from its surroundings: today's date, the regional
      holiday calendar for the current year and that year's Easter Sunday. */
  datatype Context = Context(today: Date, calendar: seq<(Date, string)>, easter: Date)

  /** How dates and the rounded percent change are written; `roundedPercent`
      gives the rounded magnitude of `100 * (ytd / lastYear - 1)`. */
  datatype Formatting = Formatting(fdate: Date -> string, roundedPercent: (int, int) -> nat)

  /** The exceptions the update check can raise. */
  datatype Error =
    | EmptyHistory    // the history table has no row to compare with
    | LengthMismatch  // as many counts as year labels were not parsed
    | NoPriorYear     // there is no second column for last year
    | ZeroDivision    // last year's count is zero

  /** `None`, the list of messages, or an exception. */
  datatype Outcome = Nothing | Messages(messages: seq<string>) | Raised(error: Error)

  /** The outcome together with the history table after the run. */
  datatype RunResult = RunResult(outcome: Outcome, history: seq<Record>)

  /** The decision ladder, in the order the checks are made. */
  datatype Gate = SkipWeekend | SkipHoliday | NoHistory | Mismatch | SkipSeen | Proceed

  function Last(history: seq<Record>): Record
    requires history != []
  {
    history[|history| - 1]
  }

  /** True when the as-of dates strictly increase along the history. */
  ghost predicate Ascending(history: seq<Record>)
  {
    forall i, j :: 0 <= i < j < |history| ==> history[i].date < history[j].date
  }

  function Screen(s: Snapshot, history: seq<Record>, ctx: Context): Gate
  {
    if IsFridayOrSaturday(s.asOf) then SkipWeekend
    else if ctx.today in HolidayMap(ctx.calendar, ctx.easter).Values then SkipHoliday
    else if history == [] then NoHistory
    else if |s.Homicides()| != |s.years| then Mismatch
    else if !(Last(history).date < s.asOf) then SkipSeen
    else Proceed
  }

  /** The two messages for a snapshot that passed the gate, or the
      exception raised while reading last year's column. */
  function Narrate(s: Snapshot, latest: Record, fmt: Formatting): Outcome
    requires |s.Homicides()| == |s.years|
  {
    var first := ChangeMessage(s.ytd - latest.total, ComparisonPhrase(latest.date, s.asOf, fmt.fdate));
    var second := YtdSentence(s.asOf, s.ytd, fmt.fdate);
    if |s.priorCounts| == 0 then Raised(NoPriorYear)
    else
      var lastYearTotal, lastYear := s.priorCounts[0], s.years[1];
      if lastYearTotal == 0 then Raised(ZeroDivision)
      else
        var suffix := YoySuffix(TrendOf(s.ytd, lastYearTotal), lastYear, fmt.roundedPercent(s.ytd, lastYearTotal));
        Messages([first, second + suffix])
  }

  /** The whole update check, as a function of its inputs. */
  function Run(s: Snapshot, history: seq<Record>, ctx: Context, fmt: Formatting, dryRun: bool): RunResult
  {
    match Screen(s, history, ctx)
    case Proceed =>
      var outcome := Narrate(s, Last(history), fmt);
      var record := Record(s.asOf, s.ytd);
      RunResult(outcome, if outcome.Messages? && !dryRun then history + [record] else history)
    case NoHistory => RunResult(Raised(EmptyHistory), history)
    case Mismatch => RunResult(Raised(LengthMismatch), history)
    case _ => RunResult(Nothing, history)
  }

  /** Friday and Saturday as-of dates are skipped, whatever the history
      holds, and nothing is recorded. */
  lemma WeekendIsSkipped(s: Snapshot, history: seq<Record>, ctx: Context, fmt: Formatting, dryRun: bool)
    requires IsFridayOrSaturday(s.asOf)
    ensures Run(s, history, ctx, fmt, dryRun) == RunResult(Nothing, history)
  {
  }

  /** When today (not the as-of date) is Good Friday or an observed holiday
      of the regional calendar, a weekday snapshot is skipped and nothing is
      recorded. */
  lemma HolidayIsSkipped(s: Snapshot, history: seq<Record>, ctx: Context, fmt: Formatting, dryRun: bool)
    requires !IsFridayOrSaturday(s.asOf)
    requires ctx.today == ctx.easter - 2 ||
             exists i :: LastObserved(ctx.calendar, i) && ctx.calendar[i].0 == ctx.today
    ensures Run(s, history, ctx, fmt, dryRun) == RunResult(Nothing, history)
  {
    IsHolidayIff(ctx.calendar, ctx.easter, ctx.today);
  }

  /** Only today's holiday status matters: two contexts that agree on it
      give the same run, whatever holidays the as-of date falls on. */
  lemma OnlyTodaysHolidayMatters(s: Snapshot, history: seq<Record>, ctx1: Context, ctx2: Context, fmt: Formatting, dryRun: bool)
    requires (ctx1.today in HolidayMap(ctx1.calendar, ctx1.easter).Values) ==
             (ctx2.today in HolidayMap(ctx2.calendar, ctx2.easter).Values)
    ensures Run(s, history, ctx1, fmt, dryRun) == Run(s, history, ctx2, fmt, dryRun)
  {
  }

  /** Past the weekend and holiday checks, an empty history raises. */
  lemma EmptyHistoryRaises(s: Snapshot, ctx: Context, fmt: Formatting, dryRun: bool)
    requires !IsFridayOrSaturday(s.asOf)
    requires ctx.today !in HolidayMap(ctx.calendar, ctx.easter).Values
    ensures Run(s, [], ctx, fmt, dryRun) == RunResult(Raised(EmptyHistory), [])
  {
  }

  /** Past the weekend and holiday checks, as many counts as year labels
      are required: otherwise the run raises and records nothing, whether
      or not the as-of date is new. */
  lemma LengthMismatchRaises(s: Snapshot, history: seq<Record>, ctx: Context, fmt: Formatting, dryRun: bool)
    requires !IsFridayOrSaturday(s.asOf)
    requires ctx.today !in HolidayMap(ctx.calendar, ctx.easter).Values
    requires history != []
    requires |s.Homicides()| != |s.years|
    ensures Run(s, history, ctx, fmt, dryRun) == RunResult(Raised(LengthMismatch), history)
  {
  }

  /** A snapshot whose as-of date is not after the last recorded date is
      skipped and nothing is recorded. */
  lemma SeenIsSkipped(s: Snapshot, history: seq<Record>, ctx: Context, fmt: Formatting, dryRun: bool)
    requires history != [] && |s.Homicides()| == |s.years|
    requires s.asOf <= Last(history).date
    ensures Run(s, history, ctx, fmt, dryRun) == RunResult(Nothing, history)
  {
  }

  /** Messages are produced exactly when every check passes and last
      year's column holds a non-zero count. */
  lemma PostsIff(s: Snapshot, history: seq<Record>, ctx: Context, fmt: Formatting, dryRun: bool)
    ensures Run(s, history, ctx, fmt, dryRun).outcome.Messages? <==>
      !IsFridayOrSaturday(s.asOf) &&
      ctx.today !in HolidayMap(ctx.calendar, ctx.easter).Values &&
      history != [] &&
      |s.years| == 1 + |s.priorCounts| &&
      Last(history).date < s.asOf &&
      |s.priorCounts| >= 1 && s.priorCounts[0] != 0
  {
  }

  /** A posting run yields exactly two messages: the change since the last
      record followed by the year-to-date sentence with its year-over-year
      suffix, which compares with last year's column. */
  lemma PostedMessages(s: Snapshot, history: seq<Record>, ctx: Context, fmt: Formatting, dryRun: bool)
    requires Run(s, history, ctx, fmt, dryRun).outcome.Messages?
    ensures history != [] && |s.priorCounts| >= 1 && |s.years| >= 2 && s.priorCounts[0] != 0
    ensures var m := Run(s, history, ctx, fmt, dryRun).outcome.messages;
      var latest := Last(history);
      |m| == 2 &&
      m[0] == ChangeMessage(s.ytd - latest.total, ComparisonPhrase(latest.date, s.asOf, fmt.fdate)) &&
      m[1] == YtdSentence(s.asOf, s.ytd, fmt.fdate) +
              YoySuffix(TrendOf(s.ytd, s.priorCounts[0]), s.years[1], fmt.roundedPercent(s.ytd, s.priorCounts[0]))
  {
  }

  /** The history only ever grows by the one record `(asOf, ytd)` at its
      end, and only when messages are produced outside a dry run; all
      earlier records are untouched. */
  lemma HistoryIsAppendOnly(s: Snapshot, history: seq<Record>, ctx: Context, fmt: Formatting, dryRun: bool)
    ensures var r := Run(s, history, ctx, fmt, dryRun);
      |r.history| >= |history| && r.history[..|history|] == history &&
      (r.history == history + [Record(s.asOf, s.ytd)] <==> r.outcome.Messages? && !dryRun) &&
      (r.history == history <==> !(r.outcome.Messages? && !dryRun))
  {
    var r := Run(s, history, ctx, fmt, dryRun);
    if r.outcome.Messages? && !dryRun {
      assert r.history == history + [Record(s.asOf, s.ytd)];
      assert |r.history| != |history|;
    } else {
      assert |r.history| != |history| + 1;
    }
  }

  /** Running again on the history a recording run left behind produces
      nothing and records nothing: a snapshot is posted at most once. */
  lemma RerunIsQuiet(s: Snapshot, history: seq<Record>, ctx: Context, fmt: Formatting, dryRun: bool)
    requires Run(s, history, ctx, fmt, false).outcome.Messages?
    ensures var after := Run(s, history, ctx, fmt, false).history;
      Run(s, after, ctx, fmt, dryRun) == RunResult(Nothing, after)
  {
    var after := Run(s, history, ctx, fmt, false).history;
    assert Last(after) == Record(s.asOf, s.ytd);
  }

  /** Appending a record dated after the last one keeps the dates
      strictly increasing. */
  lemma AppendKeepsAscending(history: seq<Record>, record: Record)
    requires Ascending(history)
    requires history != [] ==> Last(history).date < record.date
    ensures Ascending(history + [record])
  {
    var extended := history + [record];
    forall i, j | 0 <= i < j < |extended|
      ensures extended[i].date < extended[j].date
    {
      if j == |history| {
        assert i == |history| - 1 || history[i].date < Last(history).date;
      }
    }
  }

  /** A history whose dates strictly increase keeps that order after a run. */
  lemma AscendingIsKept(s: Snapshot, history: seq<Record>, ctx: Context, fmt: Formatting, dryRun: bool)
    requires Ascending(history)
    ensures Ascending(Run(s, history, ctx, fmt, dryRun).history)
  {
    HistoryIsAppendOnly(s, history, ctx, fmt, dryRun);
    if Run(s, history, ctx, fmt, dryRun).history != history {
      PostsIff(s, history, ctx, fmt, dryRun);
      AppendKeepsAscending(history, Record(s.asOf, s.ytd));
    }
  }

  /** The history table, changed in place by the update check. */
  class HistoricTable {
    var rows: seq<Record>

    /** The table as loaded from storage. */
    constructor (loaded: seq<Record>)
      ensures rows == loaded
    {
      rows := loaded;
    }

    /** The last row, or `None` when the table is empty. */
    method Latest() returns (r: Option<Record>)
      ensures r.None? <==> rows == []
      ensures r.Some? ==> r.value == rows[|rows| - 1] && r.value in rows
    {
      if rows == [] {
        r := None;
      } else {
        r := Some(rows[|rows| - 1]);
      }
    }

    /** Adds a row after the last one. */
    method Append(record: Record)
      modifies this
      ensures rows == old(rows) + [record]
    {
      rows := rows + [record];
    }
  }

  /** Words the two messages for a snapshot that passed the gate, building
      the list by appending and then extending its last element. */
  method ComposeMessages(s: Snapshot, latest: Record, fmt: Formatting) returns (outcome: Outcome)
    requires |s.Homicides()| == |s.years|
    ensures outcome == Narrate(s, latest, fmt)
  {
    var homicides := [s.ytd] + s.priorCounts;
    var ytd := homicides[0];
    var messages: seq<string> := [];
    var change := ytd - latest.total;

    var comparison := ComparisonPhrase(latest.date, s.asOf, fmt.fdate);
    messages := messages + [ChangeClause(change) + " " + comparison + "."];
    messages := messages + [YtdSentence(s.asOf, ytd, fmt.fdate)];

    if |homicides| < 2 {
      return Raised(NoPriorYear);
    }
    var lastYearHomicides := homicides[1];
    var lastYear := s.years[1];
    if lastYearHomicides == 0 {
      return Raised(ZeroDivision);
    }

    var percentChange := PercentChange(ytd, lastYearHomicides);
    var percent := fmt.roundedPercent(ytd, lastYearHomicides);
    var n := |messages| - 1;
    TrendIsSignOfPercentChange(ytd, lastYearHomicides);
    var trend: Trend;
    if percentChange > 0.0 {
      trend := Increase;
    } else if percentChange == 0.0 {
      trend := Unchanged;
    } else {
      trend := Decrease;
    }
    messages := messages[n := messages[n] + YoySuffix(trend, lastYear, percent)];
    return Messages(messages);
  }

  /** The update check, step by step: skips return `Nothing` and leave the
      table alone; on success the messages are returned and, unless
      `dryRun`, the new total is appended to the table. */
  method CheckForUpdate(table: HistoricTable, s: Snapshot, ctx: Context, fmt: Formatting, dryRun: bool)
    returns (outcome: Outcome)
    modifies table
    ensures outcome == Run(s, old(table.rows), ctx, fmt, dryRun).outcome
    ensures table.rows == Run(s, old(table.rows), ctx, fmt, dryRun).history
  {
    ghost var loaded := table.rows;
    var asOfWeekday := Weekday(s.asOf);
    if asOfWeekday == 4 || asOfWeekday == 5 {
      return Nothing;
    }

    var todayIsHoliday := ctx.today in HolidayMap(ctx.calendar, ctx.easter).Values;
    if todayIsHoliday {
      assert Screen(s, loaded, ctx) == SkipHoliday;
      return Nothing;
    }

    var latest := table.Latest();
    if latest.None? {
      assert Screen(s, loaded, ctx) == NoHistory;
      return Raised(EmptyHistory);
    }

    var homicides := [s.ytd] + s.priorCounts;
    if |homicides| != |s.years| {
      assert Screen(s, loaded, ctx) == Mismatch;
      return Raised(LengthMismatch);
    }

    if latest.value.date < s.asOf {
      assert Screen(s, loaded, ctx) == Proceed && latest.value == Last(loaded);
      outcome := ComposeMessages(s, latest.value, fmt);
      if outcome.Messages? && !dryRun {
        table.Append(Record(s.asOf, s.ytd));
      }
      return;
    }
    assert Screen(s, loaded, ctx) == SkipSeen;
    return Nothing;
  }
}
