/** The wording of the two messages: the change since the last recorded
    update, and the year-to-date total compared with the same day a year
    earlier.

    `fdate` renders a date as `strftime("%A %b. %-d, %Y")` does; it is a
    parameter because date formatting is not modelled. */
module Narrative {
  import opened Dates
  import opened Wrappers
  import opened Decimal

  /** When the span since the last record is phrased: "on <as-of date>"
      after exactly one day, otherwise "since <day after the last record>". */
  function ComparisonPhrase(latest: Date, asOf: Date, fdate: Date -> string): string
  {
    if NextDay(latest) == asOf then "on " + fdate(asOf) else "since " + fdate(NextDay(latest))
  }

  /** The phrase opens with "on " exactly when one day has elapsed, and in
      both cases names the first day not covered by the last record. */
  lemma ComparisonPhraseCases(latest: Date, asOf: Date, fdate: Date -> string)
    ensures var p := ComparisonPhrase(latest, asOf, fdate);
      |p| >= 3 && (p[..3] == "on " <==> NextDay(latest) == asOf) &&
      p == (if NextDay(latest) == asOf then "on " else "since ") + fdate(NextDay(latest))
  {
    var p := ComparisonPhrase(latest, asOf, fdate);
    if NextDay(latest) != asOf {
      assert p[0] == 's';
    }
  }

  /** The opening clause of the first message, chosen by the change in the
      year-to-date count. */
  function ChangeClause(change: int): string
  {
    if change == 1 then "There was one new homicide in Philadelphia"
    else if change > 1 then "There were " + ShowInt(change) + " new homicides in Philadelphia"
    else "There were no new homicides in Philadelphia"
  }

  /** The first message: the clause, a space, the comparison phrase, a full stop. */
  function ChangeMessage(change: int, phrase: string): string
  {
    ChangeClause(change) + " " + phrase + "."
  }

  /** The three wordings are told apart by their text: character 8 is the
      "s" of "was" or the "r" of "were", and character 11 starts "no" or
      the count. */
  lemma ChangeClauseCases(change: int)
    ensures var c := ChangeClause(change);
      |c| > 11 &&
      (c[8] == 's' <==> change == 1) &&
      (c[8] == 'r' && c[11] == 'n' <==> change <= 0) &&
      (c[8] == 'r' && IsDigit(c[11]) <==> change > 1)
  {
    var c := ChangeClause(change);
    if change > 1 {
      var digits := ShowInt(change);
      assert c == "There were " + (digits + " new homicides in Philadelphia");
      assert c[11] == digits[0];
    }
  }

  /** A count of two or more is written so that it reads back as the change. */
  lemma ChangeClauseCount(change: int)
    requires change > 1
    ensures var c := ChangeClause(change);
      |c| > 11 + 30 && ReadInt(c[11..|c| - 30]) == Some(change)
  {
    var c := ChangeClause(change);
    var digits := ShowInt(change);
    assert c == "There were " + digits + " new homicides in Philadelphia";
    assert c[11..|c| - 30] == digits;
    ShowIntRoundTrip(change);
  }

  /** The year-to-date sentence; it ends with a comma and is continued by
      the year-over-year suffix. */
  function YtdSentence(asOf: Date, ytd: int, fdate: Date -> string): string
  {
    "As of 11:59 PM on " + fdate(asOf) + ", there have been " + ShowInt(ytd) + " homicides in Philadelphia,"
  }

  /** The sentence names the as-of date right after "As of 11:59 PM on ",
      and the count before its closing " homicides in Philadelphia,"
      reads back as the year-to-date total. */
  lemma YtdSentenceParts(asOf: Date, ytd: int, fdate: Date -> string)
    ensures var s := YtdSentence(asOf, ytd, fdate);
      var k := 18 + |fdate(asOf)| + 18;
      |s| > k + 27 &&
      s[18..18 + |fdate(asOf)|] == fdate(asOf) &&
      ReadInt(s[k..|s| - 27]) == Some(ytd)
  {
    var s := YtdSentence(asOf, ytd, fdate);
    var date, digits := fdate(asOf), ShowInt(ytd);
    var k := 18 + |date| + 18;
    assert s == "As of 11:59 PM on " + date + ", there have been " + digits + " homicides in Philadelphia,";
    assert s[18..18 + |date|] == date;
    assert s[k..|s| - 27] == digits;
    ShowIntRoundTrip(ytd);
  }

  /** The sign of the percent change `100 * (ytd / lastYear - 1)`. */
  datatype Trend = Increase | Unchanged | Decrease

  /** The sign of `ytd / lastYearTotal - 1`, decided without division:
      the quotient exceeds one when `ytd` lies beyond `lastYearTotal` on
      the side away from zero. */
  function TrendOf(ytd: int, lastYearTotal: int): Trend
    requires lastYearTotal != 0
  {
    if ytd == lastYearTotal then Unchanged
    else if (ytd > lastYearTotal) == (lastYearTotal > 0) then Increase
    else Decrease
  }

  /** A product of reals with a positive second factor has the sign of
      the first. */
  lemma RealProductSign(a: real, b: real)
    requires b > 0.0
    ensures a * b > 0.0 <==> a > 0.0
    ensures a * b == 0.0 <==> a == 0.0
  {
  }

  /** The percent change `100 * (ytd / lastYearTotal - 1)`, in exact
      rational arithmetic. */
  function PercentChange(ytd: int, lastYearTotal: int): real
    requires lastYearTotal != 0
  {
    100.0 * (ytd as real / lastYearTotal as real - 1.0)
  }

  /** `TrendOf` agrees with the sign of the percent change. */
  lemma TrendIsSignOfPercentChange(ytd: int, lastYearTotal: int)
    requires lastYearTotal != 0
    ensures var pc := PercentChange(ytd, lastYearTotal);
      (TrendOf(ytd, lastYearTotal) == Increase <==> pc > 0.0) &&
      (TrendOf(ytd, lastYearTotal) == Unchanged <==> pc == 0.0) &&
      (TrendOf(ytd, lastYearTotal) == Decrease <==> pc < 0.0)
  {
    var y, l := ytd as real, lastYearTotal as real;
    var d := y / l - 1.0;
    assert d * l == y - l;
    if l > 0.0 {
      RealProductSign(d, l);
    } else {
      assert d * (-l) == l - y;
      RealProductSign(d, -l);
    }
  }

  /** With a positive count last year, the trend is the plain comparison of
      the two counts. */
  lemma TrendForPositiveLastYear(ytd: int, lastYearTotal: int)
    requires lastYearTotal > 0
    ensures TrendOf(ytd, lastYearTotal) == Increase <==> ytd > lastYearTotal
    ensures TrendOf(ytd, lastYearTotal) == Unchanged <==> ytd == lastYearTotal
    ensures TrendOf(ytd, lastYearTotal) == Decrease <==> ytd < lastYearTotal
  {
  }

  /** The words that open the year-over-year suffix. */
  function TrendWords(trend: Trend): string
  {
    match trend
    case Increase => " an increase of "
    case Unchanged => " equal to the rate"
    case Decrease => " a decrease of "
  }

  /** The year-over-year suffix of the second message:
      " an increase of P% from Y.", " equal to the rate from Y." or
      " a decrease of P% from Y.", where `percent` is the rounded magnitude
      P of the percent change and Y is last year. */
  function YoySuffix(trend: Trend, lastYear: int, percent: nat): string
  {
    var magnitude := if trend == Unchanged then "" else ShowNat(percent) + "%";
    TrendWords(trend) + magnitude + " from " + ShowInt(lastYear) + "."
  }

  /** The suffix's opening words identify the trend: " an increase",
      " equal" or " a decrease". */
  lemma YoySuffixCases(trend: Trend, lastYear: int, percent: nat)
    ensures var s := YoySuffix(trend, lastYear, percent);
      |s| > 2 &&
      (s[1] == 'a' && s[2] == 'n' <==> trend == Increase) &&
      (s[1] == 'e' <==> trend == Unchanged) &&
      (s[1] == 'a' && s[2] == ' ' <==> trend == Decrease)
  {
    var s := YoySuffix(trend, lastYear, percent);
    var words := TrendWords(trend);
    var magnitude := if trend == Unchanged then "" else ShowNat(percent) + "%";
    assert s == words + (magnitude + " from " + ShowInt(lastYear) + ".");
    assert s[1] == words[1] && s[2] == words[2];
  }

  /** Every suffix ends by naming last year. */
  lemma YoySuffixNamesLastYear(trend: Trend, lastYear: int, percent: nat)
    ensures var s := YoySuffix(trend, lastYear, percent);
      var tail := " from " + ShowInt(lastYear) + ".";
      |s| > |tail| && s[|s| - |tail|..] == tail
  {
    var s := YoySuffix(trend, lastYear, percent);
    var tail := " from " + ShowInt(lastYear) + ".";
    var magnitude := if trend == Unchanged then "" else ShowNat(percent) + "%";
    assert s == (TrendWords(trend) + magnitude) + tail;
  }
}
