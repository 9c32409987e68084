# Philadelphia homicide bot: the update check

This project models the core of a bot that watches the Philadelphia Police
homicide statistics table and, once a day, decides whether a new year-to-date
count has been published, words two messages about it, and appends the new
count to its history table (`homicide_bot/core.py`, `check_for_update` and
`get_holidays`).

The model has these parts:

- `Dates` (`dates.dfy`): dates are proleptic Gregorian ordinals, as Python's
  `date.toordinal()` gives them. The weekday is `(d + 6) % 7` with Monday = 0,
  and the day after a date is the next ordinal.
- `Holidays` (`holidays.dfy`): `get_holidays`. The regional holiday calendar
  is a sequence of `(date, name)` entries in the order the holiday dictionary
  yields them. The allow-list filter keeps the eleven listed names, and a later
  entry with the same name replaces an earlier one, as in the dictionary
  comprehension. Good Friday is added as Easter minus two days. Easter is an
  input.
- `Decimal` (`decimal.dfy`): how an f-string writes an integer. `ReadInt` is
  the reference that reads the text back.
- `Narrative` (`narrative.dfy`): the wording. This covers the comparison
  phrase ("on …" or "since …"), the change clause with its three cases, the
  year-to-date sentence and the year-over-year suffix. The sign of the
  percent change is decided exactly, without division.
- `Core` (`core.dfy`): the snapshot and history record types, and the
  decision ladder `Screen`. The ladder runs weekend, then today's holiday,
  then empty history, then the length check, then the already-seen check.
  `Run` is the whole check as a function of its inputs. `HistoricTable` is
  the history table, changed in place. `CheckForUpdate` is the check step by
  step; it is proved equal to `Run` in both its outcome and the new table.
  `ComposeMessages` builds the message list by appending and then extending
  the last element; it is proved equal to `Narrate`.
- `Scenarios` (`scenarios.dfy`): concrete runs with June 2023 dates.
- `Wording` (`wording.dfy`): the first scenario's change message and
  year-over-year suffix, word for word.

The following are inputs of the model: the parsed table (as-of date, year
labels, the current-total cell and the other count cells), the loaded
history, today's date, the regional calendar, the Easter date, a date
formatter standing for `strftime("%A %b. %-d, %Y")` and the rounded percent
magnitude.

Behaviour of `check_for_update` that is easy to misread:

- The holiday skip tests today's date, not the as-of date.
- The length check between counts and year labels runs only after the
  weekend and holiday skips, and before the already-seen check. So a weekend
  or holiday snapshot with mismatched columns is skipped, not rejected.
- `ScenarioGapNoChange` uses Sunday 18 June, because a Saturday as-of date is
  skipped as a weekend even when it is new (`ScenarioSaturdayIsSkipped`).
- A zero count in last year's column raises a division error. A table with
  only one year column raises an index error when last year's column is
  read. In both cases the history is left unchanged.

## Model

| member | source | states |
|---|---|---|
| `Dates.Weekday` | homicide_bot/core.py:102 | the weekday is in 0..6, and Monday (0) is the weekday of the days congruent to day 1 |
| `Dates.NextDay` | homicide_bot/core.py:144-150 | the day after a date (`+ DateOffset(days=1)`) falls on the next weekday |
| `Dates.IsFridayOrSaturday` | homicide_bot/core.py:102-103 | the weekend test `weekday() in [4, 5]` holds exactly for the ordinals 5 and 6 modulo 7 |
| `Decimal.ShowNat` | homicide_bot/core.py:160 | a natural number is written as a non-empty string of decimal digits with no leading zero |
| `Decimal.ShowInt` | homicide_bot/core.py:170 | an integer is written with a leading minus sign exactly when it is negative, and with digits only otherwise |
| `Decimal.ShowNatValue` | homicide_bot/core.py:160 | the digits written for `n` have the decimal value `n` |
| `Decimal.ShowIntRoundTrip` | homicide_bot/core.py:170 | reading back the text written for an integer gives that integer |
| `Decimal.ShowIntInjective` | homicide_bot/core.py:160 | distinct counts are written as distinct text |
| `Holidays.SelectObserved` | homicide_bot/core.py:42-55 | the filtered dictionary's keys are all on the eleven-name allow-list |
| `Holidays.HolidayMap` | homicide_bot/core.py:37-60 | the holiday dictionary holds only allow-listed names plus "Good Friday", and Good Friday is Easter minus two days |
| `Holidays.LastObservedIsSelected` | homicide_bot/core.py:55 | every allow-listed calendar name is kept, with the date of its last entry |
| `Holidays.SelectedIsLastObserved` | homicide_bot/core.py:55 | every kept name comes from the last calendar entry that carries it |
| `Holidays.IsHolidayIff` | homicide_bot/core.py:55-58 | a day is a holiday exactly when it is Good Friday or the date of the last entry of an allow-listed name |
| `Narrative.ComparisonPhrase` | homicide_bot/core.py:140-154 | no contract of its own; `ComparisonPhraseCases` states its "on"/"since" cases |
| `Narrative.ComparisonPhraseCases` | homicide_bot/core.py:140-154 | the phrase starts with "on " exactly when the as-of date is the day after the last record; either way it names that day after |
| `Narrative.ChangeClause` | homicide_bot/core.py:156-162 | no contract of its own; `ChangeClauseCases`, `ChangeClauseCount` and `Wording.ChangeClauseExample` state its wording |
| `Narrative.ChangeMessage` | homicide_bot/core.py:165 | no contract of its own; `Wording.ChangeMessageExample` shows the clause, a space, the phrase and a full stop |
| `Narrative.ChangeClauseCases` | homicide_bot/core.py:156-162 | "There was one" exactly when the change is 1, "There were no" exactly when it is at most 0, and a numeral exactly when it is above 1 |
| `Narrative.ChangeClauseCount` | homicide_bot/core.py:159-160 | for a change above 1, the count written in the clause reads back as the change |
| `Narrative.YtdSentence` | homicide_bot/core.py:169-171 | no contract of its own; `YtdSentenceParts` states what it names |
| `Narrative.YtdSentenceParts` | homicide_bot/core.py:170 | the as-of date follows "As of 11:59 PM on ", and the count before " homicides in Philadelphia," reads back as the year-to-date total |
| `Narrative.TrendOf` | homicide_bot/core.py:177-185 | no contract of its own; `TrendIsSignOfPercentChange` and `TrendForPositiveLastYear` tie it to the percent change and to the counts |
| `Narrative.PercentChange` | homicide_bot/core.py:177 | no contract of its own; the exact value of `100 * (ytd / last - 1)`, whose sign `TrendIsSignOfPercentChange` relates to `TrendOf` |
| `Narrative.TrendIsSignOfPercentChange` | homicide_bot/core.py:177-185 | the division-free trend is increase, equal or decrease exactly when `100 * (ytd / last - 1)` is positive, zero or negative |
| `Narrative.TrendForPositiveLastYear` | homicide_bot/core.py:177-182 | with last year's count positive, increase iff ytd > last, equal iff ytd == last, decrease iff ytd < last |
| `Narrative.TrendWords` | homicide_bot/core.py:179-185 | no contract of its own; `YoySuffixCases` states that its words identify the trend |
| `Narrative.YoySuffix` | homicide_bot/core.py:178-185 | no contract of its own; `YoySuffixCases`, `YoySuffixNamesLastYear` and `Wording.YoySuffixExample` state its wording |
| `Narrative.YoySuffixCases` | homicide_bot/core.py:178-185 | the suffix opens with " an increase", " equal" or " a decrease" exactly for the matching trend |
| `Narrative.YoySuffixNamesLastYear` | homicide_bot/core.py:174-185 | every suffix ends with " from {last year}." |
| `Core.Screen` | homicide_bot/core.py:100-135 | no contract of its own; `WeekendIsSkipped`, `HolidayIsSkipped`, `EmptyHistoryRaises`, `LengthMismatchRaises`, `SeenIsSkipped` and `PostsIff` state its rungs in order |
| `Core.Narrate` | homicide_bot/core.py:137-185 | no contract of its own; `PostedMessages` states its two messages and `ComposeMessages` is proved equal to it |
| `Core.Run` | homicide_bot/core.py:70-192 | no contract of its own; `PostsIff`, `HistoryIsAppendOnly`, `RerunIsQuiet` and `AscendingIsKept` state its outcome and history, and `CheckForUpdate` is proved equal to it |
| `Core.WeekendIsSkipped` | homicide_bot/core.py:100-104 | a Friday or Saturday as-of date gives `None` and leaves the history unchanged, whatever it holds |
| `Core.HolidayIsSkipped` | homicide_bot/core.py:106-109 | on a weekday snapshot, today being Good Friday or an allow-listed holiday gives `None` and leaves the history unchanged |
| `Core.OnlyTodaysHolidayMatters` | homicide_bot/core.py:107 | the run depends on the holiday calendar only through whether today is a holiday |
| `Core.EmptyHistoryRaises` | homicide_bot/core.py:112-113 | past the skips, an empty history raises and nothing is recorded |
| `Core.LengthMismatchRaises` | homicide_bot/core.py:127-130 | past the skips, with a non-empty history, a count list whose length differs from the year list raises, whether or not the date is new |
| `Core.SeenIsSkipped` | homicide_bot/core.py:133-135 | an as-of date not after the last recorded date gives `None` and records nothing |
| `Core.PostsIff` | homicide_bot/core.py:100-192 | messages are produced exactly when the date is not Friday/Saturday, today is no holiday, the history is non-empty, the lengths match, the date is new, and last year's count exists and is non-zero |
| `Core.PostedMessages` | homicide_bot/core.py:137-185 | a posting run yields exactly two messages: the change message with its comparison phrase, then the year-to-date sentence with the suffix for last year's column (index 1) |
| `Core.HistoryIsAppendOnly` | homicide_bot/core.py:187-190 | the history grows by exactly `(asOf, ytd)` at its end iff messages are produced outside a dry run; otherwise it is unchanged; earlier records never change |
| `Core.RerunIsQuiet` | homicide_bot/core.py:133-135 | after a recording run, running again on the same snapshot gives `None` and records nothing |
| `Core.AppendKeepsAscending` | homicide_bot/core.py:189 | appending a record dated after the last keeps the dates strictly increasing |
| `Core.AscendingIsKept` | homicide_bot/core.py:135 | a history with strictly increasing dates keeps that order after any run |
| `Core.HistoricTable.constructor` | homicide_bot/core.py:63-67 | the table holds the loaded rows |
| `Core.HistoricTable.Latest` | homicide_bot/core.py:113 | the last row, or `None` exactly when the table is empty |
| `Core.HistoricTable.Append` | homicide_bot/core.py:189 | the new row goes after all old rows, which stay as they were |
| `Core.ComposeMessages` | homicide_bot/core.py:137-185 | the list built by appending and then extending its last element equals `Narrate`'s two messages or its error |
| `Core.CheckForUpdate` | homicide_bot/core.py:70-192 | the outcome and the table after the step-by-step check are those of `Run` |
| `Scenarios.ScenarioOneDayIncrease` | homicide_bot/core.py:133-192 | one day after a record of 150: 152 homicides against 140 last year gives "2 new … on {date}" and an increase from 2022, and records `(asOf, 152)` |
| `Scenarios.ScenarioSaturdayIsSkipped` | homicide_bot/core.py:102-104 | a new Saturday as-of date is skipped |
| `Scenarios.ScenarioGapNoChange` | homicide_bot/core.py:141-154 | four days after the record with no change, on a dry run: "no new … since {day after the record}", equal to 2022, nothing recorded |
| `Scenarios.ScenarioHolidayToday` | homicide_bot/core.py:42-58 | on 4 July, the "Independence Day" calendar entry makes the run skip |
| `Scenarios.ScenarioUnlistedHolidayPosts` | homicide_bot/core.py:42-58 | a "Flag Day" entry on today's date, a name off the allow-list, does not stop the run: it posts and records the count |
| `Wording.ChangeClauseExample` | homicide_bot/core.py:159-160 | a change of 2 gives "There were 2 new homicides in Philadelphia" |
| `Wording.ChangeMessageExample` | homicide_bot/core.py:165 | the first message reads "There were 2 new homicides in Philadelphia on Thursday Jun. 15, 2023." |
| `Wording.YoySuffixExample` | homicide_bot/core.py:179 | an increase rounded to 9% over 2022 reads " an increase of 9% from 2022." |
| `Scenarios.ScenarioReplay` | homicide_bot/core.py:135 | replaying the first scenario on the history it produced posts nothing |

## Left out

- Page fetching through the web driver, the debug print of the page and the extraction of cells from the page are I/O. The parsed snapshot is an input.
- Parsing cell text with `int()` is left out; the counts and year labels arrive as integers.
- Loading and saving the CSV history file is file I/O. The in-memory table and its in-place append are modelled, not the file's round trip.
- The regional holiday library and Easter computation are outside libraries. Their answers are inputs.
- `strftime` date formatting is the `fdate` parameter.
- The module-level clock is the `today` field of the context.
- The command-line entry point, the credential checks and posting to Twitter (`__main__.py`), and the package metadata (`__init__.py`), are I/O only. They are not part of this model.
- Time of day in the stored timestamps is left out; only the date part is compared, as the code does.
- The history's totals come back from CSV as 64-bit integers. Their wrap-around is not modelled; the totals are unbounded integers.
- `None` from a skip carries no reason in the code. The model's `Nothing` carries none either; `Screen` names the rung only for the proofs.
- Narrative.TrendIsSignOfPercentChange: the percent change is compared in exact rational arithmetic, not in floating point. The two agree for counts below 2^53.
- Narrative.YoySuffix: the rounded magnitude written by `:.0f` is the `roundedPercent` parameter. Float rounding of that magnitude is not modelled.
