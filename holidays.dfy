/** The holiday calendar (`get_holidays`): the regional public holidays
    whose names are on an allow-list, plus Good Friday, two days before
    Easter Sunday.

    The regional calendar and the Easter date come from outside libraries;
    here they are inputs. The calendar is the sequence of (date, name)
    entries in the order the regional holiday dictionary yields them. */
module Holidays {
  import opened Dates

  /** The eleven holiday names that suppress an update. */
  const ObservedNames: set<string> := {
    "New Year's Day",
    "Martin Luther King Jr. Day",
    "Washington's Birthday",
    "Memorial Day",
    "Juneteenth National Independence Day",
    "Independence Day",
    "Labor Day",
    "Columbus Day",
    "Veterans Day",
    "Thanksgiving",
    "Christmas Day"
  }

  const GoodFriday: string := "Good Friday"

  /** Entry `i` is the last entry of the calendar carrying an allowed name:
      the one whose date a name-keyed dictionary keeps. */
  ghost predicate LastObserved(calendar: seq<(Date, string)>, i: int)
  {
    0 <= i < |calendar| &&
    calendar[i].1 in ObservedNames &&
    forall j :: i < j < |calendar| ==> calendar[j].1 != calendar[i].1
  }

  /** The allow-list filter: a name-to-date map built entry by entry, so a
      later entry with the same name replaces an earlier one. */
  function SelectObserved(calendar: seq<(Date, string)>): (h: map<string, Date>)
    ensures h.Keys <= ObservedNames
  {
    if calendar == [] then map[]
    else
      var h := SelectObserved(calendar[..|calendar| - 1]);
      var (d, name) := calendar[|calendar| - 1];
      if name in ObservedNames then h[name := d] else h
  }

  /** The dictionary `get_holidays` returns. */
  function HolidayMap(calendar: seq<(Date, string)>, easter: Date): (h: map<string, Date>)
    ensures h.Keys <= ObservedNames + {GoodFriday}
    ensures GoodFriday in h && h[GoodFriday] == easter - 2
  {
    SelectObserved(calendar)[GoodFriday := easter - 2]
  }

  /** Every allowed name in the calendar is selected, with the date of its
      last entry. */
  lemma {:induction false} LastObservedIsSelected(calendar: seq<(Date, string)>, i: int)
    requires LastObserved(calendar, i)
    ensures calendar[i].1 in SelectObserved(calendar)
    ensures SelectObserved(calendar)[calendar[i].1] == calendar[i].0
    decreases |calendar|
  {
    if i < |calendar| - 1 {
      var prefix := calendar[..|calendar| - 1];
      assert prefix[i] == calendar[i];
      LastObservedIsSelected(prefix, i);
    }
  }

  /** Every selected name comes from the last calendar entry carrying it. */
  lemma {:induction false} SelectedIsLastObserved(calendar: seq<(Date, string)>, name: string)
    requires name in SelectObserved(calendar)
    ensures exists i :: LastObserved(calendar, i) && calendar[i] == (SelectObserved(calendar)[name], name)
    decreases |calendar|
  {
    var n := |calendar|;
    if calendar[n - 1].1 == name {
      assert LastObserved(calendar, n - 1);
    } else {
      var prefix := calendar[..n - 1];
      SelectedIsLastObserved(prefix, name);
      var i :| LastObserved(prefix, i) && prefix[i] == (SelectObserved(prefix)[name], name);
      assert LastObserved(calendar, i);
    }
  }

  /** Today is a holiday exactly when it is Good Friday or the date of the
      last calendar entry with an allowed name. */
  lemma IsHolidayIff(calendar: seq<(Date, string)>, easter: Date, day: Date)
    ensures day in HolidayMap(calendar, easter).Values <==>
            day == easter - 2 || exists i :: LastObserved(calendar, i) && calendar[i].0 == day
  {
    var h := HolidayMap(calendar, easter);
    var s := SelectObserved(calendar);
    if day in h.Values && day != easter - 2 {
      var name :| name in h && h[name] == day;
      assert name != GoodFriday;
      SelectedIsLastObserved(calendar, name);
    }
    if exists i :: LastObserved(calendar, i) && calendar[i].0 == day {
      var i :| LastObserved(calendar, i) && calendar[i].0 == day;
      LastObservedIsSelected(calendar, i);
      assert calendar[i].1 != GoodFriday;
      assert h[calendar[i].1] == day;
    }
    assert day == easter - 2 ==> h[GoodFriday] == day;
  }
}
