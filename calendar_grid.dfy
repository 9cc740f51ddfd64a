/** The month grid (src/components/Calendar/CalendarGrid.js): time display,
    the events of one day in start-time order, and the 42-cell layout. The
    weekday of the 1st and the length of the month come from the JavaScript
    Date library and are parameters here. */
module CalendarGrid {
  import opened Text
  import opened Js
  import opened Sorting
  import CalendarEventModel

  /** An event as the client calendar holds it. Fetched events keep the whole
      server row (`...recipe`); events added locally have no row. */
  datatype ClientEvent = ClientEvent(
    id: int,
    title: string,
    day: Value,
    month: Value,
    year: Value,
    timeFrom: string,
    timeTo: string,
    isCompleted: bool,
    fetched: Option<CalendarEventModel.Row>)

  /** `formatTimeDisplay`: `time.split(':').slice(0, 2).join(':')`, or '' for ''. */
  function FormatTimeDisplay(time: string): (r: string)
    ensures r == [] <==> time == []
  {
    if time == [] then []
    else
      var fields := Split(time, ':');
      Join(if |fields| <= 2 then fields else fields[..2], ":")
  }

  /** Without a ':' the display is the text itself. */
  lemma FormatTimeDisplayNoColon(time: string)
    requires time != [] && IndexOf(time, ':') == |time|
    ensures FormatTimeDisplay(time) == time
  {
    assert Split(time, ':') == [time];
  }

  /** With a ':' at `i`, the display is the text before it joined by ':' to
      the text after it up to the next ':'. */
  lemma FormatTimeDisplayAtColon(time: string, i: nat, rest: string, j: nat)
    requires i == IndexOf(time, ':') && i < |time|
    requires rest == time[i + 1..] && j == IndexOf(rest, ':')
    ensures FormatTimeDisplay(time) == Join([time[..i], rest[..j]], ":")
  {
    SplitAtFirst(time, i);
    if j == |rest| {
      DisplayOfTwoFields(time, i, rest);
      assert rest[..j] == rest;
    } else {
      DisplayOfMoreFields(time, i, rest, j);
    }
  }

  /** A split at the first separator is the text before it followed by the
      split of the text after it. */
  lemma {:induction false} SplitAtFirst(s: string, i: nat)
    requires i == IndexOf(s, ':') && i < |s|
    ensures Split(s, ':') == [s[..i]] + Split(s[i + 1..], ':')
  {
  }

  lemma DisplayOfTwoFields(time: string, i: nat, rest: string)
    requires i < |time| && rest == time[i + 1..] && IndexOf(rest, ':') == |rest|
    requires Split(time, ':') == [time[..i]] + Split(rest, ':')
    ensures FormatTimeDisplay(time) == Join([time[..i], rest], ":")
  {
    assert Split(rest, ':') == [rest];
  }

  lemma DisplayOfMoreFields(time: string, i: nat, rest: string, j: nat)
    requires i < |time| && rest == time[i + 1..] && j == IndexOf(rest, ':') && j < |rest|
    requires Split(time, ':') == [time[..i]] + Split(rest, ':')
    ensures FormatTimeDisplay(time) == Join([time[..i], rest[..j]], ":")
  {
    SplitAtFirst(rest, j);
    DisplayOfFirstTwo(time, time[..i], rest[..j], Split(rest[j + 1..], ':'));
  }

  /** With more than two fields, the display joins the first two. */
  lemma DisplayOfFirstTwo(time: string, first: string, second: string, more: seq<string>)
    requires time != [] && more != [] && Split(time, ':') == [first] + ([second] + more)
    ensures FormatTimeDisplay(time) == Join([first, second], ":")
  {
    assert ([first] + ([second] + more))[..2] == [first, second];
  }

  /** The display keeps the text up to the second ':' and nothing after it. */
  lemma FormatTimeDisplayKeepsTwoFields(time: string)
    ensures var r := FormatTimeDisplay(time);
      && |r| <= |time| && r == time[..|r|]
      && Count(r, ':') <= 1
      && (Count(time, ':') <= 1 ==> r == time)
  {
    if time != [] {
      var i := IndexOf(time, ':');
      if i == |time| {
        FormatTimeDisplayNoColon(time);
        CountZero(time[..i], ':');
        assert time[..i] == time;
      } else {
        KeepsTwoFieldsAtColon(time, i);
      }
    }
  }

  /** With a first ':' at `i`: the display is a prefix with one ':', and the
      whole text when there is no second ':'. */
  lemma KeepsTwoFieldsAtColon(time: string, i: nat)
    requires i == IndexOf(time, ':') && i < |time|
    ensures var r := FormatTimeDisplay(time);
      && |r| <= |time| && r == time[..|r|]
      && Count(r, ':') <= 1
      && (Count(time, ':') <= 1 ==> r == time)
  {
    var rest := time[i + 1..];
    var j := IndexOf(rest, ':');
    FormatTimeDisplayAtColon(time, i, rest, j);
    JoinTwo(time[..i], rest[..j], ":");
    UpToSecondColon(time, i, j);
    if Count(time, ':') <= 1 {
      NoSecondColon(time, i);
      WholeWithoutSecondColon(time, i, j);
    }
  }

  /** The text before the first ':', that ':', and the text up to the next
      one form a prefix of the time with one ':'. */
  lemma UpToSecondColon(time: string, i: nat, j: nat)
    requires i < |time| && time[i] == ':' && ':' !in time[..i]
    requires j <= |time| - i - 1 && ':' !in time[i + 1..][..j]
    ensures var r := time[..i] + ":" + time[i + 1..][..j];
      && |r| <= |time| && r == time[..|r|] && Count(r, ':') == 1
  {
    var a, b := time[..i], time[i + 1..][..j];
    assert time[..i + 1 + j] == a + ":" + b;
    CountZero(a, ':');
    CountZero(b, ':');
    CountAppend(a, ":" + b, ':');
    CountAppend(":", b, ':');
    assert a + ":" + b == a + (":" + b);
  }

  /** When the second ':' is missing, the text up to it is the whole rest. */
  lemma WholeWithoutSecondColon(time: string, i: nat, j: nat)
    requires i < |time| && time[i] == ':' && j == |time| - i - 1
    ensures time[..i] + ":" + time[i + 1..][..j] == time
  {
    assert time[i + 1..][..j] == time[i + 1..];
    assert time == time[..i] + [time[i]] + time[i + 1..];
  }

  /** A text with at most one ':' has none after its first. */
  lemma NoSecondColon(time: string, i: nat)
    requires i == IndexOf(time, ':') && i < |time| && Count(time, ':') <= 1
    ensures IndexOf(time[i + 1..], ':') == |time[i + 1..]|
  {
    var rest := time[i + 1..];
    assert time == time[..i] + ([':'] + rest);
    CountZero(time[..i], ':');
    CountAppend(time[..i], [':'] + rest, ':');
    CountAppend([':'], rest, ':');
    CountZero(rest, ':');
  }

  /** `Number(field)` for a field of the start time: white space around it is
      ignored, empty text is 0, and text of digits is its value; anything
      else is `NaN`, here `None`. */
  function NumberOf(s: string): Option<int> {
    var t := Trim(s);
    if t == [] then Some(0)
    else if AllDigits(t) then Some(ParseNat(t))
    else None
  }

  /** `getMinutes`: '' is 0; otherwise `hours * 60 + minutes` from the first
      two ':'-fields, `NaN` (`None`) when a field is not a number or there is
      no second field. */
  function GetMinutes(time: string): (r: Option<int>)
    ensures time == [] ==> r == Some(0)
    ensures time != [] && ':' !in time ==> r.None?
  {
    if time == [] then Some(0)
    else
      var fields := Split(time, ':');
      if |fields| < 2 then None
      else
        Minutes(NumberOf(fields[0]), NumberOf(fields[1]))
  }

  /** `hours * 60 + minutes`, `NaN` when either is. */
  function Minutes(hours: Option<int>, minutes: Option<int>): Option<int> {
    if hours.Some? && minutes.Some? then Some(hours.value * 60 + minutes.value) else None
  }

  /** `a?.timeFrom || '00:00'`. */
  function StartText(e: ClientEvent): (t: string)
    ensures t != []
    ensures e.timeFrom != [] ==> t == e.timeFrom
    ensures e.timeFrom == [] ==> t == "00:00"
  {
    if e.timeFrom == [] then "00:00" else e.timeFrom
  }

  /** The key the comparator orders by. A comparator result of `NaN` counts
      as 0 in `Array.prototype.sort`; the model ranks such an event at 0. */
  function SortKey(e: ClientEvent): int {
    var m := GetMinutes(StartText(e));
    if m.Some? then m.value else 0
  }

  /** `aMinutes - bMinutes <= 0`: `a` may stay before `b`. */
  predicate StartsNoLater(a: ClientEvent, b: ClientEvent) {
    SortKey(a) <= SortKey(b)
  }

  lemma StartsNoLaterIsTotalPreorder()
    ensures TotalPreorder(StartsNoLater)
  {
  }

  /** The filter of `getEventsForDate`: strict equality of the stored day,
      month and year with the cell's date and the shown month and year. */
  predicate OnDate(e: ClientEvent, date: int, month: int, year: int) {
    e.day == Int(date) && e.month == Int(month) && e.year == Int(year)
  }

  /** `events.filter(...)`, in the order of `events`. */
  function OnDateEvents(events: seq<ClientEvent>, date: int, month: int, year: int): (r: seq<ClientEvent>)
    ensures |r| <= |events|
    ensures forall e :: e in r <==> e in events && OnDate(e, date, month, year)
  {
    if events == [] then []
    else
      var rest := OnDateEvents(events[1..], date, month, year);
      assert forall e :: e in events <==> e == events[0] || e in events[1..];
      (if OnDate(events[0], date, month, year) then [events[0]] else []) + rest
  }

  /** The filter keeps every copy of an event on the date and no copy of any
      other: nothing is added or dropped. */
  lemma {:induction false} OnDateCount(events: seq<ClientEvent>, date: int, month: int, year: int, e: ClientEvent)
    ensures multiset(OnDateEvents(events, date, month, year))[e] ==
              if OnDate(e, date, month, year) then multiset(events)[e] else 0
  {
    if events != [] {
      OnDateCount(events[1..], date, month, year, e);
      assert events == [events[0]] + events[1..];
      assert multiset(events) == multiset([events[0]]) + multiset(events[1..]);
    }
  }

  /** The filter keeps the order of `events`: filtering a concatenation
      filters each part and concatenates the results. */
  lemma {:induction false} OnDateAppend(a: seq<ClientEvent>, b: seq<ClientEvent>, date: int, month: int, year: int)
    ensures OnDateEvents(a + b, date, month, year) == OnDateEvents(a, date, month, year) + OnDateEvents(b, date, month, year)
  {
    if a == [] {
      assert a + b == b;
    } else {
      assert (a + b)[0] == a[0] && (a + b)[1..] == a[1..] + b;
      OnDateAppend(a[1..], b, date, month, year);
    }
  }

  /** `getEventsForDate(date)`: the day's events sorted by start time. */
  function EventsForDate(events: seq<ClientEvent>, date: int, month: int, year: int): (r: seq<ClientEvent>)
    ensures SortedBy(r, StartsNoLater)
    ensures multiset(r) == multiset(OnDateEvents(events, date, month, year))
  {
    StartsNoLaterIsTotalPreorder();
    SortBy(OnDateEvents(events, date, month, year), StartsNoLater)
  }

  /** The day's list holds exactly that day's events, and events whose start
      times are numbers come in order of `hours * 60 + minutes`. */
  lemma EventsForDateExact(events: seq<ClientEvent>, date: int, month: int, year: int)
    ensures forall e :: e in EventsForDate(events, date, month, year) <==> e in events && OnDate(e, date, month, year)
    ensures multiset(EventsForDate(events, date, month, year)) == multiset(OnDateEvents(events, date, month, year))
    ensures var r := EventsForDate(events, date, month, year);
      forall i, j :: 0 <= i < j < |r| && GetMinutes(StartText(r[i])).Some? && GetMinutes(StartText(r[j])).Some? ==>
        GetMinutes(StartText(r[i])).value <= GetMinutes(StartText(r[j])).value
  {
    var r := EventsForDate(events, date, month, year);
    forall e
      ensures e in r <==> e in events && OnDate(e, date, month, year)
    {
      assert e in r <==> e in multiset(OnDateEvents(events, date, month, year));
    }
  }

  /** When the two ':'-fields of the time are the numbers `h` and `m`,
      `getMinutes` is `h * 60 + m`. */
  lemma GetMinutesOfNumbers(time: string, hours: string, minutes: string, h: int, m: int)
    requires time != [] && Split(time, ':') == [hours, minutes]
    requires NumberOf(hours) == Some(h) && NumberOf(minutes) == Some(m)
    ensures GetMinutes(time) == Some(h * 60 + m)
  {
    GetMinutesOfTwoFields(time, hours, minutes);
    MinutesOfNumbers(NumberOf(hours), NumberOf(minutes), h, m);
  }

  /** Two numbers give `hours * 60 + minutes`. */
  lemma MinutesOfNumbers(hours: Option<int>, minutes: Option<int>, h: int, m: int)
    requires hours == Some(h) && minutes == Some(m)
    ensures Minutes(hours, minutes) == Some(h * 60 + m)
  {
  }

  lemma GetMinutesOfTwoFields(time: string, hours: string, minutes: string)
    requires time != [] && Split(time, ':') == [hours, minutes]
    ensures GetMinutes(time) == Minutes(NumberOf(hours), NumberOf(minutes))
  {
    var fields := Split(time, ':');
    assert fields[0] == hours && fields[1] == minutes;
  }

  lemma NumberOfDigits(s: string)
    requires s != [] && AllDigits(s)
    ensures NumberOf(s) == Some(ParseNat(s))
  {
    DigitsHaveNoSpace(s);
    TrimNoSpace(s);
  }

  lemma SortKeyOfClock(e: ClientEvent)
    requires IsClockText(e.timeFrom)
    ensures SortKey(e) == ClockMinutes(e.timeFrom)
  {
    var time := e.timeFrom;
    var hours, minutes := time[..2], time[3..];
    SplitClock(time);
    NumberOfDigits(hours);
    NumberOfDigits(minutes);
    GetMinutesOfNumbers(time, hours, minutes, ParseNat(hours), ParseNat(minutes));
  }

  lemma ClockMinutesSamples()
    ensures IsClockText("09:00") && ClockMinutes("09:00") == 540
    ensures IsClockText("14:00") && ClockMinutes("14:00") == 840
  {
    ParseNatTwoDigits("09");
    ParseNatTwoDigits("14");
    ParseNatTwoDigits("00");
    assert "09:00"[..2] == "09" && "09:00"[3..] == "00";
    assert "14:00"[..2] == "14" && "14:00"[3..] == "00";
  }

  /** The day's list of the grid's test: '09:00' before '14:00'. */
  lemma EarlierEventFirst(late: ClientEvent, early: ClientEvent)
    requires late.timeFrom == "14:00" && early.timeFrom == "09:00"
    requires OnDate(late, 8, 12, 2024) && OnDate(early, 8, 12, 2024)
    ensures EventsForDate([late, early], 8, 12, 2024) == [early, late]
  {
    ClockMinutesSamples();
    SortKeyOfClock(late);
    SortKeyOfClock(early);
    OnDateKeepsBoth(late, early, 8, 12, 2024);
    StartsNoLaterIsTotalPreorder();
    SortTwoSwaps(late, early, StartsNoLater);
  }

  lemma OnDateKeepsBoth(a: ClientEvent, b: ClientEvent, date: int, month: int, year: int)
    requires OnDate(a, date, month, year) && OnDate(b, date, month, year)
    ensures OnDateEvents([a, b], date, month, year) == [a, b]
  {
    assert [a, b][1..] == [b];
    assert OnDateEvents([b], date, month, year) == [b];
  }

  /** The `days` array: 42 cells, cell `i` holding `i - firstDay + 1` when that
      is a day of the month. */
  function MonthCells(firstDay: int, daysInMonth: int): (cells: seq<Option<int>>)
    ensures |cells| == 42
  {
    seq(42, i => if 0 < i - firstDay + 1 <= daysInMonth then Some(i - firstDay + 1) else None)
  }

  /** With the 1st on weekday `firstDay` (0 = Sunday) and at most 31 days, every
      day of the month appears exactly once, at cell `day + firstDay - 1`, the
      days run in increasing cell order, and no other value appears. */
  lemma MonthCellsHoldEachDayOnce(firstDay: int, daysInMonth: int)
    requires 0 <= firstDay <= 6 && 0 <= daysInMonth <= 31
    ensures var cells := MonthCells(firstDay, daysInMonth);
      && (forall d :: 1 <= d <= daysInMonth ==> cells[d + firstDay - 1] == Some(d))
      && (forall i, d :: 0 <= i < 42 && cells[i] == Some(d) ==> 1 <= d <= daysInMonth && i == d + firstDay - 1)
      && (forall i, j :: 0 <= i < j < 42 && cells[i].Some? && cells[j].Some? ==> cells[i].value < cells[j].value)
  {
  }
}
