/** The month view (src/app/dashboard/calendar/page.js): the 42-cell grid
    `getDaysInMonth` builds, month navigation, the `month` query the page
    sends, the events of one day and the per-cell overflow. The page's
    current date is a local `Date`; the `Date` constructor's normalisation
    (including its reading of years 0..99 as 19YY) is the one in Dates. */
module CalendarPage {
  import opened Common
  import opened Lists
  import opened Text
  import opened Dates
  import opened Store
  import CalendarApi

  /** One grid cell: the day number shown, whether it belongs to the month
      on display, and the date it stands for. */
  datatype DayCell = DayCell(day: int, isCurrentMonth: bool, date: DateTime)

  /** The month on display: the one `new Date(year, month, 1)` falls in. */
  function Shown(date: CivilDate): (int, int) {
    MonthOf(date.year, date.month - 1)
  }

  function Before(date: CivilDate): (int, int) {
    MonthOf(date.year, date.month - 2)
  }

  function After(date: CivilDate): (int, int) {
    MonthOf(date.year, date.month)
  }

  /** `firstDay.getDay()`: the weekday (0 is Sunday) of the first of the month. */
  function StartingDay(date: CivilDate): int {
    Weekday(Shown(date).0, Shown(date).1, 1)
  }

  function MonthLength(date: CivilDate): int {
    DaysInMonth(Shown(date).0, Shown(date).1)
  }

  /** The cells of the grid, block by block: the tail of the month before,
      the month itself, then the head of the month after. */
  predicate LeadingCell(date: CivilDate, k: int, cell: DayCell) {
    var p := Before(date);
    var d := DaysInMonth(p.0, p.1) - StartingDay(date) + 1 + k;
    cell == DayCell(d, false, DateTime(p.0, p.1, d, 0, 0, 0))
  }

  predicate MonthCell(date: CivilDate, k: int, cell: DayCell) {
    var c := Shown(date);
    cell == DayCell(k + 1, true, DateTime(c.0, c.1, k + 1, 0, 0, 0))
  }

  predicate TrailingCell(date: CivilDate, k: int, cell: DayCell) {
    var n := After(date);
    cell == DayCell(k + 1, false, DateTime(n.0, n.1, k + 1, 0, 0, 0))
  }

  /** The cell at position `k` of the grid when the month starts on weekday
      `start`, block by block. */
  function Cell(date: CivilDate, start: int, k: int): DayCell {
    var len := MonthLength(date);
    if k < start then
      var p := Before(date);
      var d := DaysInMonth(p.0, p.1) - start + 1 + k;
      DayCell(d, false, DateTime(p.0, p.1, d, 0, 0, 0))
    else if k < start + len then
      var c := Shown(date);
      DayCell(k - start + 1, true, DateTime(c.0, c.1, k - start + 1, 0, 0, 0))
    else
      var n := After(date);
      DayCell(k - start - len + 1, false, DateTime(n.0, n.1, k - start - len + 1, 0, 0, 0))
  }

  /** The first `n` cells of the grid. */
  function Grid(date: CivilDate, start: int, n: nat): (g: seq<DayCell>)
    ensures |g| == n
  {
    if n == 0 then [] else Grid(date, start, n - 1) + [Cell(date, start, n - 1)]
  }

  lemma GridSnoc(date: CivilDate, start: int, days: seq<DayCell>, cell: DayCell)
    requires days == Grid(date, start, |days|) && cell == Cell(date, start, |days|)
    ensures days + [cell] == Grid(date, start, |days| + 1)
  {
  }

  lemma {:induction false} GridAt(date: CivilDate, start: int, n: nat)
    ensures forall k :: 0 <= k < n ==> Grid(date, start, n)[k] == Cell(date, start, k)
  {
    if n > 0 {
      GridAt(date, start, n - 1);
    }
  }

  /** The 42-cell grid, block by block: the first StartingDay cells are the
      last days of the month before, in ascending order; then come days 1 to
      MonthLength of the month on display, the only cells marked as current;
      the rest, at least five, are days 1, 2, ... of the month after. */
  lemma GridShape(date: CivilDate)
    ensures 0 <= StartingDay(date) < 7 && 42 - StartingDay(date) - MonthLength(date) >= 5
    ensures var g := Grid(date, StartingDay(date), 42);
      forall i :: 0 <= i < StartingDay(date) ==> LeadingCell(date, i, g[i])
    ensures var g := Grid(date, StartingDay(date), 42);
      forall i :: StartingDay(date) <= i < StartingDay(date) + MonthLength(date) ==>
        MonthCell(date, i - StartingDay(date), g[i])
    ensures var g := Grid(date, StartingDay(date), 42);
      forall i :: StartingDay(date) + MonthLength(date) <= i < 42 ==>
        TrailingCell(date, i - StartingDay(date) - MonthLength(date), g[i])
    ensures var g := Grid(date, StartingDay(date), 42);
      forall i :: 0 <= i < 42 ==>
        (g[i].isCurrentMonth <==> StartingDay(date) <= i < StartingDay(date) + MonthLength(date))
  {
    GridAt(date, StartingDay(date), 42);
  }

  /** The cell the first loop of `getDaysInMonth` builds at position `k`,
      `i` cells before the month starts: `year` and `month` are the page's
      `date.getFullYear()` and `date.getMonth()`. */
  lemma LeadingCellIs(date: CivilDate, start: int, year: int, month: int, prevLast: int, i: int, k: int)
    requires year == date.year && month == date.month - 1
    requires 0 <= i < start <= 7 && k == start - 1 - i
    requires prevLast == DaysInMonth(Before(date).0, Before(date).1)
    ensures DayCell(prevLast - i, false, MakeDate(year, month - 1, prevLast - i)) == Cell(date, start, k)
  {
    var p := Before(date);
    assert 1 <= prevLast - i <= DaysInMonth(p.0, p.1);
  }

  /** The cell the second loop builds at position `k`, for day `i` of the
      month on display. */
  lemma MonthCellIs(date: CivilDate, start: int, year: int, month: int, i: int, k: int)
    requires year == date.year && month == date.month - 1
    requires 1 <= i <= MonthLength(date) && k == start + i - 1
    ensures DayCell(i, true, MakeDate(year, month, i)) == Cell(date, start, k)
  {
  }

  /** The cell the third loop builds at position `k`, for day `i` of the
      month after. */
  lemma TrailingCellIs(date: CivilDate, start: int, year: int, month: int, i: int, k: int)
    requires year == date.year && month == date.month - 1
    requires 1 <= i <= 28 && k == start + MonthLength(date) + i - 1
    ensures DayCell(i, false, MakeDate(year, month + 1, i)) == Cell(date, start, k)
  {
    var n := After(date);
    assert 1 <= i <= DaysInMonth(n.0, n.1);
  }

  /** `getDaysInMonth(date)`: exactly 42 cells; the first StartingDay of them
      are the last days of the month before, in ascending order; then come
      days 1 to MonthLength of the month on display, the only cells marked as
      current; the rest, at least five, are days 1, 2, ... of the month after. */
  method DaysGrid(date: CivilDate) returns (days: seq<DayCell>)
    ensures |days| == 42
    ensures 0 <= StartingDay(date) < 7 && 42 - StartingDay(date) - MonthLength(date) >= 5
    ensures forall i :: 0 <= i < StartingDay(date) ==> LeadingCell(date, i, days[i])
    ensures forall i :: StartingDay(date) <= i < StartingDay(date) + MonthLength(date) ==>
              MonthCell(date, i - StartingDay(date), days[i])
    ensures forall i :: StartingDay(date) + MonthLength(date) <= i < 42 ==>
              TrailingCell(date, i - StartingDay(date) - MonthLength(date), days[i])
    ensures forall i :: 0 <= i < 42 ==>
              (days[i].isCurrentMonth <==> StartingDay(date) <= i < StartingDay(date) + MonthLength(date))
  {
    var year, month := date.year, date.month - 1;
    var firstDay := MakeDate(year, month, 1);
    DayZeroIsLastDayOfPreviousMonth(year, month + 1);
    var lastDay := MakeDate(year, month + 1, 0);
    var daysInMonth := lastDay.day;
    var startingDay := Weekday(firstDay.year, firstDay.month, firstDay.day);
    assert startingDay == StartingDay(date) && daysInMonth == MonthLength(date);

    days := [];

    DayZeroIsLastDayOfPreviousMonth(year, month);
    var prevMonthLastDay := MakeDate(year, month, 0).day;
    var i := startingDay - 1;
    while i >= 0
      invariant -1 <= i < startingDay
      invariant |days| == startingDay - 1 - i
      invariant days == Grid(date, startingDay, |days|)
    {
      var cell := DayCell(prevMonthLastDay - i, false, MakeDate(year, month - 1, prevMonthLastDay - i));
      LeadingCellIs(date, startingDay, year, month, prevMonthLastDay, i, |days|);
      GridSnoc(date, startingDay, days, cell);
      days := days + [cell];
      i := i - 1;
    }

    i := 1;
    while i <= daysInMonth
      invariant 1 <= i <= daysInMonth + 1
      invariant |days| == startingDay + i - 1
      invariant days == Grid(date, startingDay, |days|)
    {
      var cell := DayCell(i, true, MakeDate(year, month, i));
      MonthCellIs(date, startingDay, year, month, i, |days|);
      GridSnoc(date, startingDay, days, cell);
      days := days + [cell];
      i := i + 1;
    }

    var remainingDays := 42 - |days|;
    assert 5 <= remainingDays <= 14;
    i := 1;
    while i <= remainingDays
      invariant 1 <= i <= remainingDays + 1
      invariant |days| == 42 - remainingDays + i - 1
      invariant days == Grid(date, startingDay, |days|)
    {
      var cell := DayCell(i, false, MakeDate(year, month + 1, i));
      TrailingCellIs(date, startingDay, year, month, i, |days|);
      GridSnoc(date, startingDay, days, cell);
      days := days + [cell];
      i := i + 1;
    }
    assert days == Grid(date, StartingDay(date), 42);
    GridShape(date);
  }

  /** `handlePrevMonth`: the first of the month before (`new Date(y, m - 1, 1)`). */
  function PrevMonthStart(date: CivilDate): (r: CivilDate)
    ensures (r.year, r.month) == Before(date) && r.day == 1 && r.hour == 0 && r.minute == 0 && r.second == 0
  {
    MakeDate(date.year, date.month - 2, 1)
  }

  /** `handleNextMonth`: the first of the month after (`new Date(y, m + 1, 1)`). */
  function NextMonthStart(date: CivilDate): (r: CivilDate)
    ensures (r.year, r.month) == After(date) && r.day == 1 && r.hour == 0 && r.minute == 0 && r.second == 0
  {
    MakeDate(date.year, date.month, 1)
  }

  /** From year 101 on, the buttons step one month back or forward, wrapping
      the year at January and December, and undo each other. */
  lemma Navigation(date: CivilDate)
    requires date.year >= 101
    ensures var p := PrevMonthStart(date);
      (p.year, p.month) == PrevMonth(date.year, date.month)
    ensures var n := NextMonthStart(date);
      (n.year, n.month) == NextMonth(date.year, date.month)
    ensures var b := NextMonthStart(PrevMonthStart(date));
      b.year == date.year && b.month == date.month
  {
    var y, m := date.year, date.month;
    var p, n := PrevMonthStart(date), NextMonthStart(date);
    var pm, nm := PrevMonth(y, m), NextMonth(y, m);
    assert MonthIndex(p.year, p.month) == MonthIndex(pm.0, pm.1);
    MonthIndexInjective(p.year, p.month, pm.0, pm.1);
    assert MonthIndex(n.year, n.month) == MonthIndex(nm.0, nm.1);
    MonthIndexInjective(n.year, n.month, nm.0, nm.1);
    var b := NextMonthStart(p);
    assert p.year >= 100;
    assert MonthIndex(b.year, b.month) == MonthIndex(y, m);
    MonthIndexInjective(b.year, b.month, y, m);
  }

  /** Below year 100 the `Date` constructor's 19YY reading breaks the step:
      two clicks back from January of year 100 land in November 1999. */
  lemma NavigationBelowYear100()
    ensures PrevMonthStart(DateTime(100, 1, 1, 0, 0, 0)) == DateTime(99, 12, 1, 0, 0, 0)
    ensures PrevMonthStart(DateTime(99, 12, 1, 0, 0, 0)) == DateTime(1999, 11, 1, 0, 0, 0)
  {
  }

  /** `String(year)`: a minus sign and the digits for a negative year. */
  function YearString(y: int): string {
    if y < 0 then "-" + NatToString(-y) else NatToString(y)
  }

  /** The `month` query the page fetches with: the year, a dash, then the
      one-based month padded to two digits. For a year from 0 on, splitting
      it at its dashes gives back the year digits and the padded month. */
  function MonthQuery(date: CivilDate): (q: string)
    ensures date.year >= 0 ==> CalendarApi.YearPart(q) == NatToString(date.year)
    ensures date.year >= 0 ==> CalendarApi.MonthPart(q) == Some(PadStart(NatToString(date.month), 2, '0'))
  {
    var ys, ms := YearString(date.year), PadStart(NatToString(date.month), 2, '0');
    NoDash(date.month);
    if date.year >= 0 then
      NoDash(date.year);
      DashJoinParts(ys, ms);
      ys + "-" + ms
    else
      ys + "-" + ms
  }

  /** The digits of a number never include a dash, padded or not. */
  lemma NoDash(n: nat)
    ensures '-' !in NatToString(n) && '-' !in PadStart(NatToString(n), 2, '0')
  {
    var ds := NatToString(n);
    var ms := PadStart(ds, 2, '0');
    forall k | 0 <= k < |ms| ensures IsDigit(ms[k]) {
      if |ds| < 2 && k >= 2 - |ds| {
        assert ms[k] == ms[2 - |ds|..][k - (2 - |ds|)];
      }
    }
  }

  /** Two dash-free fields joined by a dash split back into themselves. */
  lemma DashJoinParts(ys: string, ms: string)
    requires '-' !in ys && '-' !in ms
    ensures CalendarApi.YearPart(ys + "-" + ms) == ys
    ensures CalendarApi.MonthPart(ys + "-" + ms) == Some(ms)
  {
    var q := ys + "-" + ms;
    assert q == ys + ['-'] + ms;
    FirstFieldOfJoin(ys, '-', ms);
    assert AfterFirst(q, '-').value == ms;
    FirstFieldNoSep(ms, '-');
  }

  /** The query the page sends (from year 100 on) selects exactly the events of
      the month on display, whatever `year` parameter comes with it. */
  lemma MonthQuerySelectsShownMonth(date: CivilDate, e: Event, year: Field)
    requires date.year >= 100
    ensures CalendarApi.Where(Str(MonthQuery(date)), year) == Success(CalendarApi.MonthRange(date.year, date.month))
    ensures CalendarApi.InRange(e, CalendarApi.MonthRange(date.year, date.month))
        <==> e.date.year == date.year && e.date.month == date.month
  {
    QueryParses(date, year);
    ShownMonthRange(e, date.year, date.month);
  }

  /** From year 0 on, the query parses back into the shown year and month. */
  lemma QueryParses(date: CivilDate, year: Field)
    requires date.year >= 0
    ensures CalendarApi.Where(Str(MonthQuery(date)), year) == Success(CalendarApi.MonthRange(date.year, date.month))
  {
    var q := MonthQuery(date);
    assert ParseInt(CalendarApi.YearPart(q)) == Some(date.year) by {
      ParseIntOfNat(date.year);
    }
    assert CalendarApi.ParseMonthPart(q) == Some(date.month) by {
      ParseIntOfPadded(date.month);
    }
    assert Str(q).Truthy();
  }

  /** From year 100 on, the month range of (y, m) is that very month. */
  lemma ShownMonthRange(e: Event, y: int, m: int)
    requires y >= 100 && 1 <= m <= 12
    ensures CalendarApi.InRange(e, CalendarApi.MonthRange(y, m)) <==> e.date.year == y && e.date.month == m
  {
    assert MonthOf(y, m - 1) == (y, m);
    CalendarApi.MonthRangeSelectsMonth(e, y, m);
  }

  /** `event => isSameDay(new Date(event.date), date)`. */
  function OnDay(date: DateTime): Event -> bool {
    (e: Event) => SameDay(e.date, date)
  }

  /** `getEventsForDate(date)`: exactly the events on the same calendar day,
      each as often as before and in the same order. */
  function EventsForDate(events: seq<Event>, date: DateTime): (r: seq<Event>)
    ensures r == Filter(events, OnDay(date))
    ensures forall e :: multiset(r)[e] == if SameDay(e.date, date) then multiset(events)[e] else 0
  {
    FilterMultiset(events, OnDay(date));
    Filter(events, OnDay(date))
  }

  /** What one cell shows: its first two events, and a "+n more" line. */
  datatype CellEvents = CellEvents(shown: seq<Event>, more: Option<int>)

  /** A cell shows at most two events, in their order, plus "+(n - 2) more"
      exactly when it has more than two; shown and hidden add up to all. */
  function Overflow(dayEvents: seq<Event>): (r: CellEvents)
    ensures r.shown <= dayEvents && |r.shown| == if |dayEvents| < 2 then |dayEvents| else 2
    ensures r.more.Some? <==> |dayEvents| > 2
    ensures |r.shown| + r.more.GetOr(0) == |dayEvents|
  {
    CellEvents(Take(dayEvents, 2), if |dayEvents| > 2 then Some(|dayEvents| - 2) else None)
  }
}
