/** The month view of the calendar page: a grid of six Monday-first weeks
    (42 cells) holding the tail of the previous month, the month itself and
    the head of the next month, and the day cell that lists the trips of
    that date. The weekday of the first of the month, the month lengths and
    the date string of a cell come from the browser's Date, so they are inputs. */
module Calendar {
  import opened Basics
  import opened Store
  import Trips

  /** One square of the grid: its day number and whether it belongs to a neighbouring month. */
  datatype Cell = Cell(day: nat, otherMonth: bool)

  /** Six rows of seven days. */
  const GridSize := 42

  /** `getDay()` counts from Sunday = 0; the grid's columns count from Monday = 0. */
  function MondayOffset(weekday: nat): (d: nat)
    requires weekday < 7
    ensures d < 7
    ensures (d + 1) % 7 == weekday
  {
    if weekday == 0 then 6 else weekday - 1
  }

  /** A month length, as `getDate()` of a month's last day can be. */
  predicate MonthLength(n: nat)
  {
    28 <= n <= 31
  }

  /** renderCalendar's three loops: the previous month's last `startDay`
      days, then every day of the month, then the next month's first days
      until the grid is full. At least five next-month days always close the
      grid, so the trailing loop's second guard never stops it. `weekday` is
      `getDay()` of the first of the month, `daysInMonth` the length of the
      month and `prevMonthDays` that of the month before. */
  method RenderGrid(weekday: nat, daysInMonth: nat, prevMonthDays: nat) returns (cells: seq<Cell>)
    requires weekday < 7 && MonthLength(daysInMonth) && MonthLength(prevMonthDays)
    ensures |cells| == GridSize
    ensures var start := MondayOffset(weekday);
      forall k :: 0 <= k < start ==> cells[k] == Cell(prevMonthDays - start + 1 + k, true)
    ensures var start := MondayOffset(weekday);
      forall k :: start <= k < start + daysInMonth ==> cells[k] == Cell(k - start + 1, false)
    ensures var last := MondayOffset(weekday) + daysInMonth;
      forall k :: last <= k < GridSize ==> cells[k] == Cell(k - last + 1, true)
    ensures GridSize - (MondayOffset(weekday) + daysInMonth) >= 5
  {
    var startDay := MondayOffset(weekday);
    cells := [];
    var i: int := startDay - 1;
    while i >= 0
      invariant -1 <= i < startDay
      invariant |cells| == startDay - 1 - i
      invariant forall k :: 0 <= k < |cells| ==> cells[k] == Cell(prevMonthDays - startDay + 1 + k, true)
    {
      cells := cells + [Cell(prevMonthDays - i, true)];
      i := i - 1;
    }
    var day := 1;
    while day <= daysInMonth
      invariant 1 <= day <= daysInMonth + 1
      invariant |cells| == startDay + day - 1
      invariant forall k :: 0 <= k < startDay ==> cells[k] == Cell(prevMonthDays - startDay + 1 + k, true)
      invariant forall k :: startDay <= k < |cells| ==> cells[k] == Cell(k - startDay + 1, false)
    {
      cells := cells + [Cell(day, false)];
      day := day + 1;
    }
    var totalCells := startDay + daysInMonth;
    var nextMonthDays := GridSize - totalCells;
    day := 1;
    while day <= nextMonthDays && totalCells + day <= GridSize
      invariant 1 <= day <= nextMonthDays + 1
      invariant |cells| == totalCells + day - 1
      invariant forall k :: 0 <= k < startDay ==> cells[k] == Cell(prevMonthDays - startDay + 1 + k, true)
      invariant forall k :: startDay <= k < totalCells ==> cells[k] == Cell(k - startDay + 1, false)
      invariant forall k :: totalCells <= k < |cells| ==> cells[k] == Cell(k - totalCells + 1, true)
    {
      cells := cells + [Cell(day, true)];
      day := day + 1;
    }
  }

  /** The day numbered `d` sits in the column of its weekday: day `d` falls
      `d - 1` days after the first, and cell `start + d - 1` is in column
      `(start + d - 1) % 7`. */
  lemma DayUnderItsWeekday(weekday: nat, d: nat)
    requires weekday < 7 && d >= 1
    ensures (MondayOffset(weekday) + d - 1) % 7 == MondayOffset((weekday + d - 1) % 7)
  {
    var start := MondayOffset(weekday);
    var w := (weekday + d - 1) % 7;
    assert (start + 1) % 7 == weekday;
    var q := (weekday + d - 1) / 7;
    assert weekday + d - 1 == 7 * q + w;
    if weekday == 0 {
      assert start + d - 1 == 7 * q + w + 6;
      if w == 0 {
        assert (start + d - 1) % 7 == 6;
      } else {
        assert start + d - 1 == 7 * (q + 1) + (w - 1);
      }
    } else {
      assert start + d - 1 == 7 * q + w - 1;
      if w == 0 {
        assert start + d - 1 == 7 * (q - 1) + 6;
      } else {
        assert (start + d - 1) % 7 == w - 1;
      }
    }
  }

  /** A trip as a dot in a day cell; `mine` highlights the viewer's own trips. */
  datatype Dot = Dot(route: string, mine: bool)

  /** What createDayElement draws: the day number, up to three dots, the
      "+n autres" remainder, and whether a click opens the day's trips. */
  datatype DayView = DayView(cell: Cell, dots: seq<Dot>, more: Option<nat>, clickable: bool)

  /** The page's cached trips whose date is exactly the cell's `YYYY-MM-DD`. */
  function DayTrips(trips: seq<Trip>, date: string): (r: seq<Trip>)
    ensures forall t :: t in r <==> t in trips && t.date == date
  {
    Filter(trips, (t: Trip) => t.date == date)
  }

  function DotOf(t: Trip, viewer: Option<Id>): Dot
  {
    Dot(t.departure + Trips.Arrow + t.arrival, viewer == Some(t.owner))
  }

  const ShownPerDay := 3

  /** createDayElement for one cell whose date renders as `date`. */
  function DayElement(cell: Cell, trips: seq<Trip>, date: string, viewer: Option<Id>): (v: DayView)
    ensures v.cell == cell
    ensures |v.dots| <= ShownPerDay
    ensures v.clickable <==> exists t :: t in trips && t.date == date
    ensures v.more.Some? <==> |DayTrips(trips, date)| > ShownPerDay
    ensures |v.dots| + (if v.more.Some? then v.more.value else 0) == |DayTrips(trips, date)|
    ensures forall i :: 0 <= i < |v.dots| ==> v.dots[i] == DotOf(DayTrips(trips, date)[i], viewer)
  {
    var day := DayTrips(trips, date);
    var shown := Take(day, ShownPerDay);
    assert |day| > 0 ==> day[0] in day;
    DayView(cell,
            seq(|shown|, i requires 0 <= i < |shown| => DotOf(shown[i], viewer)),
            if |day| > ShownPerDay then Some(|day| - ShownPerDay) else None,
            |day| > 0)
  }

  /** The dots drawn for a date are exactly its first trips: every dot is a
      trip of that date, and a trip of that date is missing only when the
      remainder counts it. */
  lemma DotsAreThatDay(cell: Cell, trips: seq<Trip>, date: string, viewer: Option<Id>, t: Trip)
    requires t in trips && t.date == date
    ensures var v := DayElement(cell, trips, date, viewer);
      DotOf(t, viewer) in v.dots || v.more.Some?
  {
    var day := DayTrips(trips, date);
    var v := DayElement(cell, trips, date, viewer);
    if v.more.None? {
      assert t in day;
      var i :| 0 <= i < |day| && day[i] == t;
      assert v.dots[i] == DotOf(t, viewer);
    }
  }
}
