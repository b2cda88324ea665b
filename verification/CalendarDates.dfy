// What the month view shows: forty-two consecutive dates that hold the month, for
// every year the Date constructor does not move into another century.

module CalendarDates {
  import opened Common
  import opened CivilDate
  import opened Weeks
  import opened Calendar

  // The cell of a day.
  function DateAt(day: int): Cell {
    Some(DateOf(day))
  }

  // ---------------------------------------------------------------- stepping from date to date

  lemma ApartDates(d: int, e: int)
    ensures Apart(DateAt, d, e)
  {
    if d != e {
      DayOfDate(d);
      DayOfDate(e);
    }
  }

  // The day that stepping n days from day d names.
  ghost function Landing(d: int, n: int): int {
    var c := DateOf(d);
    DayNamed(c.year, c.month - 1, c.day + n)
  }

  lemma LandsRight(d: int, n: int)
    ensures Landing(d, n) == d + n <==> !Early(d)
  {
    DayOfDate(d);
    Rebuilt(DateOf(d), n);
  }

  lemma MovedIs(d: int, n: int)
    ensures Moved(DateAt(d), n) == if InTime(Landing(d, n)) then DateAt(Landing(d, n)) else None
  {
    hide DateOf, DayNamed;
  }

  lemma StepIsLanding(d: int, n: int)
    ensures Step(Moved, DateAt, d, n) <==> Landing(d, n) == d + n && InTime(d + n)
  {
    hide DateOf, Moved, Landing;
    var moved := Landing(d, n);
    MovedIs(d, n);
    ApartDates(moved, d + n);
    if InTime(moved) {
      StepLands(Moved, DateAt, d, n, moved);
    } else {
      assert Moved(DateAt(d), n) == None;
      assert DateAt(d + n).Some?;
    }
  }

  // Stepping from a date is right exactly outside the years 0 to 99 and to days
  // that a Date reaches.
  lemma StepIff(d: int, n: int)
    ensures Step(Moved, DateAt, d, n) <==> !Early(d) && InTime(d + n)
  {
    hide Early, Moved, Landing;
    StepIsLanding(d, n);
    LandsRight(d, n);
  }

  // None of the days lies in the years 0 to 99.
  lemma NoneEarly(from: int, to: int, low: int, high: int, start: int, end: int)
    requires low == 0 && high == 100 && (to <= YearStart(low) || YearStart(high) <= from)
    requires -LAST_DAY <= start && end <= LAST_DAY + 1
    ensures Steps(Moved, DateAt, from, to, start, end)
  {
    hide Moved, YearStart, DateOf;
    forall d, n | from <= d < to && start <= d + n < end
      ensures Step(Moved, DateAt, d, n)
    {
      YearBelow(d, low);
      YearBelow(d, high);
      StepIff(d, n);
    }
  }

  // ---------------------------------------------------------------- the view is right

  function FirstOf(y: int, m: int): int {
    DayOf(Civil(y, m, 1))
  }

  lemma CellDate(c: Civil, day: int)
    requires Valid(c) && DayOf(c) == day
    ensures Some(c) == DateAt(day)
  {
    DateOfDay(c);
  }

  lemma DatesRun(cells: seq<Cell>, day: int)
    requires forall i :: 0 <= i < |cells| ==>
      cells[i].Some? && Valid(cells[i].value) && DayOf(cells[i].value) == day + i
    ensures cells == Run(DateAt, day, |cells|)
  {
    forall i | 0 <= i < |cells|
      ensures cells[i] == DateAt(day + i)
    {
      CellDate(cells[i].value, day + i);
    }
    RunIs(DateAt, day, cells);
  }

  lemma MonthCell(y: int, m: int, day: int, i: nat)
    requires 1 <= m <= 12 && i < MonthDays(y, m - 1) && day == FirstOf(y, m)
    ensures Valid(Civil(y, m, i + 1)) && DayOf(Civil(y, m, i + 1)) == day + i
  {
    DaysLater(y, m - 1, 1, i);
  }

  lemma MonthRun(y: int, m: int, day: int, n: nat)
    requires 1 <= m <= 12 && n == MonthDays(y, m - 1) && day == FirstOf(y, m)
    ensures MonthCells(y, m, n) == Run(DateAt, day, n)
  {
    hide DayOf, FirstOf, MonthDays, Run, DateAt;
    var cells := MonthCells(y, m, n);
    forall i: nat | i < n
      ensures cells[i] == Some(Civil(y, m, i + 1))
      ensures Valid(Civil(y, m, i + 1)) && DayOf(Civil(y, m, i + 1)) == day + i
    {
      MonthCell(y, m, day, i);
    }
    DatesRun(cells, day);
  }

  lemma FirstIs(y: int, m: int, day: int)
    requires 1 <= m <= 12 && !(0 <= y <= 99) && day == FirstOf(y, m)
    ensures DayNamed(y, m - 1, 1) == day
  {
  }

  lemma CellsOf(y: int, m: int, firstDay: int, day: int, n: nat)
    requires 1 <= m <= 12 && 0 <= firstDay < 7 && !(0 <= y <= 99)
    requires day == FirstOf(y, m) && n == MonthDays(y, m - 1)
    ensures GridCells(y, m, firstDay) == View(Moved, Run(DateAt, day, n), Column(WeekDay(day), firstDay))
  {
    FirstIs(y, m, day);
    LastDateIs(y, m);
    MonthRun(y, m, day, n);
  }

  // ---------------------------------------------------------------- when it is right

  // Years the constructor takes as they are; January 100 and December of the year
  // -1 also need a first day that keeps the view out of the years between.
  predicate Plain(y: int, m: int, firstDay: int) {
    && (y < 0 || y >= 100)
    && (y == 100 && m == 1 ==> firstDay == 4 || firstDay == 5)
    && (y == -1 && m == 12 ==> firstDay == 6)
  }

  // The day the view should start with: the nearest one before the month that
  // starts a week.
  function ViewStart(y: int, m: int, firstDay: int): int
    requires 0 <= firstDay < 7
  {
    FirstOf(y, m) - Front(Column(WeekDay(FirstOf(y, m)), firstDay))
  }

  // The view is right in those years, as far as it holds valid dates only.
  predicate Shows(y: int, m: int, firstDay: int)
    requires 0 <= firstDay < 7
  {
    Plain(y, m, firstDay) && InTime(ViewStart(y, m, firstDay)) && InTime(ViewStart(y, m, firstDay) + 41)
  }

  lemma MonthStarting(y: int, m: int)
    requires 1 <= m <= 12
    ensures YearStart(y) + (if m > 1 then 31 else 0) <= FirstOf(y, m)
    ensures m == 1 ==> FirstOf(y, m) == YearStart(y)
  {
    if m > 1 {
      MonthsApart(y, 0, m - 1);
    }
  }

  lemma MonthEnding(y: int, m: int)
    requires 1 <= m <= 12
    ensures FirstOf(y, m) + MonthDays(y, m - 1) + (if m < 12 then 31 else 0) <= YearStart(y + 1)
    ensures m == 12 ==> FirstOf(y, m) + 31 == YearStart(y + 1)
  {
    MonthStarts(y);
    NextYear(y);
    if m < 12 {
      MonthsApart(y, m - 1, 11);
    }
  }

  // 1 January 100 is a Friday, 1 December of the year -1 a Wednesday.
  lemma January100(y: int)
    requires y == 100
    ensures WeekDay(FirstOf(y, 1)) == 5
  {
    YearStartIs(y);
    assert (y - 1969) / 4 == -468 && (y - 1901) / 100 == -19 && (y - 1601) / 400 == -4;
  }

  lemma December1(y: int)
    requires y == -1
    ensures WeekDay(FirstOf(y, 12)) == 3
  {
    hide YearStart, FirstOf;
    var next := y + 1;
    YearStartIs(next);
    MonthEnding(y, 12);
    assert (next - 1969) / 4 == -493 && (next - 1901) / 100 == -20 && (next - 1601) / 400 == -5;
  }

  lemma SafeAfter(day: int, lead: nat, n: nat, low: int, high: int)
    requires 28 <= n <= 31 && lead < 7 && low == 0 && high == 100
    requires InTime(day - Front(lead)) && InTime(day - Front(lead) + 41)
    requires YearStart(high) <= day && YearStart(high) <= day - lead + 1
    ensures Safe(Moved, DateAt, day, n, lead)
  {
    hide Steps, YearStart, Moved;
    var start, end := day - Front(lead), day - Front(lead) + 42;
    NoneEarly(day - lead + 1, day + 1, low, high, start, end);
    NoneEarly(day, day + 1, low, high, start, end);
    NoneEarly(day + n - 1, day + n - 1 + Reach(lead, n), low, high, start, end);
  }

  lemma SafeBefore(day: int, lead: nat, n: nat, low: int, high: int)
    requires 28 <= n <= 31 && lead < 7 && low == 0 && high == 100
    requires InTime(day - Front(lead)) && InTime(day - Front(lead) + 41)
    requires day + n <= YearStart(low) && day + n - 1 + Reach(lead, n) <= YearStart(low)
    ensures Safe(Moved, DateAt, day, n, lead)
  {
    hide Steps, YearStart, Moved;
    var start, end := day - Front(lead), day - Front(lead) + 42;
    NoneEarly(day - lead + 1, day + 1, low, high, start, end);
    NoneEarly(day, day + 1, low, high, start, end);
    NoneEarly(day + n - 1, day + n - 1 + Reach(lead, n), low, high, start, end);
  }

  lemma AfterBounds(y: int, m: int, firstDay: int, high: int)
    requires 1 <= m <= 12 && 0 <= firstDay < 7 && Plain(y, m, firstDay) && high == 100 && y >= high
    ensures var day := FirstOf(y, m);
      YearStart(high) <= day && YearStart(high) <= day - Column(WeekDay(day), firstDay) + 1
  {
    MonthStarting(y, m);
    if y > high {
      YearsApart(high, y);
    } else if m == 1 {
      January100(y);
    }
  }

  lemma BeforeBounds(y: int, m: int, firstDay: int, low: int, n: nat)
    requires 1 <= m <= 12 && 0 <= firstDay < 7 && Plain(y, m, firstDay) && low == 0 && y < low
    requires n == MonthDays(y, m - 1)
    ensures var day := FirstOf(y, m);
      day + n <= YearStart(low) && day + n - 1 + Reach(Column(WeekDay(day), firstDay), n) <= YearStart(low)
  {
    if y == -1 && m == 12 {
      LastBounds(y, firstDay, FirstOf(y, m), low);
    } else {
      FarBounds(y, m, FirstOf(y, m), n, low);
      ReachBound(Column(WeekDay(FirstOf(y, m)), firstDay), n);
    }
  }

  lemma FarBounds(y: int, m: int, day: int, n: nat, low: int)
    requires 1 <= m <= 12 && y < low && (y == low - 1 ==> m < 12)
    requires day == FirstOf(y, m) && n == MonthDays(y, m - 1)
    ensures day + n + 31 <= YearStart(low)
  {
    MonthEnding(y, m);
    YearsApart(y + 1, low);
  }

  lemma LastBounds(y: int, firstDay: int, day: int, low: int)
    requires 0 <= firstDay < 7 && y == -1 && firstDay == 6 && low == 0 && day == FirstOf(y, 12)
    ensures day + 31 == YearStart(low) && Reach(Column(WeekDay(day), firstDay), 31) == 1
  {
    MonthEnding(y, 12);
    December1(y);
  }

  lemma SafeIfShows(y: int, m: int, firstDay: int, day: int, lead: nat, n: nat, low: int, high: int)
    requires 1 <= m <= 12 && 0 <= firstDay < 7 && Shows(y, m, firstDay) && low == 0 && high == 100
    requires day == FirstOf(y, m) && lead == Column(WeekDay(day), firstDay) && n == MonthDays(y, m - 1)
    ensures Safe(Moved, DateAt, day, n, lead)
  {
    hide YearStart, FirstOf, Safe;
    if y < low {
      BeforeBounds(y, m, firstDay, low, n);
      SafeBefore(day, lead, n, low, high);
    } else {
      AfterBounds(y, m, firstDay, high);
      SafeAfter(day, lead, n, low, high);
    }
  }

  lemma RightIfShows(y: int, m: int, firstDay: int, day: int, lead: nat, n: nat, from: int)
    requires 1 <= m <= 12 && 0 <= firstDay < 7 && Shows(y, m, firstDay)
    requires day == FirstOf(y, m) && lead == Column(WeekDay(day), firstDay) && n == MonthDays(y, m - 1)
    requires from == day - Front(lead)
    ensures GridCells(y, m, firstDay) == Run(DateAt, from, 42)
  {
    hide Safe, View, Run, GridCells, FirstOf, YearStart;
    SafeIfShows(y, m, firstDay, day, lead, n, 0, 100);
    CellsOf(y, m, firstDay, day, n);
    ViewRun(Moved, DateAt, day, n, lead, GridCells(y, m, firstDay), from);
  }

  // ---------------------------------------------------------------- when it is wrong

  lemma HitsInTime(c: Cell, n: int, e: int)
    requires Hits(Moved, DateAt, c, n, e)
    ensures InTime(e)
  {
    hide DateOf, NewDate;
    var day := DayBy(c, n).value;
    ApartDates(day, e);
    assert InTime(day) by {
      ByInTime(c, n);
    }
  }

  lemma ByInTime(c: Cell, n: int)
    requires DayBy(c, n).Some?
    ensures InTime(DayBy(c, n).value)
  {
  }

  lemma Arithmetic()
    ensures RightBut(Moved, DateAt, Early, InTime)
  {
    hide Moved, DateAt, Early, InTime, Step, Apart, Hits;
    forall d, e
      ensures Apart(DateAt, d, e)
    {
      ApartDates(d, e);
    }
    forall d, n
      ensures Step(Moved, DateAt, d, n) <==> !Early(d) && InTime(d + n)
    {
      StepIff(d, n);
    }
    forall c, n, e | Hits(Moved, DateAt, c, n, e)
      ensures InTime(e)
    {
      HitsInTime(c, n, e);
    }
  }

  // The years 0 to 99 end with the day before and start with the day after.
  lemma EarlyBefore(y: int, day: int)
    requires y == 100 && day == YearStart(y)
    ensures !Early(day) && Early(day - 1)
  {
    NextYear(y - 1);
    YearBelow(day, y);
    YearBelow(day - 1, y);
    YearBelow(day - 1, y - 1);
  }

  lemma EarlyAfter(y: int, day: int)
    requires y == 0 && day == YearStart(y)
    ensures !Early(day - 1) && Early(day)
  {
    NextYear(y);
    YearBelow(day - 1, y);
    YearBelow(day, y);
    YearBelow(day, y + 1);
  }

  lemma EarlyMonth(c: Civil, day: int)
    requires Valid(c) && 0 <= c.year <= 99 && day == DayOf(c)
    ensures Early(day) && DateAt(day) == Some(c)
  {
    DateOfDay(c);
  }

  lemma EarlyWrong(y: int, m: int, firstDay: int, from: int)
    requires 1 <= m <= 12 && 0 <= firstDay < 7 && 0 <= y <= 99
    ensures GridCells(y, m, firstDay) != Run(DateAt, from, 42)
  {
    hide Early, DateOf, Moved, View;
    LastDateIs(y, m);
    var cells, dates := GridCells(y, m, firstDay), MonthCells(y, m, LastDate(y, m));
    EarlyMonth(Civil(y, m, 1), FirstOf(y, m));
    Arithmetic();
    BadFirst(Moved, DateAt, Early, InTime, dates, Lead(y, m, firstDay), cells, FirstOf(y, m), from);
  }

  lemma JanuaryWrong(y: int, firstDay: int, day: int, lead: nat, cells: seq<Cell>, from: int)
    requires y == 100 && 0 <= firstDay < 7 && firstDay != 4 && firstDay != 5
    requires day == FirstOf(y, 1) && lead == Column(WeekDay(day), firstDay) && cells == GridCells(y, 1, firstDay)
    ensures cells != Run(DateAt, from, 42)
  {
    hide Early, InTime, DateAt, Moved, View, Run, FirstOf, YearStart, GridCells;
    January100(y);
    MonthStarting(y, 1);
    EarlyBefore(y, day);
    CellsOf(y, 1, firstDay, day, MonthDays(y, 0));
    Arithmetic();
    BadBefore(Moved, DateAt, Early, InTime, MonthDays(y, 0), lead, cells, day, from);
  }

  lemma DecemberFacts(y: int, firstDay: int, day: int, lead: nat)
    requires y == -1 && 0 <= firstDay < 6 && day == FirstOf(y, 12) && lead == Column(WeekDay(day), firstDay)
    ensures lead < 7 && Reach(lead, 31) >= 2 && !Early(day + 30) && Early(day + 31)
  {
    December1(y);
    MonthEnding(y, 12);
    EarlyAfter(y + 1, day + 31);
  }

  lemma DecemberWrong(y: int, firstDay: int, day: int, lead: nat, cells: seq<Cell>, from: int)
    requires y == -1 && 0 <= firstDay < 6
    requires day == FirstOf(y, 12) && lead == Column(WeekDay(day), firstDay) && cells == GridCells(y, 12, firstDay)
    ensures cells != Run(DateAt, from, 42)
  {
    hide Early, InTime, DateAt, Moved, View, Run, FirstOf, YearStart, GridCells;
    DecemberFacts(y, firstDay, day, lead);
    CellsOf(y, 12, firstDay, day, 31);
    Arithmetic();
    BadAfter(Moved, DateAt, Early, InTime, 31, lead, cells, day, from);
  }

  // A right view holds valid dates only, and starts where it should.
  lemma RightInReach(y: int, m: int, firstDay: int, from: int)
    requires 1 <= m <= 12 && 0 <= firstDay < 7 && Plain(y, m, firstDay)
    requires GridCells(y, m, firstDay) == Run(DateAt, from, 42)
    ensures InTime(from) && InTime(from + 41) && from == ViewStart(y, m, firstDay)
  {
    hide Early, InTime, DateAt, Moved, View, FirstOf, GridCells;
    var day, n, cells := FirstOf(y, m), MonthDays(y, m - 1), GridCells(y, m, firstDay);
    var lead, dates := Column(WeekDay(day), firstDay), Run(DateAt, day, n);
    CellsOf(y, m, firstDay, day, n);
    Arithmetic();
    InReach(Moved, DateAt, Early, InTime, dates, lead, cells, from);
    AroundFirst(Moved, dates, lead, cells);
    ApartDates(from + Front(lead), day);
  }

  // Otherwise the cells are not forty-two consecutive dates, from any day on.
  lemma NeverRight(y: int, m: int, firstDay: int, from: int)
    requires 1 <= m <= 12 && 0 <= firstDay < 7 && !Shows(y, m, firstDay)
    ensures GridCells(y, m, firstDay) != Run(DateAt, from, 42)
  {
    hide GridCells, FirstOf, ViewStart, InTime;
    var day := FirstOf(y, m);
    if Plain(y, m, firstDay) {
      if GridCells(y, m, firstDay) == Run(DateAt, from, 42) {
        RightInReach(y, m, firstDay, from);
      }
    } else if 0 <= y <= 99 {
      EarlyWrong(y, m, firstDay, from);
    } else if y == 100 {
      JanuaryWrong(y, firstDay, day, Column(WeekDay(day), firstDay), GridCells(y, m, firstDay), from);
    } else {
      DecemberWrong(y, firstDay, day, Column(WeekDay(day), firstDay), GridCells(y, m, firstDay), from);
    }
  }

  // ---------------------------------------------------------------- the result

  lemma RightIffShows(y: int, m: int, firstDay: int)
    requires 1 <= m <= 12 && 0 <= firstDay < 7
    ensures GridCells(y, m, firstDay) == Run(DateAt, ViewStart(y, m, firstDay), 42) <==> Shows(y, m, firstDay)
  {
    hide GridCells, Shows, Run, FirstOf;
    var day, from := FirstOf(y, m), ViewStart(y, m, firstDay);
    if Shows(y, m, firstDay) {
      RightIfShows(y, m, firstDay, day, Column(WeekDay(day), firstDay), MonthDays(y, m - 1), from);
    } else {
      NeverRight(y, m, firstDay, from);
    }
  }

  lemma StartsWeek(y: int, m: int, firstDay: int, w: nat)
    requires 0 <= firstDay < 7
    ensures WeekDay(ViewStart(y, m, firstDay) + 7 * w) == firstDay
  {
    var day := FirstOf(y, m);
    assert day + 4 == 7 * ((day + 4) / 7) + WeekDay(day);
  }

  // The month of such a view holds valid dates, so it is shown at all.
  lemma ShowsInTime(y: int, m: int, firstDay: int)
    requires 1 <= m <= 12 && 0 <= firstDay < 7 && Shows(y, m, firstDay)
    ensures MonthInTime(y, m)
  {
    hide YearStart;
    LastNamed(y, m);
    FirstIs(y, m, FirstOf(y, m));
    DaysLater(y, m - 1, 1, MonthDays(y, m - 1) - 1);
  }

  // So the right forty-two dates are shown, as six weeks of seven, exactly then.
  method ViewOf(calendar: Calendar) returns (weeks: Option<seq<seq<Cell>>>)
    requires calendar.Valid()
    ensures Shows(calendar.year, calendar.month, calendar.firstDay) <==>
      && weeks.Some?
      && Flat(weeks.value) == Run(DateAt, ViewStart(calendar.year, calendar.month, calendar.firstDay), 42)
    ensures Shows(calendar.year, calendar.month, calendar.firstDay) ==>
      |weeks.value| == 6 && forall w :: 0 <= w < 6 ==> |weeks.value[w]| == 7
  {
    hide GridCells, Run, Flat, MonthInTime, Shows, ViewStart, DateAt, DayNamed, InTime;
    weeks := calendar.MonthView();
    ghost var y, m, firstDay := calendar.year, calendar.month, calendar.firstDay;
    RightIffShows(y, m, firstDay);
    if Shows(y, m, firstDay) {
      ShowsInTime(y, m, firstDay);
    }
    if MonthInTime(y, m) {
      ShownIfInTime(y, m);
    }
    StartsWithDate(ViewStart(y, m, firstDay));
  }

  lemma StartsWithDate(from: int)
    ensures |Run(DateAt, from, 42)| == 42 && Run(DateAt, from, 42)[0] == DateAt(from) != None
  {
  }

  lemma ShownIfInTime(y: int, m: int)
    requires MonthInTime(y, m)
    ensures InTime(DayNamed(y, m, 0))
  {
  }

  // Each week starts on firstDay ...
  lemma WeeksStart(y: int, m: int, firstDay: int, w: nat)
    requires 1 <= m <= 12 && 0 <= firstDay < 7 && Shows(y, m, firstDay) && w < 6
    ensures |GridCells(y, m, firstDay)| == 42 && GridCells(y, m, firstDay)[7 * w].Some?
    ensures WeekDay(DayOf(GridCells(y, m, firstDay)[7 * w].value)) == firstDay
  {
    hide DateOf, DayOf, GridCells, Shows, WeekDay, ViewStart;
    var from := ViewStart(y, m, firstDay);
    RightIffShows(y, m, firstDay);
    RunAt(DateAt, from, 42, 7 * w);
    DayOfDate(from + 7 * w);
    StartsWeek(y, m, firstDay, w);
  }

  // ... and each day of the month stands in one cell.
  lemma EachDayOnce(y: int, m: int, firstDay: int, d: int) returns (k: nat)
    requires 1 <= m <= 12 && 0 <= firstDay < 7 && Shows(y, m, firstDay) && Valid(Civil(y, m, d))
    ensures var cells := GridCells(y, m, firstDay);
      && k < |cells| && cells[k] == Some(Civil(y, m, d))
      && forall j :: 0 <= j < |cells| && cells[j] == cells[k] ==> j == k
  {
    hide DateOf, DayOf, GridCells, ViewStart, MonthDays, Shows;
    var from, cells := ViewStart(y, m, firstDay), GridCells(y, m, firstDay);
    RightIffShows(y, m, firstDay);
    k := InView(y, m, firstDay, d, from);
    CellDate(Civil(y, m, d), from + k);
    forall j: nat | j < 42 && cells[j] == cells[k]
      ensures j == k
    {
      ApartDates(from + j, from + k);
      OneCell(DateAt, from, cells, j, k);
    }
  }

  lemma InView(y: int, m: int, firstDay: int, d: int, from: int) returns (k: nat)
    requires 1 <= m <= 12 && 0 <= firstDay < 7 && Valid(Civil(y, m, d)) && from == ViewStart(y, m, firstDay)
    ensures k < 42 && DayOf(Civil(y, m, d)) == from + k
  {
    hide MonthStart, YearStart;
    DaysLater(y, m - 1, 1, d - 1);
    k := DayOf(Civil(y, m, d)) - from;
  }

  // The month buttons lead to the month that starts where this one ends.
  lemma NextMonth(y: int, m: int)
    requires 1 <= m <= 12
    ensures FirstOf(if m == 12 then y + 1 else y, if m == 12 then 1 else m + 1) == FirstOf(y, m) + MonthDays(y, m - 1)
  {
    MonthEnding(y, m);
  }

  // A year that can be typed and is too late: January 300000 has no valid last day,
  // and showing it is a TypeError.
  lemma TooLate(y: int, firstDay: int)
    requires y == 300000 && 0 <= firstDay < 7
    ensures !InTime(DayNamed(y, 1, 0)) && !Shows(y, 1, firstDay)
  {
    YearStartIs(y);
    assert (y - 1969) / 4 == 74507 && (y - 1901) / 100 == 2980 && (y - 1601) / 400 == 745;
  }
}
