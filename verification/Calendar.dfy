// The calendar's month view: six weeks of seven cells around a month, and the
// month buttons.

module Calendar {
  import opened Common
  import opened CivilDate
  import opened Weeks

  // A cell [y, m, d]; None is [NaN, NaN, NaN].
  type Cell = Option<Civil>

  // The day of new Date(y, m - 1, d + n) for a cell; None is an invalid date.
  function DayBy(c: Cell, n: int): Option<int> {
    if c == None then None else NewDate(c.value.year, c.value.month - 1, c.value.day + n)
  }

  // The cell that shows that date.
  function Moved(c: Cell, n: int): Cell {
    var day := DayBy(c, n);
    if day == None then None else Some(DateOf(day.value))
  }

  function LastDate(y: int, m: int): int {
    DateOf(DayNamed(y, m, 0)).day
  }

  function MonthCells(y: int, m: int, n: nat): (r: seq<Cell>)
    ensures |r| == n
  {
    seq(n, i => Some(Civil(y, m, i + 1)))
  }

  // The column of a weekday in weeks that start on firstDay.
  function Column(weekDay: int, firstDay: int): int {
    if weekDay >= firstDay then weekDay - firstDay else weekDay - firstDay + 7
  }

  // The column of the first of the month.
  function Lead(y: int, m: int, firstDay: int): (lead: nat)
    requires 0 <= firstDay < 7
    ensures lead < 7
  {
    Column(WeekDay(DayNamed(y, m - 1, 1)), firstDay)
  }

  // Whether the first and the last of the month are valid dates.
  predicate MonthInTime(y: int, m: int) {
    InTime(DayNamed(y, m - 1, 1)) && InTime(DayNamed(y, m, 0))
  }

  lemma LastNamed(y: int, m: int)
    requires 1 <= m <= 12
    ensures DayNamed(y, m, 0) == DayOf(Civil(FullYear(y), m, MonthDays(FullYear(y), m - 1)))
  {
    var z := FullYear(y);
    if m == 12 {
      NextYear(z);
      MonthStarts(z);
      assert MakeDay(z, 12, 0) == MakeDay(z + 1, 0, 0);
    }
  }

  lemma LastDateIs(y: int, m: int)
    requires 1 <= m <= 12
    ensures LastDate(y, m) == MonthDays(FullYear(y), m - 1)
  {
    hide DateOf, DayNamed, DayOf;
    LastNamed(y, m);
    DateOfDay(Civil(FullYear(y), m, MonthDays(FullYear(y), m - 1)));
  }

  // The forty-two cells in reading order.
  function GridCells(y: int, m: int, firstDay: int): seq<Cell>
    requires 1 <= m <= 12 && 0 <= firstDay < 7
  {
    LastDateIs(y, m);
    var lead, dates := Lead(y, m, firstDay), MonthCells(y, m, LastDate(y, m));
    View(Moved, dates, lead)
  }

  // ---------------------------------------------------------------- the weeks of the month alone

  lemma NextWeekDay(day: int)
    ensures WeekDay(day + 1) == if WeekDay(day) == 6 then 0 else WeekDay(day) + 1
  {
  }

  predicate EndsWeek(weekDay: int, firstDay: int) {
    weekDay == (if firstDay == 0 then 7 else firstDay) - 1
  }

  // The first done days have been taken; weekDay is that of the next one.
  ghost predicate Taken(dates: seq<Cell>, done: nat, weeks: seq<seq<Cell>>, week: seq<Cell>,
                        lead: nat, firstDay: int, weekDay: int) {
    && done <= |dates| && Flat(weeks) + week == dates[..done] && Shaped(weeks, week, lead, done)
    && Column(weekDay, firstDay) == NextColumn(weeks, week, lead)
  }

  lemma TakeDay(dates: seq<Cell>, done: nat, weeks: seq<seq<Cell>>, week: seq<Cell>,
                lead: nat, firstDay: int, weekDay: int)
    requires Taken(dates, done, weeks, week, lead, firstDay, weekDay) && done < |dates|
    requires 0 <= firstDay < 7 && 0 <= weekDay < 7
    ensures var next := if weekDay == 6 then 0 else weekDay + 1;
      if EndsWeek(weekDay, firstDay)
      then Taken(dates, done + 1, weeks + [week + [dates[done]]], [], lead, firstDay, next)
      else Taken(dates, done + 1, weeks, week + [dates[done]], lead, firstDay, next)
  {
    var week' := week + [dates[done]];
    assert dates[..done + 1] == dates[..done] + [dates[done]];
    assert Flat(weeks) + week' == (Flat(weeks) + week) + [dates[done]];
    FlatPush(weeks, week');
    assert (Flat(weeks) + week') + [] == Flat(weeks) + week';
    assert EndsWeek(weekDay, firstDay) <==> Column(weekDay, firstDay) == 6;
  }

  // The dates are valid and follow each other.
  ghost predicate InRow(dates: seq<Cell>, base: int) {
    forall i :: 0 <= i < |dates| ==> DayBy(dates[i], 0) == Some(base + i)
  }

  // Every week holds something and all hold the dates in order.
  ghost predicate Held(dates: seq<Cell>, done: nat, weeks: seq<seq<Cell>>, week: seq<Cell>) {
    && done <= |dates| && Flat(weeks) + week == dates[..done]
    && forall w :: 0 <= w < |weeks| ==> weeks[w] != []
  }

  lemma HoldOne(dates: seq<Cell>, done: nat, weeks: seq<seq<Cell>>, week: seq<Cell>)
    requires Held(dates, done, weeks, week) && done < |dates|
    ensures Held(dates, done + 1, weeks, week + [dates[done]])
    ensures Held(dates, done + 1, weeks + [week + [dates[done]]], [])
  {
    hide Flat;
    var week' := week + [dates[done]];
    assert dates[..done + 1] == dates[..done] + [dates[done]];
    Reassociated(Flat(weeks), week, [dates[done]]);
    FlatPush(weeks, week');
    assert (Flat(weeks) + week') + [] == Flat(weeks) + week';
  }

  lemma HeldAll(dates: seq<Cell>, weeks: seq<seq<Cell>>, week: seq<Cell>, all: seq<seq<Cell>>)
    requires Held(dates, |dates|, weeks, week) && dates != []
    requires all == if week == [] then weeks else weeks + [week]
    ensures Ended(all) && Flat(all) == dates && all[0][0] == dates[0]
  {
    FlatPush(weeks, week);
    assert dates[..|dates|] == dates;
    FlatFirst(all);
  }

  // Where a week ends, as far as the dates are valid.
  predicate Ends(day: Option<int>, before: Option<int>, firstDay: int) {
    day.Some? && before != day && EndsWeek(day.value, firstDay)
  }

  function WeekDayOf(c: Cell): Option<int> {
    var day := DayBy(c, 0);
    if day == None then None else Some(WeekDay(day.value))
  }

  // What holds of the loop while all dates are valid.
  ghost predicate Tidy(dates: seq<Cell>, done: nat, weeks: seq<seq<Cell>>, week: seq<Cell>, firstDay: int,
                       base: int, before: Option<int>)
    requires 0 <= firstDay < 7
  {
    && Taken(dates, done, weeks, week, Column(WeekDay(base), firstDay), firstDay, WeekDay(base + done))
    && (before == Some(-1) || before == Some(WeekDay(base + done - 1)))
  }

  lemma TidyOne(dates: seq<Cell>, done: nat, weeks: seq<seq<Cell>>, week: seq<Cell>, firstDay: int,
                base: int, before: Option<int>, day: Option<int>)
    requires 0 <= firstDay < 7 && done < |dates| && InRow(dates, base) && day == WeekDayOf(dates[done])
    requires Tidy(dates, done, weeks, week, firstDay, base, before)
    ensures if Ends(day, before, firstDay)
            then Tidy(dates, done + 1, weeks + [week + [dates[done]]], [], firstDay, base, day)
            else Tidy(dates, done + 1, weeks, week + [dates[done]], firstDay, base, day)
  {
    hide Taken, DayBy;
    assert DayBy(dates[done], 0) == Some(base + done);
    TakeDay(dates, done, weeks, week, Column(WeekDay(base), firstDay), firstDay, WeekDay(base + done));
    NextWeekDay(base + done - 1);
    NextWeekDay(base + done);
  }

  method GroupWeeks(dates: seq<Cell>, firstDay: int, ghost base: int) returns (weeks: seq<seq<Cell>>)
    requires 28 <= |dates| <= 31 && 0 <= firstDay < 7
    ensures Ended(weeks) && Flat(weeks) == dates && weeks[0][0] == dates[0]
    ensures InRow(dates, base) ==> Grouped(weeks, dates, Column(WeekDay(base), firstDay))
  {
    hide DayBy, Taken, Flat, WeekDay, InRow;
    var rest := dates;
    weeks := [];
    var week, before := [], Some(-1);
    ghost var done := 0;
    StartHeld(dates, firstDay, base);
    while rest != []
      invariant done <= |dates| && rest == dates[done..] && Held(dates, done, weeks, week)
      invariant InRow(dates, base) ==> Tidy(dates, done, weeks, week, firstDay, base, before)
    {
      var c := rest[0];
      rest := rest[1..];
      var day := WeekDayOf(c);
      HoldOne(dates, done, weeks, week);
      if InRow(dates, base) {
        TidyOne(dates, done, weeks, week, firstDay, base, before, day);
      }
      week := week + [c];
      if Ends(day, before, firstDay) {
        weeks := weeks + [week];
        week := [];
      }
      before := day;
      done := done + 1;
    }
    HeldAll(dates, weeks, week, if week == [] then weeks else weeks + [week]);
    if InRow(dates, base) {
      TidyAll(dates, weeks, week, firstDay, base, before);
    }
    if week != [] {
      weeks := weeks + [week];
    }
  }

  lemma StartHeld(dates: seq<Cell>, firstDay: int, base: int)
    requires 0 <= firstDay < 7 && dates != []
    ensures Held(dates, 0, [], []) && Tidy(dates, 0, [], [], firstDay, base, Some(-1))
  {
    assert Flat<Cell>([]) == [];
  }

  lemma TidyAll(dates: seq<Cell>, weeks: seq<seq<Cell>>, week: seq<Cell>, firstDay: int, base: int, before: Option<int>)
    requires 28 <= |dates| <= 31 && 0 <= firstDay < 7 && Tidy(dates, |dates|, weeks, week, firstDay, base, before)
    ensures Grouped(if week == [] then weeks else weeks + [week], dates, Column(WeekDay(base), firstDay))
  {
    assert dates[..|dates|] == dates;
    AllShaped(weeks, week, dates, Column(WeekDay(base), firstDay));
  }

  // ---------------------------------------------------------------- the calendar

  lemma MonthInRow(y: int, m: int, n: nat, base: int)
    requires 1 <= m <= 12 && MonthInTime(y, m) && n == LastDate(y, m) && base == DayNamed(y, m - 1, 1)
    ensures InRow(MonthCells(y, m, n), base)
  {
    forall i | 0 <= i < n
      ensures DayBy(MonthCells(y, m, n)[i], 0) == Some(base + i)
    {
      DayOfMonth(y, m, n, base, i);
    }
  }

  lemma DayOfMonth(y: int, m: int, n: nat, base: int, i: nat)
    requires 1 <= m <= 12 && MonthInTime(y, m) && n == LastDate(y, m) && base == DayNamed(y, m - 1, 1) && i < n
    ensures NewDate(y, m - 1, i + 1) == Some(base + i)
  {
    hide LastDate;
    LastDateIs(y, m);
    LastNamed(y, m);
    DaysLater(FullYear(y), m - 1, 1, i);
    DaysLater(FullYear(y), m - 1, 1, n - 1);
  }

  // Before the first valid date there are only invalid ones.
  lemma NothingBefore(y: int, m: int, week: seq<Cell>)
    requires 1 <= m <= 12 && DayNamed(y, m - 1, 1) < -LAST_DAY && week != [] && week[0] == Some(Civil(y, m, 1))
    ensures FirstCell(Moved, week) == None
  {
    var c := week[0];
    forall n | n < 0
      ensures Moved(c, n) == None
    {
      DaysLater(FullYear(y), m - 1, 1, n);
    }
    if |week| < 7 {
      BackNothing(c, 7 - |week|);
    }
  }

  lemma {:induction false} BackNothing(c: Cell, k: nat)
    requires k > 0 && Moved(c, -1) == None
    ensures |Back(Moved, c, k)| == k && Back(Moved, c, k)[0] == None
    decreases k
  {
    hide Moved;
    BackLength(Moved, c, k);
    if k > 1 {
      NothingMoves();
      BackNothing(None, k - 1);
    }
  }

  lemma NothingMoves()
    ensures Moved(None, -1) == None
  {
  }

  class Calendar {
    var year: int
    var month: int
    const firstDay: int

    constructor (year: int, month: int, firstDay: int)
      requires 1 <= month <= 12 && 0 <= firstDay < 7
      ensures Valid() && this.year == year && this.month == month && this.firstDay == firstDay
    {
      this.year, this.month, this.firstDay := year, month, firstDay;
    }

    predicate Valid()
      reads this
    {
      1 <= month <= 12 && 0 <= firstDay < 7
    }

    // The cells of the view, week by week; None is a TypeError, where the month has
    // no valid last day.
    method MonthView() returns (r: Option<seq<seq<Cell>>>)
      requires Valid()
      ensures r == None <==> !InTime(DayNamed(year, month, 0))
      ensures MonthInTime(year, month) ==> |r.value| == 6 && forall w :: 0 <= w < 6 ==> |r.value[w]| == 7
      ensures MonthInTime(year, month) ==> Flat(r.value) == GridCells(year, month, firstDay)
      ensures r.Some? && !MonthInTime(year, month) ==> Flat(r.value) != [] && Flat(r.value)[0] == None
    {
      hide DateOf, DayNamed, Flat, View, Grouped, FirstCell;
      LastDateIs(year, month);
      var last := NewDate(year, month, 0);
      if last == None {
        return None;
      }
      var n := DateOf(last.value).day;
      var dates := [];
      for i := 1 to n + 1
        invariant dates == MonthCells(year, month, i - 1)
      {
        dates := dates + [Some(Civil(year, month, i))];
      }
      ghost var base, lead := DayNamed(year, month - 1, 1), Lead(year, month, firstDay);
      var weeks := GroupWeeks(dates, firstDay, base);
      if MonthInTime(year, month) {
        MonthInRow(year, month, n, base);
      } else {
        FirstTooEarly(year, month);
        NothingBefore(year, month, weeks[0]);
      }
      weeks := FillFront(Moved, weeks, dates, lead);
      weeks := FillBack(Moved, weeks, dates, lead);
      r := Some(weeks);
    }

    // The buttons that go one month on or back.
    method ChangeMonth(n: int)
      requires Valid() && (n == 1 || n == -1)
      modifies this`year, this`month
      ensures Valid() && 12 * year + month == old(12 * year + month) + n
    {
      month := month + n;
      if month > 12 {
        year := year + 1;
        month := 1;
      } else if month < 1 {
        year := year - 1;
        month := 12;
      }
    }
  }

  lemma FirstTooEarly(y: int, m: int)
    requires 1 <= m <= 12 && InTime(DayNamed(y, m, 0)) && !MonthInTime(y, m)
    ensures DayNamed(y, m - 1, 1) < -LAST_DAY
  {
    LastNamed(y, m);
    DaysLater(FullYear(y), m - 1, 1, MonthDays(FullYear(y), m - 1) - 1);
  }
}
