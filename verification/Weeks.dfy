// Laying the dates of a month out in six weeks of seven: a short first and last
// week are filled up date by date, and a whole week is put before or after where
// one is missing. The platform's date arithmetic is the parameter move.

module Weeks {
  import opened Common

  ghost function Flat<T>(weeks: seq<seq<T>>): seq<T> {
    if weeks == [] then [] else Flat(weeks[..|weeks| - 1]) + weeks[|weeks| - 1]
  }

  lemma FlatPush<T>(weeks: seq<seq<T>>, week: seq<T>)
    ensures Flat(weeks + [week]) == Flat(weeks) + week
  {
    assert (weeks + [week])[..|weeks|] == weeks;
  }

  lemma {:induction false} FlatUnshift<T>(week: seq<T>, weeks: seq<seq<T>>)
    ensures Flat([week] + weeks) == week + Flat(weeks)
  {
    if weeks == [] {
      FlatPush([], week);
      assert [] + [week] == [week] + weeks;
    } else {
      var init, last := weeks[..|weeks| - 1], weeks[|weeks| - 1];
      FlatUnshift(week, init);
      FlatPush([week] + init, last);
      assert [week] + weeks == ([week] + init) + [last];
    }
  }

  // ---------------------------------------------------------------- the dates in weeks

  // How many days are missing to a full last week.
  function Pad(k: int): nat
    requires 28 <= k <= 42
  {
    if k == 28 then 0 else if k <= 35 then 35 - k else 42 - k
  }

  function Rows(lead: nat, k: int): nat {
    (if lead == 0 then 1 else 0) + if k <= 28 then 4 else if k <= 35 then 5 else 6
  }

  // done days stand in full weeks, after a short first one, and in the week begun.
  ghost predicate Shaped<T>(weeks: seq<seq<T>>, week: seq<T>, lead: nat, done: nat) {
    && lead < 7
    && (weeks == [] ==> |week| == done && lead + done < 7)
    && (weeks != [] ==> |weeks[0]| == 7 - lead && 7 * |weeks| + |week| == lead + done && |week| < 7)
    && forall w :: 1 <= w < |weeks| ==> |weeks[w]| == 7
  }

  // The column the next day goes to.
  ghost function NextColumn<T>(weeks: seq<seq<T>>, week: seq<T>, lead: nat): nat {
    if weeks == [] then lead + |week| else |week|
  }

  // Weeks that hold the dates in order, all full but the first and the last.
  ghost predicate Grouped<T>(weeks: seq<seq<T>>, dates: seq<T>, lead: nat) {
    && 28 <= |dates| <= 31 && lead < 7 && Flat(weeks) == dates
    && |weeks| == Rows(lead, lead + |dates|) - (if lead == 0 then 1 else 0) && |weeks| >= 4
    && |weeks[0]| == 7 - lead && |weeks[|weeks| - 1]| == 7 - Pad(lead + |dates|)
    && forall w :: 1 <= w < |weeks| - 1 ==> |weeks[w]| == 7
  }

  lemma AllShaped<T>(weeks: seq<seq<T>>, week: seq<T>, dates: seq<T>, lead: nat)
    requires Shaped(weeks, week, lead, |dates|) && 28 <= |dates| <= 31 && Flat(weeks) + week == dates
    ensures Grouped(if week == [] then weeks else weeks + [week], dates, lead)
  {
    FlatPush(weeks, week);
  }

  // The k cells before a cell, each computed from the one after it.
  function Back<T>(move: (T, int) -> T, c: T, k: nat): seq<T>
    decreases k
  {
    if k == 0 then [] else Back(move, move(c, -1), k - 1) + [move(c, -1)]
  }

  // The k cells after a cell, each computed from the one before it.
  function Ahead<T>(move: (T, int) -> T, c: T, k: nat): seq<T>
    decreases k
  {
    if k == 0 then [] else [move(c, 1)] + Ahead(move, move(c, 1), k - 1)
  }

  // The week before a cell and the week after it, computed from that cell.
  function WeekBack<T>(move: (T, int) -> T, c: T): seq<T> {
    seq(7, i => move(c, i - 7))
  }

  function WeekAhead<T>(move: (T, int) -> T, c: T): seq<T> {
    seq(7, i => move(c, i + 1))
  }

  // ---------------------------------------------------------------- the weeks filled up

  lemma BackStep<T>(move: (T, int) -> T, c: T, week: seq<T>, k: nat)
    requires k > 0
    ensures Back(move, c, k) + week == Back(move, move(c, -1), k - 1) + ([move(c, -1)] + week)
  {
    Reassociated(Back(move, move(c, -1), k - 1), [move(c, -1)], week);
  }

  lemma AheadStep<T>(move: (T, int) -> T, week: seq<T>, c: T, k: nat)
    requires k > 0
    ensures week + Ahead(move, c, k) == (week + [move(c, 1)]) + Ahead(move, move(c, 1), k - 1)
  {
    Reassociated(week, [move(c, 1)], Ahead(move, move(c, 1), k - 1));
  }

  method FillHead<T>(move: (T, int) -> T, head: seq<T>) returns (week: seq<T>)
    requires 1 <= |head| <= 7
    ensures week == Back(move, head[0], 7 - |head|) + head && |week| == 7
  {
    week := head;
    ghost var full := Back(move, head[0], 7 - |head|) + head;
    while |week| < 7
      invariant 1 <= |week| <= 7 && Back(move, week[0], 7 - |week|) + week == full
    {
      BackStep(move, week[0], week, 7 - |week|);
      week := [move(week[0], -1)] + week;
    }
  }

  method FillTail<T>(move: (T, int) -> T, tail: seq<T>) returns (week: seq<T>)
    requires tail != []
    ensures |tail| <= 7 ==> week == tail + Ahead(move, tail[|tail| - 1], 7 - |tail|) && |week| == 7
    ensures tail <= week
  {
    week := tail;
    ghost var full := if |tail| <= 7 then tail + Ahead(move, tail[|tail| - 1], 7 - |tail|) else tail;
    while |week| < 7
      invariant week != [] && tail <= week && (|tail| > 7 ==> week == tail)
      invariant |tail| <= 7 ==> |week| <= 7 && week + Ahead(move, week[|week| - 1], 7 - |week|) == full
    {
      AheadStep(move, week, week[|week| - 1], 7 - |week|);
      week := week + [move(week[|week| - 1], 1)];
    }
  }

  method WeekBefore<T>(move: (T, int) -> T, c: T) returns (week: seq<T>)
    ensures week == WeekBack(move, c)
  {
    week := [];
    for i := 1 to 8
      invariant |week| == i - 1 && forall j :: 0 <= j < |week| ==> week[j] == move(c, j - |week|)
    {
      week := [move(c, -i)] + week;
    }
  }

  method WeekAfter<T>(move: (T, int) -> T, c: T) returns (week: seq<T>)
    ensures week == WeekAhead(move, c)
  {
    week := [];
    for i := 1 to 8
      invariant |week| == i - 1 && forall j :: 0 <= j < |week| ==> week[j] == move(c, j + 1)
    {
      week := week + [move(c, i)];
    }
  }

  // The cells before and after the dates of a month.
  function Head<T>(move: (T, int) -> T, dates: seq<T>, lead: nat): seq<T>
    requires dates != []
  {
    if lead == 0 then WeekBack(move, dates[0]) else Back(move, dates[0], lead)
  }

  function Tail<T>(move: (T, int) -> T, dates: seq<T>, lead: nat): seq<T>
    requires 28 <= |dates| <= 31 && lead < 7
  {
    var last := dates[|dates| - 1];
    var end := Ahead(move, last, Pad(lead + |dates|));
    end + if Rows(lead, lead + |dates|) < 6 then WeekAhead(move, if end == [] then last else end[|end| - 1]) else []
  }

  // All cells of the view.
  function View<T>(move: (T, int) -> T, dates: seq<T>, lead: nat): seq<T>
    requires 28 <= |dates| <= 31 && lead < 7
  {
    Head(move, dates, lead) + dates + Tail(move, dates, lead)
  }

  lemma FlatFirst<T>(weeks: seq<seq<T>>)
    requires weeks != []
    ensures Flat(weeks) == weeks[0] + Flat(weeks[1..])
  {
    FlatUnshift(weeks[0], weeks[1..]);
    assert weeks == [weeks[0]] + weeks[1..];
  }

  // Weeks that hold the cells up to the last date of the month.
  ghost predicate Headed<T>(move: (T, int) -> T, weeks: seq<seq<T>>, dates: seq<T>, lead: nat) {
    && 28 <= |dates| <= 31 && lead < 7 && 5 <= |weeks| == Rows(lead, lead + |dates|)
    && Flat(weeks) == Head(move, dates, lead) + dates
    && (forall w :: 0 <= w < |weeks| - 1 ==> |weeks[w]| == 7)
    && |weeks[|weeks| - 1]| == 7 - Pad(lead + |dates|)
  }

  lemma {:induction false} BackLength<T>(move: (T, int) -> T, c: T, k: nat)
    ensures |Back(move, c, k)| == k && (k > 0 ==> Back(move, c, k)[k - 1] == move(c, -1))
    decreases k
  {
    if k > 0 {
      BackLength(move, move(c, -1), k - 1);
    }
  }

  // Weeks that hold something at both ends.
  ghost predicate Ended<T>(weeks: seq<seq<T>>) {
    weeks != [] && weeks[0] != [] && weeks[|weeks| - 1] != []
  }

  // The first cell once the first week has been filled up.
  function FirstCell<T>(move: (T, int) -> T, week: seq<T>): T
    requires week != []
  {
    if |week| < 7 then BackLength(move, week[0], 7 - |week|); Back(move, week[0], 7 - |week|)[0] else move(week[0], -7)
  }

  lemma FrontHeaded<T>(move: (T, int) -> T, weeks: seq<seq<T>>, dates: seq<T>, lead: nat, r: seq<seq<T>>)
    requires Grouped(weeks, dates, lead)
    requires |weeks[0]| < 7 ==> r == [Back(move, weeks[0][0], 7 - |weeks[0]|) + weeks[0]] + weeks[1..]
    requires |weeks[0]| >= 7 ==> r == [WeekBack(move, weeks[0][0])] + weeks
    ensures Headed(move, r, dates, lead)
  {
    hide Back;
    FlatFirst(weeks);
    FlatFirst(r);
    BackLength(move, weeks[0][0], 7 - |weeks[0]|);
    assert weeks[0][0] == dates[0];
    if |weeks[0]| < 7 {
      assert r[1..] == weeks[1..];
      Reassociated(Back(move, dates[0], lead), weeks[0], Flat(weeks[1..]));
    } else {
      assert r[1..] == weeks;
    }
  }

  method FillFront<T>(move: (T, int) -> T, weeks: seq<seq<T>>, ghost dates: seq<T>, ghost lead: nat)
      returns (r: seq<seq<T>>)
    requires Ended(weeks)
    ensures Ended(r) && Flat(r) != [] && Flat(r)[0] == FirstCell(move, weeks[0])
    ensures Grouped(weeks, dates, lead) ==> Headed(move, r, dates, lead)
  {
    hide Flat, Back, Grouped, Headed;
    var week := weeks[0];
    BackLength(move, week[0], if |week| < 7 then 7 - |week| else 0);
    if |week| < 7 {
      week := FillHead(move, week);
      r := [week] + weeks[1..];
    } else {
      week := WeekBefore(move, week[0]);
      r := [week] + weeks;
    }
    FlatFirst(r);
    if Grouped(weeks, dates, lead) {
      FrontHeaded(move, weeks, dates, lead, r);
    }
  }

  lemma LastOf<T>(before: seq<T>, end: seq<T>, all: seq<T>)
    requires before != [] && all == before + end
    ensures all[|all| - 1] == if end == [] then before[|before| - 1] else end[|end| - 1]
  {
  }

  lemma LastCell<T>(weeks: seq<seq<T>>)
    requires weeks != [] && weeks[|weeks| - 1] != []
    ensures var all, week := Flat(weeks), weeks[|weeks| - 1]; all != [] && all[|all| - 1] == week[|week| - 1]
  {
  }

  // The last week filled up.
  ghost predicate LastFilled<T>(move: (T, int) -> T, weeks: seq<seq<T>>, r: seq<seq<T>>) {
    && |r| == |weeks| > 0 && 1 <= |weeks[|weeks| - 1]| <= 7 && r[..|r| - 1] == weeks[..|r| - 1]
    && r[|r| - 1] == weeks[|r| - 1] + Ahead(move, weeks[|r| - 1][|weeks[|r| - 1]| - 1], 7 - |weeks[|r| - 1]|)
  }

  lemma LastFilledFlat<T>(move: (T, int) -> T, weeks: seq<seq<T>>, r: seq<seq<T>>)
    requires weeks != [] && 1 <= |weeks[|weeks| - 1]| <= 7 && LastFilled(move, weeks, r)
    ensures var last := weeks[|weeks| - 1]; Flat(r) == Flat(weeks) + Ahead(move, last[|last| - 1], 7 - |last|)
  {
    hide Ahead;
    var n := |weeks| - 1;
    Reassociated(Flat(weeks[..n]), weeks[n], Ahead(move, weeks[n][|weeks[n]| - 1], 7 - |weeks[n]|));
  }

  // A week more after the last one, if there are fewer than six.
  ghost predicate SixFilled<T>(move: (T, int) -> T, weeks: seq<seq<T>>, r: seq<seq<T>>) {
    && weeks != [] && weeks[|weeks| - 1] != []
    && r == if |weeks| < 6 then weeks + [WeekAhead(move, weeks[|weeks| - 1][|weeks[|weeks| - 1]| - 1])] else weeks
  }

  lemma SixShape<T>(move: (T, int) -> T, weeks: seq<seq<T>>, dates: seq<T>, lead: nat,
                    filled: seq<seq<T>>, r: seq<seq<T>>)
    requires Headed(move, weeks, dates, lead) && LastFilled(move, weeks, filled) && SixFilled(move, filled, r)
    ensures |r| == 6 && (forall w :: 0 <= w < 6 ==> |r[w]| == 7)
  {
    hide Flat, Ahead, WeekAhead, Head;
    var n := |weeks| - 1;
    AheadLength(move, weeks[n][|weeks[n]| - 1], 7 - |weeks[n]|);
    assert forall w :: 0 <= w < n ==> filled[w] == filled[..n][w];
    WeekLength(move, filled[n][|filled[n]| - 1]);
  }

  lemma SixFlat<T>(move: (T, int) -> T, filled: seq<seq<T>>, r: seq<seq<T>>, before: seq<T>, end: seq<T>)
    requires SixFilled(move, filled, r) && Flat(filled) == before + end && before != []
    ensures var last := if end == [] then before[|before| - 1] else end[|end| - 1];
      Flat(r) == before + (end + if |filled| < 6 then WeekAhead(move, last) else [])
  {
    hide Flat, WeekAhead;
    var last := if end == [] then before[|before| - 1] else end[|end| - 1];
    if |filled| < 6 {
      LastCell(filled);
      LastOf(before, end, Flat(filled));
      FlatPush(filled, WeekAhead(move, last));
      Reassociated(before, end, WeekAhead(move, last));
    } else {
      assert end + [] == end;
    }
  }

  lemma BackFilled<T>(move: (T, int) -> T, weeks: seq<seq<T>>, dates: seq<T>, lead: nat, filled: seq<seq<T>>,
                      r: seq<seq<T>>)
    requires Headed(move, weeks, dates, lead) && LastFilled(move, weeks, filled) && SixFilled(move, filled, r)
    ensures |r| == 6 && (forall w :: 0 <= w < 6 ==> |r[w]| == 7)
    ensures Flat(r) == View(move, dates, lead)
  {
    hide Flat, Ahead, WeekAhead, Head, LastFilled, SixFilled;
    SixShape(move, weeks, dates, lead, filled, r);
    var before, last := Head(move, dates, lead) + dates, dates[|dates| - 1];
    LastCell(weeks);
    LastFilledFlat(move, weeks, filled);
    FilledLength(move, weeks, filled);
    SixFlat(move, filled, r, before, Ahead(move, last, Pad(lead + |dates|)));
  }

  lemma FilledLength<T>(move: (T, int) -> T, weeks: seq<seq<T>>, filled: seq<seq<T>>)
    requires LastFilled(move, weeks, filled)
    ensures |filled| == |weeks|
  {
  }

  lemma WeekLength<T>(move: (T, int) -> T, c: T)
    ensures |WeekAhead(move, c)| == 7
  {
  }

  lemma {:induction false} AheadLength<T>(move: (T, int) -> T, c: T, k: nat)
    ensures |Ahead(move, c, k)| == k
    decreases k
  {
    if k > 0 {
      AheadLength(move, move(c, 1), k - 1);
    }
  }

  // Filling up at the end leaves the first cell.
  lemma SameFirst<T>(weeks: seq<seq<T>>, r: seq<seq<T>>)
    requires Ended(weeks) && |r| >= |weeks| && weeks[0] <= r[0]
    ensures Flat(weeks) != [] && Flat(r) != [] && Flat(r)[0] == Flat(weeks)[0]
  {
    hide Flat;
    FlatFirst(weeks);
    FlatFirst(r);
  }

  method FillBack<T>(move: (T, int) -> T, weeks: seq<seq<T>>, ghost dates: seq<T>, ghost lead: nat)
      returns (r: seq<seq<T>>)
    requires Ended(weeks)
    ensures Flat(weeks) != [] && Flat(r) != [] && Flat(r)[0] == Flat(weeks)[0]
    ensures Headed(move, weeks, dates, lead) ==> |r| == 6 && forall w :: 0 <= w < 6 ==> |r[w]| == 7
    ensures Headed(move, weeks, dates, lead) ==> Flat(r) == View(move, dates, lead)
  {
    hide Flat, Headed, View, Ahead, WeekAhead;
    var week := FillTail(move, weeks[|weeks| - 1]);
    r := weeks[..|weeks| - 1] + [week];
    ghost var filled := r;
    if |r| < 6 {
      var extra := WeekAfter(move, week[|week| - 1]);
      r := r + [extra];
    }
    SameFirst(weeks, r);
    if Headed(move, weeks, dates, lead) {
      LastShort(move, weeks, dates, lead);
      BackFilled(move, weeks, dates, lead, filled, r);
    }
  }

  lemma LastShort<T>(move: (T, int) -> T, weeks: seq<seq<T>>, dates: seq<T>, lead: nat)
    requires Headed(move, weeks, dates, lead)
    ensures 1 <= |weeks[|weeks| - 1]| <= 7
  {
  }

  // ---------------------------------------------------------------- what the cells show

  // The n values from a day on.
  ghost function Run<T>(date: int -> T, day: int, n: nat): (r: seq<T>)
    ensures |r| == n
  {
    seq(n, i => date(day + i))
  }

  lemma RunIs<T>(date: int -> T, day: int, cells: seq<T>)
    requires forall i :: 0 <= i < |cells| ==> cells[i] == date(day + i)
    ensures cells == Run(date, day, |cells|)
  {
  }

  lemma RunAt<T>(date: int -> T, day: int, n: nat, i: nat)
    requires i < n
    ensures Run(date, day, n)[i] == date(day + i)
  {
  }

  lemma RunConcat<T>(date: int -> T, day: int, n: nat, k: nat)
    ensures Run(date, day, n) + Run(date, day + n, k) == Run(date, day, n + k)
  {
  }

  // Stepping n days from a day is right.
  ghost predicate Step<T>(move: (T, int) -> T, date: int -> T, day: int, n: int) {
    move(date(day), n) == date(day + n)
  }

  // Stepping is right from the days of an interval to those of a view.
  ghost predicate Steps<T>(move: (T, int) -> T, date: int -> T, from: int, to: int, low: int, high: int) {
    forall d, n :: from <= d < to && low <= d + n < high ==> Step(move, date, d, n)
  }

  lemma {:induction false} BackRun<T>(move: (T, int) -> T, date: int -> T, day: int, k: nat, low: int, high: int)
    requires Steps(move, date, day - k + 1, day + 1, low, high) && low <= day - k && day <= high
    ensures Back(move, date(day), k) == Run(date, day - k, k)
    decreases k
  {
    if k > 0 {
      assert Step(move, date, day, -1);
      BackRun(move, date, day - 1, k - 1, low, high);
      RunConcat(date, day - k, k - 1, 1);
      assert Run(date, day - 1, 1) == [date(day - 1)];
    }
  }

  lemma {:induction false} AheadRun<T>(move: (T, int) -> T, date: int -> T, day: int, k: nat, low: int, high: int)
    requires Steps(move, date, day, day + k, low, high) && low <= day + 1 && day + k < high
    ensures Ahead(move, date(day), k) == Run(date, day + 1, k)
    decreases k
  {
    if k > 0 {
      assert Step(move, date, day, 1);
      AheadRun(move, date, day + 1, k - 1, low, high);
      RunConcat(date, day + 1, 1, k - 1);
      assert Run(date, day + 1, 1) == [date(day + 1)];
    }
  }

  lemma WeekBackRun<T>(move: (T, int) -> T, date: int -> T, day: int, low: int, high: int)
    requires Steps(move, date, day, day + 1, low, high) && low <= day - 7 && day <= high
    ensures WeekBack(move, date(day)) == Run(date, day - 7, 7)
  {
    var p, q := WeekBack(move, date(day)), Run(date, day - 7, 7);
    forall i | 0 <= i < 7
      ensures p[i] == q[i]
    {
      assert Step(move, date, day, i - 7);
    }
  }

  lemma WeekAheadRun<T>(move: (T, int) -> T, date: int -> T, day: int, low: int, high: int)
    requires Steps(move, date, day, day + 1, low, high) && low <= day + 1 && day + 7 < high
    ensures WeekAhead(move, date(day)) == Run(date, day + 1, 7)
  {
    var p, q := WeekAhead(move, date(day)), Run(date, day + 1, 7);
    forall i | 0 <= i < 7
      ensures p[i] == q[i]
    {
      assert Step(move, date, day, i + 1);
    }
  }

  // The days of the view before the first of the month.
  function Front(lead: nat): nat {
    if lead == 0 then 7 else lead
  }

  lemma HeadRun<T>(move: (T, int) -> T, date: int -> T, day: int, n: nat, lead: nat, low: int, high: int)
    requires n > 0
    requires Steps(move, date, day - lead + 1, day + 1, low, high) && Steps(move, date, day, day + 1, low, high)
    requires low <= day - Front(lead) && day <= high
    ensures Head(move, Run(date, day, n), lead) == Run(date, day - Front(lead), Front(lead))
  {
    if lead == 0 {
      WeekBackRun(move, date, day, low, high);
    } else {
      BackRun(move, date, day, lead, low, high);
    }
  }

  // How far past the last of the month later cells are computed from.
  function Reach(lead: nat, n: nat): nat
    requires 28 <= n <= 31 && lead < 7
  {
    if Rows(lead, lead + n) < 6 then Pad(lead + n) + 1 else Pad(lead + n)
  }

  lemma TailRun<T>(move: (T, int) -> T, date: int -> T, day: int, n: nat, lead: nat, low: int, high: int)
    requires 28 <= n <= 31 && lead < 7
    requires Steps(move, date, day + n - 1, day + n - 1 + Reach(lead, n), low, high)
    requires low <= day + n && day - Front(lead) + 42 <= high
    ensures Tail(move, Run(date, day, n), lead) == Run(date, day + n, 42 - n - Front(lead))
  {
    var pad, last := Pad(lead + n), day + n - 1;
    AheadRun(move, date, last, pad, low, high);
    if Rows(lead, lead + n) < 6 {
      WeekAheadRun(move, date, last + pad, low, high);
      RunConcat(date, last + 1, pad, 7);
    }
  }

  // Stepping is right from every cell that another one is computed from.
  ghost predicate Safe<T>(move: (T, int) -> T, date: int -> T, day: int, n: nat, lead: nat)
    requires 28 <= n <= 31 && lead < 7
  {
    var low, high := day - Front(lead), day - Front(lead) + 42;
    && Steps(move, date, day - lead + 1, day + 1, low, high) && Steps(move, date, day, day + 1, low, high)
    && Steps(move, date, day + n - 1, day + n - 1 + Reach(lead, n), low, high)
  }

  // Then the view is six weeks of consecutive days.
  lemma ViewRun<T>(move: (T, int) -> T, date: int -> T, day: int, n: nat, lead: nat, cells: seq<T>, from: int)
    requires 28 <= n <= 31 && lead < 7 && Safe(move, date, day, n, lead)
    requires cells == View(move, Run(date, day, n), lead) && from == day - Front(lead)
    ensures cells == Run(date, from, 42)
  {
    hide Run, Steps, Head, Tail;
    HeadRun(move, date, day, n, lead, from, from + 42);
    TailRun(move, date, day, n, lead, from, from + 42);
    RunConcat(date, from, Front(lead), n);
    RunConcat(date, from, Front(lead) + n, 42 - n - Front(lead));
  }

  // ---------------------------------------------------------------- cells next to the month

  lemma HeadLast<T>(move: (T, int) -> T, dates: seq<T>, lead: nat)
    requires dates != []
    ensures var head := Head(move, dates, lead); |head| == Front(lead) && head[|head| - 1] == move(dates[0], -1)
    ensures lead >= 2 ==> Head(move, dates, lead)[lead - 2] == move(move(dates[0], -1), -1)
  {
    BackLength(move, dates[0], lead);
    if lead >= 2 {
      BackLength(move, move(dates[0], -1), lead - 1);
    }
  }

  lemma TailFirst<T>(move: (T, int) -> T, dates: seq<T>, lead: nat)
    requires 28 <= |dates| <= 31 && lead < 7 && Reach(lead, |dates|) >= 2
    ensures var c, tail := move(dates[|dates| - 1], 1), Tail(move, dates, lead);
      |tail| >= 2 && tail[0] == c && tail[1] == move(c, 1)
  {
    var last, pad := dates[|dates| - 1], Pad(lead + |dates|);
    var end := Ahead(move, last, pad);
    assert end == [move(last, 1)] + Ahead(move, move(last, 1), pad - 1);
    if pad == 1 {
      assert end == [move(last, 1)];
      assert WeekAhead(move, end[0])[0] == move(end[0], 1);
    }
  }

  // The cells of the view around the first and the last of the month.
  lemma AroundFirst<T>(move: (T, int) -> T, dates: seq<T>, lead: nat, cells: seq<T>)
    requires 28 <= |dates| <= 31 && lead < 7 && cells == View(move, dates, lead)
    ensures var p := Front(lead);
      && p < |cells| && cells[p] == dates[0] && cells[p - 1] == move(dates[0], -1)
      && (lead >= 2 ==> cells[p - 2] == move(move(dates[0], -1), -1))
  {
    HeadLast(move, dates, lead);
  }

  lemma AroundLast<T>(move: (T, int) -> T, dates: seq<T>, lead: nat, cells: seq<T>)
    requires 28 <= |dates| <= 31 && lead < 7 && cells == View(move, dates, lead) && Reach(lead, |dates|) >= 2
    ensures var p, last := Front(lead) + |dates| - 1, dates[|dates| - 1];
      && p + 2 < |cells| && cells[p] == last && cells[p + 1] == move(last, 1)
      && cells[p + 2] == move(move(last, 1), 1)
  {
    HeadLast(move, dates, lead);
    TailFirst(move, dates, lead);
  }

  // ---------------------------------------------------------------- where stepping goes wrong

  ghost predicate Apart<T>(date: int -> T, d: int, e: int) {
    date(d) == date(e) ==> d == e
  }

  ghost predicate Hits<T>(move: (T, int) -> T, date: int -> T, c: T, n: int, e: int) {
    move(c, n) == date(e)
  }

  // Days have dates of their own; stepping is right from all days but the bad ones,
  // and never arrives at a day out of reach.
  ghost predicate RightBut<T(!new)>(move: (T, int) -> T, date: int -> T, bad: int -> bool, ok: int -> bool) {
    && (forall d, e :: Apart(date, d, e))
    && (forall d, n :: Step(move, date, d, n) <==> !bad(d) && ok(d + n))
    && forall c, n, e :: Hits(move, date, c, n, e) ==> ok(e)
  }

  lemma StepLands<T>(move: (T, int) -> T, date: int -> T, d: int, n: int, moved: int)
    requires move(date(d), n) == date(moved) && Apart(date, moved, d + n)
    ensures Step(move, date, d, n) <==> moved == d + n
  {
  }

  lemma OneCell<T>(date: int -> T, from: int, cells: seq<T>, j: nat, k: nat)
    requires cells == Run(date, from, |cells|) && j < |cells| && k < |cells| && cells[j] == cells[k]
    requires Apart(date, from + j, from + k)
    ensures j == k
  {
  }

  lemma ReachBound(lead: nat, n: nat)
    requires 28 <= n <= 31 && lead < 7
    ensures Reach(lead, n) <= 7
  {
  }

  // A step from a bad day never lands on a neighbouring cell of a right view.
  lemma OneStep<T(!new)>(move: (T, int) -> T, date: int -> T, bad: int -> bool, ok: int -> bool, cells: seq<T>,
                         from: int, p: nat, q: nat, day: int, n: int)
    requires RightBut(move, date, bad, ok) && cells == Run(date, from, |cells|)
    requires p < |cells| && q < |cells| && q == p + n && cells[p] == date(day) && cells[q] == move(date(day), n)
    ensures !bad(day)
  {
    assert Apart(date, from + p, day);
    assert Step(move, date, day, n);
  }

  // Nor does a second step.
  lemma TwoSteps<T(!new)>(move: (T, int) -> T, date: int -> T, bad: int -> bool, ok: int -> bool, cells: seq<T>,
                          from: int, p: nat, q: nat, day: int, n: int)
    requires RightBut(move, date, bad, ok) && cells == Run(date, from, |cells|)
    requires p < |cells| && q < |cells| && 0 <= p + n < |cells| && q == p + n + n && cells[p] == date(day)
    requires cells[p + n] == move(date(day), n) && cells[q] == move(move(date(day), n), n)
    ensures !bad(day + n)
  {
    assert Apart(date, from + p, day);
    assert Step(move, date, day + n, n);
  }

  // A month that starts on a bad day is never shown right.
  lemma BadFirst<T(!new)>(move: (T, int) -> T, date: int -> T, bad: int -> bool, ok: int -> bool, dates: seq<T>,
                          lead: nat, cells: seq<T>, day: int, from: int)
    requires RightBut(move, date, bad, ok) && 28 <= |dates| <= 31 && lead < 7 && cells == View(move, dates, lead)
    requires dates[0] == date(day) && bad(day)
    ensures cells != Run(date, from, |cells|)
  {
    AroundFirst(move, dates, lead, cells);
    if cells == Run(date, from, |cells|) {
      OneStep(move, date, bad, ok, cells, from, Front(lead), Front(lead) - 1, day, -1);
    }
  }

  // Nor is one with two days or more to fill in before it, when the day before it is bad ...
  lemma BadBefore<T(!new)>(move: (T, int) -> T, date: int -> T, bad: int -> bool, ok: int -> bool, n: nat, lead: nat,
                           cells: seq<T>, day: int, from: int)
    requires RightBut(move, date, bad, ok) && 28 <= n <= 31 && 2 <= lead < 7
    requires cells == View(move, Run(date, day, n), lead) && bad(day - 1)
    ensures cells != Run(date, from, |cells|)
  {
    AroundFirst(move, Run(date, day, n), lead, cells);
    if cells == Run(date, from, |cells|) {
      TwoSteps(move, date, bad, ok, cells, from, lead, lead - 2, day, -1);
    }
  }

  // ... or with two days or more to compute after it, when the day after it is bad.
  lemma BadAfter<T(!new)>(move: (T, int) -> T, date: int -> T, bad: int -> bool, ok: int -> bool, n: nat, lead: nat,
                          cells: seq<T>, day: int, from: int)
    requires RightBut(move, date, bad, ok) && 28 <= n <= 31 && lead < 7
    requires cells == View(move, Run(date, day, n), lead) && Reach(lead, n) >= 2 && bad(day + n)
    ensures cells != Run(date, from, |cells|)
  {
    AroundLast(move, Run(date, day, n), lead, cells);
    if cells == Run(date, from, |cells|) {
      var p := Front(lead) + n - 1;
      TwoSteps(move, date, bad, ok, cells, from, p, p + 2, day + n - 1, 1);
    }
  }

  // The first and the last cell of the view are computed from another one.
  lemma {:induction false} BackFirst<T>(move: (T, int) -> T, c: T, k: nat) returns (d: T)
    requires k > 0
    ensures |Back(move, c, k)| == k && Back(move, c, k)[0] == move(d, -1)
    decreases k
  {
    BackLength(move, c, k);
    if k == 1 {
      d := c;
    } else {
      BackLength(move, move(c, -1), k - 1);
      d := BackFirst(move, move(c, -1), k - 1);
    }
  }

  lemma {:induction false} AheadLast<T>(move: (T, int) -> T, c: T, k: nat) returns (d: T)
    requires k > 0
    ensures |Ahead(move, c, k)| == k && Ahead(move, c, k)[k - 1] == move(d, 1)
    decreases k
  {
    AheadLength(move, c, k);
    if k == 1 {
      d := c;
    } else {
      d := AheadLast(move, move(c, 1), k - 1);
    }
  }

  lemma HeadComputed<T>(move: (T, int) -> T, dates: seq<T>, lead: nat, cells: seq<T>) returns (d: T, n: int)
    requires 28 <= |dates| <= 31 && lead < 7 && cells == View(move, dates, lead)
    ensures cells != [] && cells[0] == move(d, n)
  {
    hide Tail, Back;
    if lead == 0 {
      d, n := dates[0], -7;
    } else {
      d := BackFirst(move, dates[0], lead);
      n := -1;
    }
  }

  lemma TailComputed<T>(move: (T, int) -> T, dates: seq<T>, lead: nat, cells: seq<T>) returns (d: T, n: int)
    requires 28 <= |dates| <= 31 && lead < 7 && cells == View(move, dates, lead)
    ensures |cells| == 42 && cells[41] == move(d, n)
  {
    hide Ahead, Back, Head;
    var last, pad := dates[|dates| - 1], Pad(lead + |dates|);
    var end := Ahead(move, last, pad);
    HeadLast(move, dates, lead);
    AheadLength(move, last, pad);
    if Rows(lead, lead + |dates|) < 6 {
      d, n := if end == [] then last else end[|end| - 1], 7;
      assert WeekAhead(move, d)[6] == move(d, 7);
    } else {
      d := AheadLast(move, last, pad);
      n := 1;
    }
  }

  // A right view lies within reach.
  lemma InReach<T(!new)>(move: (T, int) -> T, date: int -> T, bad: int -> bool, ok: int -> bool, dates: seq<T>,
                         lead: nat, cells: seq<T>, from: int)
    requires RightBut(move, date, bad, ok) && 28 <= |dates| <= 31 && lead < 7 && cells == View(move, dates, lead)
    requires cells == Run(date, from, |cells|)
    ensures ok(from) && ok(from + 41)
  {
    var c, m := HeadComputed(move, dates, lead, cells);
    assert Hits(move, date, c, m, from);
    var d, n := TailComputed(move, dates, lead, cells);
    assert Hits(move, date, d, n, from + 41);
  }
}
