// Fitting the columns of a grid to its width: the free width is handed out in
// proportion, truncated, and what truncation leaves goes to the last column.

module FitColumns {
  // a / b towards zero, as parseInt cuts an exact quotient.
  function Trunc(a: int, b: int): int
    requires b != 0
  {
    if (a < 0) == (b < 0) then Whole(Abs(a), Abs(b)) else -Whole(Abs(a), Abs(b))
  }

  function Abs(a: int): nat {
    if a < 0 then -a else a
  }

  function Whole(a: nat, b: nat): int
    requires b > 0
  {
    a / b
  }

  lemma WholeRest(a: nat, b: nat)
    requires b > 0
    ensures 0 <= a - b * Whole(a, b) < b
  {
  }

  // Truncation loses less than one.
  lemma TruncRest(a: int, b: int)
    requires b != 0
    ensures Abs(a - b * Trunc(a, b)) < Abs(b)
  {
    var q := Whole(Abs(a), Abs(b));
    WholeRest(Abs(a), Abs(b));
    if a < 0 && b < 0 {
      assert a - b * q == -(Abs(a) - Abs(b) * q);
    } else if b < 0 {
      assert a - b * -q == Abs(a) - Abs(b) * q;
    } else if a < 0 {
      assert a - b * -q == -(Abs(a) - Abs(b) * q);
    }
  }

  function Sum(a: seq<int>): int {
    if a == [] then 0 else Sum(a[..|a| - 1]) + a[|a| - 1]
  }

  // The share of each column of a width free.
  function Shares(widths: seq<int>, free: int, all: int): (r: seq<int>)
    requires all != 0
    ensures |r| == |widths|
  {
    seq(|widths|, i requires 0 <= i < |widths| => Trunc(widths[i] * free, all))
  }

  // What truncation leaves over of a width free.
  function Rest(widths: seq<int>, free: int): int {
    if Sum(widths) == 0 then free else free - Sum(Shares(widths, free, Sum(widths)))
  }

  // The adjustments handed out: the last column also takes the new remainder and
  // gives back the one of the time before.
  function Adjusted(widths: seq<int>, spare: int, left: int): (r: seq<int>)
    requires Sum(widths) != 0
    ensures |r| == |widths| > 0
  {
    var free := spare + left;
    var shares := Shares(widths, free, Sum(widths));
    shares[|shares| - 1 := shares[|shares| - 1] - left + Rest(widths, free)]
  }

  lemma {:induction false} SumUpdate(a: seq<int>, i: nat, x: int)
    requires i < |a|
    ensures Sum(a[i := x]) == Sum(a) - a[i] + x
  {
    if i == |a| - 1 {
      assert a[i := x][..i] == a[..i];
    } else {
      assert a[i := x][..|a| - 1] == a[..|a| - 1][i := x];
      SumUpdate(a[..|a| - 1], i, x);
    }
  }

  // The adjustments add up to the width to spare, whatever is truncated.
  lemma AdjustedSum(widths: seq<int>, spare: int, left: int)
    requires Sum(widths) != 0
    ensures Sum(Adjusted(widths, spare, left)) == spare
  {
    var free := spare + left;
    var shares := Shares(widths, free, Sum(widths));
    SumUpdate(shares, |shares| - 1, shares[|shares| - 1] - left + Rest(widths, free));
  }

  // add is width / all of a width free, less what is cut off towards zero.
  ghost predicate CutShare(add: int, width: int, free: int, all: int) {
    && Abs(width * free - all * add) < Abs(all)
    && Abs(all * add) <= Abs(width * free)
  }

  lemma TruncCuts(a: int, b: int)
    requires b != 0
    ensures Abs(a - b * Trunc(a, b)) < Abs(b) && Abs(b * Trunc(a, b)) <= Abs(a)
  {
    TruncRest(a, b);
    var q := Whole(Abs(a), Abs(b));
    WholeRest(Abs(a), Abs(b));
    WholeNat(Abs(a), Abs(b));
    hide Whole;
    TimesSize(b, q, Trunc(a, b));
  }

  lemma WholeNat(a: nat, b: nat)
    requires b > 0
    ensures Whole(a, b) >= 0
  {
  }

  lemma TimesSize(b: int, q: int, t: int)
    requires q >= 0 && (t == q || t == -q)
    ensures Abs(b * t) == Abs(b) * q
  {
    if b < 0 {
      assert b * q == -(-b * q) && -b * q >= 0;
    } else {
      assert b * q >= 0;
    }
    assert b * -q == -(b * q);
  }

  // Every column but the last gets the share of its own width; the last takes the rest.
  lemma AdjustedShares(widths: seq<int>, spare: int, left: int)
    requires Sum(widths) != 0
    ensures var adds := Adjusted(widths, spare, left);
      && Sum(adds) == spare
      && forall i :: 0 <= i < |adds| - 1 ==> CutShare(adds[i], widths[i], spare + left, Sum(widths))
  {
    hide Trunc, Sum;
    AdjustedSum(widths, spare, left);
    var adds := Adjusted(widths, spare, left);
    forall i | 0 <= i < |adds| - 1
      ensures CutShare(adds[i], widths[i], spare + left, Sum(widths))
    {
      TruncCuts(widths[i] * (spare + left), Sum(widths));
    }
  }

  // What truncation loses in all, times all.
  function Loss(widths: seq<int>, free: int, all: int): int
    requires all != 0
  {
    if widths == [] then 0
    else
      var n := |widths| - 1;
      Loss(widths[..n], free, all) + (widths[n] * free - all * Trunc(widths[n] * free, all))
  }

  lemma Combine(s: int, w: int, free: int, all: int, g: int, t: int)
    ensures (s * free - all * g) + (w * free - all * t) == (s + w) * free - all * (g + t)
  {
  }

  lemma SumLast(a: seq<int>, n: nat)
    requires |a| == n + 1
    ensures Sum(a) == Sum(a[..n]) + a[n]
  {
  }

  lemma {:induction false} LossIs(widths: seq<int>, free: int, all: int)
    requires all != 0
    ensures Loss(widths, free, all) == Sum(widths) * free - all * Sum(Shares(widths, free, all))
  {
    if widths != [] {
      hide Trunc, Sum;
      var n, shares := |widths| - 1, Shares(widths, free, all);
      LossIs(widths[..n], free, all);
      assert shares[..n] == Shares(widths[..n], free, all);
      SumLast(widths, n);
      SumLast(shares, n);
      Combine(Sum(widths[..n]), widths[n], free, all, Sum(shares[..n]), Trunc(widths[n] * free, all));
    } else {
      NoLoss(free, all);
    }
  }

  lemma NoLoss(free: int, all: int)
    requires all != 0
    ensures Sum([]) == 0 && Sum(Shares([], free, all)) == 0 && Loss([], free, all) == 0
  {
  }

  lemma AbsSum(x: int, y: int, a: int, b: int)
    requires Abs(x) <= a && Abs(y) < b
    ensures Abs(x + y) < a + b
  {
  }

  lemma OneMore(n: nat, a: nat)
    ensures (n + 1) * a == n * a + a
  {
  }

  lemma {:induction false} LossSmall(widths: seq<int>, free: int, all: int)
    requires all != 0
    ensures Abs(Loss(widths, free, all)) <= |widths| * Abs(all)
    ensures widths != [] ==> Abs(Loss(widths, free, all)) < |widths| * Abs(all)
  {
    if widths != [] {
      hide Trunc, Abs;
      var n := |widths| - 1;
      LossSmall(widths[..n], free, all);
      TruncRest(widths[n] * free, all);
      AbsSum(Loss(widths[..n], free, all), widths[n] * free - all * Trunc(widths[n] * free, all),
             n * Abs(all), Abs(all));
      OneMore(n, Abs(all));
    }
  }

  // The remainder carried to the next time is smaller than the number of columns.
  lemma RestSmall(widths: seq<int>, free: int)
    requires Sum(widths) != 0
    ensures Abs(Rest(widths, free)) < |widths|
  {
    hide Sum, Shares, Trunc;
    var all, given := Sum(widths), Sum(Shares(widths, free, Sum(widths)));
    SumNotEmpty(widths);
    LossIs(widths, free, all);
    LossSmall(widths, free, all);
    Factor(all, free, given);
    SmallFactor(free - given, all, |widths|);
  }

  lemma Factor(all: int, free: int, given: int)
    ensures all * free - all * given == (free - given) * all
  {
  }

  lemma SumNotEmpty(widths: seq<int>)
    requires Sum(widths) != 0
    ensures widths != []
  {
  }

  lemma SmallFactor(r: int, all: int, n: nat)
    requires Abs(r * all) < n * Abs(all)
    ensures Abs(r) < n
  {
    ProductAbs(r, all);
    if Abs(r) >= n {
      Monotone(n, Abs(r), Abs(all));
    }
  }

  lemma Monotone(n: nat, m: nat, a: nat)
    requires n <= m
    ensures n * a <= m * a
  {
  }

  lemma ProductAbs(a: int, b: int)
    ensures Abs(a * b) == Abs(a) * Abs(b)
  {
    if a < 0 && b < 0 {
      assert a * b == Abs(a) * Abs(b);
    } else if a < 0 || b < 0 {
      assert a * b == -(Abs(a) * Abs(b));
    }
  }

  // An adjustment that would leave no width is refused.
  function Grown(size: int, box: int, add: int): int {
    if box + add > 0 then size + add else size
  }

  // What the refusing columns were to get.
  function Refused(boxes: seq<int>, adds: seq<int>): int
    requires |boxes| == |adds|
  {
    if adds == [] then 0
    else
      var n := |adds| - 1;
      Refused(boxes[..n], adds[..n]) + if boxes[n] + adds[n] > 0 then 0 else adds[n]
  }

  method Total(widths: array<int>) returns (all: int)
    ensures all == Sum(widths[..])
  {
    all := 0;
    for i := 0 to widths.Length
      invariant all == Sum(widths[..i])
    {
      assert widths[..i + 1][..i] == widths[..i];
      all := all + widths[i];
    }
    assert widths[..widths.Length] == widths[..];
  }

  class Fitter {
    var left: int

    constructor ()
      ensures left == 0
    {
      left := 0;
    }

    // Hand the width to spare out and carry over what is left.
    method HandOut(widths: array<int>, spare: int) returns (adds: array<int>)
      requires Sum(widths[..]) != 0
      modifies this
      ensures fresh(adds) && adds[..] == Adjusted(widths[..], spare, old(left))
      ensures left == Rest(widths[..], spare + old(left))
      ensures adds.Length == widths.Length && Sum(adds[..]) == spare
      ensures forall i :: 0 <= i < widths.Length - 1 ==>
        CutShare(adds[i], widths[i], spare + old(left), Sum(widths[..]))
    {
      hide Trunc, Sum, CutShare;
      AdjustedShares(widths[..], spare, left);
      var n := widths.Length;
      SumNotEmpty(widths[..]);
      var all := Total(widths);
      adds := new int[n](i => 0);
      adds[n - 1] := adds[n - 1] - left;
      var free := spare + left;
      var rest := free;
      ghost var shares := Shares(widths[..], free, all);
      NoLoss(free, all);
      for i := 0 to n
        invariant rest == free - Sum(shares[..i]) && left == old(left)
        invariant forall k :: 0 <= k < n ==>
          adds[k] == (if k < i then shares[k] else 0) - if k == n - 1 then left else 0
      {
        assert shares[..i + 1][..i] == shares[..i];
        SumLast(shares[..i + 1], i);
        var share := Trunc(widths[i] * free, all);
        adds[i] := adds[i] + share;
        rest := rest - share;
      }
      assert shares[..n] == shares;
      adds[n - 1] := adds[n - 1] + rest;
      assert rest == Rest(widths[..], free);
      assert adds[..] == shares[n - 1 := shares[n - 1] - left + rest];
      left := rest;
    }

    // spare: the header's width less the table's and the scroll bar's.
    method Fit(widths: array<int>, boxes: array<int>, spare: int)
      requires widths.Length == boxes.Length && widths != boxes
      modifies this, widths, boxes
      ensures Sum(old(widths[..])) == 0 ==>
        left == old(left) && widths[..] == old(widths[..]) && boxes[..] == old(boxes[..])
      ensures Sum(old(widths[..])) != 0 ==> left == Rest(old(widths[..]), spare + old(left))
      ensures Sum(old(widths[..])) != 0 ==> forall i :: 0 <= i < widths.Length ==>
        && widths[i] == Grown(old(widths[i]), old(boxes[i]), Adjusted(old(widths[..]), spare, old(left))[i])
        && boxes[i] == Grown(old(boxes[i]), old(boxes[i]), Adjusted(old(widths[..]), spare, old(left))[i])
      ensures Sum(old(widths[..])) != 0 ==> forall i :: 0 <= i < widths.Length ==>
        var add := Adjusted(old(widths[..]), spare, old(left))[i];
        if old(boxes[i]) + add > 0 then boxes[i] == old(boxes[i]) + add && widths[i] == old(widths[i]) + add
        else boxes[i] == old(boxes[i]) && widths[i] == old(widths[i])
    {
      hide Adjusted, Rest, Sum;
      var all := Total(widths);
      if all == 0 {
        return;
      }
      var adds := HandOut(widths, spare);
      ghost var given := adds[..];
      assert given == Adjusted(old(widths[..]), spare, old(left));
      for i := 0 to widths.Length
        invariant adds[..] == given && left == Rest(old(widths[..]), spare + old(left))
        invariant forall k :: i <= k < widths.Length ==> widths[k] == old(widths[k]) && boxes[k] == old(boxes[k])
        invariant forall k :: 0 <= k < i ==>
          && widths[k] == Grown(old(widths[k]), old(boxes[k]), given[k])
          && boxes[k] == Grown(old(boxes[k]), old(boxes[k]), given[k])
      {
        if boxes[i] + adds[i] > 0 {
          boxes[i] := boxes[i] + adds[i];
          widths[i] := widths[i] + adds[i];
        }
      }
    }
  }

  lemma {:induction false} SumGrown(a: seq<int>, b: seq<int>, adds: seq<int>)
    requires |a| == |adds| == |b| && forall i :: 0 <= i < |a| ==> b[i] == Grown(a[i], a[i], adds[i])
    ensures Sum(b) == Sum(a) + Sum(adds) - Refused(a, adds)
  {
    if a != [] {
      var n := |a| - 1;
      SumGrown(a[..n], b[..n], adds[..n]);
    }
  }

  // The boxes grow by the width to spare less what is refused, and fitting again to
  // the same width hands out just that: the columns fill the width, and fitting again
  // changes the total by nothing, exactly when what is refused adds up to nothing.
  lemma FitsThenRests(widths: seq<int>, boxes: seq<int>, spare: int, left: int, after: seq<int>, grown: seq<int>)
    requires Sum(widths) != 0 && |boxes| == |widths| == |after| == |grown|
    requires forall i :: 0 <= i < |boxes| ==>
      after[i] == Grown(boxes[i], boxes[i], Adjusted(widths, spare, left)[i])
      && grown[i] == Grown(widths[i], boxes[i], Adjusted(widths, spare, left)[i])
    requires Sum(grown) != 0
    ensures var refused := Refused(boxes, Adjusted(widths, spare, left));
      && Sum(after) == Sum(boxes) + spare - refused
      && Sum(Adjusted(grown, spare - (Sum(after) - Sum(boxes)), Rest(widths, spare + left))) == refused
  {
    hide Adjusted, Rest, Grown;
    AdjustedSum(widths, spare, left);
    SumGrown(boxes, after, Adjusted(widths, spare, left));
    AdjustedSum(grown, spare - (Sum(after) - Sum(boxes)), Rest(widths, spare + left));
  }
}
