// A property grid's groups while rows are deleted and inserted.

module GroupView {
  import opened Common
  import opened Grouping

  // ---------------------------------------------------------------- one group changed

  lemma {:induction false} FlatConcat(p: seq<Group>, q: seq<Group>)
    ensures Flat(p + q) == Flat(p) + Flat(q)
  {
    if q == [] {
      assert p + q == p;
    } else {
      assert (p + q)[..|p + q| - 1] == p + q[..|q| - 1];
      FlatConcat(p, q[..|q| - 1]);
    }
  }

  lemma FlatOne(g: Group)
    ensures Flat([g]) == g.rows
  {
    assert [g][..0] == [];
  }

  // The rows before, in and after a group.
  lemma FlatAround(p: seq<Group>, g: Group, q: seq<Group>)
    ensures Flat(p + [g] + q) == Flat(p) + g.rows + Flat(q)
  {
    hide Flat;
    FlatConcat(p + [g], q);
    FlatConcat(p, [g]);
    FlatOne(g);
  }

  lemma CutAt<T>(s: seq<T>, i: nat)
    requires i < |s|
    ensures s == s[..i] + [s[i]] + s[i + 1..]
  {
  }

  lemma Around(groups: seq<Group>, i: nat)
    requires i < |groups|
    ensures Flat(groups) == Flat(groups[..i]) + groups[i].rows + Flat(groups[i + 1..])
  {
    hide Flat;
    FlatAround(groups[..i], groups[i], groups[i + 1..]);
    CutAt(groups, i);
  }

  // A row is cut out of, or put into, the part of its group.
  lemma CutInside<T>(x: seq<T>, g: seq<T>, z: seq<T>, d: nat)
    requires |x| <= d < |x| + |g|
    ensures var all, k := x + g + z, d - |x|; all[..d] + all[d + 1..] == x + (g[..k] + g[k + 1..]) + z
  {
  }

  lemma PutInside<T>(x: seq<T>, g: seq<T>, z: seq<T>, d: nat, row: T)
    requires |x| <= d <= |x| + |g|
    ensures var all, k := x + g + z, d - |x|; all[..d] + [row] + all[d..] == x + (g[..k] + [row] + g[k..]) + z
  {
  }

  // ---------------------------------------------------------------- stale starts

  // No group starts after the end of the rows before it; an insert leaves the groups
  // after its own starting too early.
  ghost predicate Behind(groups: seq<Group>) {
    forall i :: 0 <= i < |groups| ==> 0 <= groups[i].startIndex <= |Flat(groups[..i])|
  }

  // The rows lie group by group, whatever the starts say.
  ghost predicate Lagging(groups: seq<Group>, rows: seq<Row>) {
    Flat(groups) == rows && Behind(groups)
  }

  // The group in whose table the row at an index stands.
  ghost function TableOf(groups: seq<Group>, d: nat): nat
    requires d < |Flat(groups)|
  {
    var n := |groups| - 1;
    if |Flat(groups[..n])| <= d then n else TableOf(groups[..n], d)
  }

  // A group without the row at a place, if it has one there, as splice leaves it.
  function Dropped(rows: seq<Row>, k: nat): seq<Row> {
    if k < |rows| then rows[..k] + rows[k + 1..] else rows
  }

  // The groups once group g has given up the row that its start puts at index d; a
  // group of one row goes altogether.
  function Shed(groups: seq<Group>, g: nat, d: nat): seq<Group>
    requires g < |groups| && groups[g].startIndex <= d
  {
    var group := groups[g];
    if |group.rows| > 1 then groups[g := group.(rows := Dropped(group.rows, d - group.startIndex))]
    else groups[..g] + groups[g + 1..]
  }

  function Renumbered(groups: seq<Group>): seq<Group> {
    seq(|groups|, i requires 0 <= i < |groups| => groups[i].(startIndex := |Flat(groups[..i])|))
  }

  // ---------------------------------------------------------------- the view

  lemma {:induction false} TableAt(groups: seq<Group>, d: nat)
    requires d < |Flat(groups)|
    ensures var g := TableOf(groups, d);
      g < |groups| && |Flat(groups[..g])| <= d < |Flat(groups[..g])| + |groups[g].rows|
  {
    var n := |groups| - 1;
    if d < |Flat(groups[..n])| {
      TableAt(groups[..n], d);
      assert groups[..n][..TableOf(groups[..n], d)] == groups[..TableOf(groups[..n], d)];
    }
  }

  lemma {:induction false} FlatGrows(groups: seq<Group>, i: nat, j: nat)
    requires i < j <= |groups|
    ensures |Flat(groups[..i])| + |groups[i].rows| <= |Flat(groups[..j])|
    decreases j
  {
    assert groups[..j][..j - 1] == groups[..j - 1];
    if i < j - 1 {
      FlatGrows(groups, i, j - 1);
    }
  }

  lemma TableIs(groups: seq<Group>, d: nat, g: nat)
    requires d < |Flat(groups)| && g < |groups|
    requires |Flat(groups[..g])| <= d < |Flat(groups[..g])| + |groups[g].rows|
    ensures g == TableOf(groups, d)
  {
    hide Flat, TableOf;
    TableAt(groups, d);
    var h := TableOf(groups, d);
    if g < h {
      FlatGrows(groups, g, h);
    } else if h < g {
      FlatGrows(groups, h, g);
    }
  }

  lemma FlatNext(groups: seq<Group>, i: nat)
    requires i < |groups|
    ensures |Flat(groups[..i + 1])| == |Flat(groups[..i])| + |groups[i].rows|
  {
    assert groups[..i + 1][..i] == groups[..i];
  }

  // Find the table of a row, counting through the tables.
  method FindTable(groups: seq<Group>, d: nat) returns (g: nat)
    requires d < |Flat(groups)|
    ensures g == TableOf(groups, d)
  {
    hide Flat, TableOf;
    assert groups[..|groups|] == groups;
    g := 0;
    var passed := 0;
    NothingBefore(groups);
    while g < |groups| && passed + |groups[g].rows| <= d
      invariant g <= |groups| && passed == |Flat(groups[..g])| <= d
    {
      FlatNext(groups, g);
      passed := passed + |groups[g].rows|;
      g := g + 1;
    }
    TableIs(groups, d, g);
  }

  lemma NothingBefore(groups: seq<Group>)
    ensures Flat(groups[..0]) == []
  {
  }

  class View {
    var rows: seq<Row>
    var groups: seq<Group>
    var total: int

    constructor (data: seq<Row>)
      ensures Proper(groups, rows) && total == |data|
      ensures Sorted(groups, data)
    {
      total := |data|;
      new;
      var made, laid := GroupRows(data);
      SortedProper(made, data);
      groups, rows := made, laid;
    }

    // Deleting a row takes one out of its group by the start of the group, takes an
    // emptied group away and numbers the groups again.
    method DeleteRow(d: nat)
      requires Lagging(groups, rows) && d < |rows|
      modifies this
      ensures total == old(total) - 1 && rows == old(rows)[..d] + old(rows)[d + 1..]
      ensures old(TableOf(groups, d) < |groups| && groups[TableOf(groups, d)].startIndex <= d)
      ensures groups == Renumbered(Shed(old(groups), old(TableOf(groups, d)), d))
      ensures old(Proper(groups, rows)) ==> Proper(groups, rows)
    {
      hide Flat, Started, TableOf;
      TableAt(groups, d);
      var g := FindTable(groups, d);
      var group := groups[g];
      total := total - 1;
      rows := rows[..d] + rows[d + 1..];
      var left;
      if |group.rows| > 1 {
        var k := d - group.startIndex;
        var kept := if k < |group.rows| then group.rows[..k] + group.rows[k + 1..] else group.rows;
        left := groups[g := group.(rows := kept)];
      } else {
        left := groups[..g] + groups[g + 1..];
      }
      ShedProper(groups, old(rows), d);
      var laid;
      groups, laid := Lay(left);
      LaidIs(left, groups);
    }

    // Inserting a row into the first group of its value, or into a new one at the end.
    // The groups after it are not numbered again, and a new one does not add to the total.
    method InsertRow(at: Option<nat>, row: Row)
      requires Lagging(groups, rows)
      modifies this
      ensures Behind(groups)
      ensures old(NoneHas(groups, row.key)) ==>
        total == old(total) && rows == old(rows) + [row] && Flat(groups) == rows
        && groups == old(groups) + [Group(row.key, [row], |old(rows)|)]
        && (old(Proper(groups, rows)) ==> Proper(groups, rows))
      ensures !old(NoneHas(groups, row.key)) ==> total == old(total) + 1 && exists g, k ::
        0 <= g < |old(groups)| && FirstWith(old(groups), g, row.key) && 0 <= k <= |old(groups)[g].rows|
        && k == Clamped(at, old(groups)[g], |old(rows)|) && Put(old(groups), groups, g, k, row)
        && PutAt(old(rows), rows, old(groups)[g].startIndex + k, row)
      ensures old(Proper(groups, rows)) ==> Flat(groups) == rows
    {
      hide Flat, Started, Put, PutAt, Clamped;
      var found := FindGroup(groups, row.key);
      if found.Some? {
        InsertInto(found.value, at, row);
      } else {
        NewLast(groups, row, groups + [Group(row.key, [row], |rows|)]);
        groups := groups + [Group(row.key, [row], |rows|)];
        rows := rows + [row];
      }
    }

    method InsertInto(g: nat, at: Option<nat>, row: Row)
      requires Lagging(groups, rows) && g < |groups|
      modifies this
      ensures total == old(total) + 1 && Behind(groups)
      ensures 0 <= Clamped(at, old(groups)[g], |old(rows)|) <= |old(groups)[g].rows|
      ensures Put(old(groups), groups, g, Clamped(at, old(groups)[g], |old(rows)|), row)
      ensures PutAt(old(rows), rows, old(groups)[g].startIndex + Clamped(at, old(groups)[g], |old(rows)|), row)
      ensures old(Proper(groups, rows)) ==> Flat(groups) == rows
    {
      hide Flat, Started;
      var group := groups[g];
      var d: int := if at.Some? then at.value else |rows|;
      if d < group.startIndex {
        d := group.startIndex;
      } else if d > group.startIndex + |group.rows| {
        d := group.startIndex + |group.rows|;
      }
      var k := d - group.startIndex;
      ghost var e := |Flat(groups[..g])| + k;
      Grew(groups, g, k, e, row);
      Around(groups, g);
      ProperStart(groups, rows, g);
      total := total + 1;
      rows := rows[..d] + [row] + rows[d..];
      groups := groups[g := group.(rows := group.rows[..k] + [row] + group.rows[k..])];
      PutBehind(old(groups), groups, g, k, row);
    }
  }

  // How far into its group a row goes that is inserted at an index, or nowhere in particular.
  function Clamped(at: Option<nat>, group: Group, all: nat): int {
    var d: int := if at.Some? then at.value else all;
    if d < group.startIndex then 0
    else if d > group.startIndex + |group.rows| then |group.rows| else d - group.startIndex
  }

  function Apart(a: int, b: int): nat {
    if a < b then b - a else a - b
  }

  // No place of the group is nearer to the index asked for, or to the end of the rows.
  lemma ClampedNearest(at: Option<nat>, group: Group, all: nat, j: nat)
    requires j <= |group.rows|
    ensures var k, wanted := group.startIndex + Clamped(at, group, all), if at == None then all else at.value;
      && group.startIndex <= k <= group.startIndex + |group.rows|
      && (Apart(k, wanted) < Apart(group.startIndex + j, wanted) || k == group.startIndex + j)
  {
  }

  // after is groups with a row put into group g.
  ghost predicate Put(groups: seq<Group>, after: seq<Group>, g: nat, k: nat, row: Row) {
    && g < |groups| && k <= |groups[g].rows|
    && after == groups[g := groups[g].(rows := groups[g].rows[..k] + [row] + groups[g].rows[k..])]
  }

  // The first group of a value.
  ghost predicate FirstWith(groups: seq<Group>, g: nat, key: int) {
    g < |groups| && groups[g].value == key && forall i :: 0 <= i < g ==> groups[i].value != key
  }

  // after is rows with a row put in at index d.
  ghost predicate PutAt(rows: seq<Row>, after: seq<Row>, d: int, row: Row) {
    0 <= d <= |rows| && after == rows[..d] + [row] + rows[d..]
  }

  lemma StartOf(groups: seq<Group>, g: nat)
    requires Started(groups) && g < |groups|
    ensures groups[g].startIndex == |Flat(groups[..g])|
  {
  }

  lemma ProperStart(groups: seq<Group>, rows: seq<Row>, g: nat)
    requires g < |groups|
    ensures Proper(groups, rows) ==> groups[g].startIndex == |Flat(groups[..g])|
  {
  }

  lemma LaidIs(left: seq<Group>, laid: seq<Group>)
    requires |laid| == |left| && Started(laid)
    requires forall i :: 0 <= i < |laid| ==> laid[i].value == left[i].value && laid[i].rows == left[i].rows
    ensures laid == Renumbered(left)
  {
    forall i | 0 <= i < |left|
      ensures laid[i] == Renumbered(left)[i]
    {
      SameFlat(laid[..i], left[..i]);
    }
  }

  // Numbering again changes nothing but the starts, which are then right.
  lemma RenumberedFacts(groups: seq<Group>)
    ensures Flat(Renumbered(groups)) == Flat(groups) && Started(Renumbered(groups))
  {
    var r := Renumbered(groups);
    SameFlat(r, groups);
    forall i | 0 <= i < |r|
      ensures r[i].startIndex == |Flat(r[..i])|
    {
      SameFlat(r[..i], groups[..i]);
    }
  }

  lemma {:induction false} SameFlat(p: seq<Group>, q: seq<Group>)
    requires |p| == |q| && forall i :: 0 <= i < |p| ==> p[i].rows == q[i].rows
    ensures Flat(p) == Flat(q)
  {
    if p != [] {
      SameFlat(p[..|p| - 1], q[..|q| - 1]);
    }
  }

  lemma Grew(groups: seq<Group>, g: nat, k: int, d: int, row: Row)
    requires g < |groups| && 0 <= k <= |groups[g].rows| && d == |Flat(groups[..g])| + k
    ensures var after := groups[g := groups[g].(rows := groups[g].rows[..k] + [row] + groups[g].rows[k..])];
      0 <= d <= |Flat(groups)| && Flat(after) == Flat(groups)[..d] + [row] + Flat(groups)[d..]
  {
    hide Flat;
    var p, q, more := groups[..g], groups[g + 1..], groups[g].rows[..k] + [row] + groups[g].rows[k..];
    Around(groups, g);
    PutInside(Flat(p), groups[g].rows, Flat(q), d, row);
    FlatAround(p, groups[g].(rows := more), q);
    assert groups[g := groups[g].(rows := more)] == p + [groups[g].(rows := more)] + q;
  }

  // The groups after a row has been taken out of one, and before.
  lemma FlatShed(groups: seq<Group>, g: nat, d: nat)
    requires g < |groups| && groups[g].startIndex <= d
    ensures Flat(Shed(groups, g, d)) == Flat(groups[..g])
      + (if |groups[g].rows| > 1 then Dropped(groups[g].rows, d - groups[g].startIndex) else [])
      + Flat(groups[g + 1..])
  {
    hide Flat, Dropped;
    var p, q, rest := groups[..g], groups[g + 1..], Dropped(groups[g].rows, d - groups[g].startIndex);
    if |groups[g].rows| > 1 {
      FlatAround(p, groups[g].(rows := rest), q);
      assert groups[g := groups[g].(rows := rest)] == p + [groups[g].(rows := rest)] + q;
    } else {
      FlatConcat(p, q);
      assert Flat(p) + [] + Flat(q) == Flat(p) + Flat(q);
    }
  }

  lemma ShedProper(groups: seq<Group>, rows: seq<Row>, d: nat)
    requires Lagging(groups, rows) && d < |rows|
    ensures var g := TableOf(groups, d);
      && g < |groups| && groups[g].startIndex <= d
      && (Proper(groups, rows) ==> Proper(Renumbered(Shed(groups, g, d)), rows[..d] + rows[d + 1..]))
  {
    hide Flat, TableOf, Started;
    TableAt(groups, d);
    var g := TableOf(groups, d);
    if Proper(groups, rows) {
      StartOf(groups, g);
      Around(groups, g);
      CutInside(Flat(groups[..g]), groups[g].rows, Flat(groups[g + 1..]), d);
      FlatShed(groups, g, d);
      RenumberedFacts(Shed(groups, g, d));
      ShedValues(groups, g, d);
    }
  }

  lemma ShedValues(groups: seq<Group>, g: nat, d: nat)
    requires NoneTwice(groups) && AllOfValue(groups) && g < |groups|
    requires groups[g].startIndex <= d < groups[g].startIndex + |groups[g].rows|
    ensures NoneTwice(Renumbered(Shed(groups, g, d))) && AllOfValue(Renumbered(Shed(groups, g, d)))
  {
    hide Flat;
  }

  lemma BeforeLast(groups: seq<Group>, last: Group, i: nat)
    requires i <= |groups|
    ensures Flat((groups + [last])[..i]) == Flat(groups[..i]) && groups[..|groups|] == groups
  {
    assert (groups + [last])[..i] == groups[..i];
  }

  lemma NewLast(groups: seq<Group>, row: Row, after: seq<Group>)
    requires Behind(groups) && NoneHas(groups, row.key)
    requires after == groups + [Group(row.key, [row], |Flat(groups)|)]
    ensures Lagging(after, Flat(groups) + [row])
    ensures Proper(groups, Flat(groups)) ==> Proper(after, Flat(groups) + [row])
  {
    hide Flat, Started, Behind, NoneHas, NoneTwice, AllOfValue;
    var last := Group(row.key, [row], |Flat(groups)|);
    FlatConcat(groups, [last]);
    FlatOne(last);
    LastBehind(groups, last);
    LastProper(groups, last);
  }

  lemma LastBehind(groups: seq<Group>, last: Group)
    requires Behind(groups) && last.startIndex == |Flat(groups)|
    ensures Behind(groups + [last])
  {
    hide Flat;
    forall i: nat | i <= |groups|
      ensures 0 <= (groups + [last])[i].startIndex <= |Flat((groups + [last])[..i])|
    {
      BeforeLast(groups, last, i);
    }
  }

  lemma LastProper(groups: seq<Group>, last: Group)
    requires last.startIndex == |Flat(groups)| && OfValue(last) && NoneHas(groups, last.value)
    ensures Started(groups) ==> Started(groups + [last])
    ensures NoneTwice(groups) ==> NoneTwice(groups + [last])
    ensures AllOfValue(groups) ==> AllOfValue(groups + [last])
  {
    hide Flat;
    if Started(groups) {
      forall i: nat | i <= |groups|
        ensures (groups + [last])[i].startIndex == |Flat((groups + [last])[..i])|
      {
        BeforeLast(groups, last, i);
      }
    }
  }

  // ---------------------------------------------------------------- after an insert

  // The rows before a group, once a row has been put into group g.
  lemma PutBefore(groups: seq<Group>, after: seq<Group>, g: nat, k: nat, row: Row, i: nat)
    requires Put(groups, after, g, k, row) && i < |groups|
    ensures |Flat(after[..i])| == |Flat(groups[..i])| + if i > g then 1 else 0
    ensures after[i].startIndex == groups[i].startIndex
  {
    hide Flat;
    if i > g {
      assert groups[..i][..g] == groups[..g];
      Grew(groups[..i], g, k, |Flat(groups[..g])| + k, row);
      assert after[..i] == groups[..i][g := after[g]];
    } else {
      assert after[..i] == groups[..i];
    }
  }

  lemma PutBehind(groups: seq<Group>, after: seq<Group>, g: nat, k: nat, row: Row)
    requires Behind(groups) && Put(groups, after, g, k, row)
    ensures Behind(after)
  {
    hide Flat;
    forall i: nat | i < |groups|
      ensures 0 <= after[i].startIndex <= |Flat(after[..i])|
    {
      PutBefore(groups, after, g, k, row, i);
    }
  }

  // A row put into a group leaves the groups numbered right exactly when they were
  // and its group is the last one.
  lemma NumberedIffLast(groups: seq<Group>, after: seq<Group>, g: nat, k: nat, row: Row)
    requires Behind(groups) && Put(groups, after, g, k, row)
    ensures Started(after) <==> g == |groups| - 1 && Started(groups)
  {
    hide Flat;
    forall i: nat | i < |groups|
      ensures |Flat(after[..i])| == |Flat(groups[..i])| + if i > g then 1 else 0
    {
      PutBefore(groups, after, g, k, row, i);
    }
    if g < |groups| - 1 {
      assert after[g + 1].startIndex != |Flat(after[..g + 1])|;
    }
  }

  lemma InsertedSame<T>(s: seq<T>, i: nat, j: nat, x: T)
    requires i <= j <= |s|
    ensures s[..i] + [x] + s[i..] == s[..j] + [x] + s[j..] <==> forall n :: i <= n < j ==> s[n] == x
  {
    var a, b := s[..i] + [x] + s[i..], s[..j] + [x] + s[j..];
    if a == b {
      forall n: nat | i <= n < j
        ensures s[n] == x
      {
        SameAlong(s, i, n, a, b, x);
      }
    }
    if forall n :: i <= n < j ==> s[n] == x {
      assert a == b;
    }
  }

  lemma {:induction false} SameAlong<T>(s: seq<T>, i: nat, n: nat, a: seq<T>, b: seq<T>, x: T)
    requires i <= n < |s| && a == b && a == s[..i] + [x] + s[i..]
    requires forall m :: i <= m <= n ==> b[m] == s[m]
    ensures s[n] == x
    decreases n - i
  {
    assert a[i] == x && a[n] == if n == i then x else s[n - 1];
    if n > i {
      SameAlong(s, i, n - 1, a, b, x);
    }
  }

  // After an insert into a group the rows still lie group by group exactly when the
  // rows between the place its start gives and its place in the group equal the new
  // one; for a new row, when the start is right.
  lemma InsertAgrees(groups: seq<Group>, rows: seq<Row>, g: nat, k: nat, row: Row, after: seq<Group>, after': seq<Row>)
    requires Lagging(groups, rows) && Put(groups, after, g, k, row)
    requires PutAt(rows, after', groups[g].startIndex + k, row)
    ensures Flat(after) == after' <==>
      forall n :: groups[g].startIndex + k <= n < |Flat(groups[..g])| + k && n < |rows| ==> rows[n] == row
    ensures row !in rows ==> (Flat(after) == after' <==> groups[g].startIndex == |Flat(groups[..g])|)
  {
    hide Flat;
    var d, e := groups[g].startIndex + k, |Flat(groups[..g])| + k;
    Grew(groups, g, k, e, row);
    InsertedSame(rows, d, e, row);
    if d < e {
      assert rows[d] in rows;
    }
  }

  // ---------------------------------------------------------------- a delete that finds stale starts

  // Leaving out place k or place p of a list gives the same.
  ghost predicate Alike(rows: seq<Row>, k: nat, p: nat) {
    && k < |rows|
    && forall n :: (if k < p then k else p) <= n < (if k < p then p else k) && n + 1 < |rows| ==>
         rows[n] == rows[n + 1]
  }

  lemma DroppedSame(rows: seq<Row>, k: nat, p: nat)
    requires p < |rows|
    ensures Dropped(rows, k) == Dropped(rows, p) <==> Alike(rows, k, p)
    ensures Distinct(rows) ==> (Dropped(rows, k) == Dropped(rows, p) <==> k == p)
  {
    var a, b := Dropped(rows, k), Dropped(rows, p);
    if k < |rows| {
      var lo, hi := if k < p then k else p, if k < p then p else k;
      if a == b {
        forall n | lo <= n < hi
          ensures rows[n] == rows[n + 1]
        {
          assert a[n] == b[n];
        }
      } else {
        var n :| 0 <= n < |a| && a[n] != b[n];
        assert lo <= n < hi;
      }
      if lo < hi && a == b {
        assert rows[lo] == rows[lo + 1];
      }
    } else {
      assert |a| != |b|;
    }
  }

  lemma Between<T>(x: seq<T>, a: seq<T>, b: seq<T>, z: seq<T>)
    ensures x + a + z == x + b + z <==> a == b
  {
    if x + a + z == x + b + z {
      assert |a| == |b|;
      assert a == (x + a + z)[|x|..|x| + |a|] && b == (x + b + z)[|x|..|x| + |b|];
    }
  }

  // A delete takes the same row out of the groups as out of the rows exactly when the
  // row stands alone in its group or the rows between the place its group's start
  // gives and its own are alike; among distinct rows, when that start is right.
  lemma DeleteAgrees(groups: seq<Group>, rows: seq<Row>, d: nat)
    requires Lagging(groups, rows) && d < |rows|
    ensures var g := TableOf(groups, d);
      && g < |groups| && groups[g].startIndex <= |Flat(groups[..g])| <= d
      && (Flat(Shed(groups, g, d)) == rows[..d] + rows[d + 1..] <==>
            |groups[g].rows| == 1
            || Alike(groups[g].rows, d - groups[g].startIndex, d - |Flat(groups[..g])|))
      && (Distinct(rows) ==>
            (Flat(Shed(groups, g, d)) == rows[..d] + rows[d + 1..] <==>
               |groups[g].rows| == 1 || groups[g].startIndex == |Flat(groups[..g])|))
  {
    hide Flat, TableOf, Alike, Dropped;
    TableAt(groups, d);
    var g := TableOf(groups, d);
    var x, r, z := Flat(groups[..g]), groups[g].rows, Flat(groups[g + 1..]);
    var k, p := d - groups[g].startIndex, d - |x|;
    Around(groups, g);
    CutInside(x, r, z, d);
    FlatShed(groups, g, d);
    DroppedSame(r, k, p);
    DroppedIs(r, p);
    Between(x, Dropped(r, k), Dropped(r, p), z);
    if Distinct(rows) {
      DistinctInside(x, r, z);
    }
  }

  lemma DroppedIs(rows: seq<Row>, p: nat)
    requires p < |rows|
    ensures Dropped(rows, p) == rows[..p] + rows[p + 1..] && (|rows| == 1 ==> Dropped(rows, p) == [])
  {
  }

  lemma DistinctInside<T>(x: seq<T>, r: seq<T>, z: seq<T>)
    requires Distinct(x + r + z)
    ensures Distinct(r)
  {
    forall i, j | 0 <= i < j < |r|
      ensures r[i] != r[j]
    {
      assert (x + r + z)[|x| + i] == r[i] && (x + r + z)[|x| + j] == r[j];
    }
  }

  // A row is put into the first of two groups; deleting the first row of the second
  // group then takes the second row out of that group.
  lemma StaleDelete(a: Row, more: Row, b: Row, c: Row) returns (groups: seq<Group>, after: seq<Group>)
    requires a.key == more.key != b.key == c.key && Distinct([a, more, b, c])
    ensures Proper(groups, [a, b, c]) && Put(groups, after, 0, 1, more) && Lagging(after, [a, more, b, c])
    ensures TableOf(after, 2) == 1 && after[1].startIndex == 1
    ensures Flat(Shed(after, 1, 2)) == [a, more, b] != [a, more, c]
  {
    groups := [Group(a.key, [a], 0), Group(b.key, [b, c], 1)];
    after := [Group(a.key, [a, more], 0), Group(b.key, [b, c], 1)];
    hide Flat;
    TwoGroups(groups);
    TwoGroups(after);
    assert [a][..1] == [a] && [a][1..] == [];
    assert groups[0 := after[0]] == after;
    assert [a] + [b, c] == [a, b, c] && [a] + [more] + [] == [a, more] && [a, more] + [b, c] == [a, more, b, c];
    TableIs(after, 2, 1);
    var left := [after[0], Group(b.key, [b], 1)];
    TwoGroups(left);
    assert Dropped([b, c], 1) == [b];
    assert after[1 := left[1]] == left;
    assert [a, more, b, c][2] != [a, more, b, c][3];
    assert [a, more, b][2] != [a, more, c][2];
  }

  lemma TwoGroups(groups: seq<Group>)
    requires |groups| == 2
    ensures Flat(groups[..0]) == [] && Flat(groups[..1]) == groups[0].rows
    ensures Flat(groups) == groups[0].rows + groups[1].rows
  {
    assert groups[..1][..0] == [] && groups[..1][0] == groups[0];
    assert Flat(groups[..1]) == Flat(groups[..1][..0]) + groups[0].rows;
  }
}
