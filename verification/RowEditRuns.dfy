// What every run of grid edits keeps, and what taking the changes back restores.

module RowEditRuns {
  import opened Common
  import opened RowEdits

  ghost function Elems(a: seq<nat>): set<nat> {
    set x | x in a
  }

  // The members of a list that are not in a set, in order.
  ghost function Kept(a: seq<nat>, out: set<nat>): seq<nat> {
    if a == [] then [] else (if a[0] in out then [] else [a[0]]) + Kept(a[1..], out)
  }

  // base: the rows at the last snapshot; count: the total then.
  ghost predicate Tracked(s: State, base: seq<nat>, count: int) {
    && Lists(s, base) && s.total == count + |s.inserted| - |s.deleted|
    && Kept(s.rows, Elems(s.inserted)) == Kept(base, Elems(s.deleted))
    && Unchanged(s, base) && Known(s, base)
  }

  // Inserted rows are new ones in the grid, deleted and updated ones were there.
  ghost predicate Lists(s: State, base: seq<nat>) {
    && Distinct(s.rows) && Distinct(base) && Distinct(s.inserted) && Distinct(s.deleted) && Distinct(s.updated)
    && (forall o :: o in s.inserted ==> o in s.rows && o !in base)
    && (forall o :: o in s.deleted ==> o in base && o !in s.rows)
    && (forall o :: o in s.updated ==> o in base)
    && (forall o :: o in s.rows ==> o in s.inserted || o in base)
  }

  // A row of the snapshot that is not updated still has the values copied then.
  ghost predicate Unchanged(s: State, base: seq<nat>) {
    |base| == |s.original|
    && forall i :: 0 <= i < |base| && base[i] !in s.updated ==> Fields(s.vals, base[i]) == s.original[i]
  }

  ghost predicate Known(s: State, base: seq<nat>) {
    (forall o :: o in s.rows || o in base ==> o < s.next) && (forall o :: o in s.editors ==> o in s.rows)
  }

  // ---------------------------------------------------------------- filtering

  lemma {:induction false} KeptConcat(p: seq<nat>, q: seq<nat>, out: set<nat>)
    ensures Kept(p + q, out) == Kept(p, out) + Kept(q, out)
  {
    if p == [] {
      assert p + q == q;
    } else {
      assert (p + q)[1..] == p[1..] + q;
      KeptConcat(p[1..], q, out);
    }
  }

  lemma {:induction false} KeptSame(a: seq<nat>, out: set<nat>, more: set<nat>)
    requires forall x :: x in a ==> (x in out <==> x in more)
    ensures Kept(a, out) == Kept(a, more)
  {
    if a != [] {
      KeptSame(a[1..], out, more);
    }
  }

  lemma {:induction false} KeptAll(a: seq<nat>, out: set<nat>)
    requires forall x :: x in a ==> x !in out
    ensures Kept(a, out) == a
  {
    if a != [] {
      KeptAll(a[1..], out);
    }
  }

  lemma {:induction false} KeptTwice(a: seq<nat>, out: set<nat>, more: set<nat>)
    ensures Kept(Kept(a, out), more) == Kept(a, out + more)
  {
    if a != [] {
      KeptTwice(a[1..], out, more);
      var rest := Kept(a[1..], out);
      if a[0] in out {
        assert Kept(a, out) == rest;
      } else {
        assert Kept(a, out) == [a[0]] + rest && ([a[0]] + rest)[1..] == rest;
      }
    }
  }

  lemma KeptAround(p: seq<nat>, x: nat, q: seq<nat>, out: set<nat>)
    ensures Kept(p + [x] + q, out) == Kept(p, out) + (if x in out then [] else [x]) + Kept(q, out)
  {
    KeptConcat(p + [x], q, out);
    KeptConcat(p, [x], out);
    assert [x][1..] == [];
  }

  // Taking the row at a place out of a list without repetition.
  lemma KeptOne(a: seq<nat>, i: nat)
    requires i < |a| && Distinct(a)
    ensures a[..i] + a[i + 1..] == Kept(a, {a[i]})
  {
    hide Kept;
    var p, q := a[..i], a[i + 1..];
    assert a == p + [a[i]] + q;
    KeptAround(p, a[i], q, {a[i]});
    KeptAll(p, {a[i]});
    KeptAll(q, {a[i]});
  }

  lemma ElemsPush(a: seq<nat>, x: nat)
    ensures Elems(a + [x]) == Elems(a) + {x}
  {
  }

  lemma {:induction false} InKept(a: seq<nat>, out: set<nat>, x: nat)
    ensures x in Kept(a, out) <==> x in a && x !in out
  {
    if a != [] {
      InKept(a[1..], out, x);
      assert a == [a[0]] + a[1..];
    }
  }

  lemma ElemsKept(a: seq<nat>, x: nat)
    ensures Elems(Kept(a, {x})) == Elems(a) - {x}
  {
    forall y
      ensures y in Elems(Kept(a, {x})) <==> y in Elems(a) - {x}
    {
      InKept(a, {x}, y);
    }
  }

  lemma RemoveKept(a: seq<nat>, x: nat)
    requires Distinct(a)
    ensures var r := RemoveFirst(a, x);
      r == Kept(a, {x}) && Distinct(r) && Elems(r) == Elems(a) - {x}
  {
    var i := FirstAt(a, x);
    if i < |a| {
      KeptOne(a, i);
    } else {
      KeptAll(a, {x});
    }
    ElemsKept(a, x);
  }

  // ---------------------------------------------------------------- one step

  lemma KeptInsert(p: seq<nat>, x: nat, q: seq<nat>, ins: set<nat>)
    requires x !in p + q
    ensures Kept(p + [x] + q, ins + {x}) == Kept(p + q, ins)
  {
    hide Kept;
    KeptAround(p, x, q, ins + {x});
    KeptConcat(p, q, ins);
    assert forall y :: y in p || y in q ==> y in p + q;
    KeptSame(p, ins, ins + {x});
    KeptSame(q, ins, ins + {x});
  }

  lemma DistinctInsert(p: seq<nat>, x: nat, q: seq<nat>)
    requires x !in p + q && Distinct(p + q)
    ensures Distinct(p + [x] + q)
  {
    var a, b := p + q, p + [x] + q;
    forall i, j | 0 <= i < j < |b|
      ensures b[i] != b[j]
    {
      var i', j' := if i > |p| then i - 1 else i, if j > |p| then j - 1 else j;
      assert i != |p| ==> b[i] == a[i'];
      assert j != |p| ==> b[j] == a[j'];
    }
  }

  lemma InsertKeeps(s: State, base: seq<nat>, count: int, at: nat, value: Value)
    requires Tracked(s, base, count)
    ensures Tracked(InsertAt(s, at, value), base, count)
  {
    var t, k := InsertAt(s, at, value), if at > |s.rows| then |s.rows| else at;
    assert s.rows == s.rows[..k] + s.rows[k..];
    KeptInsert(s.rows[..k], s.next, s.rows[k..], Elems(s.inserted));
    ElemsPush(s.inserted, s.next);
    InsertLists(s, base, at, value);
    assert Unchanged(t, base);
  }

  lemma InsertLists(s: State, base: seq<nat>, at: nat, value: Value)
    requires Lists(s, base) && Known(s, base)
    ensures Lists(InsertAt(s, at, value), base) && Known(InsertAt(s, at, value), base)
  {
    var t, k := InsertAt(s, at, value), if at > |s.rows| then |s.rows| else at;
    assert forall o :: o in t.rows <==> o in s.rows || o == s.next by {
      assert s.rows == s.rows[..k] + s.rows[k..];
    }
    assert s.rows == s.rows[..k] + s.rows[k..];
    DistinctInsert(s.rows[..k], s.next, s.rows[k..]);
  }

  lemma DeleteKeeps(s: State, base: seq<nat>, count: int, i: nat)
    requires Tracked(s, base, count) && i < |s.rows|
    ensures Tracked(DeleteAt(s, i), base, count)
  {
    var t, x := DeleteAt(s, i), s.rows[i];
    var ins, del := Elems(s.inserted), Elems(s.deleted);
    KeptOne(s.rows, i);
    RemoveKept(s.inserted, x);
    if x in s.inserted {
      KeptTwice(s.rows, {x}, ins - {x});
      assert {x} + (ins - {x}) == ins;
    } else {
      NotThere(s.inserted, x);
      KeptTwice(s.rows, {x}, ins);
      KeptTwice(s.rows, ins, {x});
      KeptTwice(base, del, {x});
      ElemsPush(s.deleted, x);
      assert {x} + ins == ins + {x};
    }
    assert Unchanged(t, base);
    DeleteLists(s, base, i);
  }

  lemma DeleteLists(s: State, base: seq<nat>, i: nat)
    requires Lists(s, base) && Known(s, base) && i < |s.rows|
    ensures Lists(DeleteAt(s, i), base) && Known(DeleteAt(s, i), base)
  {
    var t, x := DeleteAt(s, i), s.rows[i];
    KeptOne(s.rows, i);
    RemoveKept(s.inserted, x);
    forall o
      ensures o in t.rows <==> o in s.rows && o != x
      ensures o in t.inserted <==> o in s.inserted && o != x
    {
      InKept(s.rows, {x}, o);
      InKept(s.inserted, {x}, o);
    }
    assert Distinct(t.rows);
  }

  lemma CommitKeeps(s: State, base: seq<nat>, count: int, row: nat)
    requires Tracked(s, base, count) && row in s.rows
    ensures Tracked(Commit(s, row), base, count)
  {
    hide Kept;
    var t := Commit(s, row);
    assert t.rows == s.rows && t.inserted == s.inserted && t.deleted == s.deleted;
    assert Lists(t, base);
    assert Known(t, base);
    forall i | 0 <= i < |base| && base[i] !in t.updated
      ensures Fields(t.vals, base[i]) == t.original[i]
    {
      assert base[i] !in s.updated;
    }
  }

  lemma {:induction false} CommitAllKeeps(s: State, base: seq<nat>, count: int, n: nat)
    requires Tracked(s, base, count) && n <= |s.rows|
    ensures Tracked(CommitRows(s, n), base, count)
  {
    if n > 0 {
      CommitAllKeeps(s, base, count, n - 1);
      CommitKeeps(CommitRows(s, n - 1), base, count, s.rows[n - 1]);
    }
  }

  // Accepting starts over from the rows as they are.
  lemma SnapshotTracked(s: State)
    requires Distinct(s.rows) && Known(s, s.rows)
    ensures Tracked(Snapshot(s), s.rows, s.total)
  {
    var t := Snapshot(s);
    assert Elems(t.inserted) == {} && Elems(t.deleted) == {};
    forall i | 0 <= i < |s.rows|
      ensures Fields(t.vals, s.rows[i]) == t.original[i]
    {
    }
  }

  lemma {:induction false} AddAllHas(vals: map<nat, Value>, next: nat, values: seq<Value>, i: nat)
    requires i < |values|
    ensures Fields(AddAll(vals, next, values), next + i) == values[i]
  {
    var n := |values| - 1;
    if i < n {
      AddAllHas(vals, next, values[..n], i);
    }
  }

  // Fresh rows carry the values they were made from.
  lemma FreshValues(s: State, values: seq<Value>)
    ensures var t := Fresh(s, values); Values(t.rows, t.vals) == values && Distinct(t.rows) && Known(t, t.rows)
  {
    var t := Fresh(s, values);
    forall i: nat | i < |values|
      ensures Fields(t.vals, t.rows[i]) == values[i]
    {
      AddAllHas(s.vals, s.next, values, i);
    }
  }

  // ---------------------------------------------------------------- runs

  // The rows and the total at the last snapshot, after an event.
  ghost function NextBase(s: State, e: Event, base: seq<nat>): seq<nat>
    requires Enabled(s, e)
  {
    if e.Load? || e.Reject? || (e.Accept? && AllPass(s, |s.rows|)) then Step(s, e).rows else base
  }

  ghost function NextCount(s: State, e: Event, count: int): int
    requires Enabled(s, e)
  {
    if e.Load? || e.Reject? || (e.Accept? && AllPass(s, |s.rows|)) then Step(s, e).total else count
  }

  // Opening, filling and leaving an editor tracks nothing.
  lemma EditorsKeep(s: State, e: Event, base: seq<nat>, count: int)
    requires Tracked(s, base, count) && Enabled(s, e) && (e.BeginEdit? || e.Enter? || e.CancelEdit?)
    ensures Tracked(Step(s, e), base, count)
  {
  }

  lemma StepKeeps(s: State, e: Event, base: seq<nat>, count: int)
    requires Tracked(s, base, count) && Enabled(s, e)
    ensures Tracked(Step(s, e), NextBase(s, e, base), NextCount(s, e, count))
  {
    hide Kept, Commit, InsertAt, DeleteAt, Snapshot, Fresh, Tracked, CommitRows;
    match e
    case Load(values, total) =>
      FreshTracked(s.(total := total), values);
    case Insert(at, value) =>
      InsertKeeps(s, base, count, at, value);
    case Append(value) =>
      InsertKeeps(s, base, count, |s.rows|, value);
    case EndEdit(i) =>
      CommitKeeps(s, base, count, s.rows[i]);
    case Delete(i) =>
      DeleteKeeps(s, base, count, i);
    case Accept =>
      CommitAllKeeps(s, base, count, |s.rows|);
      SnapshotKept(CommitRows(s, |s.rows|), base, count);
    case Reject =>
      FreshTracked(s.(total := s.total + |s.deleted| - |s.inserted|), s.original);
    case _ =>
      EditorsKeep(s, e, base, count);
  }

  lemma FreshTracked(s: State, values: seq<Value>)
    ensures var t := Snapshot(Fresh(s, values));
      Tracked(t, t.rows, t.total) && t.total == s.total && Values(t.rows, t.vals) == values
  {
    hide Tracked;
    FreshValues(s, values);
    SnapshotTracked(Fresh(s, values));
  }

  lemma SnapshotKept(s: State, base: seq<nat>, count: int)
    requires Tracked(s, base, count)
    ensures Tracked(Snapshot(s), Snapshot(s).rows, Snapshot(s).total)
  {
    SnapshotTracked(s);
  }

  ghost predicate Runs(s: State, es: seq<Event>)
    decreases |es|
  {
    es == [] || (Enabled(s, es[0]) && Runs(Step(s, es[0]), es[1..]))
  }

  ghost function After(s: State, es: seq<Event>): State
    requires Runs(s, es)
    decreases |es|
  {
    if es == [] then s else After(Step(s, es[0]), es[1..])
  }

  // The rows and the total at the last snapshot of a run.
  ghost function LastBase(s: State, es: seq<Event>, base: seq<nat>): seq<nat>
    requires Runs(s, es)
    decreases |es|
  {
    if es == [] then base else LastBase(Step(s, es[0]), es[1..], NextBase(s, es[0], base))
  }

  ghost function LastCount(s: State, es: seq<Event>, count: int): int
    requires Runs(s, es)
    decreases |es|
  {
    if es == [] then count else LastCount(Step(s, es[0]), es[1..], NextCount(s, es[0], count))
  }

  lemma {:induction false} RunKeeps(s: State, es: seq<Event>, base: seq<nat>, count: int)
    requires Tracked(s, base, count) && Runs(s, es)
    ensures Tracked(After(s, es), LastBase(s, es, base), LastCount(s, es, count))
    decreases |es|
  {
    if es != [] {
      StepKeeps(s, es[0], base, count);
      RunKeeps(Step(s, es[0]), es[1..], NextBase(s, es[0], base), NextCount(s, es[0], count));
    }
  }

  // Over every run from the empty grid: what is shown is what was there at the last
  // snapshot without the deleted rows, plus the inserted ones, and the lists and the
  // total agree with that.
  lemma EveryRun(es: seq<Event>)
    requires Runs(State([], map[], 0, [], [], [], [], map[], 0), es)
    ensures var s := State([], map[], 0, [], [], [], [], map[], 0);
      Tracked(After(s, es), LastBase(s, es, []), LastCount(s, es, 0))
  {
    var s := State([], map[], 0, [], [], [], [], map[], 0);
    assert Elems([]) == {};
    RunKeeps(s, es, [], 0);
  }

  // Events that do not take a snapshot.
  ghost predicate Edits(s: State, es: seq<Event>)
    requires Runs(s, es)
    decreases |es|
  {
    es != [] ==> !es[0].Load? && !es[0].Reject? && !es[0].Accept? && Edits(Step(s, es[0]), es[1..])
  }

  lemma {:induction false} EditsKeepBase(s: State, es: seq<Event>, base: seq<nat>, count: int)
    requires Runs(s, es) && Edits(s, es)
    ensures LastBase(s, es, base) == base && LastCount(s, es, count) == count
    ensures After(s, es).original == s.original
    decreases |es|
  {
    if es != [] {
      EditsKeepBase(Step(s, es[0]), es[1..], base, count);
    }
  }

  lemma RejectGives(s: State)
    ensures var t := Rejected(s);
      && Values(t.rows, t.vals) == s.original && t.total == s.total + |s.deleted| - |s.inserted|
      && t.inserted == [] && t.deleted == [] && t.updated == [] && t.editors == map[]
  {
    FreshValues(s.(total := s.total + |s.deleted| - |s.inserted|), s.original);
  }

  lemma TotalTracked(s: State, base: seq<nat>, count: int)
    requires Tracked(s, base, count)
    ensures s.total + |s.deleted| - |s.inserted| == count
  {
  }

  // Whatever is inserted, edited and deleted after a snapshot, taking it back gives
  // the values, the order and the total of the snapshot, and no change is pending.
  lemma RejectRestores(s: State, es: seq<Event>)
    requires Distinct(s.rows) && Known(s, s.rows) && Runs(Snapshot(s), es) && Edits(Snapshot(s), es)
    ensures var t := Step(After(Snapshot(s), es), Reject);
      && Values(t.rows, t.vals) == Values(s.rows, s.vals) && t.total == s.total
      && t.inserted == [] && t.deleted == [] && t.updated == [] && t.editors == map[]
  {
    hide Rejected, Tracked, Values, Edits, Runs, Known, Distinct;
    var s0 := Snapshot(s);
    SnapshotTracked(s);
    RunKeeps(s0, es, s.rows, s.total);
    EditsKeepBase(s0, es, s.rows, s.total);
    TotalTracked(After(s0, es), s.rows, s.total);
    RejectGives(After(s0, es));
  }
}
