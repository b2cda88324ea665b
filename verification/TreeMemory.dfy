// What a load leaves in the memory of the checkboxes: the last check asked of each
// data object, which a click on a partial node undoes.

module TreeMemory {
  import opened Common
  import opened TreeMarks
  import opened TreeShape
  import opened TreeCascade
  import opened TreeLoad
  import opened TreeOps

  lemma SubCons(f: seq<Node>, u: nat)
    requires Unique(f) && u in Ids(f)
    ensures Sub(f, u) ==
      if f[0].id == u then f[0] else if u in Ids(f[0].kids) then Sub(f[0].kids, u) else Sub(f[1..], u)
    ensures u == f[0].id ==> u !in Ids(f[0].kids) && u !in Ids(f[1..])
    ensures u in Ids(f[0].kids) ==> u != f[0].id && u !in Ids(f[1..])
    ensures u in Ids(f[1..]) ==> u != f[0].id && u !in Ids(f[0].kids)
  {
  }

  // The nodes that are checked one by one are those handed over as checked.
  lemma {:induction false} CheckedIdsAre(f: seq<Node>, u: nat)
    requires Unique(f) && u in Ids(f)
    ensures u in CheckedIds(f) <==> Sub(f, u).checked
  {
    SubCons(f, u);
    if u == f[0].id {
    } else if u in Ids(f[0].kids) {
      CheckedIdsAre(f[0].kids, u);
    } else {
      CheckedIdsAre(f[1..], u);
    }
  }

  // Some node of us is of this object.
  ghost predicate SomeOf(f: seq<Node>, us: seq<nat>, obj: nat)
    requires Unique(f) && forall u :: u in us ==> u in Ids(f)
  {
    exists u :: u in us && Sub(f, u).obj == obj
  }

  lemma SomeOfLast(f: seq<Node>, us: seq<nat>, obj: nat)
    requires Unique(f) && us != [] && forall u :: u in us ==> u in Ids(f)
    ensures SomeOf(f, us, obj) <==> SomeOf(f, us[..|us| - 1], obj) || Sub(f, us[|us| - 1]).obj == obj
  {
    var before, last := us[..|us| - 1], us[|us| - 1];
    assert us == before + [last] && last in us;
    if u :| u in us && Sub(f, u).obj == obj {
      assert u in before || u == last;
    }
  }

  // What one map remembers of an object and another does not, or both alike.
  ghost predicate Alike(m: map<nat, bool>, n: map<nat, bool>, obj: nat) {
    (obj in m <==> obj in n) && (obj in m ==> m[obj] == n[obj])
  }

  lemma {:induction false} CheckAllRemembers(f: seq<Node>, x: Boxes, us: seq<nat>, obj: nat)
    requires Unique(f) && Covers(f, x.marks) && forall u :: u in us ==> u in Ids(f)
    ensures var y := CheckAll(f, x, us);
      if SomeOf(f, us, obj) then obj in y.memory && y.memory[obj] else Alike(y.memory, x.memory, obj)
    decreases |us|
  {
    hide Cascade, SomeOf;
    if us == [] {
      NoneOf(f, obj);
    } else {
      SomeOfLast(f, us, obj);
      CheckAllRemembers(f, x, us[..|us| - 1], obj);
    }
  }

  lemma NoneOf(f: seq<Node>, obj: nat)
    requires Unique(f)
    ensures !SomeOf(f, [], obj)
  {
  }

  // Node k is the first root handed over as not checked.
  ghost predicate FirstOff(ns: seq<Node>, k: nat) {
    k < |ns| && !ns[k].checked && forall j :: 0 <= j < k ==> ns[j].checked
  }

  lemma {:induction false} FirstIsOff(ns: seq<Node>) returns (k: nat)
    ensures if FirstUnchecked(ns) == None then k == |ns| && forall j :: 0 <= j < |ns| ==> ns[j].checked
            else FirstOff(ns, k) && FirstUnchecked(ns) == Some(ns[k].id)
  {
    if ns == [] || !ns[0].checked {
      k := 0;
    } else {
      var i := FirstIsOff(ns[1..]);
      k := i + 1;
      assert forall j :: 0 < j < |ns| ==> ns[j] == ns[1..][j - 1];
    }
  }

  // A node handed over as checked is of this object.
  ghost predicate CheckedOf(ns: seq<Node>, obj: nat)
    requires Unique(ns)
  {
    exists u :: u in Ids(ns) && Sub(ns, u).checked && Sub(ns, u).obj == obj
  }

  // The first root not checked is of this object.
  ghost predicate FirstOffOf(ns: seq<Node>, obj: nat) {
    exists k: nat :: FirstOff(ns, k) && ns[k].obj == obj
  }

  lemma CheckedOfIs(f: seq<Node>, ns: seq<Node>, obj: nat)
    requires Unique(f) && Attached(f, ns)
    ensures forall u :: u in CheckedIds(ns) ==> u in Ids(f)
    ensures SomeOf(f, CheckedIds(ns), obj) <==> CheckedOf(ns, obj)
  {
    hide Sub, Ids, Unique, KidMap, CheckedIds;
    forall u | u in Ids(ns)
      ensures u in CheckedIds(ns) <==> Sub(ns, u).checked
    {
      CheckedIdsAre(ns, u);
    }
  }

  // Loading remembers a check of every object with a node handed over as checked, and
  // otherwise that the first root not checked was unchecked. Nothing else is asked.
  lemma SeededRemembers(f: seq<Node>, x: Boxes, ns: seq<Node>, obj: nat)
    requires Unique(f) && Attached(f, ns) && Ids(f) <= x.marks.Keys + Ids(ns)
    ensures var y := Seeded(f, x, ns);
      if CheckedOf(ns, obj) then obj in y.memory && y.memory[obj]
      else if FirstOffOf(ns, obj) then obj in y.memory && !y.memory[obj]
      else Alike(y.memory, x.memory, obj)
  {
    hide Sub, Ids, Unique, KidMap, CheckedIds, CheckAll, Cascade, SomeOf, CheckedOf, FirstUnchecked;
    RootsInIds(ns);
    CheckedOfIs(f, ns, obj);
    var z := Started(f, Drawn(x, ns), ns);
    CheckAllRemembers(f, z, CheckedIds(ns), obj);
    var k := FirstIsOff(ns);
    if FirstUnchecked(ns).Some? {
      PathOfRoot(ns, ns[k]);
      assert z.memory == x.memory[ns[k].obj := false];
      if j: nat :| FirstOff(ns, j) && ns[j].obj == obj {
        assert !(j < k) && !(k < j);
      }
    } else {
      assert !FirstOffOf(ns, obj);
    }
  }

  // So does replacing the children of a node, or the whole forest: what is remembered
  // of every other object stays, even of those taken out.
  lemma LoadRemembers(t: Tree, parent: Option<nat>, d: seq<Node>, obj: nat)
    requires Wf(t) && HasParent(t, parent)
    ensures Unique(Render(d, t.next))
    ensures var ns := Render(d, t.next); var was, now := t.boxes.memory, Load(t, parent, d).boxes.memory;
      if CheckedOf(ns, obj) then obj in now && now[obj]
      else if FirstOffOf(ns, obj) then obj in now && !now[obj]
      else Alike(now, was, obj)
  {
    hide Sub, Ids, Unique, KidMap, Render, WithKidsAt, KidsAt, Seeded, CheckedOf, FirstOffOf, Alike, Size;
    var ns := Render(d, t.next);
    var g := WithKidsAt(t.data, parent, ns);
    LoadFits(t, parent, d);
    LoadNew(t, parent, d);
    var x := Kept(t.boxes, Ids(g));
    KeptCovers(t, parent, g, ns);
    SeededRemembers(g, x, ns, obj);
  }

  lemma KeptCovers(t: Tree, parent: Option<nat>, g: seq<Node>, ns: seq<Node>)
    requires Wf(t) && HasParent(t, parent) && Ids(g) == (Ids(t.data) - Ids(KidsAt(t.data, parent))) + Ids(ns)
    ensures Ids(g) <= Kept(t.boxes, Ids(g)).marks.Keys + Ids(ns)
  {
    hide KidsAt, Ids;
  }
}
