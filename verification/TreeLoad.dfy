// Loading and removing nodes: what the marks are afterwards.

module TreeLoad {
  import opened Common
  import opened TreeShape
  import opened TreeMarks
  import opened TreeCascade

  // The checkbox classes in the page, and what each node object remembers of
  // the last check asked of it.
  datatype Boxes = Boxes(marks: Marks, memory: map<nat, bool>)

  // Check or uncheck node c with cascading.
  ghost function CheckBox(f: seq<Node>, x: Boxes, c: nat, b: bool): (y: Boxes)
    requires Unique(f) && Covers(f, x.marks) && c in Ids(f)
    ensures y.marks.Keys == x.marks.Keys
  {
    Boxes(Cascade(f, x.marks, c, b), x.memory[Sub(f, c).obj := b])
  }

  ghost function CheckAll(f: seq<Node>, x: Boxes, us: seq<nat>): (y: Boxes)
    requires Unique(f) && Covers(f, x.marks) && forall u :: u in us ==> u in Ids(f)
    ensures y.marks.Keys == x.marks.Keys
  {
    if us == [] then x
    else
      CheckBox(f, CheckAll(f, x, us[..|us| - 1]), us[|us| - 1], true)
  }

  // The ids, in preorder, of the nodes handed over as checked.
  function CheckedIds(f: seq<Node>): (us: seq<nat>)
    ensures forall u :: u in us ==> u in Ids(f)
  {
    if f == [] then []
    else (if f[0].checked then [f[0].id] else []) + CheckedIds(f[0].kids) + CheckedIds(f[1..])
  }

  // The first root handed over as not checked.
  function FirstUnchecked(f: seq<Node>): (r: Option<nat>)
    ensures r.Some? ==> r.value in Roots(f)
    ensures r.None? ==> forall n :: n in f ==> n.checked
  {
    if f == [] then None
    else
      RootsCons(f);
      if !f[0].checked then Some(f[0].id) else FirstUnchecked(f[1..])
  }

  // The checkboxes once the nodes ns have been rendered, all unchecked.
  ghost function Drawn(x: Boxes, ns: seq<Node>): (y: Boxes)
    ensures y.marks.Keys == x.marks.Keys + Ids(ns)
  {
    Boxes(x.marks + AllUnchecked(Ids(ns)), x.memory)
  }

  ghost function AllUnchecked(ids: set<nat>): (m: Marks)
    ensures m.Keys == ids
  {
    map u | u in ids :: Unchecked
  }

  // What loading the nodes ns (already part of f) does to the checkboxes.
  ghost function Seeded(f: seq<Node>, x: Boxes, ns: seq<Node>): (y: Boxes)
    requires Unique(f) && Ids(ns) <= Ids(f) && Ids(f) <= x.marks.Keys + Ids(ns)
    ensures y.marks.Keys == x.marks.Keys + Ids(ns)
  {
    RootsInIds(ns);
    CheckAll(f, Started(f, Drawn(x, ns), ns), CheckedIds(ns))
  }

  // The first step: uncheck the first root handed over as not checked.
  ghost function Started(f: seq<Node>, x: Boxes, ns: seq<Node>): (y: Boxes)
    requires Unique(f) && Ids(ns) <= Ids(f) && Covers(f, x.marks)
    ensures y.marks.Keys == x.marks.Keys
  {
    RootsInIds(ns);
    var first := FirstUnchecked(ns);
    if first.Some? then CheckBox(f, x, first.value, false) else x
  }

  // The leaves of a handed-over forest that end up checked: those at or below a
  // node handed over as checked.
  ghost function Ticked(f: seq<Node>): set<nat> {
    if f == [] then {}
    else (if f[0].checked then Leaves([f[0]]) else Ticked(f[0].kids)) + Ticked(f[1..])
  }

  ghost predicate AllUnder(f: seq<Node>, m: Marks, c: nat, v: Mark)
    requires Covers(f, m) && Unique(f) && c in Ids(f)
  {
    SubFacts(f, c);
    forall x :: x in Ids(Sub(f, c).kids) ==> m[x] == v
  }

  ghost predicate NoneCheckedUnder(f: seq<Node>, m: Marks, c: nat)
    requires Covers(f, m) && Unique(f) && c in Ids(f)
  {
    SubFacts(f, c);
    forall x :: x in Ids(Sub(f, c).kids) ==> m[x] != Checked
  }

  // What re-checking node c after its children array has changed does.
  ghost function Refreshed(f: seq<Node>, x: Boxes, c: nat): (y: Boxes)
    requires Unique(f) && Covers(f, x.marks) && c in Ids(f)
    ensures y.marks.Keys == x.marks.Keys
  {
    if Sub(f, c).kids == [] then CheckBox(f, x, c, x.marks[c] == Checked)
    else if x.marks[c] == Checked then CheckBox(f, x, c, true)
    else if x.marks[c] == Partial then
      var y := if AllUnder(f, x.marks, c, Checked) then CheckBox(f, x, c, true) else x;
      if NoneCheckedUnder(f, x.marks, c) then CheckBox(f, y, c, false) else y
    else x
  }

  // ---------------------------------------------------------------- loading

  ghost predicate AboveSome(f: seq<Node>, us: seq<nat>, n: nat)
    requires forall u :: u in us ==> u in Ids(f)
  {
    exists u :: u in us && n in Path(f, u)
  }

  lemma AboveSomeLast(f: seq<Node>, us: seq<nat>, n: nat)
    requires us != [] && forall u :: u in us ==> u in Ids(f)
    ensures AboveSome(f, us, n) <==> AboveSome(f, us[..|us| - 1], n) || n in Path(f, us[|us| - 1])
  {
    var before, last := us[..|us| - 1], us[|us| - 1];
    assert us == before + [last] && last in us;
    if u :| u in us && n in Path(f, u) {
      assert u in before || u == last;
    }
  }

  // Checking nodes one after another repairs everything above them.
  lemma {:induction false} CheckAllOk(f: seq<Node>, x: Boxes, us: seq<nat>, bad: set<nat>)
    requires Unique(f) && Covers(f, x.marks) && forall u :: u in us ==> u in Ids(f)
    requires forall n :: n in Ids(f) ==> n in bad || Ok(f, x.marks, n)
    ensures forall n :: n in Ids(f) ==> (n in bad && !AboveSome(f, us, n)) || Ok(f, CheckAll(f, x, us).marks, n)
  {
    if us != [] {
      var before, last := us[..|us| - 1], us[|us| - 1];
      CheckAllOk(f, x, before, bad);
      var still := set n | n in bad && !AboveSome(f, before, n);
      CascadeOk(f, CheckAll(f, x, before).marks, last, true, still);
      forall n | n in Ids(f)
        ensures (n in bad && !AboveSome(f, us, n)) || Ok(f, CheckAll(f, x, us).marks, n)
      {
        AboveSomeLast(f, us, n);
      }
    }
  }

  ghost predicate UnderSome(f: seq<Node>, us: seq<nat>, n: nat)
    requires forall u :: u in us ==> u in Ids(f)
  {
    exists u :: u in us && n in Below(f, u)
  }

  lemma UnderSomeLast(f: seq<Node>, us: seq<nat>, n: nat)
    requires us != [] && forall u :: u in us ==> u in Ids(f)
    ensures UnderSome(f, us, n) <==> UnderSome(f, us[..|us| - 1], n) || n in Below(f, us[|us| - 1])
  {
    var before, last := us[..|us| - 1], us[|us| - 1];
    assert us == before + [last] && last in us;
    if u :| u in us && n in Below(f, u) {
      assert u in before || u == last;
    }
  }

  lemma {:induction false} CheckAllLeaf(f: seq<Node>, x: Boxes, us: seq<nat>, n: nat)
    requires Unique(f) && Covers(f, x.marks) && forall u :: u in us ==> u in Ids(f)
    requires n in Leaves(f)
    ensures n in Ids(f)
    ensures CheckAll(f, x, us).marks[n] == if UnderSome(f, us, n) then Checked else x.marks[n]
  {
    LeavesAreKidless(f);
    if us != [] {
      var before, last := us[..|us| - 1], us[|us| - 1];
      CheckAllLeaf(f, x, before, n);
      CascadeLeaves(f, CheckAll(f, x, before).marks, last, true);
      UnderSomeLast(f, us, n);
    }
  }

  lemma BelowCons(f: seq<Node>, u: nat)
    requires Unique(f) && u in Ids(f)
    ensures Below(f, u) ==
      if u == f[0].id then {u} + Ids(f[0].kids)
      else if u in Ids(f[0].kids) then Below(f[0].kids, u) else Below(f[1..], u)
    ensures Below(f, u) <=
      if u == f[0].id then {u} + Ids(f[0].kids)
      else if u in Ids(f[0].kids) then Ids(f[0].kids) else Ids(f[1..])
  {
    if u == f[0].id {
    } else if u in Ids(f[0].kids) {
      SubFacts(f[0].kids, u);
    } else {
      SubFacts(f[1..], u);
    }
  }

  ghost predicate BelowChecked(f: seq<Node>, x: nat) {
    exists u :: u in CheckedIds(f) && x in Below(f, u)
  }

  lemma BelowCheckedCons(f: seq<Node>, x: nat)
    requires Unique(f) && f != [] && x in Ids(f)
    ensures BelowChecked(f, x) <==>
      if x == f[0].id then f[0].checked
      else if x in Ids(f[0].kids) then f[0].checked || BelowChecked(f[0].kids, x)
      else BelowChecked(f[1..], x)
  {
    var n, rest := f[0], f[1..];
    if u :| u in CheckedIds(f) && x in Below(f, u) {
      BelowCons(f, u);
    }
    if n.checked && x in {n.id} + Ids(n.kids) {
      BelowCons(f, n.id);
      assert n.id in CheckedIds(f);
    }
    if u :| u in CheckedIds(n.kids) && x in Below(n.kids, u) {
      BelowCons(f, u);
      assert u in CheckedIds(f);
    }
    if u :| u in CheckedIds(rest) && x in Below(rest, u) {
      BelowCons(f, u);
      assert u in CheckedIds(f);
    }
  }

  // The ticked leaves are the leaves below some checked node.
  lemma {:induction false} TickedIsBelowChecked(f: seq<Node>, x: nat)
    requires Unique(f)
    ensures Ticked(f) <= Leaves(f) <= Ids(f)
    ensures x in Ticked(f) <==> x in Leaves(f) && BelowChecked(f, x)
  {
    LeavesAreKidless(f);
    if f != [] {
      var n, rest := f[0], f[1..];
      TickedIsBelowChecked(n.kids, x);
      TickedIsBelowChecked(rest, x);
      assert [n][1..] == [];
      assert Leaves([n]) == if n.kids == [] then {n.id} else Leaves(n.kids);
      if x in Leaves(f) {
        BelowCheckedCons(f, x);
      }
    }
  }

  // ns is part of f: its nodes are found in f just as they are in ns.
  ghost predicate Attached(f: seq<Node>, ns: seq<Node>)
    requires Unique(f)
  {
    && Unique(ns) && Ids(ns) <= Ids(f)
    && forall u :: u in Ids(ns) ==> Sub(f, u) == Sub(ns, u) && KidMap(f)[u] == KidMap(ns)[u]
  }

  // Freshly rendered nodes agree, all being unchecked.
  lemma FreshOk(f: seq<Node>, m: Marks, ns: seq<Node>, x: nat)
    requires Unique(f) && Attached(f, ns) && x in Ids(ns)
    requires forall u :: u in Ids(ns) ==> u in m && m[u] == Unchecked
    ensures Ok(f, m, x)
  {
    KidsAreIds(ns, x);
    var ks := KidMap(f)[x];
    assert ks != [] ==> ks[0] in ks;
  }

  lemma DrawnOk(f: seq<Node>, x: Boxes, ns: seq<Node>, bad: set<nat>)
    requires Unique(f) && Attached(f, ns) && Ids(f) <= x.marks.Keys + Ids(ns)
    requires forall n :: n in Ids(f) && n !in Ids(ns) ==> n in bad || Ok(f, Drawn(x, ns).marks, n)
    ensures forall n :: n in Ids(f) ==> n in bad || Ok(f, Drawn(x, ns).marks, n)
  {
    forall n | n in Ids(f)
      ensures n in bad || Ok(f, Drawn(x, ns).marks, n)
    {
      if n in Ids(ns) {
        FreshOk(f, Drawn(x, ns).marks, ns, n);
      }
    }
  }

  // Node n is an ancestor of every root of ns.
  ghost predicate AboveAll(f: seq<Node>, ns: seq<Node>, n: nat) {
    forall r :: r in Roots(ns) ==> r in Ids(f) && n in Path(f, r)
  }

  // After the first step nothing is wrong, unless all roots are to be checked.
  lemma StartedOk(f: seq<Node>, x: Boxes, ns: seq<Node>, bad: set<nat>)
    requires Unique(f) && Ids(ns) <= Ids(f) && Covers(f, x.marks)
    requires forall n :: n in Ids(f) ==> n in bad || Ok(f, x.marks, n)
    requires forall n :: n in bad ==> AboveAll(f, ns, n)
    ensures forall n :: n in Ids(f) ==>
      (FirstUnchecked(ns) == None && n in bad) || Ok(f, Started(f, x, ns).marks, n)
  {
    RootsInIds(ns);
    var first := FirstUnchecked(ns);
    if first.Some? {
      CascadeOk(f, x.marks, first.value, false, bad);
    }
  }

  lemma FirstRoot(ns: seq<Node>) returns (r: nat)
    requires ns != []
    ensures r in Roots(ns) && r in Ids(ns)
    ensures FirstUnchecked(ns) == None ==> r in CheckedIds(ns)
  {
    RootsInIds(ns);
    r := ns[0].id;
    assert Roots(ns)[0] == r;
    assert ns[0] in ns;
  }

  lemma SeededOk(f: seq<Node>, x: Boxes, ns: seq<Node>, bad: set<nat>)
    requires Unique(f) && Attached(f, ns) && ns != [] && Ids(f) <= x.marks.Keys + Ids(ns)
    requires forall n :: n in Ids(f) && n !in Ids(ns) ==> n in bad || Ok(f, Drawn(x, ns).marks, n)
    requires forall n :: n in bad ==> AboveAll(f, ns, n)
    ensures Good(f, Seeded(f, x, ns).marks)
  {
    var x0 := Drawn(x, ns);
    var us := CheckedIds(ns);
    DrawnOk(f, x, ns, bad);
    StartedOk(f, x0, ns, bad);
    var still := if FirstUnchecked(ns) == None then bad else {};
    CheckAllOk(f, Started(f, x0, ns), us, still);
    var m := Seeded(f, x, ns).marks;
    var r := FirstRoot(ns);
    forall n | n in Ids(f)
      ensures Ok(f, m, n)
    {
      if n in still {
        assert AboveAll(f, ns, n) && n in Path(f, r);
        assert AboveSome(f, us, n);
      }
    }
  }

  lemma StartedLeaf(f: seq<Node>, x: Boxes, ns: seq<Node>, n: nat)
    requires Unique(f) && Attached(f, ns) && Covers(f, x.marks) && n in Leaves(f)
    requires forall u :: u in Ids(ns) ==> x.marks[u] == Unchecked
    ensures n in Ids(f) && Started(f, x, ns).marks[n] == x.marks[n]
  {
    LeavesAreKidless(f);
    var first := FirstUnchecked(ns);
    RootsInIds(ns);
    if first.Some? {
      CascadeLeaves(f, x.marks, first.value, false);
      SubFacts(ns, first.value);
    }
  }

  lemma AttachedBelow(f: seq<Node>, ns: seq<Node>)
    requires Unique(f) && Attached(f, ns)
    ensures forall u :: u in Ids(ns) ==> Below(f, u) == Below(ns, u) && Below(f, u) <= Ids(ns)
    ensures forall x :: x in Ids(ns) ==> (x in Leaves(f) <==> x in Leaves(ns))
  {
    hide Sub, KidMap, Unique, Leaves, Ids;
    LeavesAreKidless(f);
    LeavesAreKidless(ns);
    forall u | u in Ids(ns)
      ensures Below(f, u) == Below(ns, u) && Below(f, u) <= Ids(ns)
    {
      SubFacts(ns, u);
    }
  }

  lemma SeededLeaf(f: seq<Node>, x: Boxes, ns: seq<Node>, n: nat)
    requires Unique(f) && Attached(f, ns) && Ids(f) <= x.marks.Keys + Ids(ns) && n in Leaves(f)
    ensures n in Ids(f)
    ensures Seeded(f, x, ns).marks[n] == if n in Ids(ns) then MarkOf(n in Ticked(ns)) else x.marks[n]
  {
    var x0 := Drawn(x, ns);
    LeavesAreKidless(f);
    StartedLeaf(f, x0, ns, n);
    CheckAllLeaf(f, Started(f, x0, ns), CheckedIds(ns), n);
    TickedIsBelowChecked(ns, n);
    AttachedBelow(f, ns);
  }

  // ---------------------------------------------------------------- re-checking a node

  // Nodes listed with one colour have it.
  lemma RootsShow(ks: seq<Node>, m: Marks, v: Mark)
    requires forall k :: k in Roots(ks) ==> k in m && m[k] == v
    ensures forall n :: n in ks ==> n.id in m && m[n.id] == v
  {
    forall i | 0 <= i < |ks|
      ensures ks[i].id in m && m[ks[i].id] == v
    {
      assert Roots(ks)[i] in Roots(ks);
    }
  }

  // An agreeing node that is not partial hands its colour down.
  lemma ParentColour(f: seq<Node>, m: Marks, v: Mark)
    requires f != [] && Unique(f) && Good(f, m) && v != Partial && m[f[0].id] == v
    ensures forall k :: k in f[0].kids ==> k.id in m && m[k.id] == v
  {
    var n := f[0];
    assert Ok(f, m, n.id) && KidMap(f)[n.id] == Roots(n.kids);
    RootsShow(n.kids, m, v);
  }

  // Agreeing nodes below roots of one colour all have that colour.
  lemma {:induction false} OneColourBelow(f: seq<Node>, m: Marks, v: Mark)
    requires Unique(f) && Good(f, m) && v != Partial
    requires forall n :: n in f ==> n.id in m && m[n.id] == v
    ensures forall x :: x in Ids(f) ==> m[x] == v
  {
    if f != [] {
      var n := f[0];
      GoodSplits(f, m);
      OneColourBelow(f[1..], m, v);
      ParentColour(f, m, v);
      OneColourBelow(n.kids, m, v);
    }
  }

  ghost predicate OkBut(f: seq<Node>, m: Marks, c: nat) {
    Covers(f, m) && forall x :: x in Ids(f) && x != c ==> Ok(f, m, x)
  }

  // The children that remain are a part of the ones c agreed with.
  ghost predicate Remnant(f: seq<Node>, m: Marks, c: nat)
    requires Unique(f) && Covers(f, m) && c in Ids(f)
  {
    KidsAreIds(f, c);
    m[c] != Partial ==> AllAre(KidMap(f)[c], m, m[c])
  }

  lemma KidsBelowGood(f: seq<Node>, m: Marks, c: nat)
    requires Unique(f) && c in Ids(f) && OkBut(f, m, c)
    ensures Unique(Sub(f, c).kids) && Good(Sub(f, c).kids, m)
  {
    SubFacts(f, c);
    var ks := Sub(f, c).kids;
    forall x | x in Ids(ks)
      ensures Ok(ks, m, x)
    {
      assert Ok(f, m, x);
    }
  }

  // All children in one colour means all descendants in that colour.
  lemma KidsColourAll(f: seq<Node>, m: Marks, c: nat, v: Mark)
    requires Unique(f) && c in Ids(f) && OkBut(f, m, c) && v != Partial
    requires forall k :: k in KidMap(f)[c] ==> k in m && m[k] == v
    ensures AllUnder(f, m, c, v)
  {
    SubFacts(f, c);
    var ks := Sub(f, c).kids;
    KidsBelowGood(f, m, c);
    RootsShow(ks, m, v);
    OneColourBelow(ks, m, v);
  }

  // A partial node whose remaining children are of one colour is repaired.
  lemma RefreshedPartialOk(f: seq<Node>, x: Boxes, c: nat)
    requires Unique(f) && c in Ids(f) && OkBut(f, x.marks, c)
    requires Sub(f, c).kids != [] && x.marks[c] == Partial
    ensures Good(f, Refreshed(f, x, c).marks)
  {
    var m := x.marks;
    KidsAreIds(f, c);
    SubFacts(f, c);
    PathBasics(f, c);
    NoChild(f, m, c);
    if AllUnder(f, m, c, Checked) {
      CascadeOk(f, m, c, true, {c});
    } else if NoneCheckedUnder(f, m, c) {
      CascadeOk(f, m, c, false, {c});
    } else {
      if AllAre(KidMap(f)[c], m, Checked) {
        KidsColourAll(f, m, c, Checked);
      }
      if AllAre(KidMap(f)[c], m, Unchecked) {
        KidsColourAll(f, m, c, Unchecked);
      }
      assert Ok(f, m, c);
    }
  }

  lemma RefreshedOk(f: seq<Node>, x: Boxes, c: nat)
    requires Unique(f) && c in Ids(f) && OkBut(f, x.marks, c) && Remnant(f, x.marks, c)
    ensures Good(f, Refreshed(f, x, c).marks)
  {
    var m := x.marks;
    if Sub(f, c).kids == [] {
      PathBasics(f, c);
      CascadeOk(f, m, c, m[c] == Checked, {c});
    } else if m[c] == Checked {
      PathBasics(f, c);
      CascadeOk(f, m, c, true, {c});
    } else if m[c] == Partial {
      RefreshedPartialOk(f, x, c);
    } else {
      SubFacts(f, c);
      KidsAreIds(f, c);
      assert KidMap(f)[c][0] in KidMap(f)[c];
      assert Ok(f, m, c);
    }
  }

  // With children, "all checked" and "none checked" exclude each other.
  lemma NoChild(f: seq<Node>, m: Marks, c: nat)
    requires Unique(f) && Covers(f, m) && c in Ids(f) && Sub(f, c).kids != []
    ensures !(AllUnder(f, m, c, Checked) && NoneCheckedUnder(f, m, c))
  {
    SubFacts(f, c);
    RootsInIds(Sub(f, c).kids);
    assert Sub(f, c).kids[0].id in Ids(Sub(f, c).kids);
  }

  // The leaf marks do not move when the leaves below c already have the colour painted.
  lemma SameLeaves(f: seq<Node>, x: Boxes, c: nat, b: bool)
    requires Unique(f) && c in Ids(f) && Covers(f, x.marks)
    requires forall n :: n in Leaves(f) && n in Below(f, c) ==> n in Ids(f) && (x.marks[n] == Checked <==> b)
    ensures CheckedLeaves(f, CheckBox(f, x, c, b).marks) == CheckedLeaves(f, x.marks)
  {
    LeavesAreKidless(f);
    CascadeLeaves(f, x.marks, c, b);
  }

  // Re-checking never changes which leaves are checked.
  lemma RefreshedLeaves(f: seq<Node>, x: Boxes, c: nat)
    requires Unique(f) && c in Ids(f) && OkBut(f, x.marks, c) && Remnant(f, x.marks, c)
    ensures CheckedLeaves(f, Refreshed(f, x, c).marks) == CheckedLeaves(f, x.marks)
  {
    hide KidMap, Sub, Ids, Unique, Leaves, CheckedLeaves;
    var m := x.marks;
    SubFacts(f, c);
    KidsAreIds(f, c);
    LeavesAreKidless(f);
    var ks := Sub(f, c).kids;
    NoKids(ks);
    if ks == [] {
      SameLeaves(f, x, c, m[c] == Checked);
    } else {
      NoChild(f, m, c);
      if m[c] == Checked {
        KidsColourAll(f, m, c, Checked);
        SameLeaves(f, x, c, true);
      } else if m[c] == Partial && AllUnder(f, m, c, Checked) {
        SameLeaves(f, x, c, true);
      } else if m[c] == Partial && NoneCheckedUnder(f, m, c) {
        SameLeaves(f, x, c, false);
      }
    }
  }
}
