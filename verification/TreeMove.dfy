// Inserting next to a sibling, and moving a subtree by drag and drop.

module TreeMove {
  import opened Common
  import opened TreeShape
  import opened TreeMarks
  import opened TreeCascade
  import opened TreeLoad
  import opened TreeGrow
  import opened TreeOps

  // The position of the node with the given id in an array, or its length.
  function IndexOf(ks: seq<Node>, id: nat): (i: nat)
    ensures i <= |ks|
    ensures i < |ks| ==> ks[i].id == id
    ensures forall j :: 0 <= j < i ==> ks[j].id != id
  {
    if ks == [] || ks[0].id == id then 0 else 1 + IndexOf(ks[1..], id)
  }

  function Spliced(ks: seq<Node>, ns: seq<Node>, at: nat): seq<Node>
    requires at <= |ks|
  {
    ks[..at] + ns + ks[at..]
  }

  // Where new siblings of ref go.
  function InsertAt(f: seq<Node>, ref: nat, before: bool): (at: nat)
    requires Unique(f) && ref in Ids(f)
    ensures (ParentListed(f, ref); at <= |KidsAt(f, Parent(f, ref))|)
  {
    ParentListed(f, ref);
    var i := IndexOf(KidsAt(f, Parent(f, ref)), ref);
    if before then i else i + 1
  }

  // Insert nodes right before or right after ref.
  ghost function Insert(t: Tree, ref: nat, before: bool, d: seq<Node>): Tree
    requires Wf(t) && ref in Ids(t.data)
  {
    ParentListed(t.data, ref);
    var parent := Parent(t.data, ref);
    var t1 := Append(t, parent, d);
    if d == [] then t1
    else t1.(data := WithKidsAt(t1.data, parent,
               Spliced(KidsAt(t.data, parent), Render(d, t.next), InsertAt(t.data, ref, before))))
  }

  ghost predicate SameElements(a: seq<nat>, b: seq<nat>) {
    forall k :: k in a <==> k in b
  }

  lemma SplicedFacts(ks: seq<Node>, ns: seq<Node>, at: nat)
    requires at <= |ks| && Unique(ks + ns)
    ensures var r := Spliced(ks, ns, at);
      && Unique(r) && Ids(r) == Ids(ks + ns)
      && (forall x :: x in Roots(r) <==> x in Roots(ks + ns))
      && (forall x :: x in Ids(r) ==> KidMap(r)[x] == KidMap(ks + ns)[x])
      && Roots(r) == Roots(ks)[..at] + Roots(ns) + Roots(ks)[at..]
  {
    var a, b := ks[..at], ks[at..];
    var r := Spliced(ks, ns, at);
    assert ks == a + b;
    IdsConcat(ks, ns);
    IdsConcat(a, b);
    IdsConcat(a + ns, b);
    IdsConcat(a, ns);
    RootsConcat(ks, ns);
    RootsConcat(a, b);
    RootsConcat(a + ns, b);
    RootsConcat(a, ns);
    forall x | x in Ids(r)
      ensures KidMap(r)[x] == KidMap(ks + ns)[x]
    {
      ConcatLookup(ks, ns, x);
      if x in Ids(ks) {
        ConcatLookup(a, b, x);
      }
      ConcatLookup(a + ns, b, x);
      if x in Ids(a + ns) {
        ConcatLookup(a, ns, x);
      }
    }
  }

  // The forest before the new nodes are put in place.
  lemma InsertShape(t: Tree, ref: nat, before: bool, d: seq<Node>)
    requires Wf(t) && ref in Ids(t.data) && d != []
    ensures Parent(t.data, ref).Some? ==> Parent(t.data, ref).value in Ids(t.data)
    ensures var parent := Parent(t.data, ref); var g := Extended(t, parent, d); var h := Insert(t, ref, before, d).data;
      && Append(t, parent, d).data == g
      && Unique(g) && Unique(h) && Ids(h) == Ids(g)
      && (forall x :: x in Ids(g) && Some(x) != parent ==> KidMap(h)[x] == KidMap(g)[x])
      && (parent.Some? ==> parent.value in Ids(g) && SameElements(KidMap(g)[parent.value], KidMap(h)[parent.value]))
  {
    ParentListed(t.data, ref);
    var f, parent, ns := t.data, Parent(t.data, ref), Render(d, t.next);
    var ks, g := KidsAt(f, parent), Extended(t, parent, d);
    FreshArray(t, parent, d);
    ExtendedFits(t, parent, d);
    WithKidsAtIds(f, parent, ks + ns);
    var r := Spliced(ks, ns, InsertAt(f, ref, before));
    SplicedFacts(ks, ns, InsertAt(f, ref, before));
    KidsAtFacts(g, parent);
    WithKidsAtIds(g, parent, r);
    forall x | x in Ids(g)
      ensures Some(x) != parent ==> KidMap(WithKidsAt(g, parent, r))[x] == KidMap(g)[x]
      ensures Some(x) == parent ==> KidMap(WithKidsAt(g, parent, r))[x] == Roots(r)
    {
      WithKidsAtMap(g, parent, r, x);
    }
  }

  // The order of the children does not matter to a mark.
  lemma OkReordered(g: seq<Node>, h: seq<Node>, m: Marks, x: nat)
    requires x in Ids(g) && x in Ids(h) && SameElements(KidMap(g)[x], KidMap(h)[x]) && Ok(g, m, x)
    ensures Ok(h, m, x) && (KidMap(h)[x] == [] <==> KidMap(g)[x] == [])
  {
    var a, b := KidMap(g)[x], KidMap(h)[x];
    assert a != [] ==> a[0] in b;
    assert b != [] ==> b[0] in a;
  }

  lemma ReorderedGood(g: seq<Node>, h: seq<Node>, m: Marks)
    requires Unique(g) && Unique(h) && Ids(h) == Ids(g) && Good(g, m)
    requires forall x :: x in Ids(g) ==> SameElements(KidMap(g)[x], KidMap(h)[x])
    ensures Good(h, m) && Leaves(h) == Leaves(g) <= Ids(g)
  {
    LeavesAreKidless(g);
    LeavesAreKidless(h);
    forall x | x in Ids(g)
      ensures Ok(h, m, x) && (KidMap(h)[x] == [] <==> KidMap(g)[x] == [])
    {
      OkReordered(g, h, m, x);
    }
  }

  // Inserting keeps the marks good, with the checked leaves of the append.
  lemma InsertMoves(t: Tree, ref: nat, before: bool, d: seq<Node>)
    requires Consistent(t) && ref in Ids(t.data) && d != []
    ensures Parent(t.data, ref).Some? ==> Parent(t.data, ref).value in Ids(t.data)
    ensures var t' := Insert(t, ref, before, d);
      && Consistent(t')
      && t'.boxes.marks == Rollup(t'.data, AppendPicks(t, Parent(t.data, ref), d))
  {
    ParentListed(t.data, ref);
    var parent := Parent(t.data, ref);
    var t1, t' := Append(t, parent, d), Insert(t, ref, before, d);
    InsertShape(t, ref, before, d);
    AppendMoves(t, parent, d);
    forall x | x in Ids(t1.data)
      ensures SameElements(KidMap(t1.data)[x], KidMap(t'.data)[x])
    {
      assert Some(x) != parent ==> KidMap(t'.data)[x] == KidMap(t1.data)[x];
    }
    ReorderedGood(t1.data, t'.data, t1.boxes.marks);
    RollupLeaves(t1.data, AppendPicks(t, parent, d));
    FromLeaves(t'.data, t'.boxes.marks, AppendPicks(t, parent, d));
  }

  // ---------------------------------------------------------------- drag and drop

  // The data of nodes as handed out: their "checked" flags brought up to date.
  ghost function Flagged(f: seq<Node>, m: Marks): (r: seq<Node>)
    requires Covers(f, m)
    ensures |r| == |f|
  {
    if f == [] then []
    else [Node(f[0].id, f[0].obj, m[f[0].id] == Checked, Flagged(f[0].kids, m))] + Flagged(f[1..], m)
  }

  ghost function Popped(t: Tree, id: nat): seq<Node>
    requires Wf(t) && id in Ids(t.data)
    ensures |Popped(t, id)| == 1
  {
    SubFacts(t.data, id);
    assert Ids([Sub(t.data, id)]) == Below(t.data, id) by {
      assert [Sub(t.data, id)][1..] == [];
    }
    Flagged([Sub(t.data, id)], t.boxes.marks)
  }

  lemma RemoveWf(t: Tree, id: nat)
    requires Wf(t) && id in Ids(t.data)
    ensures Wf(Remove(t, id)) && Ids(Remove(t, id).data) == Ids(t.data) - Below(t.data, id)
  {
    PrunedFits(t, id);
  }

  // Drop the dragged node next to ref, or as the last child of target.
  ghost function MoveNextTo(t: Tree, id: nat, ref: nat, before: bool): Tree
    requires Wf(t) && id in Ids(t.data) && ref in Ids(t.data) && ref !in Below(t.data, id)
  {
    RemoveWf(t, id);
    Insert(Remove(t, id), ref, before, Popped(t, id))
  }

  ghost function MoveInto(t: Tree, id: nat, target: nat): Tree
    requires Wf(t) && id in Ids(t.data) && target in Ids(t.data) && target !in Below(t.data, id)
  {
    RemoveWf(t, id);
    Append(Remove(t, id), Some(target), Popped(t, id))
  }

  // A forest reduced to its objects and their marks, in order.
  datatype Marked = Marked(obj: nat, mark: Mark, kids: seq<Marked>)

  ghost function MarkedBy(f: seq<Node>, m: Marks): (r: seq<Marked>)
    requires Covers(f, m)
    ensures |r| == |f|
  {
    if f == [] then []
    else [Marked(f[0].obj, m[f[0].id], MarkedBy(f[0].kids, m))] + MarkedBy(f[1..], m)
  }

  ghost function MarkedFrom(f: seq<Node>, s: set<nat>): (r: seq<Marked>)
    ensures |r| == |f|
  {
    if f == [] then []
    else [Marked(f[0].obj, Roll(f[0], s), MarkedFrom(f[0].kids, s))] + MarkedFrom(f[1..], s)
  }

  lemma {:induction false} MarkedAt(f: seq<Node>, m: Marks, g: seq<Node>, s: set<nat>, i: nat)
    requires Covers(f, m) && |f| == |g| && MarkedFrom(g, s) == MarkedBy(f, m) && i < |f|
    ensures f[i].id in m && m[f[i].id] == Roll(g[i], s)
  {
    var a, b := MarkedFrom(g, s), MarkedBy(f, m);
    assert a[0] == b[0] && a[1..] == b[1..];
    if i > 0 {
      MarkedAt(f[1..], m, g[1..], s, i - 1);
    }
  }

  // The two steps, handing out and rendering, in one.
  ghost function Again(f: seq<Node>, m: Marks, k: nat): (r: seq<Node>)
    requires Covers(f, m)
    ensures |r| == |f|
  {
    if f == [] then []
    else
      [Node(k, f[0].obj, m[f[0].id] == Checked, Again(f[0].kids, m, k + 1))]
      + Again(f[1..], m, k + 1 + Size(f[0].kids))
  }

  lemma {:induction false} AgainIsRender(f: seq<Node>, m: Marks, k: nat)
    requires Covers(f, m)
    ensures Again(f, m, k) == Render(Flagged(f, m), k) && Size(Flagged(f, m)) == Size(f)
  {
    if f != [] {
      var d := Flagged(f, m);
      assert d[1..] == Flagged(f[1..], m);
      AgainIsRender(f[0].kids, m, k + 1);
      AgainIsRender(f[1..], m, k + 1 + Size(f[0].kids));
    }
  }

  lemma AgainCons(f: seq<Node>, m: Marks, k: nat)
    requires f != [] && Covers(f, m)
    ensures var r := Again(f, m, k);
      var q := Again(f[0].kids, m, k + 1); var z := Again(f[1..], m, k + 1 + Size(f[0].kids));
      && r[0] == Node(k, f[0].obj, m[f[0].id] == Checked, q)
      && r[1..] == z
      && Leaves(r) == (if q == [] then {k} else Leaves(q)) + Leaves(z)
      && Ticked(r) == (if m[f[0].id] == Checked then (if q == [] then {k} else Leaves(q)) else Ticked(q)) + Ticked(z)
  {
    var r := Again(f, m, k);
    assert [r[0]][1..] == [];
    assert Leaves([r[0]]) == if r[0].kids == [] then {k} else Leaves(r[0].kids);
  }

  lemma {:induction false} AgainIds(f: seq<Node>, m: Marks, k: nat)
    requires Covers(f, m)
    ensures var r := Again(f, m, k);
      Ticked(r) <= Leaves(r) <= Ids(r) && forall x :: x in Ids(r) ==> k <= x < k + Size(f)
  {
    AgainIsRender(f, m, k);
    RenderFresh(Flagged(f, m), k);
    TickedIsBelowChecked(Again(f, m, k), 0);
  }

  // The ids of the first node, of its children and of the rest are apart.
  lemma AgainApart(f: seq<Node>, m: Marks, k: nat)
    requires f != [] && Covers(f, m)
    ensures var q := Again(f[0].kids, m, k + 1); var z := Again(f[1..], m, k + 1 + Size(f[0].kids));
      && k !in Leaves(q) && k !in Leaves(z) && k !in Ticked(z) && Leaves(q) !! Leaves(z)
      && Ticked(q) <= Leaves(q) && Ticked(z) <= Leaves(z) && (q == [] ==> Leaves(q) == {})
  {
    hide Again, Leaves, Ticked, Size;
    var mid := k + 1 + Size(f[0].kids);
    AgainLeaves(f[0].kids, m, k + 1, mid);
    AgainLeaves(f[1..], m, mid, mid + Size(f[1..]));
  }

  lemma AgainLeaves(f: seq<Node>, m: Marks, lo: nat, hi: nat)
    requires Covers(f, m) && hi == lo + Size(f)
    ensures var r := Again(f, m, lo);
      && Ticked(r) <= Leaves(r) && (forall x :: x in Leaves(r) ==> lo <= x < hi)
      && (r == [] ==> Leaves(r) == {})
  {
    AgainIds(f, m, lo);
  }

  // A subtree all checked hands out all its leaves as ticked.
  lemma {:induction false} AllTicked(f: seq<Node>, m: Marks, k: nat)
    requires Covers(f, m) && forall x :: x in Ids(f) ==> m[x] == Checked
    ensures Ticked(Again(f, m, k)) == Leaves(Again(f, m, k))
  {
    if f != [] {
      AgainCons(f, m, k);
      AllTicked(f[0].kids, m, k + 1);
      AllTicked(f[1..], m, k + 1 + Size(f[0].kids));
    }
  }

  // s picks exactly the ticked ones among the leaves of r.
  ghost predicate PicksTicked(r: seq<Node>, s: set<nat>) {
    Leaves(r) * s == Ticked(r)
  }

  lemma KidsOfChecked(f: seq<Node>, m: Marks)
    requires f != [] && Unique(f) && Good(f, m) && m[f[0].id] == Checked
    ensures forall x :: x in Ids(f[0].kids) ==> x in m && m[x] == Checked
  {
    GoodSplits(f, m);
    ParentColour(f, m, Checked);
    OneColourBelow(f[0].kids, m, Checked);
  }

  lemma PicksParts(f: seq<Node>, m: Marks, k: nat, s: set<nat>, next: nat)
    requires f != [] && next == k + 1 + Size(f[0].kids)
    requires Unique(f) && Good(f, m) && PicksTicked(Again(f, m, k), s)
    ensures PicksTicked(Again(f[0].kids, m, k + 1), s)
    ensures PicksTicked(Again(f[1..], m, next), s)
    ensures f[0].kids == [] ==> (k in s <==> m[f[0].id] == Checked)
  {
    hide Again, Leaves, Ticked;
    AgainCons(f, m, k);
    AgainApart(f, m, k);
    if m[f[0].id] == Checked {
      KidsOfChecked(f, m);
      AllTicked(f[0].kids, m, k + 1);
    }
  }

  // Handing nodes out and rendering them again brings back every mark.
  lemma {:induction false} RenderedMarks(f: seq<Node>, m: Marks, k: nat, s: set<nat>)
    requires Unique(f) && Good(f, m) && PicksTicked(Again(f, m, k), s)
    ensures MarkedFrom(Again(f, m, k), s) == MarkedBy(f, m)
    decreases f, 1
  {
    if f != [] {
      var next := k + 1 + Size(f[0].kids);
      RenderedKids(f, m, k, s);
      RenderedRest(f, m, k, s, next);
      PicksParts(f, m, k, s, next);
      RootMark(f, m, k, s);
      AssembleMarked(f, m, k, s, next);
    }
  }

  lemma {:induction false} RenderedKids(f: seq<Node>, m: Marks, k: nat, s: set<nat>)
    requires f != [] && Unique(f) && Good(f, m) && PicksTicked(Again(f, m, k), s)
    ensures MarkedFrom(Again(f[0].kids, m, k + 1), s) == MarkedBy(f[0].kids, m)
    decreases f, 0
  {
    PicksParts(f, m, k, s, k + 1 + Size(f[0].kids));
    GoodSplits(f, m);
    RenderedMarks(f[0].kids, m, k + 1, s);
  }

  lemma {:induction false} RenderedRest(f: seq<Node>, m: Marks, k: nat, s: set<nat>, next: nat)
    requires f != [] && next == k + 1 + Size(f[0].kids)
    requires Unique(f) && Good(f, m) && PicksTicked(Again(f, m, k), s)
    ensures MarkedFrom(Again(f[1..], m, next), s) == MarkedBy(f[1..], m)
    decreases f, 0
  {
    PicksParts(f, m, k, s, next);
    GoodSplits(f, m);
    RenderedMarks(f[1..], m, next, s);
  }

  lemma AssembleMarked(f: seq<Node>, m: Marks, k: nat, s: set<nat>, next: nat)
    requires f != [] && next == k + 1 + Size(f[0].kids)
    requires Covers(f, m)
    requires Roll(Again(f, m, k)[0], s) == m[f[0].id]
    requires MarkedFrom(Again(f[0].kids, m, k + 1), s) == MarkedBy(f[0].kids, m)
    requires MarkedFrom(Again(f[1..], m, next), s) == MarkedBy(f[1..], m)
    ensures MarkedFrom(Again(f, m, k), s) == MarkedBy(f, m)
  {
    var r := Again(f, m, k);
    AgainCons(f, m, k);
    assert MarkedFrom(r, s) == [Marked(r[0].obj, Roll(r[0], s), MarkedFrom(r[0].kids, s))] + MarkedFrom(r[1..], s);
  }

  lemma RootMark(f: seq<Node>, m: Marks, k: nat, s: set<nat>)
    requires f != [] && Unique(f) && Good(f, m)
    requires f[0].kids == [] ==> (k in s <==> m[f[0].id] == Checked)
    requires MarkedFrom(Again(f[0].kids, m, k + 1), s) == MarkedBy(f[0].kids, m)
    ensures Roll(Again(f, m, k)[0], s) == m[f[0].id]
  {
    hide Again, MarkedFrom, MarkedBy, Leaves, Ticked;
    var n := f[0];
    AgainCons(f, m, k);
    assert Ok(f, m, n.id) && KidMap(f)[n.id] == Roots(n.kids);
    NoKids(n.kids);
    var q := Again(n.kids, m, k + 1);
    if n.kids != [] {
      SameColours(n.kids, m, q, s, Checked);
      SameColours(n.kids, m, q, s, Unchecked);
    }
  }

  lemma SameColours(f: seq<Node>, m: Marks, q: seq<Node>, s: set<nat>, v: Mark)
    requires Covers(f, m) && |f| == |q| && MarkedFrom(q, s) == MarkedBy(f, m)
    ensures forall x :: x in Roots(f) ==> x in m
    ensures (forall x :: x in Roots(f) ==> m[x] == v) <==> (forall n :: n in q ==> Roll(n, s) == v)
  {
    RootsInIds(f);
    forall i | 0 <= i < |f|
      ensures m[f[i].id] == Roll(q[i], s) && q[i] in q && Roots(f)[i] == f[i].id && Roots(f)[i] in Roots(f)
    {
      MarkedAt(f, m, q, s, i);
    }
    if forall n :: n in q ==> Roll(n, s) == v {
      forall x | x in Roots(f)
        ensures m[x] == v
      {
        var i :| 0 <= i < |f| && Roots(f)[i] == x;
        assert q[i] in q;
      }
    }
  }

  lemma {:induction false} RollupIsRoll(f: seq<Node>, s: set<nat>, x: nat)
    requires Unique(f) && x in Ids(f)
    ensures Rollup(f, s)[x] == Roll(Sub(f, x), s)
  {
    if f[0].id == x {
    } else if x in Ids(f[0].kids) {
      RollupIsRoll(f[0].kids, s, x);
    } else {
      RollupIsRoll(f[1..], s, x);
    }
  }

  lemma {:induction false} RolledMarks(f: seq<Node>, m: Marks, s: set<nat>)
    requires Covers(f, m) && Unique(f)
    requires forall x :: x in Ids(f) ==> m[x] == Rollup(f, s)[x]
    ensures MarkedBy(f, m) == MarkedFrom(f, s)
  {
    if f != [] {
      RolledMarks(f[0].kids, m, s);
      RolledMarks(f[1..], m, s);
    }
  }

  // ---------------------------------------------------------------- what a move keeps

  // The objects of a forest with their multiplicity.
  ghost function Objects(f: seq<Node>): multiset<nat> {
    if f == [] then multiset{} else multiset{f[0].obj} + Objects(f[0].kids) + Objects(f[1..])
  }

  lemma {:induction false} ObjectsConcat(f: seq<Node>, g: seq<Node>)
    ensures Objects(f + g) == Objects(f) + Objects(g)
  {
    if f == [] {
      assert f + g == g;
    } else {
      assert (f + g)[0] == f[0] && (f + g)[1..] == f[1..] + g;
      ObjectsConcat(f[1..], g);
    }
  }

  lemma ObjectsCons(f: seq<Node>, n: Node, q: seq<Node>, z: seq<Node>)
    requires f != [] && f[0].obj == n.obj && f[0].kids == q && f[1..] == z
    ensures Objects(f) == multiset{n.obj} + Objects(q) + Objects(z)
  {
  }

  lemma {:induction false} ObjectsFlagged(f: seq<Node>, m: Marks)
    requires Covers(f, m)
    ensures Objects(Flagged(f, m)) == Objects(f)
  {
    if f != [] {
      ObjectsCons(Flagged(f, m), f[0], Flagged(f[0].kids, m), Flagged(f[1..], m));
      ObjectsFlagged(f[0].kids, m);
      ObjectsFlagged(f[1..], m);
    }
  }

  lemma {:induction false} ObjectsRender(d: seq<Node>, k: nat)
    ensures Objects(Render(d, k)) == Objects(d)
  {
    if d != [] {
      var next := k + 1 + Size(d[0].kids);
      ObjectsCons(Render(d, k), d[0], Render(d[0].kids, k + 1), Render(d[1..], next));
      ObjectsRender(d[0].kids, k + 1);
      ObjectsRender(d[1..], next);
    }
  }

  lemma Exchange(o: multiset<nat>, a': multiset<nat>, c: multiset<nat>,
                 out: multiset<nat>, a: multiset<nat>, into: multiset<nat>)
    requires a' + out == a + into
    ensures (o + a' + c) + out == (o + a + c) + into
    ensures (o + c + a') + out == (o + c + a) + into
  {
    forall x
      ensures (o + a' + c + out)[x] == (o + a + c + into)[x]
    {
      assert (a' + out)[x] == (a + into)[x];
    }
    assert o + c + a' == o + a' + c && o + c + a == o + a + c;
  }

  lemma {:induction false} ObjectsWithout(ks: seq<Node>, n: Node)
    requires Unique(ks) && n in ks
    ensures Objects(Without(ks, n.id)) + Objects([n]) == Objects(ks)
  {
    assert [n][1..] == [];
    if ks[0] == n {
    } else {
      var rest := ks[1..];
      RootsInIds(rest);
      assert n in rest;
      ObjectsWithout(rest, n);
      var r := Without(ks, n.id);
      assert r[0] == ks[0] && r[1..] == Without(rest, n.id);
    }
  }

  lemma {:induction false} ObjectsSetKids(f: seq<Node>, p: nat, ks: seq<Node>)
    requires Unique(f) && p in Ids(f)
    ensures Objects(SetKids(f, p, ks)) + Objects(Sub(f, p).kids) == Objects(f) + Objects(ks)
  {
    var n, rest, g, out := f[0], f[1..], SetKids(f, p, ks), Objects(Sub(f, p).kids);
    SetKidsCons(f, p, ks);
    ObjectsCons(g, n, g[0].kids, g[1..]);
    ObjectsCons(f, n, n.kids, rest);
    if n.id == p {
      SetKidsAbsent(rest, p, ks);
      Exchange(multiset{n.obj}, Objects(ks), Objects(rest), out, out, Objects(ks));
    } else if p in Ids(n.kids) {
      ObjectsSetKids(n.kids, p, ks);
      SetKidsAbsent(rest, p, ks);
      Exchange(multiset{n.obj}, Objects(SetKids(n.kids, p, ks)), Objects(rest), out, Objects(n.kids), Objects(ks));
    } else {
      SetKidsAbsent(n.kids, p, ks);
      ObjectsSetKids(rest, p, ks);
      Exchange(multiset{n.obj}, Objects(SetKids(rest, p, ks)), Objects(n.kids), out, Objects(rest), Objects(ks));
    }
  }

  lemma ObjectsWithKidsAt(f: seq<Node>, parent: Option<nat>, ks: seq<Node>)
    requires Unique(f) && (parent.Some? ==> parent.value in Ids(f))
    ensures Objects(WithKidsAt(f, parent, ks)) + Objects(KidsAt(f, parent)) == Objects(f) + Objects(ks)
  {
    if parent.Some? {
      ObjectsSetKids(f, parent.value, ks);
    }
  }

  lemma RemoveObjects(t: Tree, id: nat)
    requires Wf(t) && id in Ids(t.data)
    ensures Objects(Pruned(t, id)) + Objects([Sub(t.data, id)]) == Objects(t.data)
  {
    var parent := Parent(t.data, id);
    ParentListed(t.data, id);
    KidsAtFacts(t.data, parent);
    var ks, n := KidsAt(t.data, parent), Sub(t.data, id);
    var r := Without(ks, id);
    ObjectsWithKidsAt(t.data, parent, r);
    ObjectsWithout(ks, n);
    Cancel(Objects(Pruned(t, id)), Objects(r), Objects([n]), Objects(t.data));
  }

  lemma Cancel(g: multiset<nat>, r: multiset<nat>, n: multiset<nat>, f: multiset<nat>)
    requires g + (r + n) == f + r
    ensures g + n == f
  {
    forall x
      ensures (g + n)[x] == f[x]
    {
      assert (g + (r + n))[x] == (f + r)[x];
    }
  }

  lemma ObjectsSpliced(ks: seq<Node>, ns: seq<Node>, at: nat)
    requires at <= |ks|
    ensures Objects(Spliced(ks, ns, at)) == Objects(ks) + Objects(ns)
  {
    var a, b := ks[..at], ks[at..];
    assert ks == a + b;
    ObjectsConcat(a, b);
    ObjectsConcat(a + ns, b);
    ObjectsConcat(a, ns);
  }

  // Inserting is putting the spliced array in place of the old one.
  lemma InsertIsSplice(t: Tree, ref: nat, before: bool, d: seq<Node>)
    requires Wf(t) && ref in Ids(t.data) && d != []
    ensures Parent(t.data, ref).Some? ==> Parent(t.data, ref).value in Ids(t.data)
    ensures var parent := Parent(t.data, ref); var ks := KidsAt(t.data, parent); var ns := Render(d, t.next);
      var g := Extended(t, parent, d); var r := Spliced(ks, ns, InsertAt(t.data, ref, before));
      && Unique(g) && (parent.Some? ==> parent.value in Ids(g)) && KidsAt(g, parent) == ks + ns
      && Unique(ks) && Unique(r) && Fits(g, parent, r)
      && Insert(t, ref, before, d).data == WithKidsAt(g, parent, r)
  {
    ParentListed(t.data, ref);
    var f, parent, ns, at := t.data, Parent(t.data, ref), Render(d, t.next), InsertAt(t.data, ref, before);
    var ks := KidsAt(f, parent);
    FreshArray(t, parent, d);
    ExtendedFits(t, parent, d);
    WithKidsAtIds(f, parent, ks + ns);
    SplicedFacts(ks, ns, at);
    KidsAtFacts(Extended(t, parent, d), parent);
  }

  lemma InsertObjects(t: Tree, ref: nat, before: bool, d: seq<Node>)
    requires Wf(t) && ref in Ids(t.data) && d != []
    ensures Objects(Insert(t, ref, before, d).data) == Objects(t.data) + Objects(Render(d, t.next))
  {
    InsertIsSplice(t, ref, before, d);
    var f, parent, ns, at := t.data, Parent(t.data, ref), Render(d, t.next), InsertAt(t.data, ref, before);
    var ks, g := KidsAt(f, parent), Extended(t, parent, d);
    var h := WithKidsAt(g, parent, Spliced(ks, ns, at));
    ObjectsWithKidsAt(f, parent, ks + ns);
    ObjectsWithKidsAt(g, parent, Spliced(ks, ns, at));
    ObjectsConcat(ks, ns);
    ObjectsSpliced(ks, ns, at);
    Gain(Objects(f), Objects(g), Objects(h), Objects(ks), Objects(ns));
  }

  lemma Gain(f: multiset<nat>, g: multiset<nat>, h: multiset<nat>, ks: multiset<nat>, ns: multiset<nat>)
    requires g + ks == f + (ks + ns) && h + (ks + ns) == g + (ks + ns)
    ensures h == f + ns
  {
    forall x
      ensures h[x] == (f + ns)[x]
    {
      assert (g + ks)[x] == (f + (ks + ns))[x];
      assert (h + (ks + ns))[x] == (g + (ks + ns))[x];
    }
  }

  // The new nodes as found in the forest after an insert, and their siblings.
  lemma InsertPlaces(t: Tree, ref: nat, before: bool, d: seq<Node>)
    requires Wf(t) && ref in Ids(t.data) && d != []
    ensures Parent(t.data, ref).Some? ==> Parent(t.data, ref).value in Ids(t.data)
    ensures var parent := Parent(t.data, ref); var ns := Render(d, t.next); var h := Insert(t, ref, before, d).data;
      && Unique(h) && (parent.Some? ==> parent.value in Ids(h))
      && KidsAt(h, parent) == Spliced(KidsAt(t.data, parent), ns, InsertAt(t.data, ref, before))
  {
    InsertIsSplice(t, ref, before, d);
    var parent, ns, at := Parent(t.data, ref), Render(d, t.next), InsertAt(t.data, ref, before);
    WithKidsAtIds(Extended(t, parent, d), parent, Spliced(KidsAt(t.data, parent), ns, at));
  }

  lemma SplicedSub(ks: seq<Node>, ns: seq<Node>, at: nat, u: nat)
    requires at <= |ks| && Unique(Spliced(ks, ns, at)) && u in Ids(ns)
    ensures u in Ids(Spliced(ks, ns, at)) && Sub(Spliced(ks, ns, at), u) == Sub(ns, u)
  {
    var a, b := ks[..at], ks[at..];
    IdsConcat(a + ns, b);
    IdsConcat(a, ns);
    ConcatLookup(a + ns, b, u);
    ConcatLookup(a, ns, u);
  }

  lemma InsertFinds(t: Tree, ref: nat, before: bool, d: seq<Node>, u: nat)
    requires Wf(t) && ref in Ids(t.data) && d != [] && u in Ids(Render(d, t.next))
    ensures var h := Insert(t, ref, before, d).data;
      u in Ids(h) && Sub(h, u) == Sub(Render(d, t.next), u)
  {
    InsertIsSplice(t, ref, before, d);
    InsertPlaces(t, ref, before, d);
    var parent := Parent(t.data, ref);
    SplicedSub(KidsAt(t.data, parent), Render(d, t.next), InsertAt(t.data, ref, before), u);
    if parent.Some? {
      SubInside(Insert(t, ref, before, d).data, parent.value, u);
    }
  }

  // Old siblings lists other than the one at ref are untouched.
  lemma InsertElsewhere(t: Tree, ref: nat, before: bool, d: seq<Node>, x: nat)
    requires Wf(t) && ref in Ids(t.data) && d != [] && x in Ids(t.data) && Some(x) != Parent(t.data, ref)
    ensures var h := Insert(t, ref, before, d).data;
      x in Ids(h) && KidMap(h)[x] == KidMap(t.data)[x]
  {
    InsertShape(t, ref, before, d);
    ExtendedFits(t, Parent(t.data, ref), d);
    ExtendedOld(t, Parent(t.data, ref), d, x);
  }

  // The marks of a subtree whose nodes carry the marks computed from s.
  lemma SubtreeMarks(h: seq<Node>, m: Marks, ns: seq<Node>, s: set<nat>)
    requires Unique(h) && Unique(ns) && Ids(ns) <= Ids(h) && m == Rollup(h, s)
    requires forall u :: u in Ids(ns) ==> Sub(h, u) == Sub(ns, u)
    ensures MarkedBy(ns, m) == MarkedFrom(ns, s)
  {
    forall x | x in Ids(ns)
      ensures m[x] == Rollup(ns, s)[x]
    {
      RollupIsRoll(h, s, x);
      RollupIsRoll(ns, s, x);
    }
    RolledMarks(ns, m, s);
  }

  lemma OneNode(f: seq<Node>, m: Marks, id: nat)
    requires Unique(f) && Good(f, m) && id in Ids(f)
    ensures Unique([Sub(f, id)]) && Good([Sub(f, id)], m)
  {
    var n := Sub(f, id);
    SubFacts(f, id);
    OneNodeIds(n);
    forall x | x in Ids([n])
      ensures Ok([n], m, x)
    {
      OkMoves(f, m, [n], m, x) by {
        assert Ok(f, m, x);
        KidsAreIds(f, x);
      }
    }
  }

  lemma OneNodeIds(n: Node)
    ensures Ids([n]) == {n.id} + Ids(n.kids)
    ensures Unique(n.kids) && n.id !in Ids(n.kids) ==> Unique([n])
    ensures KidMap([n]) == map[n.id := Roots(n.kids)] + KidMap(n.kids)
  {
    assert [n][1..] == [];
  }

  // Whatever else is picked, the popped nodes come back with the marks they had.
  lemma PoppedMarks(t: Tree, id: nat, others: set<nat>)
    requires Consistent(t) && id in Ids(t.data)
    requires forall x :: x in others ==> x < t.next
    ensures var ns := Render(Popped(t, id), t.next);
      Covers([Sub(t.data, id)], t.boxes.marks) &&
      MarkedFrom(ns, others + Ticked(ns)) == MarkedBy([Sub(t.data, id)], t.boxes.marks)
  {
    hide Good, Render, Leaves, Ticked, MarkedFrom, MarkedBy;
    var n, m := Sub(t.data, id), t.boxes.marks;
    OneNode(t.data, m, id);
    AgainIsRender([n], m, t.next);
    AgainIds([n], m, t.next);
    var ns := Again([n], m, t.next);
    assert Leaves(ns) * (others + Ticked(ns)) == Ticked(ns);
    RenderedMarks([n], m, t.next, others + Ticked(ns));
  }

  // Dragging a node next to another keeps the tree consistent, gives the moved
  // nodes fresh dom ids, and keeps the moved subtree, all its marks and the objects.
  lemma MoveKeepsSubtree(t: Tree, id: nat, ref: nat, before: bool)
    requires Consistent(t) && id in Ids(t.data) && ref in Ids(t.data) && ref !in Below(t.data, id)
    ensures var t' := MoveNextTo(t, id, ref, before);
      && Consistent(t') && t.next in Ids(t'.data)
      && Covers([Sub(t'.data, t.next)], t'.boxes.marks) && Covers([Sub(t.data, id)], t.boxes.marks)
      && MarkedBy([Sub(t'.data, t.next)], t'.boxes.marks) == MarkedBy([Sub(t.data, id)], t.boxes.marks)
  {
    var d, t1, t' := Popped(t, id), Remove(t, id), MoveNextTo(t, id, ref, before);
    RemoveMoves(t, id);
    PrunedFits(t, id);
    var ns := Render(d, t.next);
    InsertMoves(t1, ref, before, d);
    var parent := Parent(t1.data, ref);
    var s := AppendPicks(t1, parent, d);
    var others := Picked(t1) - (if parent.Some? then {parent.value} else {});
    PickedFacts(t1, 0);
    PoppedMarks(t, id, others);
    RenderFresh(d, t.next);
    forall u | u in Ids(ns)
      ensures u in Ids(t'.data) && Sub(t'.data, u) == Sub(ns, u)
    {
      InsertFinds(t1, ref, before, d, u);
    }
    SubtreeMarks(t'.data, t'.boxes.marks, ns, s);
    assert ns == [ns[0]] && Sub(ns, t.next) == ns[0];
    RootsInIds(ns);
  }

  // ... and it puts the node at the place found by InsertAt, in an array that is
  // otherwise the one left by the removal.
  lemma MoveKeepsOrder(t: Tree, id: nat, ref: nat, before: bool)
    requires Consistent(t) && id in Ids(t.data) && ref in Ids(t.data) && ref !in Below(t.data, id)
    ensures var g := Pruned(t, id); var t' := MoveNextTo(t, id, ref, before);
      && Unique(g) && ref in Ids(g)
      && var parent := Parent(g, ref);
      && (parent.Some? ==> parent.value in Ids(g) && parent.value in Ids(t'.data))
      && var ks := Roots(KidsAt(g, parent)); var at := InsertAt(g, ref, before);
      && at <= |ks|
      && Roots(KidsAt(t'.data, parent)) == ks[..at] + [t.next] + ks[at..]
  {
    var d, t1, t', g := Popped(t, id), Remove(t, id), MoveNextTo(t, id, ref, before), Pruned(t, id);
    RemoveMoves(t, id);
    PrunedFits(t, id);
    InsertPlaces(t1, ref, before, d);
    ParentListed(g, ref);
    var parent, at, ns := Parent(g, ref), InsertAt(g, ref, before), Render(d, t.next);
    var ks := KidsAt(g, parent);
    RootsSpliced(ks, ns, at);
    FreshRoot(d, t.next);
  }

  lemma FreshRoot(d: seq<Node>, next: nat)
    requires |d| == 1
    ensures Roots(Render(d, next)) == [next]
  {
    RenderFresh(d, next);
  }

  // Every other array is the one left by the removal, and that only differs at the old parent.
  lemma MoveKeepsOthers(t: Tree, id: nat, ref: nat, before: bool, x: nat)
    requires Consistent(t) && id in Ids(t.data) && ref in Ids(t.data) && ref !in Below(t.data, id)
    requires x in Ids(t.data) && x !in Below(t.data, id)
    ensures var g := Pruned(t, id); var t' := MoveNextTo(t, id, ref, before);
      && ref in Ids(g) && x in Ids(g) && x in Ids(t'.data)
      && (Some(x) != Parent(g, ref) ==> KidMap(t'.data)[x] == KidMap(g)[x])
      && (Some(x) != Parent(t.data, id) ==> KidMap(g)[x] == KidMap(t.data)[x])
  {
    RemoveMoves(t, id);
    PrunedFits(t, id);
    PrunedMap(t, id);
    InsertShape(Remove(t, id), ref, before, Popped(t, id));
    ExtendedFits(Remove(t, id), Parent(Pruned(t, id), ref), Popped(t, id));
    if Some(x) != Parent(Pruned(t, id), ref) {
      InsertElsewhere(Remove(t, id), ref, before, Popped(t, id), x);
    }
  }

  // No node object is lost, duplicated or added.
  lemma MoveKeepsObjects(t: Tree, id: nat, ref: nat, before: bool)
    requires Consistent(t) && id in Ids(t.data) && ref in Ids(t.data) && ref !in Below(t.data, id)
    ensures Objects(MoveNextTo(t, id, ref, before).data) == Objects(t.data)
  {
    var d, n := Popped(t, id), Sub(t.data, id);
    RemoveMoves(t, id);
    PrunedFits(t, id);
    RemoveObjects(t, id);
    InsertObjects(Remove(t, id), ref, before, d);
    OneNode(t.data, t.boxes.marks, id);
    ObjectsFlagged([n], t.boxes.marks);
    ObjectsRender(d, t.next);
  }

  // Dropping a node on another keeps the tree consistent and keeps the moved
  // subtree with all its marks.
  lemma MoveIntoKeepsSubtree(t: Tree, id: nat, target: nat)
    requires Consistent(t) && id in Ids(t.data) && target in Ids(t.data) && target !in Below(t.data, id)
    ensures var t' := MoveInto(t, id, target);
      && Consistent(t') && t.next in Ids(t'.data)
      && Covers([Sub(t'.data, t.next)], t'.boxes.marks) && Covers([Sub(t.data, id)], t.boxes.marks)
      && MarkedBy([Sub(t'.data, t.next)], t'.boxes.marks) == MarkedBy([Sub(t.data, id)], t.boxes.marks)
  {
    var d, t1, t', parent := Popped(t, id), Remove(t, id), MoveInto(t, id, target), Some(target);
    RemoveMoves(t, id);
    PrunedFits(t, id);
    var ns := Render(d, t.next);
    AppendMoves(t1, parent, d);
    PickedFacts(t1, 0);
    PoppedMarks(t, id, Picked(t1) - {target});
    RenderFresh(d, t.next);
    ExtendedNew(t1, parent, d);
    SubtreeMarks(t'.data, t'.boxes.marks, ns, AppendPicks(t1, parent, d));
    assert ns == [ns[0]] && Sub(ns, t.next) == ns[0];
    RootsInIds(ns);
  }

  // The node becomes the last child of the target; every other array is the one
  // left by the removal, and that only differs at the old parent.
  lemma MoveIntoKeepsOthers(t: Tree, id: nat, target: nat, x: nat)
    requires Consistent(t) && id in Ids(t.data) && target in Ids(t.data) && target !in Below(t.data, id)
    requires x in Ids(t.data) && x !in Below(t.data, id)
    ensures var g := Pruned(t, id); var t' := MoveInto(t, id, target);
      && x in Ids(g) && x in Ids(t'.data)
      && KidMap(t'.data)[x] == KidMap(g)[x] + (if x == target then [t.next] else [])
      && (Some(x) != Parent(t.data, id) ==> KidMap(g)[x] == KidMap(t.data)[x])
  {
    var d := Popped(t, id);
    RemoveMoves(t, id);
    PrunedMap(t, id);
    ExtendedOld(Remove(t, id), Some(target), d, x);
    FreshRoot(d, t.next);
  }

  // No node object is lost, duplicated or added.
  lemma MoveIntoKeepsObjects(t: Tree, id: nat, target: nat)
    requires Consistent(t) && id in Ids(t.data) && target in Ids(t.data) && target !in Below(t.data, id)
    ensures Objects(MoveInto(t, id, target).data) == Objects(t.data)
  {
    var d, n, t1 := Popped(t, id), Sub(t.data, id), Remove(t, id);
    RemoveMoves(t, id);
    PrunedFits(t, id);
    RemoveObjects(t, id);
    AppendObjects(t1, Some(target), d);
    OneNode(t.data, t.boxes.marks, id);
    ObjectsFlagged([n], t.boxes.marks);
    ObjectsRender(d, t.next);
  }

  lemma AppendObjects(t: Tree, parent: Option<nat>, d: seq<Node>)
    requires Wf(t) && HasParent(t, parent)
    ensures Objects(Extended(t, parent, d)) == Objects(t.data) + Objects(Render(d, t.next))
  {
    var f, g, ns, ks := t.data, Extended(t, parent, d), Render(d, t.next), KidsAt(t.data, parent);
    ObjectsWithKidsAt(f, parent, ks + ns);
    ObjectsConcat(ks, ns);
    CancelKids(Objects(f), Objects(g), Objects(ks), Objects(ns));
  }

  lemma CancelKids(f: multiset<nat>, g: multiset<nat>, ks: multiset<nat>, ns: multiset<nat>)
    requires g + ks == f + (ks + ns)
    ensures g == f + ns
  {
    forall x
      ensures g[x] == (f + ns)[x]
    {
      assert (g + ks)[x] == (f + (ks + ns))[x];
    }
  }

  // That place is right before or right after the reference.
  lemma FoundAt(g: seq<Node>, ref: nat, before: bool)
    requires Unique(g) && ref in Ids(g)
    ensures Parent(g, ref).Some? ==> Parent(g, ref).value in Ids(g)
    ensures var ks := Roots(KidsAt(g, Parent(g, ref))); var at := InsertAt(g, ref, before);
      && at <= |ks|
      && if before then at < |ks| && ks[at] == ref else 0 < at && ks[at - 1] == ref
  {
    ParentListed(g, ref);
    var ks := KidsAt(g, Parent(g, ref));
    var i := IndexOf(ks, ref);
    var j :| 0 <= j < |ks| && ks[j] == Sub(g, ref);
    assert ks[j].id == ref;
  }

  lemma RootsSpliced(ks: seq<Node>, ns: seq<Node>, at: nat)
    requires at <= |ks|
    ensures Roots(Spliced(ks, ns, at)) == Roots(ks)[..at] + Roots(ns) + Roots(ks)[at..]
  {
  }
}
