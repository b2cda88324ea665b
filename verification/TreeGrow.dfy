// Nodes added to a well-marked forest, in general: what loading and appending
// have in common.

module TreeGrow {
  import opened Common
  import opened TreeShape
  import opened TreeMarks
  import opened TreeCascade
  import opened TreeLoad

  // g has some of the nodes of f, marked as they were, and the new nodes ns below parent.
  ghost predicate Grown(f: seq<Node>, m: Marks, g: seq<Node>, x: Boxes, ns: seq<Node>, parent: Option<nat>) {
    && Unique(f) && Good(f, m) && Unique(g) && Attached(g, ns)
    && Ids(ns) !! Ids(f) && Ids(g) <= Ids(f) + Ids(ns) && x.marks.Keys == Ids(g) - Ids(ns)
    && (forall n :: n in Ids(g) && n !in Ids(ns) ==> x.marks[n] == m[n])
    && (forall n :: n in Ids(g) && n !in Ids(ns) && Some(n) != parent ==> KidMap(g)[n] == KidMap(f)[n])
    && (parent.Some? ==> parent.value in Ids(f) && parent.value in Ids(g))
    && (parent.Some? ==> forall r :: r in Roots(ns) ==> r in KidMap(g)[parent.value])
  }

  lemma GrownOthersOk(f: seq<Node>, m: Marks, g: seq<Node>, x: Boxes, ns: seq<Node>, parent: Option<nat>, n: nat)
    requires Grown(f, m, g, x, ns, parent)
    requires n in Ids(g) && n !in Ids(ns) && Some(n) != parent
    ensures Ok(g, Drawn(x, ns).marks, n)
  {
    KidsAreIds(f, n);
    KidsAreIds(g, n);
    OkMoves(f, m, g, Drawn(x, ns).marks, n);
  }

  lemma GrownAbove(f: seq<Node>, m: Marks, g: seq<Node>, x: Boxes, ns: seq<Node>, p: nat)
    requires Grown(f, m, g, x, ns, Some(p))
    ensures AboveAll(g, ns, p)
  {
    forall r | r in Roots(ns)
      ensures r in Ids(g) && p in Path(g, r)
    {
      PathOfKid(g, p, r);
      PathBasics(g, p);
    }
  }

  lemma GrownGood(f: seq<Node>, m: Marks, g: seq<Node>, x: Boxes, ns: seq<Node>, parent: Option<nat>)
    requires Grown(f, m, g, x, ns, parent) && ns != []
    ensures Good(g, Seeded(g, x, ns).marks)
  {
    var bad := if parent.Some? then {parent.value} else {};
    forall n | n in Ids(g) && n !in Ids(ns)
      ensures n in bad || Ok(g, Drawn(x, ns).marks, n)
    {
      if n !in bad {
        GrownOthersOk(f, m, g, x, ns, parent, n);
      }
    }
    forall n | n in bad
      ensures AboveAll(g, ns, n)
    {
      GrownAbove(f, m, g, x, ns, n);
    }
    SeededOk(g, x, ns, bad);
  }

  lemma NothingSeeded(g: seq<Node>, x: Boxes)
    requires Unique(g) && Covers(g, x.marks)
    ensures Drawn(x, []) == x && Seeded(g, x, []) == x
  {
    assert Drawn(x, []).marks == x.marks;
  }

  // With no new nodes, only the parent can be wrong.
  lemma GrownByNothing(f: seq<Node>, m: Marks, g: seq<Node>, x: Boxes, parent: Option<nat>)
    requires Grown(f, m, g, x, [], parent)
    ensures Seeded(g, x, []) == x
    ensures Good(g, x.marks) <==> (parent.Some? ==> Ok(g, x.marks, parent.value))
  {
    NothingSeeded(g, x);
    forall n | n in Ids(g) && Some(n) != parent
      ensures Ok(g, x.marks, n)
    {
      GrownOthersOk(f, m, g, x, [], parent, n);
    }
  }

  lemma GrownLeaf(f: seq<Node>, m: Marks, g: seq<Node>, x: Boxes, ns: seq<Node>, parent: Option<nat>, n: nat)
    requires Grown(f, m, g, x, ns, parent) && n in Leaves(g)
    ensures n in Ids(g)
    ensures n in Ids(ns) ==> n !in Ids(f) && Seeded(g, x, ns).marks[n] == MarkOf(n in Ticked(ns))
    ensures n !in Ids(ns) ==> n in Ids(f) && n !in Ticked(ns) && Seeded(g, x, ns).marks[n] == m[n]
    ensures n !in Ids(ns) && Some(n) != parent ==> n in Leaves(f)
  {
    LeavesAreKidless(f);
    LeavesAreKidless(g);
    SeededLeaf(g, x, ns, n);
    TickedIsBelowChecked(ns, n);
  }

  lemma GoodIsRemnant(f: seq<Node>, m: Marks, c: nat)
    requires Unique(f) && Good(f, m) && c in Ids(f)
    ensures OkBut(f, m, c) && Remnant(f, m, c)
  {
    KidsAreIds(f, c);
    assert Ok(f, m, c);
  }

  // Marks with the given checked leaves are the ones computed from scratch.
  lemma FromLeaves(f: seq<Node>, m: Marks, s: set<nat>)
    requires Unique(f) && Good(f, m) && m.Keys == Ids(f) && LeavesAgree(f, m, s)
    ensures m == Rollup(f, s)
  {
    GoodIsRollup(f, m, s);
  }

  // Re-checking a node ends in the marks computed from scratch.
  lemma RefreshedRollup(g: seq<Node>, x: Boxes, c: nat, s: set<nat>)
    requires Unique(g) && c in Ids(g) && x.marks.Keys == Ids(g)
    requires OkBut(g, x.marks, c) && Remnant(g, x.marks, c) && LeavesAgree(g, x.marks, s)
    ensures var y := Refreshed(g, x, c);
      Good(g, y.marks) && y.marks == Rollup(g, s)
  {
    var y := Refreshed(g, x, c);
    RefreshedOk(g, x, c);
    RefreshedLeaves(g, x, c);
    LeavesAreKidless(g);
    forall n | n in Leaves(g)
      ensures n in s <==> y.marks[n] == Checked
    {
      assert n in CheckedLeaves(g, y.marks) <==> n in CheckedLeaves(g, x.marks);
    }
    FromLeaves(g, y.marks, s);
  }
}
