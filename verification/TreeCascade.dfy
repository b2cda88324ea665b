// Checking and unchecking with cascading: down to every descendant, then up
// along the ancestors.

module TreeCascade {
  import opened Common
  import opened TreeShape
  import opened TreeMarks

  ghost function Painted(m: Marks, ids: set<nat>, v: Mark): Marks {
    map x | x in m :: if x in ids then v else m[x]
  }

  lemma ParentFacts(f: seq<Node>, c: nat)
    requires Unique(f) && c in Ids(f) && |Path(f, c)| >= 2
    ensures var p := Parent(f, c).value;
      && p in Ids(f) && |Path(f, p)| < |Path(f, c)| && forall k :: k in KidMap(f)[p] ==> k in Ids(f)
  {
    PathStep(f, c);
    KidsAreIds(f, Parent(f, c).value);
  }

  // The marks after every strict ancestor of c has been recomputed, nearest first.
  ghost function Climb(f: seq<Node>, m: Marks, c: nat): (m': Marks)
    requires Unique(f) && Covers(f, m) && c in Ids(f)
    ensures m'.Keys == m.Keys
    decreases |Path(f, c)|
  {
    if |Path(f, c)| < 2 then m
    else
      ParentFacts(f, c);
      var p := Parent(f, c).value;
      Climb(f, m[p := Combined(KidMap(f)[p], m)], p)
  }

  // The marks after checking (b) or unchecking (!b) node c.
  ghost function Cascade(f: seq<Node>, m: Marks, c: nat, b: bool): (m': Marks)
    requires Unique(f) && Covers(f, m) && c in Ids(f)
    ensures m'.Keys == m.Keys
  {
    Climb(f, Painted(m, Below(f, c), MarkOf(b)), c)
  }

  ghost function StrictAncestors(f: seq<Node>, c: nat): seq<nat>
    requires c in Ids(f)
  {
    PathBasics(f, c);
    Path(f, c)[..|Path(f, c)| - 1]
  }

  lemma AncestorsOfParent(f: seq<Node>, c: nat)
    requires Unique(f) && c in Ids(f) && |Path(f, c)| >= 2
    ensures var p := Parent(f, c).value;
      && p in Ids(f) && c in KidMap(f)[p]
      && Path(f, p) == StrictAncestors(f, c)
      && StrictAncestors(f, c) == StrictAncestors(f, p) + [p]
  {
    PathStep(f, c);
    var q := StrictAncestors(f, c);
    SplitLast(q);
  }

  lemma SplitLast<T>(q: seq<T>)
    requires q != []
    ensures q == q[..|q| - 1] + [q[|q| - 1]]
  {
  }

  // Only the parent lists a node among its children.
  lemma OnlyParentLists(f: seq<Node>, x: nat, c: nat)
    requires Unique(f) && x in Ids(f) && c in KidMap(f)[x]
    ensures c in Ids(f) && |Path(f, c)| >= 2 && Parent(f, c) == Some(x) && c != x
    ensures x in StrictAncestors(f, c)
  {
    PathOfKid(f, x, c);
    PathBasics(f, x);
    LastOfPrefix(Path(f, x), c, Path(f, c));
  }

  lemma LastOfPrefix<T>(p: seq<T>, c: T, q: seq<T>)
    requires p != [] && q == p + [c]
    ensures |q| >= 2 && q[|q| - 2] == p[|p| - 1] && q[..|q| - 1] == p && p[|p| - 1] in p && q != p
  {
  }

  // Recomputing one node leaves every other agreeing node agreeing, except its parent.
  lemma RecomputeOk(f: seq<Node>, m: Marks, p: nat, x: nat)
    requires Unique(f) && Covers(f, m) && p in Ids(f) && x in Ids(f) && KidMap(f)[p] != []
    requires forall k :: k in KidMap(f)[p] ==> k in m
    requires x == p || (Ok(f, m, x) && p !in KidMap(f)[x])
    ensures Ok(f, m[p := Combined(KidMap(f)[p], m)], x)
  {
    var m' := m[p := Combined(KidMap(f)[p], m)];
    if x == p {
      if p in KidMap(f)[p] {
        OnlyParentLists(f, p, p);
      }
      assert forall k :: k in KidMap(f)[p] ==> m'[k] == m[k];
    } else {
      OkMoves(f, m, f, m', x);
    }
  }

  // Climbing repairs every strict ancestor of c and harms nobody.
  lemma {:induction false} ClimbOk(f: seq<Node>, m: Marks, c: nat, bad: set<nat>)
    requires Unique(f) && Covers(f, m) && c in Ids(f)
    requires forall x :: x in Ids(f) ==> x in bad || x in StrictAncestors(f, c) || Ok(f, m, x)
    ensures forall x :: x in Ids(f) ==>
      (x in bad && x !in StrictAncestors(f, c)) || Ok(f, Climb(f, m, c), x)
    decreases |Path(f, c)|
  {
    if |Path(f, c)| >= 2 {
      AncestorsOfParent(f, c);
      var p := Parent(f, c).value;
      KidsAreIds(f, p);
      var m1 := m[p := Combined(KidMap(f)[p], m)];
      forall x | x in Ids(f)
        ensures x in bad - {p} || x in StrictAncestors(f, p) || Ok(f, m1, x)
      {
        if x == p || (Ok(f, m, x) && p !in KidMap(f)[x]) {
          RecomputeOk(f, m, p, x);
        } else if p in KidMap(f)[x] {
          OnlyParentLists(f, x, p);
        }
      }
      ClimbOk(f, m1, p, bad - {p});
    }
  }

  lemma {:induction false} ClimbFrame(f: seq<Node>, m: Marks, c: nat)
    requires Unique(f) && Covers(f, m) && c in Ids(f)
    ensures forall x :: x in m && x !in StrictAncestors(f, c) ==> Climb(f, m, c)[x] == m[x]
    decreases |Path(f, c)|
  {
    if |Path(f, c)| >= 2 {
      AncestorsOfParent(f, c);
      var p := Parent(f, c).value;
      KidsAreIds(f, p);
      ClimbFrame(f, m[p := Combined(KidMap(f)[p], m)], p);
    }
  }

  // A subtree is closed under children, and only its root is listed from outside.
  lemma BelowClosed(f: seq<Node>, c: nat, x: nat, k: nat)
    requires Unique(f) && c in Ids(f) && x in Ids(f) && k in KidMap(f)[x]
    ensures k in Ids(f)
    ensures x in Below(f, c) ==> k in Below(f, c)
    ensures k in Below(f, c) && k != c ==> x in Below(f, c)
    ensures k == c ==> x in StrictAncestors(f, c)
  {
    PathOfKid(f, x, k);
    BelowIsPath(f, c, x);
    BelowIsPath(f, c, k);
    OnlyParentLists(f, x, k);
  }

  // Painting a subtree in one colour makes all of it agree.
  lemma PaintedOk(f: seq<Node>, m: Marks, c: nat, b: bool, x: nat)
    requires Unique(f) && Covers(f, m) && c in Ids(f) && x in Ids(f)
    requires x in Below(f, c) || (Ok(f, m, x) && x !in StrictAncestors(f, c))
    ensures Ok(f, Painted(m, Below(f, c), MarkOf(b)), x)
  {
    var m' := Painted(m, Below(f, c), MarkOf(b));
    KidsAreIds(f, x);
    forall k | k in KidMap(f)[x]
      ensures if x in Below(f, c) then k in Below(f, c) else k !in Below(f, c)
    {
      BelowClosed(f, c, x, k);
    }
    if x in Below(f, c) {
      var ks := KidMap(f)[x];
      assert AllAre(ks, m', MarkOf(b));
      assert ks != [] ==> ks[0] in ks;
    } else {
      OkMoves(f, m, f, m', x);
    }
  }

  // After a cascade from c everything agrees but the nodes that were wrong
  // before and are neither above nor below c.
  lemma CascadeOk(f: seq<Node>, m: Marks, c: nat, b: bool, bad: set<nat>)
    requires Unique(f) && Covers(f, m) && c in Ids(f)
    requires forall x :: x in Ids(f) ==> x in bad || Ok(f, m, x)
    ensures forall x :: x in Ids(f) ==>
      (x in bad && x !in Path(f, c) && x !in Below(f, c)) || Ok(f, Cascade(f, m, c, b), x)
  {
    var m1 := Painted(m, Below(f, c), MarkOf(b));
    var bad1 := bad - Below(f, c);
    forall x | x in Ids(f)
      ensures x in bad1 || x in StrictAncestors(f, c) || Ok(f, m1, x)
    {
      if x in Below(f, c) || (Ok(f, m, x) && x !in StrictAncestors(f, c)) {
        PaintedOk(f, m, c, b, x);
      }
    }
    ClimbOk(f, m1, c, bad1);
    forall x | x in Ids(f)
      ensures (x in bad && x !in Path(f, c) && x !in Below(f, c)) || Ok(f, Cascade(f, m, c, b), x)
    {
      PathBasics(f, c);
      SplitLast(Path(f, c));
    }
  }

  lemma AncestorsHaveKids(f: seq<Node>, c: nat, x: nat)
    requires Unique(f) && c in Ids(f) && x in StrictAncestors(f, c)
    ensures x in Ids(f) && KidMap(f)[x] != []
    decreases |Path(f, c)|
  {
    AncestorsOfParent(f, c);
    var p := Parent(f, c).value;
    if x != p {
      AncestorsHaveKids(f, p, x);
    }
  }

  // A cascade sets exactly the leaves below c.
  lemma CascadeLeaves(f: seq<Node>, m: Marks, c: nat, b: bool)
    requires Unique(f) && Covers(f, m) && c in Ids(f)
    ensures var m' := Cascade(f, m, c, b);
      && CheckedLeaves(f, m') ==
           (if b then CheckedLeaves(f, m) + Leaves([Sub(f, c)]) else CheckedLeaves(f, m) - Leaves([Sub(f, c)]))
      && forall x :: x in Leaves(f) ==> x in m' && m'[x] == if x in Below(f, c) then MarkOf(b) else m[x]
  {
    var m1 := Painted(m, Below(f, c), MarkOf(b));
    ClimbFrame(f, m1, c);
    LeavesAreKidless(f);
    forall x | x in Leaves(f)
      ensures x !in StrictAncestors(f, c)
      ensures x in Below(f, c) <==> x in Leaves([Sub(f, c)])
    {
      if x in StrictAncestors(f, c) {
        AncestorsHaveKids(f, c, x);
      }
      SubLeaves(f, c, x);
    }
    forall x | x in Leaves([Sub(f, c)])
      ensures x in Leaves(f)
    {
      SubLeaves(f, c, x);
    }
  }

  lemma SubLeaves(f: seq<Node>, c: nat, x: nat)
    requires Unique(f) && c in Ids(f)
    ensures x in Leaves([Sub(f, c)]) <==> x in Leaves(f) && x in Below(f, c)
  {
    hide Leaves, Unique, KidMap, Sub, Ids;
    var n := Sub(f, c);
    SubFacts(f, c);
    LeavesAreKidless(f);
    LeavesAreKidless(n.kids);
    LeavesOne(n);
    NoKids(n.kids);
  }

  lemma LeavesOne(n: Node)
    ensures Leaves([n]) == if n.kids == [] then {n.id} else Leaves(n.kids)
  {
    assert [n][1..] == [];
  }

  lemma NoKids(ks: seq<Node>)
    ensures ks == [] <==> Roots(ks) == []
    ensures ks == [] ==> Ids(ks) == {}
  {
    assert ks != [] ==> Roots(ks)[0] == ks[0].id;
  }

  // Checking a node in a well-marked tree: the marks are those of the old
  // checked leaves plus (or minus) the leaves below the node.
  lemma CheckAddsLeaves(f: seq<Node>, m: Marks, c: nat, b: bool)
    requires Unique(f) && Good(f, m) && c in Ids(f)
    ensures var m' := Cascade(f, m, c, b);
      && Good(f, m')
      && var s := CheckedLeaves(f, m);
      && var l := Leaves([Sub(f, c)]);
      forall x :: x in Ids(f) ==> m'[x] == Rollup(f, if b then s + l else s - l)[x]
  {
    var m' := Cascade(f, m, c, b);
    CascadeOk(f, m, c, b, {});
    CascadeLeaves(f, m, c, b);
    LeavesAreKidless(f);
    GoodIsRollup(f, m', CheckedLeaves(f, m'));
  }
}
