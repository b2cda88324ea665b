// Three-valued checkbox marks over a forest and the cascade that keeps them.

module TreeMarks {
  import opened TreeShape

  // tree-checkbox0, tree-checkbox1 and tree-checkbox2.
  datatype Mark = Unchecked | Checked | Partial

  type Marks = map<nat, Mark>

  function MarkOf(b: bool): Mark {
    if b then Checked else Unchecked
  }

  ghost predicate AllAre(ids: seq<nat>, m: Marks, v: Mark)
    requires forall k :: k in ids ==> k in m
  {
    forall k :: k in ids ==> m[k] == v
  }

  // The mark a parent shows for its children.
  ghost function Combined(ids: seq<nat>, m: Marks): Mark
    requires forall k :: k in ids ==> k in m
  {
    if AllAre(ids, m, Checked) then Checked else if AllAre(ids, m, Unchecked) then Unchecked else Partial
  }

  ghost predicate Covers(f: seq<Node>, m: Marks) {
    Ids(f) <= m.Keys
  }

  // The mark of node x agrees with its children's; a childless node is not partial.
  ghost predicate Ok(f: seq<Node>, m: Marks, x: nat)
    requires x in Ids(f)
  {
    && x in m
    && (forall k :: k in KidMap(f)[x] ==> k in m)
    && if KidMap(f)[x] == [] then m[x] != Partial else m[x] == Combined(KidMap(f)[x], m)
  }

  ghost predicate Good(f: seq<Node>, m: Marks) {
    Covers(f, m) && forall x :: x in Ids(f) ==> Ok(f, m, x)
  }

  // ---------------------------------------------------------------- marks follow from the checked leaves

  ghost function CheckedLeaves(f: seq<Node>, m: Marks): set<nat>
    requires Covers(f, m) && Unique(f)
  {
    LeavesAreKidless(f);
    set x | x in Leaves(f) && m[x] == Checked
  }

  // The mark of a node, computed from scratch from a set of checked leaves.
  ghost function Roll(n: Node, s: set<nat>): Mark {
    if n.kids == [] then MarkOf(n.id in s)
    else if forall k :: k in n.kids ==> Roll(k, s) == Checked then Checked
    else if forall k :: k in n.kids ==> Roll(k, s) == Unchecked then Unchecked
    else Partial
  }

  // The marks of a whole forest, computed from scratch.
  ghost function Rollup(f: seq<Node>, s: set<nat>): Marks
    ensures Rollup(f, s).Keys == Ids(f)
  {
    if f == [] then map[] else map[f[0].id := Roll(f[0], s)] + Rollup(f[0].kids, s) + Rollup(f[1..], s)
  }

  // Restricted to a sub-forest the marks stay good.
  lemma GoodSplits(f: seq<Node>, m: Marks)
    requires f != [] && Unique(f) && Good(f, m)
    ensures Good(f[0].kids, m) && Good(f[1..], m)
  {
    forall x | x in Ids(f[0].kids)
      ensures Ok(f[0].kids, m, x)
    {
      assert Ok(f, m, x) && KidMap(f)[x] == KidMap(f[0].kids)[x];
    }
    forall x | x in Ids(f[1..])
      ensures Ok(f[1..], m, x)
    {
      assert Ok(f, m, x) && KidMap(f)[x] == KidMap(f[1..])[x];
    }
  }

  ghost predicate LeavesAgree(f: seq<Node>, m: Marks, s: set<nat>)
    requires Covers(f, m) && Unique(f)
  {
    LeavesAreKidless(f);
    forall x :: x in Leaves(f) ==> (x in s <==> m[x] == Checked)
  }

  lemma {:induction false} GoodIsRoll(f: seq<Node>, m: Marks, s: set<nat>)
    requires Unique(f) && Good(f, m) && LeavesAgree(f, m, s)
    ensures forall n :: n in f ==> n.id in m && m[n.id] == Roll(n, s)
  {
    if f != [] {
      var n := f[0];
      GoodSplits(f, m);
      LeavesAreKidless(f[1..]);
      GoodIsRoll(f[1..], m, s);
      assert Ok(f, m, n.id) && KidMap(f)[n.id] == Roots(n.kids);
      if n.kids == [] {
        assert n.id in Leaves(f);
      } else {
        LeavesAreKidless(n.kids);
        GoodIsRoll(n.kids, m, s);
        CombinedIsRoll(n, m, s);
      }
    }
  }

  lemma AllRootsAre(n: Node, m: Marks, s: set<nat>, v: Mark)
    requires forall k :: k in n.kids ==> k.id in m && m[k.id] == Roll(k, s)
    ensures forall x :: x in Roots(n.kids) ==> x in m
    ensures (forall x :: x in Roots(n.kids) ==> m[x] == v) <==> (forall k :: k in n.kids ==> Roll(k, s) == v)
  {
    var r := Roots(n.kids);
    forall i | 0 <= i < |n.kids|
      ensures r[i] == n.kids[i].id && n.kids[i] in n.kids && r[i] in r
    {
    }
    if forall x :: x in r ==> x in m && m[x] == v {
      forall k | k in n.kids
        ensures Roll(k, s) == v
      {
        assert k.id in r;
      }
    }
  }

  lemma CombinedIsRoll(n: Node, m: Marks, s: set<nat>)
    requires n.kids != []
    requires forall k :: k in n.kids ==> k.id in m && m[k.id] == Roll(k, s)
    ensures (forall x :: x in Roots(n.kids) ==> x in m) && Combined(Roots(n.kids), m) == Roll(n, s)
  {
    AllRootsAre(n, m, s, Checked);
    AllRootsAre(n, m, s, Unchecked);
  }

  lemma {:induction false} GoodIsRollupAt(f: seq<Node>, m: Marks, s: set<nat>, x: nat)
    requires Unique(f) && Good(f, m) && LeavesAgree(f, m, s) && x in Ids(f)
    ensures m[x] == Rollup(f, s)[x]
  {
    GoodSplits(f, m);
    LeavesAgreeSplits(f, m, s);
    if x == f[0].id {
      GoodIsRoll(f, m, s);
      assert f[0] in f;
    } else if x in Ids(f[0].kids) {
      GoodIsRollupAt(f[0].kids, m, s, x);
    } else {
      GoodIsRollupAt(f[1..], m, s, x);
    }
  }

  lemma LeavesAgreeSplits(f: seq<Node>, m: Marks, s: set<nat>)
    requires f != [] && Unique(f) && Covers(f, m) && LeavesAgree(f, m, s)
    ensures LeavesAgree(f[0].kids, m, s) && LeavesAgree(f[1..], m, s)
  {
    LeavesAreKidless(f);
    LeavesAreKidless(f[0].kids);
    LeavesAreKidless(f[1..]);
    if f[0].kids == [] {
      assert Leaves(f[0].kids) == {};
    }
  }

  // Good marks are a function of the set of checked leaves.
  lemma GoodIsRollup(f: seq<Node>, m: Marks, s: set<nat>)
    requires Unique(f) && Good(f, m) && LeavesAgree(f, m, s)
    ensures forall x :: x in Ids(f) ==> m[x] == Rollup(f, s)[x]
  {
    forall x | x in Ids(f)
      ensures m[x] == Rollup(f, s)[x]
    {
      GoodIsRollupAt(f, m, s, x);
    }
  }

  lemma {:induction false} RollupRoots(f: seq<Node>, s: set<nat>)
    requires Unique(f)
    ensures forall n :: n in f ==> n.id in Ids(f) && Rollup(f, s)[n.id] == Roll(n, s)
  {
    if f != [] {
      RollupRoots(f[1..], s);
      RootsInIds(f);
    }
  }

  // The marks computed from scratch are good ...
  lemma {:induction false} RollupIsGood(f: seq<Node>, s: set<nat>)
    requires Unique(f)
    ensures Good(f, Rollup(f, s))
  {
    if f != [] {
      var n, rest, m := f[0], f[1..], Rollup(f, s);
      RollupIsGood(n.kids, s);
      RollupIsGood(rest, s);
      forall x | x in Ids(f)
        ensures Ok(f, m, x)
      {
        if x == n.id {
          RollupRoots(n.kids, s);
          RootsInIds(n.kids);
          assert KidMap(f)[x] == Roots(n.kids);
          if n.kids != [] {
            CombinedIsRoll(n, m, s);
          }
        } else if x in Ids(n.kids) {
          KidsAreIds(n.kids, x);
          OkMoves(n.kids, Rollup(n.kids, s), f, m, x);
        } else {
          KidsAreIds(rest, x);
          OkMoves(rest, Rollup(rest, s), f, m, x);
        }
      }
    }
  }

  lemma KidsAreIds(f: seq<Node>, x: nat)
    requires Unique(f) && x in Ids(f)
    ensures forall c :: c in KidMap(f)[x] ==> c in Ids(f)
  {
    forall c | c in KidMap(f)[x]
      ensures c in Ids(f)
    {
      PathOfKid(f, x, c);
    }
  }

  // ... and their checked leaves are the given ones.
  lemma {:induction false} RollupLeaves(f: seq<Node>, s: set<nat>)
    requires Unique(f)
    ensures LeavesAgree(f, Rollup(f, s), s)
  {
    if f != [] {
      RollupLeaves(f[0].kids, s);
      RollupLeaves(f[1..], s);
      LeavesAreKidless(f);
      LeavesAreKidless(f[0].kids);
      LeavesAreKidless(f[1..]);
    }
  }

  // Ok only depends on the node's children list and on their marks.
  lemma OkMoves(f: seq<Node>, m: Marks, g: seq<Node>, m': Marks, x: nat)
    requires Unique(f) && x in Ids(f) && x in Ids(g) && Ok(f, m, x) && KidMap(g)[x] == KidMap(f)[x]
    requires x in m' && m'[x] == m[x]
    requires forall c :: c in KidMap(f)[x] ==> c in m' && m'[c] == m[c]
    ensures Ok(g, m', x)
  {
  }
}
