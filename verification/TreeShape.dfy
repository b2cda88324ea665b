// The forest behind the tree widget: node objects with dom ids, and the
// functions that find, number and replace parts of it.

module TreeShape {
  import opened Common

  // A node object: its dom id, the identity of the object, the "checked" flag it
  // carried when it was handed to the widget, and its children array.
  datatype Node = Node(id: nat, obj: nat, checked: bool, kids: seq<Node>)

  function Ids(f: seq<Node>): set<nat> {
    if f == [] then {} else {f[0].id} + Ids(f[0].kids) + Ids(f[1..])
  }

  // All dom ids are distinct.
  ghost predicate Unique(f: seq<Node>) {
    f != [] ==>
      && f[0].id !in Ids(f[0].kids) && f[0].id !in Ids(f[1..]) && Ids(f[0].kids) !! Ids(f[1..])
      && Unique(f[0].kids) && Unique(f[1..])
  }

  function Roots(f: seq<Node>): seq<nat> {
    seq(|f|, i requires 0 <= i < |f| => f[i].id)
  }

  // Each node id with the ids of its children.
  ghost function KidMap(f: seq<Node>): map<nat, seq<nat>>
    ensures KidMap(f).Keys == Ids(f)
  {
    if f == [] then map[] else map[f[0].id := Roots(f[0].kids)] + KidMap(f[0].kids) + KidMap(f[1..])
  }

  // The preorder of a forest.
  ghost function Flat(f: seq<Node>): seq<Node> {
    if f == [] then [] else [f[0]] + Flat(f[0].kids) + Flat(f[1..])
  }

  // The first node in preorder with the given id.
  function Sub(f: seq<Node>, id: nat): Node
    requires id in Ids(f)
  {
    if f[0].id == id then f[0]
    else if id in Ids(f[0].kids) then Sub(f[0].kids, id)
    else Sub(f[1..], id)
  }

  // The ids from a root down to the given node.
  function Path(f: seq<Node>, id: nat): seq<nat>
    requires id in Ids(f)
  {
    if f[0].id == id then [id]
    else if id in Ids(f[0].kids) then [f[0].id] + Path(f[0].kids, id)
    else Path(f[1..], id)
  }

  function Parent(f: seq<Node>, id: nat): Option<nat>
    requires id in Ids(f)
  {
    var p := Path(f, id);
    if |p| < 2 then None else Some(p[|p| - 2])
  }

  function Leaves(f: seq<Node>): set<nat> {
    if f == [] then {}
    else (if f[0].kids == [] then {f[0].id} else Leaves(f[0].kids)) + Leaves(f[1..])
  }

  // ---------------------------------------------------------------- basic facts

  lemma {:induction false} FlatConcat(f: seq<Node>, g: seq<Node>)
    ensures Flat(f + g) == Flat(f) + Flat(g)
  {
    if f == [] {
      assert f + g == g;
    } else {
      assert (f + g)[0] == f[0] && (f + g)[1..] == f[1..] + g;
      FlatConcat(f[1..], g);
    }
  }

  lemma {:induction false} FlatIds(f: seq<Node>)
    ensures forall x :: x in Ids(f) <==> exists n :: n in Flat(f) && n.id == x
    ensures forall n :: n in Flat(f) ==> n.id in Ids(f)
  {
    if f != [] {
      FlatIds(f[0].kids);
      FlatIds(f[1..]);
      forall x | x in Ids(f)
        ensures exists n :: n in Flat(f) && n.id == x
      {
        if x == f[0].id {
          assert f[0] in Flat(f);
        } else if x in Ids(f[0].kids) {
          var n :| n in Flat(f[0].kids) && n.id == x;
          assert n in Flat(f);
        } else {
          var n :| n in Flat(f[1..]) && n.id == x;
          assert n in Flat(f);
        }
      }
    }
  }

  lemma {:induction false} IdsConcat(f: seq<Node>, g: seq<Node>)
    ensures Ids(f + g) == Ids(f) + Ids(g)
    ensures Unique(f + g) <==> Unique(f) && Unique(g) && Ids(f) !! Ids(g)
  {
    if f == [] {
      assert f + g == g;
    } else {
      assert (f + g)[0] == f[0] && (f + g)[1..] == f[1..] + g;
      IdsConcat(f[1..], g);
    }
  }

  lemma {:induction false} RootsInIds(f: seq<Node>)
    ensures forall n :: n in f ==> n.id in Ids(f)
    ensures forall x :: x in Roots(f) ==> x in Ids(f)
  {
    if f != [] {
      RootsInIds(f[1..]);
      forall n | n in f
        ensures n.id in Ids(f)
      {
        assert n == f[0] || n in f[1..];
      }
    }
  }

  lemma RootsCons(f: seq<Node>)
    requires f != []
    ensures Roots(f) == [f[0].id] + Roots(f[1..])
  {
  }

  lemma RootsConcat(f: seq<Node>, g: seq<Node>)
    ensures Roots(f + g) == Roots(f) + Roots(g)
  {
  }

  lemma OneMore(n: Node, rest: seq<Node>)
    requires Unique(n.kids) && Unique(rest) && n.id !in Ids(n.kids) && n.id !in Ids(rest) && Ids(n.kids) !! Ids(rest)
    ensures Ids([n] + rest) == {n.id} + Ids(n.kids) + Ids(rest) && Unique([n] + rest)
    ensures KidMap([n] + rest) == map[n.id := Roots(n.kids)] + KidMap(n.kids) + KidMap(rest)
  {
    var f := [n] + rest;
    assert f[0] == n && f[1..] == rest;
  }

  // ---------------------------------------------------------------- paths

  lemma {:induction false} PathBasics(f: seq<Node>, id: nat)
    requires id in Ids(f)
    ensures var p := Path(f, id); |p| > 0 && p[|p| - 1] == id && forall x :: x in p ==> x in Ids(f)
  {
    if f[0].id == id {
    } else if id in Ids(f[0].kids) {
      PathBasics(f[0].kids, id);
    } else {
      PathBasics(f[1..], id);
    }
  }

  lemma {:induction false} PathOfRoot(f: seq<Node>, n: Node)
    requires Unique(f) && n in f
    ensures n.id in Ids(f) && Path(f, n.id) == [n.id] && Sub(f, n.id) == n
  {
    RootsInIds(f);
    if n != f[0] {
      assert n in f[1..];
      RootsInIds(f[1..]);
      PathOfRoot(f[1..], n);
    }
  }

  lemma RootsMember(f: seq<Node>, c: nat) returns (n: Node)
    requires c in Roots(f)
    ensures n in f && n.id == c
  {
    var i :| 0 <= i < |f| && Roots(f)[i] == c;
    n := f[i];
  }

  // A child's path is its parent's path and the child itself.
  lemma {:induction false} PathOfKid(f: seq<Node>, x: nat, c: nat)
    requires Unique(f) && x in Ids(f) && c in KidMap(f)[x]
    ensures c in Ids(f) && Path(f, c) == Path(f, x) + [c]
  {
    var n, rest := f[0], f[1..];
    if x == n.id {
      assert KidMap(f)[x] == Roots(n.kids);
      var k := RootsMember(n.kids, c);
      PathOfRoot(n.kids, k);
    } else if x in Ids(n.kids) {
      assert KidMap(f)[x] == KidMap(n.kids)[x];
      PathOfKid(n.kids, x, c);
    } else {
      assert KidMap(f)[x] == KidMap(rest)[x];
      PathOfKid(rest, x, c);
    }
  }

  // Every node but a root is a child of the node before it on its path.
  lemma {:induction false} PathStep(f: seq<Node>, c: nat)
    requires Unique(f) && c in Ids(f) && |Path(f, c)| >= 2
    ensures var p := Path(f, c); var x := p[|p| - 2];
      x in Ids(f) && c in KidMap(f)[x] && Path(f, x) == p[..|p| - 1]
    decreases f, 1
  {
    var n := f[0];
    if c in Ids(n.kids) {
      PathStepInFirst(f, c);
    } else {
      PathStep(f[1..], c);
      var p := Path(f[1..], c);
      assert KidMap(f)[p[|p| - 2]] == KidMap(f[1..])[p[|p| - 2]];
    }
  }

  lemma {:induction false} PathStepInFirst(f: seq<Node>, c: nat)
    requires Unique(f) && f != [] && c in Ids(f[0].kids)
    ensures |Path(f, c)| >= 2
    ensures var p := Path(f, c); var x := p[|p| - 2];
      x in Ids(f) && c in KidMap(f)[x] && Path(f, x) == p[..|p| - 1]
    decreases f, 0
  {
    hide Path, KidMap;
    PathBasics(f[0].kids, c);
    PathCons(f, c);
    if |Path(f[0].kids, c)| == 1 {
      PathRootOnly(f[0].kids, c);
      KidMapCons(f, f[0].id);
      PathHere(f);
    } else {
      PathStep(f[0].kids, c);
      var q := Path(f[0].kids, c);
      PathStepLifted(f, c, q, q[|q| - 2]);
    }
  }

  lemma PathHere(f: seq<Node>)
    requires f != []
    ensures Path(f, f[0].id) == [f[0].id]
  {
  }

  lemma PathStepLifted(f: seq<Node>, c: nat, q: seq<nat>, x: nat)
    requires Unique(f) && f != [] && c in Ids(f[0].kids) && q == Path(f[0].kids, c) && |q| >= 2 && x == q[|q| - 2]
    requires x in Ids(f[0].kids) && c in KidMap(f[0].kids)[x] && Path(f[0].kids, x) == q[..|q| - 1]
    ensures Path(f, c) == [f[0].id] + q
    ensures x in Ids(f) && c in KidMap(f)[x] && Path(f, x) == Path(f, c)[..|q|]
  {
    PathCons(f, c);
    KidMapCons(f, x);
    PathCons(f, x);
  }

  lemma PathCons(f: seq<Node>, c: nat)
    requires f != [] && f[0].id !in Ids(f[0].kids) && c in Ids(f[0].kids)
    ensures Path(f, c) == [f[0].id] + Path(f[0].kids, c)
  {
  }

  lemma KidMapCons(f: seq<Node>, x: nat)
    requires Unique(f) && x in Ids(f)
    ensures KidMap(f)[x] ==
      if x == f[0].id then Roots(f[0].kids)
      else if x in Ids(f[0].kids) then KidMap(f[0].kids)[x] else KidMap(f[1..])[x]
  {
  }

  lemma {:induction false} PathRootOnly(f: seq<Node>, c: nat)
    requires c in Ids(f) && |Path(f, c)| == 1
    ensures c in Roots(f)
  {
    if f[0].id == c {
      assert Roots(f)[0] == c;
    } else if c in Ids(f[0].kids) {
      PathBasics(f[0].kids, c);
    } else {
      PathRootOnly(f[1..], c);
      RootsCons(f);
    }
  }

  // ---------------------------------------------------------------- subtrees

  lemma {:induction false} SubFacts(f: seq<Node>, id: nat)
    requires Unique(f) && id in Ids(f)
    ensures var n := Sub(f, id);
      && n.id == id && n in Flat(f)
      && Unique(n.kids) && id !in Ids(n.kids) && Ids(n.kids) <= Ids(f)
      && KidMap(f)[id] == Roots(n.kids)
      && (forall x :: x in Ids(n.kids) ==> KidMap(f)[x] == KidMap(n.kids)[x])
  {
    if f[0].id == id {
    } else if id in Ids(f[0].kids) {
      SubFacts(f[0].kids, id);
    } else {
      SubFacts(f[1..], id);
    }
  }

  function Below(f: seq<Node>, id: nat): set<nat>
    requires id in Ids(f)
  {
    {id} + Ids(Sub(f, id).kids)
  }

  // The subtree of a node is the set of nodes whose path runs through it.
  lemma {:induction false} BelowIsPath(f: seq<Node>, id: nat, x: nat)
    requires Unique(f) && id in Ids(f) && x in Ids(f)
    ensures x in Below(f, id) <==> id in Path(f, x)
  {
    var n, rest := f[0], f[1..];
    PathBasics(f, x);
    if n.id == id {
      if x in Ids(rest) { PathBasics(rest, x); }
    } else if id in Ids(n.kids) {
      SubFacts(n.kids, id);
      if x in Ids(n.kids) {
        BelowIsPath(n.kids, id, x);
      } else if x in Ids(rest) {
        PathBasics(rest, x);
      }
    } else {
      SubFacts(rest, id);
      if x in Ids(rest) {
        BelowIsPath(rest, id, x);
      } else if x in Ids(n.kids) {
        PathBasics(n.kids, x);
      }
    }
  }

  lemma {:induction false} LeavesAreKidless(f: seq<Node>)
    requires Unique(f)
    ensures Leaves(f) <= Ids(f)
    ensures forall x :: x in Ids(f) ==> (x in Leaves(f) <==> KidMap(f)[x] == [])
  {
    if f != [] {
      LeavesAreKidless(f[0].kids);
      LeavesAreKidless(f[1..]);
      assert KidMap(f)[f[0].id] == Roots(f[0].kids);
    }
  }

  // ---------------------------------------------------------------- replacing children

  // The forest with the children of node id replaced.
  function SetKids(f: seq<Node>, id: nat, ks: seq<Node>): seq<Node> {
    if f == [] then []
    else
      [Node(f[0].id, f[0].obj, f[0].checked, if f[0].id == id then ks else SetKids(f[0].kids, id, ks))]
      + SetKids(f[1..], id, ks)
  }

  lemma {:induction false} SetKidsAbsent(f: seq<Node>, id: nat, ks: seq<Node>)
    requires id !in Ids(f)
    ensures SetKids(f, id, ks) == f
  {
    if f != [] {
      SetKidsAbsent(f[0].kids, id, ks);
      SetKidsAbsent(f[1..], id, ks);
    }
  }

  lemma {:induction false} SetKidsRoots(f: seq<Node>, id: nat, ks: seq<Node>)
    ensures |SetKids(f, id, ks)| == |f| && Roots(SetKids(f, id, ks)) == Roots(f)
  {
    if f != [] {
      SetKidsRoots(f[1..], id, ks);
      RootsCons(f);
      RootsCons(SetKids(f, id, ks));
    }
  }

  ghost predicate Replaces(f: seq<Node>, id: nat, ks: seq<Node>)
  {
    && Unique(f) && id in Ids(f) && Unique(ks)
    && Ids(ks) !! (Ids(f) - Ids(Sub(f, id).kids))
  }

  lemma SetKidsCons(f: seq<Node>, id: nat, ks: seq<Node>)
    requires f != []
    ensures var g := SetKids(f, id, ks);
      && g != [] && g[0].id == f[0].id && g[0].obj == f[0].obj
      && g[0].kids == (if f[0].id == id then ks else SetKids(f[0].kids, id, ks))
      && g[1..] == SetKids(f[1..], id, ks)
  {
  }

  lemma ReplacesInFirst(f: seq<Node>, id: nat, ks: seq<Node>)
    requires Replaces(f, id, ks) && f[0].id != id && id in Ids(f[0].kids)
    ensures Replaces(f[0].kids, id, ks) && Sub(f, id) == Sub(f[0].kids, id)
    ensures Ids(Sub(f, id).kids) <= Ids(f[0].kids)
    ensures Ids(ks) !! Ids(f[1..]) && f[0].id !in Ids(ks)
  {
    SubFacts(f[0].kids, id);
  }

  lemma ReplacesInRest(f: seq<Node>, id: nat, ks: seq<Node>)
    requires Replaces(f, id, ks) && f[0].id != id && id !in Ids(f[0].kids)
    ensures Replaces(f[1..], id, ks) && Sub(f, id) == Sub(f[1..], id)
    ensures Ids(Sub(f, id).kids) <= Ids(f[1..])
    ensures Ids(ks) !! Ids(f[0].kids) && f[0].id !in Ids(ks)
  {
    SubFacts(f[1..], id);
  }

  lemma SwapPart(a: set<nat>, b: set<nat>, c: set<nat>, gone: set<nat>, come: set<nat>)
    requires gone <= b && gone !! a && gone !! c
    ensures a + ((b - gone) + come) + c == ((a + b + c) - gone) + come
    ensures c + a + ((b - gone) + come) == ((c + a + b) - gone) + come
  {
  }

  // What replacing a children array does to the ids ...
  lemma {:induction false} SetKidsIds(f: seq<Node>, id: nat, ks: seq<Node>)
    requires Replaces(f, id, ks)
    ensures Ids(SetKids(f, id, ks)) == (Ids(f) - Ids(Sub(f, id).kids)) + Ids(ks)
    ensures id in Ids(SetKids(f, id, ks))
  {
    var n, rest, gone := f[0], f[1..], Ids(Sub(f, id).kids);
    SetKidsCons(f, id, ks);
    if n.id == id {
      SetKidsAbsent(rest, id, ks);
      SwapPart({n.id}, gone, Ids(rest), gone, Ids(ks));
      assert (gone - gone) + Ids(ks) == Ids(ks);
    } else if id in Ids(n.kids) {
      ReplacesInFirst(f, id, ks);
      SetKidsIds(n.kids, id, ks);
      SetKidsAbsent(rest, id, ks);
      SwapPart({n.id}, Ids(n.kids), Ids(rest), gone, Ids(ks));
    } else {
      ReplacesInRest(f, id, ks);
      SetKidsIds(rest, id, ks);
      SetKidsAbsent(n.kids, id, ks);
      SwapPart(Ids(n.kids), Ids(rest), {n.id}, gone, Ids(ks));
    }
  }

  // ... to their distinctness ...
  lemma {:induction false} SetKidsUnique(f: seq<Node>, id: nat, ks: seq<Node>)
    requires Replaces(f, id, ks)
    ensures Unique(SetKids(f, id, ks))
  {
    SetKidsCons(f, id, ks);
    if f[0].id == id {
      SetKidsAbsent(f[1..], id, ks);
    } else if id in Ids(f[0].kids) {
      ReplacesInFirst(f, id, ks);
      SetKidsIds(f[0].kids, id, ks);
      SetKidsUnique(f[0].kids, id, ks);
      SetKidsAbsent(f[1..], id, ks);
    } else {
      ReplacesInRest(f, id, ks);
      SetKidsIds(f[1..], id, ks);
      SetKidsUnique(f[1..], id, ks);
      SetKidsAbsent(f[0].kids, id, ks);
    }
  }

  // ... to the node itself ...
  lemma {:induction false} SetKidsSub(f: seq<Node>, id: nat, ks: seq<Node>)
    requires Replaces(f, id, ks)
    ensures id in Ids(SetKids(f, id, ks))
    ensures Sub(SetKids(f, id, ks), id) == Node(id, Sub(f, id).obj, Sub(f, id).checked, ks)
  {
    SetKidsIds(f, id, ks);
    SetKidsCons(f, id, ks);
    if f[0].id == id {
    } else if id in Ids(f[0].kids) {
      ReplacesInFirst(f, id, ks);
      SetKidsIds(f[0].kids, id, ks);
      SetKidsSub(f[0].kids, id, ks);
    } else {
      ReplacesInRest(f, id, ks);
      SetKidsAbsent(f[0].kids, id, ks);
      SetKidsIds(f[1..], id, ks);
      SetKidsSub(f[1..], id, ks);
    }
  }

  // ... and to the children lists.
  lemma {:induction false} SetKidsMap(f: seq<Node>, id: nat, ks: seq<Node>, x: nat)
    requires Replaces(f, id, ks)
    requires x in Ids(ks) || (x in Ids(f) && x !in Ids(Sub(f, id).kids))
    ensures var g := SetKids(f, id, ks);
      && x in Ids(g)
      && KidMap(g)[x] == if x in Ids(ks) then KidMap(ks)[x] else if x == id then Roots(ks) else KidMap(f)[x]
  {
    hide KidMap;
    var n, rest, g := f[0], f[1..], SetKids(f, id, ks);
    SetKidsIds(f, id, ks);
    SetKidsUnique(f, id, ks);
    SetKidsCons(f, id, ks);
    SubFacts(f, id);
    KidMapCons(g, x);
    if x in Ids(f) {
      KidMapCons(f, x);
    }
    if n.id == id {
      SetKidsAbsent(rest, id, ks);
    } else if id in Ids(n.kids) {
      SubFacts(n.kids, id);
      SetKidsAbsent(rest, id, ks);
      SetKidsRoots(n.kids, id, ks);
      SetKidsIds(n.kids, id, ks);
      if x in Ids(ks) || x in Ids(n.kids) {
        SetKidsMap(n.kids, id, ks, x);
      }
    } else {
      SubFacts(rest, id);
      SetKidsAbsent(n.kids, id, ks);
      SetKidsIds(rest, id, ks);
      if x in Ids(ks) || x in Ids(rest) {
        SetKidsMap(rest, id, ks, x);
      }
    }
  }

  // ---------------------------------------------------------------- the children of a node or of the widget

  // The children array of a node, or the array of roots.
  function KidsAt(f: seq<Node>, parent: Option<nat>): seq<Node>
    requires parent.Some? ==> parent.value in Ids(f)
  {
    if parent.None? then f else Sub(f, parent.value).kids
  }

  // The forest after that array has been replaced.
  function WithKidsAt(f: seq<Node>, parent: Option<nat>, ks: seq<Node>): seq<Node> {
    if parent.None? then ks else SetKids(f, parent.value, ks)
  }

  ghost predicate Fits(f: seq<Node>, parent: Option<nat>, ks: seq<Node>) {
    && Unique(f) && (parent.Some? ==> parent.value in Ids(f)) && Unique(ks)
    && Ids(ks) !! (Ids(f) - Ids(KidsAt(f, parent)))
  }

  lemma WithKidsAtIds(f: seq<Node>, parent: Option<nat>, ks: seq<Node>)
    requires Fits(f, parent, ks)
    ensures var g := WithKidsAt(f, parent, ks);
      && Unique(g) && Ids(g) == (Ids(f) - Ids(KidsAt(f, parent))) + Ids(ks)
      && (parent.Some? ==> parent.value in Ids(g))
      && KidsAt(g, parent) == ks
  {
    if parent.Some? {
      SetKidsIds(f, parent.value, ks);
      SetKidsUnique(f, parent.value, ks);
      SetKidsSub(f, parent.value, ks);
    }
  }

  lemma WithKidsAtMap(f: seq<Node>, parent: Option<nat>, ks: seq<Node>, x: nat)
    requires Fits(f, parent, ks)
    requires x in Ids(ks) || (x in Ids(f) && x !in Ids(KidsAt(f, parent)))
    ensures x in Ids(WithKidsAt(f, parent, ks))
    ensures KidMap(WithKidsAt(f, parent, ks))[x] ==
      if x in Ids(ks) then KidMap(ks)[x] else if Some(x) == parent then Roots(ks) else KidMap(f)[x]
  {
    if parent.Some? {
      SetKidsMap(f, parent.value, ks, x);
    }
  }

  // Below the array nothing depends on what is above it.
  lemma KidsAtFacts(f: seq<Node>, parent: Option<nat>)
    requires Unique(f) && (parent.Some? ==> parent.value in Ids(f))
    ensures var ks := KidsAt(f, parent);
      && Unique(ks) && Ids(ks) <= Ids(f) && (parent.Some? ==> parent.value !in Ids(ks))
      && (parent.Some? ==> KidMap(f)[parent.value] == Roots(ks))
      && (forall x :: x in Ids(ks) ==> KidMap(f)[x] == KidMap(ks)[x])
  {
    if parent.Some? {
      SubFacts(f, parent.value);
    }
  }

  lemma {:induction false} SubInside(f: seq<Node>, p: nat, u: nat)
    requires Unique(f) && p in Ids(f) && u in Ids(Sub(f, p).kids)
    ensures u in Ids(f) && Sub(f, u) == Sub(Sub(f, p).kids, u)
  {
    SubFacts(f, p);
    if f[0].id == p {
    } else if p in Ids(f[0].kids) {
      SubFacts(f[0].kids, p);
      SubInside(f[0].kids, p, u);
    } else {
      SubFacts(f[1..], p);
      SubInside(f[1..], p, u);
    }
  }

  lemma {:induction false} ConcatLookup(f: seq<Node>, g: seq<Node>, x: nat)
    requires Unique(f + g) && x in Ids(f) + Ids(g)
    ensures x in Ids(f + g)
    ensures KidMap(f + g)[x] == if x in Ids(f) then KidMap(f)[x] else KidMap(g)[x]
    ensures Sub(f + g, x) == if x in Ids(f) then Sub(f, x) else Sub(g, x)
  {
    IdsConcat(f, g);
    if f == [] {
      assert f + g == g;
    } else {
      assert (f + g)[0] == f[0] && (f + g)[1..] == f[1..] + g;
      IdsConcat(f[1..], g);
      if x in Ids(f[1..]) + Ids(g) {
        ConcatLookup(f[1..], g, x);
      }
    }
  }

  // The array without the node of the given id.
  function Without(ks: seq<Node>, id: nat): seq<Node> {
    if ks == [] then [] else if ks[0].id == id then ks[1..] else [ks[0]] + Without(ks[1..], id)
  }

  lemma {:induction false} WithoutIds(ks: seq<Node>, n: Node)
    requires Unique(ks) && n in ks
    ensures var r := Without(ks, n.id);
      Unique(r) && Ids(r) == Ids(ks) - ({n.id} + Ids(n.kids)) && |r| == |ks| - 1
  {
    var rest := ks[1..];
    RootsInIds(rest);
    if ks[0].id == n.id {
      assert ks[0] == n || n in rest;
    } else {
      assert n in rest;
      WithoutIds(rest, n);
      SubtreeIdsInside(rest, n);
      var r := Without(ks, n.id);
      assert r[1..] == Without(rest, n.id);
    }
  }

  lemma {:induction false} WithoutRoots(ks: seq<Node>, id: nat, x: nat)
    requires Unique(ks)
    ensures x in Roots(Without(ks, id)) <==> x in Roots(ks) && x != id
  {
    if ks != [] {
      var rest := ks[1..];
      RootsInIds(rest);
      RootsCons(ks);
      if ks[0].id != id {
        WithoutRoots(rest, id, x);
        var r := Without(ks, id);
        assert r[1..] == Without(rest, id);
        RootsCons(r);
      }
    }
  }

  // The ids of a list other than one, in order.
  function Others(ids: seq<nat>, id: nat): seq<nat> {
    if ids == [] then [] else (if ids[0] == id then [] else [ids[0]]) + Others(ids[1..], id)
  }

  lemma {:induction false} OthersNone(ids: seq<nat>, id: nat)
    requires id !in ids
    ensures Others(ids, id) == ids
  {
    if ids != [] {
      OthersNone(ids[1..], id);
    }
  }

  lemma {:induction false} WithoutInOrder(ks: seq<Node>, id: nat)
    requires Unique(ks)
    ensures Roots(Without(ks, id)) == Others(Roots(ks), id)
  {
    if ks != [] {
      var rest := ks[1..];
      RootsInIds(rest);
      RootsCons(ks);
      assert Roots(ks)[1..] == Roots(rest);
      if ks[0].id == id {
        OthersNone(Roots(rest), id);
      } else {
        WithoutInOrder(rest, id);
        var r := Without(ks, id);
        assert r[1..] == Without(rest, id);
        RootsCons(r);
      }
    }
  }

  lemma {:induction false} WithoutMap(ks: seq<Node>, n: Node, x: nat)
    requires Unique(ks) && n in ks && x in Ids(Without(ks, n.id))
    ensures x in Ids(ks) && KidMap(Without(ks, n.id))[x] == KidMap(ks)[x]
  {
    WithoutIds(ks, n);
    var rest := ks[1..];
    RootsInIds(rest);
    if ks[0].id == n.id {
      assert ks[0] == n || n in rest;
    } else {
      assert n in rest;
      WithoutIds(rest, n);
      var r := Without(ks, n.id);
      assert r[1..] == Without(rest, n.id);
      if x in Ids(r[1..]) {
        WithoutMap(rest, n, x);
      }
    }
  }

  lemma WithoutFacts(ks: seq<Node>, n: Node)
    requires Unique(ks) && n in ks
    ensures var r := Without(ks, n.id);
      && Unique(r) && Ids(r) == Ids(ks) - ({n.id} + Ids(n.kids)) && |r| == |ks| - 1
      && (forall x :: x in Roots(r) <==> x in Roots(ks) && x != n.id)
      && (forall x :: x in Ids(r) ==> x in Ids(ks) && KidMap(r)[x] == KidMap(ks)[x])
  {
    WithoutIds(ks, n);
    forall x | x in Roots(Without(ks, n.id)) || x in Roots(ks)
      ensures x in Roots(Without(ks, n.id)) <==> x in Roots(ks) && x != n.id
    {
      WithoutRoots(ks, n.id, x);
    }
    forall x | x in Ids(Without(ks, n.id))
      ensures x in Ids(ks) && KidMap(Without(ks, n.id))[x] == KidMap(ks)[x]
    {
      WithoutMap(ks, n, x);
    }
  }

  lemma {:induction false} SubtreeIdsInside(ks: seq<Node>, n: Node)
    requires n in ks
    ensures n.id in Ids(ks) && Ids(n.kids) <= Ids(ks)
  {
    if n != ks[0] {
      SubtreeIdsInside(ks[1..], n);
    }
  }

  // ---------------------------------------------------------------- dom ids

  function Size(f: seq<Node>): nat {
    if f == [] then 0 else 1 + Size(f[0].kids) + Size(f[1..])
  }

  // The forest with dom ids handed out in preorder from a counter.
  function Render(f: seq<Node>, next: nat): seq<Node> {
    if f == [] then []
    else
      [Node(next, f[0].obj, f[0].checked, Render(f[0].kids, next + 1))]
      + Render(f[1..], next + 1 + Size(f[0].kids))
  }

  lemma RenderCons(f: seq<Node>, next: nat)
    requires f != []
    ensures Size(f) == 1 + Size(f[0].kids) + Size(f[1..])
    ensures Render(f, next) ==
      [Node(next, f[0].obj, f[0].checked, Render(f[0].kids, next + 1))] + Render(f[1..], next + 1 + Size(f[0].kids))
  {
  }

  // The ids in g are those from lo on and before hi.
  ghost predicate Numbered(g: seq<Node>, lo: nat, hi: nat) {
    Unique(g) && forall x :: x in Ids(g) <==> lo <= x < hi
  }

  lemma NumberedCons(n: Node, rest: seq<Node>, mid: nat, hi: nat)
    requires mid <= hi && n.id < mid && Numbered(n.kids, n.id + 1, mid) && Numbered(rest, mid, hi)
    ensures Numbered([n] + rest, n.id, hi)
  {
    OneMore(n, rest);
    hide Ids, Unique;
  }

  lemma RenderNone(next: nat)
    ensures Render([], next) == [] && Numbered([], next, next + Size([]))
  {
  }

  lemma {:induction false} RenderNumbers(f: seq<Node>, next: nat)
    ensures |Render(f, next)| == |f| && Numbered(Render(f, next), next, next + Size(f))
  {
    hide Numbered, Ids, Unique, Render, Size;
    if f == [] {
      RenderNone(next);
    } else {
      var n := Size(f[0].kids);
      var a, b := Render(f[0].kids, next + 1), Render(f[1..], next + 1 + n);
      RenderCons(f, next);
      RenderNumbers(f[0].kids, next + 1);
      RenderNumbers(f[1..], next + 1 + n);
      NumberedCons(Node(next, f[0].obj, f[0].checked, a), b, next + 1 + n, next + Size(f));
    }
  }

  lemma RenderFresh(f: seq<Node>, next: nat)
    ensures var g := Render(f, next);
      && |g| == |f| && Unique(g)
      && forall x :: x in Ids(g) <==> next <= x < next + Size(f)
  {
    RenderNumbers(f, next);
  }

  lemma {:induction false} FlatSize(f: seq<Node>)
    ensures |Flat(f)| == Size(f)
  {
    if f != [] {
      FlatSize(f[0].kids);
      FlatSize(f[1..]);
    }
  }

  lemma Parts(f: seq<Node>)
    requires f != []
    ensures Flat(f) == [f[0]] + Flat(f[0].kids) + Flat(f[1..])
    ensures Size(f) == 1 + Size(f[0].kids) + Size(f[1..])
  {
  }

  lemma {:induction false} SameSize(f: seq<Node>, next: nat)
    ensures Size(Render(f, next)) == Size(f)
  {
    if f != [] {
      RenderCons(f, next);
      assert Render(f, next)[1..] == Render(f[1..], next + 1 + Size(f[0].kids));
      SameSize(f[0].kids, next + 1);
      SameSize(f[1..], next + 1 + Size(f[0].kids));
    }
  }

  // What stands at a place of three parts one after the other.
  lemma PlaceOf(x: Node, p: seq<Node>, q: seq<Node>, i: nat)
    requires i < 1 + |p| + |q|
    ensures ([x] + p + q)[i] == if i == 0 then x else if i <= |p| then p[i - 1] else q[i - 1 - |p|]
  {
  }

  // A node drawn: its number, and what it keeps of the node it was drawn from.
  ghost predicate DrawnAs(drawn: Node, from: Node, id: nat) {
    drawn.id == id && drawn.obj == from.obj && drawn.checked == from.checked
  }

  // Rendered nodes are numbered in preorder, without a gap, and keep their objects
  // and their "checked" flags.
  lemma {:induction false} RenderPreorder(f: seq<Node>, next: nat, i: nat)
    requires i < Size(f)
    ensures |Flat(f)| == |Flat(Render(f, next))| == Size(f)
    ensures DrawnAs(Flat(Render(f, next))[i], Flat(f)[i], next + i)
  {
    hide Flat, Render, Size;
    Lengths(f, next);
    NotEmpty(f);
    var kids, rest := f[0].kids, f[1..];
    var n := Size(kids);
    var a, b := Render(kids, next + 1), Render(rest, next + 1 + n);
    Parts(f);
    Lengths(kids, next + 1);
    Lengths(rest, next + 1 + n);
    RenderCons(f, next);
    var g := Render(f, next);
    Parts(g);
    assert g[1..] == b;
    PlaceOf(f[0], Flat(kids), Flat(rest), i);
    PlaceOf(g[0], Flat(a), Flat(b), i);
    if 0 < i <= n {
      RenderPreorder(kids, next + 1, i - 1);
    } else if i > n {
      RenderPreorder(rest, next + 1 + n, i - 1 - n);
    }
  }

  lemma NotEmpty(f: seq<Node>)
    requires Size(f) > 0
    ensures f != []
  {
  }

  lemma Lengths(f: seq<Node>, next: nat)
    ensures |Flat(f)| == |Flat(Render(f, next))| == Size(f)
  {
    FlatSize(f);
    SameSize(f, next);
    FlatSize(Render(f, next));
  }
}
