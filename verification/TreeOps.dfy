// The operations of the tree widget on its whole state, and what each keeps.

module TreeOps {
  import opened Common
  import opened TreeShape
  import opened TreeMarks
  import opened TreeCascade
  import opened TreeLoad
  import opened TreeGrow

  // The node objects, the checkboxes and the dom id counter.
  datatype Tree = Tree(data: seq<Node>, boxes: Boxes, next: nat)

  ghost predicate Wf(t: Tree) {
    && Unique(t.data)
    && t.boxes.marks.Keys == Ids(t.data)
    && forall x :: x in Ids(t.data) ==> x < t.next
  }

  // Every inner node shows 1, 0 or 2 as its children are all checked, all
  // unchecked or neither; a childless node shows 1 or 0.
  ghost predicate Consistent(t: Tree) {
    Wf(t) && Good(t.data, t.boxes.marks)
  }

  // The checked leaves, which determine all marks (see MarksFollowLeaves).
  ghost function Picked(t: Tree): set<nat>
    requires Wf(t)
  {
    CheckedLeaves(t.data, t.boxes.marks)
  }

  lemma PickedFacts(t: Tree, n: nat)
    requires Wf(t)
    ensures Leaves(t.data) <= Ids(t.data)
    ensures n in Picked(t) <==> n in Leaves(t.data) && n in t.boxes.marks && t.boxes.marks[n] == Checked
  {
    LeavesAreKidless(t.data);
  }

  ghost function Kept(x: Boxes, ids: set<nat>): Boxes {
    Boxes(map i | i in x.marks && i in ids :: x.marks[i], x.memory)
  }

  ghost function Check(t: Tree, id: nat, b: bool): Tree
    requires Wf(t) && id in Ids(t.data)
  {
    t.(boxes := CheckBox(t.data, t.boxes, id, b))
  }

  // What a click on the checkbox of a node asks of it.
  ghost function Asked(f: seq<Node>, x: Boxes, id: nat): bool
    requires id in Ids(f) && id in x.marks
  {
    var obj := Sub(f, id).obj;
    match x.marks[id]
    case Checked => false
    case Unchecked => true
    case Partial => if obj in x.memory then !x.memory[obj] else true
  }

  ghost function Click(t: Tree, id: nat): Tree
    requires Wf(t) && id in Ids(t.data)
  {
    Check(t, id, Asked(t.data, t.boxes, id))
  }

  ghost predicate HasParent(t: Tree, parent: Option<nat>) {
    parent.Some? ==> parent.value in Ids(t.data)
  }

  // The forest after the freshly numbered nodes have been added at the end.
  ghost function Extended(t: Tree, parent: Option<nat>, d: seq<Node>): seq<Node>
    requires HasParent(t, parent)
  {
    WithKidsAt(t.data, parent, KidsAt(t.data, parent) + Render(d, t.next))
  }

  lemma FreshArray(t: Tree, parent: Option<nat>, d: seq<Node>)
    requires Wf(t) && HasParent(t, parent)
    ensures var ns := Render(d, t.next); var ks := KidsAt(t.data, parent);
      && |ns| == |d| && Unique(ns) && (forall x :: x in Ids(ns) <==> t.next <= x < t.next + Size(d))
      && Ids(ns) !! Ids(t.data)
      && Unique(ks) && Ids(ks) <= Ids(t.data)
      && Unique(ks + ns) && Ids(ks + ns) == Ids(ks) + Ids(ns)
  {
    RenderFresh(d, t.next);
    KidsAtFacts(t.data, parent);
    IdsConcat(KidsAt(t.data, parent), Render(d, t.next));
  }

  lemma ExtendedFits(t: Tree, parent: Option<nat>, d: seq<Node>)
    requires Wf(t) && HasParent(t, parent)
    ensures var ns := Render(d, t.next); var g := Extended(t, parent, d);
      && |ns| == |d| && Unique(ns) && (forall x :: x in Ids(ns) <==> t.next <= x < t.next + Size(d))
      && Ids(ns) !! Ids(t.data)
      && Fits(t.data, parent, KidsAt(t.data, parent) + ns)
      && Unique(g) && Ids(g) == Ids(t.data) + Ids(ns)
  {
    hide Ids, Unique, KidsAt, WithKidsAt, Render, Size;
    FreshArray(t, parent, d);
    var ks, ns := KidsAt(t.data, parent), Render(d, t.next);
    WithKidsAtIds(t.data, parent, ks + ns);
    SwapPart(Ids(t.data) - Ids(ks), Ids(ks), {}, Ids(ks), Ids(ns));
    assert (Ids(t.data) - Ids(ks)) + (Ids(ks) + Ids(ns)) == Ids(t.data) + Ids(ns);
  }

  ghost function Append(t: Tree, parent: Option<nat>, d: seq<Node>): Tree
    requires Wf(t) && HasParent(t, parent)
  {
    if d == [] then t
    else
      ExtendedFits(t, parent, d);
      var g := Extended(t, parent, d);
      var x := Seeded(g, t.boxes, Render(d, t.next));
      Tree(g, if parent.Some? then Refreshed(g, x, parent.value) else x, t.next + Size(d))
  }

  // Replace the children of a node, or the whole forest.
  ghost function Load(t: Tree, parent: Option<nat>, d: seq<Node>): Tree
    requires Wf(t) && HasParent(t, parent)
  {
    var ns := Render(d, t.next);
    var g := WithKidsAt(t.data, parent, ns);
    LoadFits(t, parent, d);
    Tree(g, Seeded(g, Kept(t.boxes, Ids(g)), ns), t.next + Size(d))
  }

  lemma LoadFits(t: Tree, parent: Option<nat>, d: seq<Node>)
    requires Wf(t) && HasParent(t, parent)
    ensures var ns := Render(d, t.next); var g := WithKidsAt(t.data, parent, ns);
      && |ns| == |d| && Unique(ns) && (forall x :: x in Ids(ns) <==> t.next <= x < t.next + Size(d))
      && Fits(t.data, parent, ns)
      && Unique(g) && Ids(g) == (Ids(t.data) - Ids(KidsAt(t.data, parent))) + Ids(ns)
  {
    RenderFresh(d, t.next);
    WithKidsAtIds(t.data, parent, Render(d, t.next));
  }

  ghost function Pruned(t: Tree, id: nat): seq<Node>
    requires Wf(t) && id in Ids(t.data)
  {
    ParentListed(t.data, id);
    var parent := Parent(t.data, id);
    WithKidsAt(t.data, parent, Without(KidsAt(t.data, parent), id))
  }

  ghost function Remove(t: Tree, id: nat): Tree
    requires Wf(t) && id in Ids(t.data)
  {
    PrunedFits(t, id);
    var parent := Parent(t.data, id);
    var g := Pruned(t, id);
    var x := Kept(t.boxes, Ids(g));
    Tree(g, if parent.Some? then Refreshed(g, x, parent.value) else x, t.next)
  }

  // A node is found in the array of its parent, or among the roots.
  lemma ParentListed(f: seq<Node>, id: nat)
    requires Unique(f) && id in Ids(f)
    ensures var parent := Parent(f, id);
      && (parent.Some? ==> parent.value in Ids(f))
      && Sub(f, id) in KidsAt(f, parent) && Sub(f, id).id == id
  {
    SubFacts(f, id);
    PathBasics(f, id);
    if |Path(f, id)| == 1 {
      PathRootOnly(f, id);
      var n := RootsMember(f, id);
      PathOfRoot(f, n);
    } else {
      PathStep(f, id);
      var p := Parent(f, id).value;
      SubFacts(f, p);
      var ks := Sub(f, p).kids;
      var n := RootsMember(ks, id);
      PathOfRoot(ks, n);
      RootsInIds(ks);
      SubInside(f, p, id);
    }
  }

  lemma PrunedFits(t: Tree, id: nat)
    requires Wf(t) && id in Ids(t.data)
    ensures var parent := Parent(t.data, id); var g := Pruned(t, id);
      && (parent.Some? ==> parent.value in Ids(t.data))
      && var ks := Without(KidsAt(t.data, parent), id);
      && Fits(t.data, parent, ks)
      && Unique(g) && Ids(g) == Ids(t.data) - Below(t.data, id)
      && (parent.Some? ==> parent.value in Ids(g))
      && KidsAt(g, parent) == ks
  {
    var parent := Parent(t.data, id);
    ParentListed(t.data, id);
    KidsAtFacts(t.data, parent);
    var ks := KidsAt(t.data, parent);
    var n := Sub(t.data, id);
    WithoutFacts(ks, n);
    SubtreeIdsInside(ks, n);
    WithKidsAtIds(t.data, parent, Without(ks, id));
    Carved(Ids(t.data), Ids(ks), Below(t.data, id));
  }

  lemma Carved(f: set<nat>, ks: set<nat>, cut: set<nat>)
    requires cut <= ks <= f
    ensures (f - ks) + (ks - cut) == f - cut
  {
  }

  // ---------------------------------------------------------------- marks follow the checked leaves

  // Good marks are exactly the ones computed from scratch from the checked leaves.
  lemma MarksFollowLeaves(t: Tree)
    requires Wf(t)
    ensures Good(t.data, t.boxes.marks) ==> t.boxes.marks == Rollup(t.data, Picked(t))
    ensures t.boxes.marks == Rollup(t.data, Picked(t)) ==> Good(t.data, t.boxes.marks)
  {
    LeavesAreKidless(t.data);
    if Good(t.data, t.boxes.marks) {
      GoodIsRollup(t.data, t.boxes.marks, Picked(t));
    }
    RollupIsGood(t.data, Picked(t));
  }

  // Checking a node adds exactly its leaves, unchecking removes them.
  lemma CheckMoves(t: Tree, id: nat, b: bool)
    requires Consistent(t) && id in Ids(t.data)
    ensures var t' := Check(t, id, b);
      && Consistent(t')
      && var l := Leaves([Sub(t.data, id)]);
      t'.boxes.marks == Rollup(t'.data, if b then Picked(t) + l else Picked(t) - l)
  {
    CheckAddsLeaves(t.data, t.boxes.marks, id, b);
    CascadeLeaves(t.data, t.boxes.marks, id, b);
    CascadeOk(t.data, t.boxes.marks, id, b, {});
    LeavesAreKidless(t.data);
    FromLeaves(t.data, Check(t, id, b).boxes.marks, Picked(Check(t, id, b)));
  }

  // A click on a checked node unchecks it and exactly the leaves below it, one on an
  // unchecked node checks it and them; one on a partial node does the opposite of what
  // was last asked of its object, and checks it if nothing was.
  lemma ClickMoves(t: Tree, id: nat)
    requires Consistent(t) && id in Ids(t.data)
    ensures var t' := Click(t, id); var l := Leaves([Sub(t.data, id)]); var obj := Sub(t.data, id).obj;
      && Consistent(t') && t'.data == t.data && obj in t'.boxes.memory
      && (t.boxes.marks[id] == Checked ==>
            t'.boxes.marks[id] == Unchecked && Picked(t') == Picked(t) - l && !t'.boxes.memory[obj])
      && (t.boxes.marks[id] == Unchecked ==>
            t'.boxes.marks[id] == Checked && Picked(t') == Picked(t) + l && t'.boxes.memory[obj])
      && (t.boxes.marks[id] == Partial && obj in t.boxes.memory && t.boxes.memory[obj] ==>
            t'.boxes.marks[id] == Unchecked && Picked(t') == Picked(t) - l && !t'.boxes.memory[obj])
      && (t.boxes.marks[id] == Partial && !(obj in t.boxes.memory && t.boxes.memory[obj]) ==>
            t'.boxes.marks[id] == Checked && Picked(t') == Picked(t) + l && t'.boxes.memory[obj])
  {
    CheckShows(t, id, Asked(t.data, t.boxes, id));
  }

  // Checking a node shows it, sets exactly the leaves below it, and is remembered for
  // its object alone.
  lemma CheckShows(t: Tree, id: nat, b: bool)
    requires Consistent(t) && id in Ids(t.data)
    ensures var t' := Check(t, id, b); var l := Leaves([Sub(t.data, id)]); var obj := Sub(t.data, id).obj;
      && Consistent(t') && t'.data == t.data
      && t'.boxes.marks[id] == MarkOf(b) && Picked(t') == (if b then Picked(t) + l else Picked(t) - l)
      && obj in t'.boxes.memory && t'.boxes.memory[obj] == b
      && forall o :: o != obj ==>
           && (o in t'.boxes.memory <==> o in t.boxes.memory)
           && (o in t.boxes.memory ==> t'.boxes.memory[o] == t.boxes.memory[o])
  {
    CheckMoves(t, id, b);
    CascadeLeaves(t.data, t.boxes.marks, id, b);
    PathBasics(t.data, id);
    CascadeTop(t.data, t.boxes.marks, id, b);
  }

  lemma CascadeTop(f: seq<Node>, m: Marks, id: nat, b: bool)
    requires Unique(f) && Covers(f, m) && id in Ids(f)
    ensures Cascade(f, m, id, b)[id] == MarkOf(b)
  {
    var m1 := Painted(m, Below(f, id), MarkOf(b));
    ClimbFrame(f, m1, id);
    if id in StrictAncestors(f, id) {
      NotItsAncestor(f, id);
    }
  }

  lemma NotItsAncestor(f: seq<Node>, id: nat)
    requires Unique(f) && id in Ids(f)
    ensures id !in StrictAncestors(f, id)
  {
    NotTwice(f, id);
  }

  lemma {:induction false} NotTwice(f: seq<Node>, id: nat)
    requires Unique(f) && id in Ids(f)
    ensures |Path(f, id)| > 0 && forall i :: 0 <= i < |Path(f, id)| - 1 ==> Path(f, id)[i] != id
  {
    if f[0].id == id {
    } else if id in Ids(f[0].kids) {
      NotTwice(f[0].kids, id);
      PathCons(f, id);
    } else {
      NotTwice(f[1..], id);
    }
  }

  // ---------------------------------------------------------------- append

  ghost predicate SameBut(f: seq<Node>, g: seq<Node>, parent: Option<nat>) {
    forall x :: x in Ids(f) && x in Ids(g) && Some(x) != parent ==> KidMap(g)[x] == KidMap(f)[x]
  }

  lemma ExtendedOld(t: Tree, parent: Option<nat>, d: seq<Node>, x: nat)
    requires Wf(t) && HasParent(t, parent) && x in Ids(t.data)
    ensures x in Ids(Extended(t, parent, d))
    ensures KidMap(Extended(t, parent, d))[x] ==
      KidMap(t.data)[x] + if Some(x) == parent then Roots(Render(d, t.next)) else []
  {
    var f, ns, ks := t.data, Render(d, t.next), KidsAt(t.data, parent);
    ExtendedFits(t, parent, d);
    FreshArray(t, parent, d);
    KidsAtFacts(f, parent);
    WithKidsAtMap(f, parent, ks + ns, x);
    if x in Ids(ks) {
      ConcatLookup(ks, ns, x);
    } else if Some(x) == parent {
      RootsConcat(ks, ns);
    }
  }

  lemma ExtendedNew(t: Tree, parent: Option<nat>, d: seq<Node>)
    requires Wf(t) && HasParent(t, parent)
    ensures Unique(Extended(t, parent, d)) && Attached(Extended(t, parent, d), Render(d, t.next))
  {
    ExtendedFits(t, parent, d);
    FreshArray(t, parent, d);
    var f, ns, g, ks := t.data, Render(d, t.next), Extended(t, parent, d), KidsAt(t.data, parent);
    WithKidsAtIds(f, parent, ks + ns);
    forall u | u in Ids(ns)
      ensures Sub(g, u) == Sub(ns, u) && KidMap(g)[u] == KidMap(ns)[u]
    {
      ConcatLookup(ks, ns, u);
      WithKidsAtMap(f, parent, ks + ns, u);
      if parent.Some? {
        SubInside(g, parent.value, u);
      }
    }
  }

  lemma AppendGrows(t: Tree, parent: Option<nat>, d: seq<Node>)
    requires Consistent(t) && HasParent(t, parent)
    ensures Grown(t.data, t.boxes.marks, Extended(t, parent, d), t.boxes, Render(d, t.next), parent)
  {
    var ns, g := Render(d, t.next), Extended(t, parent, d);
    ExtendedFits(t, parent, d);
    ExtendedNew(t, parent, d);
    forall n | n in Ids(t.data)
      ensures n in Ids(g) && KidMap(g)[n] == KidMap(t.data)[n] + if Some(n) == parent then Roots(ns) else []
    {
      ExtendedOld(t, parent, d, n);
    }
  }

  // The checked leaves after an append.
  ghost function AppendPicks(t: Tree, parent: Option<nat>, d: seq<Node>): set<nat>
    requires Wf(t) && HasParent(t, parent)
  {
    (Picked(t) - (if parent.Some? then {parent.value} else {})) + Ticked(Render(d, t.next))
  }

  lemma AppendLeaf(t: Tree, parent: Option<nat>, d: seq<Node>, n: nat)
    requires Consistent(t) && HasParent(t, parent) && d != []
    requires Grown(t.data, t.boxes.marks, Extended(t, parent, d), t.boxes, Render(d, t.next), parent)
    requires n in Leaves(Extended(t, parent, d))
    ensures var g := Extended(t, parent, d);
      n in Ids(g) && (n in AppendPicks(t, parent, d) <==> Seeded(g, t.boxes, Render(d, t.next)).marks[n] == Checked)
  {
    var f, ns, g := t.data, Render(d, t.next), Extended(t, parent, d);
    GrownLeaf(f, t.boxes.marks, g, t.boxes, ns, parent, n);
    PickedFacts(t, n);
    if Some(n) == parent {
      LeavesAreKidless(g);
      ExtendedFits(t, parent, d);
      ExtendedOld(t, parent, d, n);
      RootsCons(ns);
    }
  }

  // Appending keeps the marks good. The new checked leaves are those at or below
  // a node handed over as checked; a leaf that gets children stops being one.
  lemma AppendMoves(t: Tree, parent: Option<nat>, d: seq<Node>)
    requires Consistent(t) && HasParent(t, parent) && d != []
    ensures var t' := Append(t, parent, d);
      Consistent(t') && t'.boxes.marks == Rollup(t'.data, AppendPicks(t, parent, d))
  {
    hide Ids, Unique, Leaves, Extended, Render, Seeded, Refreshed, AppendPicks, Grown, Good;
    var ns, g, t', s := Render(d, t.next), Extended(t, parent, d), Append(t, parent, d), AppendPicks(t, parent, d);
    ExtendedFits(t, parent, d);
    AppendGrows(t, parent, d);
    GrownGood(t.data, t.boxes.marks, g, t.boxes, ns, parent);
    var x := Seeded(g, t.boxes, ns);
    LeavesAreKidless(g);
    forall n | n in Leaves(g)
      ensures n in s <==> x.marks[n] == Checked
    {
      AppendLeaf(t, parent, d, n);
    }
    if parent.Some? {
      GoodIsRemnant(g, x.marks, parent.value);
      RefreshedRollup(g, x, parent.value, s);
    } else {
      FromLeaves(g, x.marks, s);
    }
  }

  // ---------------------------------------------------------------- remove

  lemma PrunedMap(t: Tree, id: nat)
    requires Wf(t) && id in Ids(t.data)
    ensures var parent := Parent(t.data, id); var g := Pruned(t, id);
      && Unique(g) && Ids(g) == Ids(t.data) - Below(t.data, id)
      && SameBut(t.data, g, parent)
      && (parent.Some? ==> parent.value in Ids(g) && parent.value in Ids(t.data))
      && (parent.Some? ==> forall k :: k in KidMap(g)[parent.value] ==> k in KidMap(t.data)[parent.value])
  {
    PrunedFits(t, id);
    ParentListed(t.data, id);
    var f, g, parent := t.data, Pruned(t, id), Parent(t.data, id);
    var ks := KidsAt(f, parent);
    var r := Without(ks, id);
    KidsAtFacts(f, parent);
    WithoutFacts(ks, Sub(f, id));
    forall x | x in Ids(f) && x in Ids(g) && Some(x) != parent
      ensures KidMap(g)[x] == KidMap(f)[x]
    {
      WithKidsAtMap(f, parent, r, x);
    }
    if parent.Some? {
      WithKidsAtMap(f, parent, r, parent.value);
    }
  }

  // The siblings of a removed node stay in order.
  lemma RemoveKeepsOrder(t: Tree, id: nat)
    requires Wf(t) && id in Ids(t.data)
    ensures var parent := Parent(t.data, id); var g := Remove(t, id).data;
      && (parent.Some? ==> parent.value in Ids(t.data) && parent.value in Ids(g))
      && Roots(KidsAt(g, parent)) == Others(Roots(KidsAt(t.data, parent)), id)
  {
    PrunedFits(t, id);
    ParentListed(t.data, id);
    KidsAtFacts(t.data, Parent(t.data, id));
    WithoutInOrder(KidsAt(t.data, Parent(t.data, id)), id);
  }

  lemma RemoveOk(t: Tree, id: nat)
    requires Consistent(t) && id in Ids(t.data)
    ensures var g := Pruned(t, id); var parent := Parent(t.data, id); var m := Kept(t.boxes, Ids(g)).marks;
      && Unique(g) && m.Keys == Ids(g)
      && (forall x :: x in Ids(g) && Some(x) != parent ==> Ok(g, m, x))
      && (parent.Some? ==> parent.value in Ids(g) && Remnant(g, m, parent.value))
  {
    hide Unique, KidMap, Ids, Parent, Pruned;
    var f, g, parent := t.data, Pruned(t, id), Parent(t.data, id);
    PrunedMap(t, id);
    var m := Kept(t.boxes, Ids(g)).marks;
    forall x | x in Ids(g) && Some(x) != parent
      ensures Ok(g, m, x)
    {
      KidsAreIds(g, x);
      OkMoves(f, t.boxes.marks, g, m, x);
    }
    if parent.Some? {
      KidsAreIds(g, parent.value);
      assert Ok(f, t.boxes.marks, parent.value);
    }
  }

  // The checked leaves after a removal.
  ghost function RemovePicks(t: Tree, id: nat): set<nat>
    requires Wf(t) && id in Ids(t.data)
  {
    PrunedFits(t, id);
    var parent := Parent(t.data, id);
    (Picked(t) - Leaves([Sub(t.data, id)]))
    + if parent.Some? && Sub(Pruned(t, id), parent.value).kids == [] && t.boxes.marks[parent.value] == Checked
      then {parent.value} else {}
  }

  lemma RemoveLeaf(t: Tree, id: nat, n: nat)
    requires Consistent(t) && id in Ids(t.data) && n in Leaves(Pruned(t, id))
    ensures n in t.boxes.marks && (n in RemovePicks(t, id) <==> t.boxes.marks[n] == Checked)
  {
    hide Leaves, Unique, Ids, Good, Pruned, KidMap, Sub, Parent;
    var f, g, parent := t.data, Pruned(t, id), Parent(t.data, id);
    PrunedMap(t, id);
    LeavesAreKidless(g);
    LeavesAreKidless(f);
    SubLeaves(f, id, n);
    if parent == Some(n) {
      ParentNotLeaf(f, id);
      SubFacts(g, n);
      NoKids(Sub(g, n).kids);
    }
  }

  // Removing a subtree keeps the marks good and drops exactly its leaves from the
  // checked ones; a parent left childless is a checked leaf iff it showed checked.
  lemma RemoveMoves(t: Tree, id: nat)
    requires Consistent(t) && id in Ids(t.data)
    ensures var t' := Remove(t, id);
      Consistent(t') && t'.boxes.marks == Rollup(t'.data, RemovePicks(t, id))
  {
    hide Ids, Unique, Leaves, Pruned, RemovePicks, Refreshed;
    PrunedMap(t, id);
    RemoveOk(t, id);
    var g, parent := Pruned(t, id), Parent(t.data, id);
    var x := Kept(t.boxes, Ids(g));
    var s := RemovePicks(t, id);
    LeavesAreKidless(g);
    forall n | n in Leaves(g)
      ensures n in s <==> x.marks[n] == Checked
    {
      RemoveLeaf(t, id, n);
    }
    if parent.Some? {
      RefreshedRollup(g, x, parent.value, s);
    } else {
      FromLeaves(g, x.marks, s);
    }
  }

  lemma ParentNotLeaf(f: seq<Node>, id: nat)
    requires Unique(f) && id in Ids(f) && Parent(f, id).Some?
    ensures Parent(f, id).value !in Leaves(f)
  {
    PathStep(f, id);
    LeavesAreKidless(f);
  }

  // ---------------------------------------------------------------- load

  lemma LoadOld(t: Tree, parent: Option<nat>, d: seq<Node>, x: nat)
    requires Wf(t) && HasParent(t, parent) && x in Ids(t.data) && x !in Ids(KidsAt(t.data, parent))
    ensures var ns := Render(d, t.next); var g := WithKidsAt(t.data, parent, ns);
      x in Ids(g) && KidMap(g)[x] == if Some(x) == parent then Roots(ns) else KidMap(t.data)[x]
  {
    LoadFits(t, parent, d);
    WithKidsAtMap(t.data, parent, Render(d, t.next), x);
  }

  lemma LoadNew(t: Tree, parent: Option<nat>, d: seq<Node>)
    requires Wf(t) && HasParent(t, parent)
    ensures var ns := Render(d, t.next); var g := WithKidsAt(t.data, parent, ns);
      Unique(g) && Attached(g, ns)
  {
    LoadFits(t, parent, d);
    var f, ns, g := t.data, Render(d, t.next), WithKidsAt(t.data, parent, Render(d, t.next));
    WithKidsAtIds(f, parent, ns);
    forall u | u in Ids(ns)
      ensures Sub(g, u) == Sub(ns, u) && KidMap(g)[u] == KidMap(ns)[u]
    {
      WithKidsAtMap(f, parent, ns, u);
      if parent.Some? {
        SubInside(g, parent.value, u);
      }
    }
  }

  lemma LoadGrows(t: Tree, parent: Option<nat>, d: seq<Node>)
    requires Consistent(t) && HasParent(t, parent)
    ensures var ns := Render(d, t.next); var g := WithKidsAt(t.data, parent, ns);
      Grown(t.data, t.boxes.marks, g, Kept(t.boxes, Ids(g)), ns, parent)
  {
    hide Ids, Unique, KidMap, Attached, Render, KidsAt, WithKidsAt, Size;
    var f, ns, g := t.data, Render(d, t.next), WithKidsAt(t.data, parent, Render(d, t.next));
    LoadFits(t, parent, d);
    LoadNew(t, parent, d);
    KidsAtFacts(f, parent);
    forall n | n in Ids(f) && n !in Ids(KidsAt(f, parent))
      ensures n in Ids(g) && KidMap(g)[n] == if Some(n) == parent then Roots(ns) else KidMap(f)[n]
    {
      LoadOld(t, parent, d, n);
    }
  }

  // The checked leaves after a load.
  ghost function LoadPicks(t: Tree, parent: Option<nat>, d: seq<Node>): set<nat>
    requires Wf(t) && HasParent(t, parent)
  {
    (Picked(t) - Leaves(KidsAt(t.data, parent)) - (if parent.Some? then {parent.value} else {}))
    + Ticked(Render(d, t.next))
    + if parent.Some? && d == [] && t.boxes.marks[parent.value] == Checked then {parent.value} else {}
  }

  lemma LoadLeaf(t: Tree, parent: Option<nat>, d: seq<Node>, g: seq<Node>, n: nat)
    requires Wf(t) && HasParent(t, parent) && g == WithKidsAt(t.data, parent, Render(d, t.next)) && n in Leaves(g)
    requires Grown(t.data, t.boxes.marks, g, Kept(t.boxes, Ids(g)), Render(d, t.next), parent)
    ensures n in Ids(g)
    ensures n in LoadPicks(t, parent, d) <==>
      Seeded(g, Kept(t.boxes, Ids(g)), Render(d, t.next)).marks[n] == Checked
  {
    hide Grown, Leaves, Ids, Seeded, Kept, Render, WithKidsAt, KidsAt, Picked;
    GrownLeaf(t.data, t.boxes.marks, g, Kept(t.boxes, Ids(g)), Render(d, t.next), parent, n);
    PickedFacts(t, n);
    LoadLeafPlace(t, parent, d, g, n);
  }

  // Where a leaf of the loaded forest comes from.
  lemma LoadLeafPlace(t: Tree, parent: Option<nat>, d: seq<Node>, g: seq<Node>, n: nat)
    requires Wf(t) && HasParent(t, parent) && g == WithKidsAt(t.data, parent, Render(d, t.next)) && n in Leaves(g)
    ensures n in Ids(Render(d, t.next)) || n !in Leaves(KidsAt(t.data, parent))
    ensures Some(n) == parent ==> d == []
  {
    var f, ns := t.data, Render(d, t.next);
    LoadFits(t, parent, d);
    LeavesAreKidless(g);
    KidsAtFacts(f, parent);
    LeavesAreKidless(KidsAt(f, parent));
    if Some(n) == parent {
      LoadOld(t, parent, d, n);
      assert |Roots(ns)| == |d|;
    }
  }

  // Loading keeps the marks good unless it empties a node that shows partial:
  // that node stays partial with nothing below it.
  lemma LoadMoves(t: Tree, parent: Option<nat>, d: seq<Node>)
    requires Consistent(t) && HasParent(t, parent)
    ensures var t' := Load(t, parent, d);
      && Wf(t')
      && (Consistent(t') <==> !(d == [] && parent.Some? && t.boxes.marks[parent.value] == Partial))
      && (Consistent(t') ==> t'.boxes.marks == Rollup(t'.data, LoadPicks(t, parent, d)))
  {
    var t' := Load(t, parent, d);
    LoadGood(t, parent, d);
    LoadGrows(t, parent, d);
    LeavesAreKidless(t'.data);
    if Good(t'.data, t'.boxes.marks) {
      forall n | n in Leaves(t'.data)
        ensures n in LoadPicks(t, parent, d) <==> t'.boxes.marks[n] == Checked
      {
        LoadLeaf(t, parent, d, t'.data, n);
      }
      FromLeaves(t'.data, t'.boxes.marks, LoadPicks(t, parent, d));
    }
  }

  lemma LoadGood(t: Tree, parent: Option<nat>, d: seq<Node>)
    requires Consistent(t) && HasParent(t, parent)
    ensures var t' := Load(t, parent, d);
      && Wf(t')
      && (Good(t'.data, t'.boxes.marks) <==> !(d == [] && parent.Some? && t.boxes.marks[parent.value] == Partial))
  {
    hide Ids, Unique, Leaves, Render, Seeded, Grown, Good, KidsAt, WithKidsAt;
    var ns, t' := Render(d, t.next), Load(t, parent, d);
    var g := t'.data;
    LoadFits(t, parent, d);
    LoadGrows(t, parent, d);
    if d == [] {
      GrownByNothing(t.data, t.boxes.marks, g, Kept(t.boxes, Ids(g)), parent);
      if parent.Some? {
        KidsAtFacts(t.data, parent);
        LoadOld(t, parent, d, parent.value);
      }
    } else {
      GrownGood(t.data, t.boxes.marks, g, Kept(t.boxes, Ids(g)), ns, parent);
    }
  }
}
