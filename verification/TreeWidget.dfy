// The tree widget: methods that walk, mark and splice in place, each proved
// against the functions of TreeOps.

module TreeWalk {
  import opened Common
  import opened TreeShape

  // A list up to and including its first element that satisfies stop.
  ghost function CutAt(s: seq<Node>, stop: Node -> bool): seq<Node> {
    if s == [] then [] else if stop(s[0]) then [s[0]] else [s[0]] + CutAt(s[1..], stop)
  }

  lemma {:induction false} CutNever(s: seq<Node>)
    ensures CutAt(s, n => false) == s
  {
    if s != [] {
      CutNever(s[1..]);
    }
  }

  lemma {:induction false} CutFacts(s: seq<Node>, stop: Node -> bool)
    ensures var r := CutAt(s, stop);
      && r <= s
      && (forall i :: 0 <= i < |r| - 1 ==> !stop(r[i]))
      && (r == s || stop(r[|r| - 1]))
  {
    if s != [] && !stop(s[0]) {
      CutFacts(s[1..], stop);
    }
  }

  lemma FlatCons(n: Node, rest: seq<Node>)
    ensures Flat([n] + rest) == [n] + Flat(n.kids + rest)
  {
    FlatConcat(n.kids, rest);
    var f := [n] + rest;
    assert f[0] == n && f[1..] == rest;
  }

  // Put nodes in front of a list, last one first.
  method PushAll(ks: seq<Node>, rest: seq<Node>) returns (stack: seq<Node>)
    ensures stack == ks + rest
  {
    stack := rest;
    var i := |ks|;
    while i > 0
      invariant 0 <= i <= |ks|
      invariant stack == ks[i..] + rest
    {
      i := i - 1;
      stack := [ks[i]] + stack;
    }
  }

  lemma CutStep(n: Node, rest: seq<Node>, stop: Node -> bool)
    ensures CutAt(Flat([n] + rest), stop) == if stop(n) then [n] else [n] + CutAt(Flat(n.kids + rest), stop)
    ensures |Flat([n] + rest)| == 1 + |Flat(n.kids + rest)|
  {
    FlatCons(n, rest);
    var s := [n] + Flat(n.kids + rest);
    assert s[0] == n && s[1..] == Flat(n.kids + rest);
  }

  // The explicit-stack walk: it visits the nodes in preorder until one stops it.
  method Walk(f: seq<Node>, stop: Node -> bool) returns (visited: seq<Node>)
    ensures visited == CutAt(Flat(f), stop)
  {
    var stack: seq<Node> := [];
    for i := 0 to |f|
      invariant stack == f[..i]
    {
      stack := stack + [f[i]];
    }
    assert stack == f;
    visited := [];
    while |stack| > 0
      invariant CutAt(Flat(f), stop) == visited + CutAt(Flat(stack), stop)
      decreases |Flat(stack)|
    {
      var n, rest := stack[0], stack[1..];
      assert stack == [n] + rest;
      CutStep(n, rest, stop);
      visited := visited + [n];
      if stop(n) {
        return;
      }
      stack := PushAll(n.kids, rest);
    }
  }

  ghost function IdSet(s: seq<Node>): set<nat> {
    set n | n in s :: n.id
  }

  // The whole walk.
  method WalkAll(f: seq<Node>) returns (visited: seq<Node>)
    ensures visited == Flat(f) && IdSet(visited) == Ids(f)
  {
    visited := Walk(f, n => false);
    CutNever(Flat(f));
    FlatIds(f);
  }

  // The first node in preorder that satisfies p, if any.
  method Find(f: seq<Node>, p: Node -> bool) returns (r: Option<Node>)
    ensures r.None? ==> forall n :: n in Flat(f) ==> !p(n)
    ensures r.Some? ==> p(r.value) && exists i ::
      0 <= i < |Flat(f)| && Flat(f)[i] == r.value && forall j :: 0 <= j < i ==> !p(Flat(f)[j])
  {
    var visited := Walk(f, p);
    CutFacts(Flat(f), p);
    if |visited| > 0 && p(visited[|visited| - 1]) {
      r := Some(visited[|visited| - 1]);
      assert Flat(f)[|visited| - 1] == r.value;
    } else {
      r := None;
    }
  }
}

module TreeWidget {
  import opened Common
  import opened TreeShape
  import opened TreeMarks
  import opened TreeCascade
  import opened TreeLoad
  import opened TreeOps
  import opened TreeMove
  import opened TreeWalk

  // Rendering one more node after others.
  lemma {:induction false} SizeSnoc(d: seq<Node>, n: Node)
    ensures Size(d + [n]) == Size(d) + 1 + Size(n.kids)
  {
    var e := d + [n];
    if d == [] {
      assert e == [n] && e[1..] == [];
    } else {
      assert e[0] == d[0] && e[1..] == d[1..] + [n];
      SizeSnoc(d[1..], n);
    }
  }

  lemma {:induction false} RenderSnoc(d: seq<Node>, n: Node, k: nat, at: nat)
    requires at == k + Size(d)
    ensures Render(d + [n], k) == Render(d, k) + [Node(at, n.obj, n.checked, Render(n.kids, at + 1))]
  {
    var e := d + [n];
    if d == [] {
      assert e == [n] && e[1..] == [];
    } else {
      assert e[0] == d[0] && e[1..] == d[1..] + [n];
      RenderSnoc(d[1..], n, k + 1 + Size(d[0].kids), at);
    }
  }

  // The nodes d have been numbered from k up to at, giving ns.
  ghost predicate Drawing(d: seq<Node>, k: nat, ns: seq<Node>, at: nat) {
    ns == Render(d, k) && at == k + Size(d)
  }

  lemma DrawSnoc(d: seq<Node>, i: nat, k: nat, ns: seq<Node>, at: nat)
    requires i < |d| && Drawing(d[..i], k, ns, at)
    ensures Drawing(d[..i + 1], k,
      ns + [Node(at, d[i].obj, d[i].checked, Render(d[i].kids, at + 1))], at + 1 + Size(d[i].kids))
  {
    assert d[..i + 1] == d[..i] + [d[i]];
    SizeSnoc(d[..i], d[i]);
    RenderSnoc(d[..i], d[i], k, at);
  }

  lemma DrawNone(d: seq<Node>, k: nat, m: Marks)
    ensures Drawing(d[..0], k, [], k) && m == m + AllUnchecked(Ids([]))
  {
  }

  lemma DrawDone(d: seq<Node>, k: nat, ns: seq<Node>, at: nat)
    requires Drawing(d[..|d|], k, ns, at)
    ensures ns == Render(d, k) && at == k + Size(d)
  {
    assert d[..|d|] == d;
  }

  lemma DrawnMore(m: Marks, ns: seq<Node>, n: Node, more: seq<Node>)
    requires more == ns + [n]
    ensures (m + AllUnchecked(Ids(ns))) + AllUnchecked(Ids([n])) == m + AllUnchecked(Ids(more))
  {
    IdsConcat(ns, [n]);
  }

  lemma DrawnFirst(m: Marks, n: Node)
    ensures m[n.id := Unchecked] + AllUnchecked(Ids(n.kids)) == m + AllUnchecked(Ids([n]))
  {
    OneNodeIds(n);
  }

  lemma {:induction false} CheckedOfFlat(f: seq<Node>)
    ensures CheckedFrom(Flat(f)) == CheckedIds(f)
  {
    if f != [] {
      CheckedOfFlat(f[0].kids);
      CheckedOfFlat(f[1..]);
      CheckedFromConcat([f[0]] + Flat(f[0].kids), Flat(f[1..]));
      CheckedFromConcat([f[0]], Flat(f[0].kids));
    }
  }

  ghost function CheckedFrom(s: seq<Node>): seq<nat> {
    if s == [] then []
    else CheckedFrom(s[..|s| - 1]) + if s[|s| - 1].checked then [s[|s| - 1].id] else []
  }

  lemma CheckedFromSnoc(s: seq<Node>, i: nat)
    requires i < |s|
    ensures CheckedFrom(s[..i + 1]) == CheckedFrom(s[..i]) + if s[i].checked then [s[i].id] else []
  {
    assert s[..i + 1][..i] == s[..i];
  }

  lemma {:induction false} CheckedFromConcat(s: seq<Node>, t: seq<Node>)
    ensures CheckedFrom(s + t) == CheckedFrom(s) + CheckedFrom(t)
  {
    if t == [] {
      assert s + t == s;
    } else {
      assert (s + t)[..|s + t| - 1] == s + t[..|t| - 1];
      CheckedFromConcat(s, t[..|t| - 1]);
    }
  }

  lemma IdSetSnoc(s: seq<Node>, i: nat)
    requires i < |s|
    ensures IdSet(s[..i + 1]) == IdSet(s[..i]) + {s[i].id}
    ensures s[i].id in IdSet(s)
  {
    assert s[..i + 1] == s[..i] + [s[i]];
  }

  lemma PaintOne(m: Marks, ids: set<nat>, id: nat, v: Mark)
    requires id in m
    ensures Painted(m, ids, v)[id := v] == Painted(m, ids + {id}, v)
  {
  }

  lemma PaintMore(m: Marks, id: nat, ids: set<nat>, v: Mark)
    requires id in m
    ensures Painted(m[id := v], ids, v) == Painted(m, {id} + ids, v)
  {
  }

  ghost predicate AllIn(ids: set<nat>, m: Marks, v: Mark)
    requires ids <= m.Keys
  {
    forall x :: x in ids ==> m[x] == v
  }

  ghost predicate NoneIn(ids: set<nat>, m: Marks, v: Mark)
    requires ids <= m.Keys
  {
    forall x :: x in ids ==> m[x] != v
  }

  lemma AllInMore(ids: set<nat>, x: nat, m: Marks, v: Mark)
    requires ids + {x} <= m.Keys
    ensures AllIn(ids + {x}, m, v) <==> AllIn(ids, m, v) && m[x] == v
    ensures NoneIn(ids + {x}, m, v) <==> NoneIn(ids, m, v) && m[x] != v
  {
  }

  // The node and its siblings all show v.
  ghost predicate SiblingsShow(f: seq<Node>, m: Marks, id: nat, v: Mark)
    requires Unique(f) && Covers(f, m) && id in Ids(f) && Parent(f, id).Some?
  {
    PathStep(f, id);
    KidsAreIds(f, Parent(f, id).value);
    AllAre(KidMap(f)[Parent(f, id).value], m, v)
  }

  // Every operation leaves a well-formed state.
  lemma AppendWf(t: Tree, parent: Option<nat>, d: seq<Node>)
    requires Wf(t) && HasParent(t, parent)
    ensures Wf(Append(t, parent, d))
  {
    ExtendedFits(t, parent, d);
  }

  lemma LoadWf(t: Tree, parent: Option<nat>, d: seq<Node>)
    requires Wf(t) && HasParent(t, parent)
    ensures Wf(TreeOps.Load(t, parent, d))
  {
    LoadFits(t, parent, d);
  }

  lemma InsertWf(t: Tree, ref: nat, before: bool, d: seq<Node>)
    requires Wf(t) && ref in Ids(t.data)
    ensures Wf(Insert(t, ref, before, d))
  {
    ParentListed(t.data, ref);
    AppendWf(t, Parent(t.data, ref), d);
    if d != [] {
      InsertShape(t, ref, before, d);
    }
  }

  lemma PlaceIs(f: seq<Node>, ref: nat, before: bool)
    requires Unique(f) && ref in Ids(f)
    ensures Parent(f, ref).Some? ==> Parent(f, ref).value in Ids(f)
    ensures var ks := KidsAt(f, Parent(f, ref)); var i := IndexOf(ks, ref);
      i < |ks| && InsertAt(f, ref, before) == if before then i else i + 1
  {
    FoundAt(f, ref, before);
  }

  // An insert is an append followed by a rearrangement of one array: the old
  // array oldKs, with the new nodes ns behind it, becomes one with ns at its place.
  lemma InsertStages(t: Tree, ref: nat, before: bool, d: seq<Node>)
    returns (parent: Option<nat>, t1: Tree, oldKs: seq<Node>, ns: seq<Node>, at: nat)
    requires Wf(t) && ref in Ids(t.data) && d != []
    ensures parent == Parent(t.data, ref) && HasParent(t, parent) && t1 == Append(t, parent, d) && HasParent(t1, parent)
    ensures KidsAt(t1.data, parent) == oldKs + ns && |ns| == |d| && IndexOf(oldKs, ref) < |oldKs|
    ensures at == if before then IndexOf(oldKs, ref) else IndexOf(oldKs, ref) + 1
    ensures Insert(t, ref, before, d) == Tree(WithKidsAt(t1.data, parent, Spliced(oldKs, ns, at)), t1.boxes, t1.next)
  {
    parent := Parent(t.data, ref);
    PlaceIs(t.data, ref, before);
    oldKs, ns, at := KidsAt(t.data, parent), Render(d, t.next), InsertAt(t.data, ref, before);
    t1 := Append(t, parent, d);
    InsertIsSplice(t, ref, before, d);
    RenderFresh(d, t.next);
  }

  // The checkboxes just before what is loaded gets checked.
  lemma LoadStages(t: Tree, parent: Option<nat>, d: seq<Node>)
    requires Wf(t) && HasParent(t, parent)
    ensures var ks := KidsAt(t.data, parent); var ns := Render(d, t.next); var g := WithKidsAt(t.data, parent, ns);
      && Unique(g) && Ids(ns) <= Ids(g)
      && var x := Drawn(Kept(t.boxes, t.boxes.marks.Keys - Ids(ks)), ns);
      && x.marks.Keys == Ids(g)
      && TreeOps.Load(t, parent, d) == Tree(g, CheckAll(g, Started(g, x, ns), CheckedIds(ns)), t.next + Size(d))
  {
    LoadFits(t, parent, d);
    KeptByLoad(t, parent, d);
  }

  lemma KeptByLoad(t: Tree, parent: Option<nat>, d: seq<Node>)
    requires Wf(t) && HasParent(t, parent)
    ensures var g := WithKidsAt(t.data, parent, Render(d, t.next));
      && Kept(t.boxes, t.boxes.marks.Keys - Ids(KidsAt(t.data, parent))) == Kept(t.boxes, Ids(g))
      && Drawn(Kept(t.boxes, Ids(g)), Render(d, t.next)).marks.Keys == Ids(g)
  {
    hide Unique, Ids, KidsAt, WithKidsAt, Render, Size;
    var ks, g := KidsAt(t.data, parent), WithKidsAt(t.data, parent, Render(d, t.next));
    LoadFits(t, parent, d);
    KidsAtFacts(t.data, parent);
    assert Kept(t.boxes, t.boxes.marks.Keys - Ids(ks)).marks == Kept(t.boxes, Ids(g)).marks;
  }

  lemma AppendStages(t: Tree, parent: Option<nat>, d: seq<Node>)
    requires Wf(t) && HasParent(t, parent) && d != []
    ensures var ns := Render(d, t.next); var g := WithKidsAt(t.data, parent, KidsAt(t.data, parent) + ns);
      && Unique(g) && Ids(ns) <= Ids(g) && (parent.Some? ==> parent.value in Ids(g))
      && Drawn(t.boxes, ns).marks.Keys == Ids(g)
      && var x := CheckAll(g, Started(g, Drawn(t.boxes, ns), ns), CheckedIds(ns));
      Append(t, parent, d) == Tree(g, if parent.Some? then Refreshed(g, x, parent.value) else x, t.next + Size(d))
  {
    hide Unique, Ids, KidsAt, WithKidsAt, Render, Refreshed, Size, CheckAll, Started;
    ExtendedFits(t, parent, d);
  }

  lemma RemoveKeeps(t: Tree, id: nat)
    requires Wf(t) && id in Ids(t.data)
    ensures Kept(t.boxes, t.boxes.marks.Keys - Ids([Sub(t.data, id)])) == Kept(t.boxes, Ids(Pruned(t, id)))
    ensures Kept(t.boxes, Ids(Pruned(t, id))).marks.Keys == Ids(Pruned(t, id))
  {
    PrunedFits(t, id);
    SubFacts(t.data, id);
    OneNodeIds(Sub(t.data, id));
  }

  ghost function SiblingsMark(f: seq<Node>, m: Marks, id: nat): Mark
    requires Unique(f) && Covers(f, m) && id in Ids(f) && Parent(f, id).Some?
  {
    PathStep(f, id);
    KidsAreIds(f, Parent(f, id).value);
    Combined(KidMap(f)[Parent(f, id).value], m)
  }

  // The siblings of a node as the array they are in.
  lemma SiblingsListed(f: seq<Node>, m: Marks, id: nat, v: Mark, p: nat, ks: seq<Node>)
    requires Unique(f) && Covers(f, m) && id in Ids(f) && Parent(f, id) == Some(p) && p in Ids(f)
    requires ks == Sub(f, p).kids
    ensures forall j :: 0 <= j < |ks| ==> ks[j].id in m
    ensures SiblingsShow(f, m, id, v) <==> forall j :: 0 <= j < |ks| ==> m[ks[j].id] == v
    ensures SiblingsShow(f, m, id, v) ==> m[id] == v
  {
    ParentListed(f, id);
    KidsAreIds(f, p);
    SubFacts(f, p);
    forall j | 0 <= j < |ks|
      ensures Roots(ks)[j] in Roots(ks) && ks[j].id in m
    {
    }
    PathStep(f, id);
  }

  lemma ClimbStep(f: seq<Node>, m: Marks, c: nat)
    requires Unique(f) && Covers(f, m) && c in Ids(f) && Parent(f, c).Some?
    ensures var p := Parent(f, c).value;
      && p in Ids(f) && |Path(f, p)| < |Path(f, c)|
      && Covers(f, m[p := SiblingsMark(f, m, c)])
      && Climb(f, m, c) == Climb(f, m[p := SiblingsMark(f, m, c)], p)
  {
    PathStep(f, c);
    KidsAreIds(f, Parent(f, c).value);
  }

  class Widget {
    var data: seq<Node>
    var marks: Marks
    var memory: map<nat, bool>
    var next: nat

    constructor ()
      ensures Snapshot() == Tree([], Boxes(map[], map[]), 1)
      ensures Consistent(Snapshot())
    {
      data, marks, memory, next := [], map[], map[], 1;
    }

    ghost function Snapshot(): Tree
      reads this
    {
      Tree(data, Boxes(marks, memory), next)
    }

    // Do the node and all its siblings show v?
    method SiblingsAre(id: nat, v: Mark) returns (r: bool)
      requires Unique(data) && Covers(data, marks) && id in Ids(data) && Parent(data, id).Some?
      ensures r <==> SiblingsShow(data, marks, id, v)
    {
      PathStep(data, id);
      var p, m := Parent(data, id).value, marks;
      var ks := Sub(data, p).kids;
      SiblingsListed(data, m, id, v, p, ks);
      if m[id] != v {
        return false;
      }
      for i := 0 to |ks|
        invariant forall j :: 0 <= j < i ==> m[ks[j].id] == v
      {
        if m[ks[i].id] != v {
          return false;
        }
      }
      return true;
    }

    // The mark the parent of a node has to show.
    method ParentMark(id: nat) returns (v: Mark)
      requires Unique(data) && Covers(data, marks) && id in Ids(data) && Parent(data, id).Some?
      ensures v == SiblingsMark(data, marks, id)
    {
      var all := SiblingsAre(id, Checked);
      if all {
        return Checked;
      }
      var none := SiblingsAre(id, Unchecked);
      return if none then Unchecked else Partial;
    }

    // Recompute the ancestors of a node, nearest first.
    method ClimbFrom(id: nat)
      requires Unique(data) && Covers(data, marks) && id in Ids(data)
      modifies this`marks
      ensures marks == Climb(data, old(marks), id)
    {
      var cur := id;
      while Parent(data, cur).Some?
        invariant cur in Ids(data) && Covers(data, marks)
        invariant Climb(data, marks, cur) == Climb(data, old(marks), id)
        decreases |Path(data, cur)|
      {
        ClimbStep(data, marks, cur);
        var p := Parent(data, cur).value;
        var v := ParentMark(cur);
        marks := marks[p := v];
        cur := p;
      }
    }

    // Check, uncheck or toggle a node with cascading.
    method CheckNode(id: nat, how: Option<bool>)
      requires Unique(data) && Covers(data, marks) && id in Ids(data)
      modifies this`marks, this`memory
      ensures how.Some? ==>
        Boxes(marks, memory) == CheckBox(data, Boxes(old(marks), old(memory)), id, how.value)
      ensures how == None ==>
        Boxes(marks, memory) == CheckBox(data, Boxes(old(marks), old(memory)), id,
                                         Asked(data, Boxes(old(marks), old(memory)), id))
      ensures marks.Keys == old(marks).Keys
    {
      var n := Sub(data, id);
      var b;
      if how.Some? {
        b := how.value;
      } else {
        if marks[id] == Checked {
          b := false;
        } else if marks[id] == Unchecked {
          b := true;
        } else {
          if n.obj !in memory {
            memory := memory[n.obj := false];
          }
          b := !memory[n.obj];
        }
      }
      memory := memory[n.obj := b];
      SubFacts(data, id);
      PaintMore(marks, id, Ids(n.kids), MarkOf(b));
      marks := marks[id := MarkOf(b)];
      PaintBelow(n.kids, b);
      ClimbFrom(id);
    }

    // Give all descendants the same mark.
    method PaintBelow(kids: seq<Node>, b: bool)
      requires Ids(kids) <= marks.Keys
      modifies this`marks
      ensures marks == Painted(old(marks), Ids(kids), MarkOf(b))
    {
      var below := WalkAll(kids);
      for i := 0 to |below|
        invariant marks == Painted(old(marks), IdSet(below[..i]), MarkOf(b))
      {
        IdSetSnoc(below, i);
        PaintOne(old(marks), IdSet(below[..i]), below[i].id, MarkOf(b));
        marks := marks[below[i].id := MarkOf(b)];
      }
      assert below[..|below|] == below;
    }

    // Number and draw nodes, all unchecked.
    method Draw(d: seq<Node>) returns (ns: seq<Node>)
      modifies this`marks, this`next
      ensures ns == Render(d, old(next)) && next == old(next) + Size(d)
      ensures marks == old(marks) + AllUnchecked(Ids(ns))
      decreases d, 1
    {
      hide Render, Size, Ids, AllUnchecked;
      DrawNone(d, next, marks);
      ghost var k, m := next, marks;
      ns := [];
      for i := 0 to |d|
        invariant Drawing(d[..i], k, ns, next)
        invariant marks == m + AllUnchecked(Ids(ns))
      {
        DrawSnoc(d, i, k, ns, next);
        var n := DrawOne(d, i);
        DrawnMore(m, ns, n, ns + [n]);
        ns := ns + [n];
      }
      DrawDone(d, k, ns, next);
    }

    method DrawOne(d: seq<Node>, i: nat) returns (n: Node)
      requires i < |d|
      modifies this`marks, this`next
      ensures n == Node(old(next), d[i].obj, d[i].checked, Render(d[i].kids, old(next) + 1))
      ensures next == old(next) + 1 + Size(d[i].kids)
      ensures marks == old(marks) + AllUnchecked(Ids([n]))
      decreases d, 0
    {
      var id := next;
      next := next + 1;
      marks := marks[id := Unchecked];
      var kids := Draw(d[i].kids);
      n := Node(id, d[i].obj, d[i].checked, kids);
      DrawnFirst(old(marks), n);
    }

    // The roots handed over as not checked, in order.
    static method UncheckedRoots(ns: seq<Node>) returns (unchecked: seq<nat>)
      ensures FirstUnchecked(ns) == if unchecked == [] then None else Some(unchecked[0])
    {
      unchecked := [];
      for i := 0 to |ns|
        invariant FirstUnchecked(ns) == if unchecked == [] then FirstUnchecked(ns[i..]) else Some(unchecked[0])
      {
        assert ns[i..][1..] == ns[i + 1..];
        if !ns[i].checked {
          unchecked := unchecked + [ns[i].id];
        }
      }
    }

    // All nodes handed over as checked, in preorder.
    static method CheckedNodes(ns: seq<Node>) returns (checked: seq<nat>)
      ensures checked == CheckedIds(ns)
    {
      var all := WalkAll(ns);
      CheckedOfFlat(ns);
      checked := [];
      for i := 0 to |all|
        invariant checked == CheckedFrom(all[..i])
      {
        CheckedFromSnoc(all, i);
        if all[i].checked {
          checked := checked + [all[i].id];
        }
      }
      assert all[..|all|] == all;
    }

    // Check what was handed over as checked.
    method Seed(ns: seq<Node>)
      requires Unique(data) && Covers(data, marks) && Ids(ns) <= Ids(data)
      modifies this`marks, this`memory
      ensures Boxes(marks, memory) == CheckAll(data, Started(data, Boxes(old(marks), old(memory)), ns), CheckedIds(ns))
      ensures marks.Keys == old(marks).Keys
    {
      RootsInIds(ns);
      var unchecked := UncheckedRoots(ns);
      var checked := CheckedNodes(ns);
      if |unchecked| > 0 {
        CheckNode(unchecked[0], Some(false));
      }
      CheckEach(checked);
    }

    method CheckEach(checked: seq<nat>)
      requires Unique(data) && Covers(data, marks) && forall u :: u in checked ==> u in Ids(data)
      modifies this`marks, this`memory
      ensures Boxes(marks, memory) == CheckAll(data, Boxes(old(marks), old(memory)), checked)
      ensures marks.Keys == old(marks).Keys
    {
      for i := 0 to |checked|
        invariant marks.Keys == old(marks).Keys
        invariant Boxes(marks, memory) == CheckAll(data, Boxes(old(marks), old(memory)), checked[..i])
      {
        assert checked[..i + 1][..i] == checked[..i];
        CheckNode(checked[i], Some(true));
      }
      assert checked[..|checked|] == checked;
    }

    // Are all the nodes checked? Is none?
    method Survey(kids: seq<Node>) returns (all: bool, none: bool)
      requires Ids(kids) <= marks.Keys
      ensures all <==> AllIn(Ids(kids), marks, Checked)
      ensures none <==> NoneIn(Ids(kids), marks, Checked)
    {
      all, none := true, true;
      var below := WalkAll(kids);
      for i := 0 to |below|
        invariant IdSet(below[..i]) <= Ids(kids)
        invariant all <==> AllIn(IdSet(below[..i]), marks, Checked)
        invariant none <==> NoneIn(IdSet(below[..i]), marks, Checked)
      {
        IdSetSnoc(below, i);
        AllInMore(IdSet(below[..i]), below[i].id, marks, Checked);
        if marks[below[i].id] == Checked {
          none := false;
        } else {
          all := false;
        }
      }
      assert below[..|below|] == below;
    }

    // Check a node again after its children array has changed.
    method Recheck(id: nat)
      requires Unique(data) && Covers(data, marks) && id in Ids(data)
      modifies this`marks, this`memory
      ensures Boxes(marks, memory) == Refreshed(data, Boxes(old(marks), old(memory)), id)
      ensures marks.Keys == old(marks).Keys
    {
      hide Unique, CheckBox, Ids;
      var n := Sub(data, id);
      SubFacts(data, id);
      if n.kids == [] {
        CheckNode(id, Some(marks[id] == Checked));
      } else if marks[id] == Checked {
        CheckNode(id, Some(true));
      } else if marks[id] == Partial {
        var all, none := Survey(n.kids);
        if all {
          CheckNode(id, Some(true));
        }
        if none {
          CheckNode(id, Some(false));
        }
      }
    }

    method AppendNodes(parent: Option<nat>, d: seq<Node>)
      requires Wf(Snapshot()) && HasParent(Snapshot(), parent)
      modifies this
      ensures Snapshot() == Append(old(Snapshot()), parent, d)
      ensures Wf(Snapshot())
    {
      AppendWf(Snapshot(), parent, d);
      if |d| == 0 {
        return;
      }
      AppendStages(Snapshot(), parent, d);
      AppendRendered(parent, d);
      if parent.Some? {
        Recheck(parent.value);
      }
    }

    // Render nodes at the end of an array and check what they bring.
    method AppendRendered(parent: Option<nat>, d: seq<Node>)
      requires Unique(data) && (parent.Some? ==> parent.value in Ids(data))
      requires var ns := Render(d, next); var g := WithKidsAt(data, parent, KidsAt(data, parent) + ns);
        Unique(g) && Ids(ns) <= Ids(g) && Drawn(Boxes(marks, memory), ns).marks.Keys == Ids(g)
      modifies this
      ensures var ns := Render(d, old(next));
        && data == old(WithKidsAt(data, parent, KidsAt(data, parent) + ns))
        && marks.Keys == Ids(data) && next == old(next) + Size(d)
        && Boxes(marks, memory) ==
             CheckAll(data, Started(data, Drawn(Boxes(old(marks), old(memory)), ns), ns), CheckedIds(ns))
    {
      hide Unique, Ids, Size, Render, AllUnchecked, CheckAll, Started, CheckedIds;
      var ks := KidsAt(data, parent);
      var ns := Draw(d);
      data := WithKidsAt(data, parent, ks + ns);
      Seed(ns);
    }

    // Forget the checkboxes of a node's descendants.
    method EraseBelow(kids: seq<Node>)
      modifies this`marks
      ensures marks == Kept(Boxes(old(marks), memory), old(marks).Keys - Ids(kids)).marks
    {
      var gone := WalkAll(kids);
      marks := marks - set n | n in gone :: n.id;
      assert marks.Keys == old(marks).Keys - IdSet(gone);
    }

    method LoadNodes(parent: Option<nat>, d: seq<Node>)
      requires Wf(Snapshot()) && HasParent(Snapshot(), parent)
      modifies this
      ensures Snapshot() == TreeOps.Load(old(Snapshot()), parent, d)
      ensures Wf(Snapshot())
    {
      LoadWf(Snapshot(), parent, d);
      LoadStages(Snapshot(), parent, d);
      EraseBelow(KidsAt(data, parent));
      var ns := Draw(d);
      data := WithKidsAt(data, parent, ns);
      Seed(ns);
    }

    // Take the node of the given id out of an array.
    static method Cut(ks: seq<Node>, id: nat) returns (r: seq<Node>)
      ensures r == Without(ks, id)
    {
      for i := 0 to |ks|
        invariant Without(ks, id) == ks[..i] + Without(ks[i..], id)
      {
        var rest := ks[i..];
        assert rest[1..] == ks[i + 1..];
        if ks[i].id == id {
          return ks[..i] + ks[i + 1..];
        }
        assert ks[..i] + ([ks[i]] + Without(rest[1..], id)) == ks[..i + 1] + Without(rest[1..], id);
      }
      return ks;
    }

    method RemoveNode(id: nat)
      requires Wf(Snapshot()) && id in Ids(data)
      modifies this
      ensures Snapshot() == Remove(old(Snapshot()), id)
      ensures Wf(Snapshot())
    {
      ghost var t := Snapshot();
      RemoveWf(t, id);
      PrunedFits(t, id);
      ParentListed(data, id);
      var parent := Parent(data, id);
      var ks := Cut(KidsAt(data, parent), id);
      EraseBelow([Sub(data, id)]);
      RemoveKeeps(t, id);
      data := WithKidsAt(data, parent, ks);
      if parent.Some? {
        Recheck(parent.value);
      }
    }

    // Move the last nodes ns of an array to position at.
    static method Reseat(ks: seq<Node>, ghost oldKs: seq<Node>, ns: seq<Node>, at: nat) returns (r: seq<Node>)
      requires ks == oldKs + ns && at <= |oldKs|
      ensures r == Spliced(oldKs, ns, at)
    {
      r := ks;
      var j := |ns|;
      while j > 0
        invariant 0 <= j <= |ns|
        invariant r == ks[..at] + ns[j..] + ks[at..]
      {
        j := j - 1;
        r := r[..at] + [ns[j]] + r[at..];
      }
      r := r[..|r| - |ns|];
      assert ks[at..] == oldKs[at..] + ns;
    }

    // The position of a node in an array that starts with oldKs.
    static method Seek(ks: seq<Node>, ghost oldKs: seq<Node>, id: nat) returns (i: nat)
      requires oldKs <= ks && IndexOf(oldKs, id) < |oldKs|
      ensures i == IndexOf(oldKs, id)
    {
      i := 0;
      while ks[i].id != id
        invariant 0 <= i <= IndexOf(oldKs, id)
        decreases |ks| - i
      {
        i := i + 1;
      }
    }

    method InsertNodes(ref: nat, before: bool, d: seq<Node>)
      requires Wf(Snapshot()) && ref in Ids(data)
      modifies this
      ensures Snapshot() == Insert(old(Snapshot()), ref, before, d)
      ensures Wf(Snapshot())
    {
      InsertWf(Snapshot(), ref, before, d);
      if |d| > 0 {
        ghost var parent, t1, oldKs, ns, at := InsertStages(Snapshot(), ref, before, d);
        var p := Parent(data, ref);
        AppendNodes(p, d);
        PlaceLast(p, oldKs, ns, at, |d|, ref, before);
      }
    }

    // Move the last nodes of an array next to the node ref.
    method PlaceLast(parent: Option<nat>, ghost oldKs: seq<Node>, ghost ns: seq<Node>, ghost at: nat,
                     count: nat, ref: nat, before: bool)
      requires parent.Some? ==> parent.value in Ids(data)
      requires KidsAt(data, parent) == oldKs + ns && |ns| == count
      requires IndexOf(oldKs, ref) < |oldKs|
      requires at == if before then IndexOf(oldKs, ref) else IndexOf(oldKs, ref) + 1
      modifies this`data
      ensures data == WithKidsAt(old(data), parent, Spliced(oldKs, ns, at))
    {
      var ks := KidsAt(data, parent);
      var i := Seek(ks, oldKs, ref);
      assert ks[|ks| - count..] == ns;
      var placed := Reseat(ks, oldKs, ks[|ks| - count..], if before then i else i + 1);
      data := WithKidsAt(data, parent, placed);
    }

    // Bring the "checked" flags of nodes up to date.
    method Flag(f: seq<Node>) returns (r: seq<Node>)
      requires Covers(f, marks)
      ensures r == Flagged(f, marks)
      decreases f
    {
      if |f| == 0 {
        return [];
      }
      var kids := Flag(f[0].kids);
      var rest := Flag(f[1..]);
      r := [Node(f[0].id, f[0].obj, marks[f[0].id] == Checked, kids)] + rest;
    }

    // Take a node out and hand out its data.
    method Pop(id: nat) returns (node: seq<Node>)
      requires Wf(Snapshot()) && id in Ids(data)
      modifies this
      ensures node == Popped(old(Snapshot()), id)
      ensures Snapshot() == Remove(old(Snapshot()), id)
      ensures Wf(Snapshot())
    {
      SubFacts(data, id);
      OneNodeIds(Sub(data, id));
      node := Flag([Sub(data, id)]);
      RemoveNode(id);
    }

    // Drop a dragged node right before or right after another.
    method DragNextTo(id: nat, ref: nat, before: bool)
      requires Wf(Snapshot()) && id in Ids(data) && ref in Ids(data) && ref !in Below(data, id)
      modifies this
      ensures Snapshot() == MoveNextTo(old(Snapshot()), id, ref, before)
      ensures Wf(Snapshot())
    {
      RemoveWf(Snapshot(), id);
      var node := Pop(id);
      InsertNodes(ref, before, node);
    }

    // Drop a dragged node on another, as its last child.
    method DragInto(id: nat, target: nat)
      requires Wf(Snapshot()) && id in Ids(data) && target in Ids(data) && target !in Below(data, id)
      modifies this
      ensures Snapshot() == MoveInto(old(Snapshot()), id, target)
      ensures Wf(Snapshot())
    {
      RemoveWf(Snapshot(), id);
      var node := Pop(id);
      AppendNodes(Some(target), node);
    }
  }
}
