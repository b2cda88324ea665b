// Runs of tree operations: the marks stay consistent, with one exact exception.

module TreeRuns {
  import opened Common
  import opened TreeShape
  import opened TreeMarks
  import opened TreeLoad
  import opened TreeOps
  import opened TreeMove

  datatype Op =
    | DoCheck(id: nat, b: bool)
    | DoClick(id: nat)
    | DoAppend(parent: Option<nat>, d: seq<Node>)
    | DoInsert(ref: nat, before: bool, d: seq<Node>)
    | DoRemove(id: nat)
    | DoLoad(parent: Option<nat>, d: seq<Node>)
    | DoMove(id: nat, ref: nat, before: bool)
    | DoMoveInto(id: nat, target: nat)

  // The nodes the operation names exist; a node is not dropped into itself.
  ghost predicate Applies(t: Tree, op: Op) {
    Wf(t) &&
    match op
    case DoCheck(id, _) => id in Ids(t.data)
    case DoClick(id) => id in Ids(t.data)
    case DoAppend(parent, _) => HasParent(t, parent)
    case DoInsert(ref, _, _) => ref in Ids(t.data)
    case DoRemove(id) => id in Ids(t.data)
    case DoLoad(parent, _) => HasParent(t, parent)
    case DoMove(id, ref, _) => id in Ids(t.data) && ref in Ids(t.data) && ref !in Below(t.data, id)
    case DoMoveInto(id, target) => id in Ids(t.data) && target in Ids(t.data) && target !in Below(t.data, id)
  }

  ghost function Apply(t: Tree, op: Op): Tree
    requires Applies(t, op)
  {
    match op
    case DoCheck(id, b) => Check(t, id, b)
    case DoClick(id) => Click(t, id)
    case DoAppend(parent, d) => Append(t, parent, d)
    case DoInsert(ref, before, d) => Insert(t, ref, before, d)
    case DoRemove(id) => Remove(t, id)
    case DoLoad(parent, d) => Load(t, parent, d)
    case DoMove(id, ref, before) => MoveNextTo(t, id, ref, before)
    case DoMoveInto(id, target) => MoveInto(t, id, target)
  }

  // The operation loads nothing into a node that shows partial.
  ghost predicate Empties(t: Tree, op: Op)
    requires Applies(t, op)
  {
    op.DoLoad? && op.d == [] && op.parent.Some? && t.boxes.marks[op.parent.value] == Partial
  }

  // One operation keeps the marks consistent unless it empties a partial node.
  lemma StepKeeps(t: Tree, op: Op)
    requires Consistent(t) && Applies(t, op)
    ensures Consistent(Apply(t, op)) <==> !Empties(t, op)
  {
    match op
    case DoCheck(id, b) => CheckMoves(t, id, b);
    case DoClick(id) => ClickMoves(t, id);
    case DoAppend(parent, d) =>
      if d != [] {
        AppendMoves(t, parent, d);
      }
    case DoInsert(ref, before, d) =>
      if d != [] {
        InsertMoves(t, ref, before, d);
      }
    case DoRemove(id) => RemoveMoves(t, id);
    case DoLoad(parent, d) => LoadMoves(t, parent, d);
    case DoMove(id, ref, before) => MoveKeepsSubtree(t, id, ref, before);
    case DoMoveInto(id, target) => MoveIntoKeepsSubtree(t, id, target);
  }

  // Every operation of the run applies where it is used.
  ghost predicate Legal(t: Tree, ops: seq<Op>)
    decreases |ops|
  {
    ops == [] || (Applies(t, ops[0]) && Legal(Apply(t, ops[0]), ops[1..]))
  }

  ghost function Run(t: Tree, ops: seq<Op>): Tree
    requires Legal(t, ops)
    decreases |ops|
  {
    if ops == [] then t else Run(Apply(t, ops[0]), ops[1..])
  }

  ghost predicate NeverEmpties(t: Tree, ops: seq<Op>)
    requires Legal(t, ops)
    decreases |ops|
  {
    ops == [] || (!Empties(t, ops[0]) && NeverEmpties(Apply(t, ops[0]), ops[1..]))
  }

  // Every state along the run is consistent.
  ghost predicate AlwaysConsistent(t: Tree, ops: seq<Op>)
    requires Legal(t, ops)
    decreases |ops|
  {
    Consistent(t) && (ops == [] || AlwaysConsistent(Apply(t, ops[0]), ops[1..]))
  }

  // A run from a consistent state stays consistent throughout exactly when it
  // never empties a partial node.
  lemma {:induction false} RunKeeps(t: Tree, ops: seq<Op>)
    requires Consistent(t) && Legal(t, ops)
    ensures AlwaysConsistent(t, ops) <==> NeverEmpties(t, ops)
    decreases |ops|
  {
    if ops != [] {
      StepKeeps(t, ops[0]);
      if Consistent(Apply(t, ops[0])) {
        RunKeeps(Apply(t, ops[0]), ops[1..]);
      }
    }
  }

  // After such a run all marks are a function of the checked leaves.
  lemma {:induction false} RunMarks(t: Tree, ops: seq<Op>)
    requires Consistent(t) && Legal(t, ops) && NeverEmpties(t, ops)
    ensures var t' := Run(t, ops);
      Consistent(t') && t'.boxes.marks == Rollup(t'.data, Picked(t'))
    decreases |ops|
  {
    if ops == [] {
      MarksFollowLeaves(t);
    } else {
      StepKeeps(t, ops[0]);
      RunMarks(Apply(t, ops[0]), ops[1..]);
    }
  }

  // ---------------------------------------------------------------- what a partial node remembers

  ghost predicate OnlyChecks(ops: seq<Op>) {
    forall i :: 0 <= i < |ops| ==> ops[i].DoCheck? || ops[i].DoClick?
  }

  // What the last of the checks and clicks on an object came to.
  ghost function LastAsked(t: Tree, ops: seq<Op>, obj: nat): Option<bool>
    requires Legal(t, ops) && OnlyChecks(ops) && Consistent(t)
    decreases |ops|
  {
    if ops == [] then None
    else
      StepKeeps(t, ops[0]);
      var t', id := Apply(t, ops[0]), ops[0].id;
      CheckStays(t, ops[0]);
      var later := LastAsked(t', ops[1..], obj);
      if later.Some? then later
      else if Sub(t.data, id).obj == obj then Some(t'.boxes.marks[id] == Checked)
      else None
  }

  lemma CheckStays(t: Tree, op: Op)
    requires Consistent(t) && Applies(t, op) && (op.DoCheck? || op.DoClick?)
    ensures Consistent(Apply(t, op)) && Apply(t, op).data == t.data && op.id in Apply(t, op).boxes.marks
    ensures var t' := Apply(t, op); var obj := Sub(t.data, op.id).obj;
      && obj in t'.boxes.memory && t'.boxes.memory[obj] == (t'.boxes.marks[op.id] == Checked)
      && forall o :: o != obj ==>
           && (o in t'.boxes.memory <==> o in t.boxes.memory)
           && (o in t.boxes.memory ==> t'.boxes.memory[o] == t.boxes.memory[o])
  {
    if op.DoCheck? {
      CheckShows(t, op.id, op.b);
    } else {
      CheckShows(t, op.id, Asked(t.data, t.boxes, op.id));
    }
  }

  lemma {:induction false} ChecksRemember(t: Tree, ops: seq<Op>, obj: nat)
    requires Consistent(t) && Legal(t, ops) && OnlyChecks(ops)
    ensures Consistent(Run(t, ops)) && Run(t, ops).data == t.data
    ensures var last := LastAsked(t, ops, obj); var memory := Run(t, ops).boxes.memory;
      if last.Some? then obj in memory && memory[obj] == last.value
      else
        && (obj in memory <==> obj in t.boxes.memory)
        && (obj in memory ==> memory[obj] == t.boxes.memory[obj])
    decreases |ops|
  {
    if ops != [] {
      CheckStays(t, ops[0]);
      ChecksRemember(Apply(t, ops[0]), ops[1..], obj);
    }
  }

  // After any run of checks and clicks, a click on a partial node undoes the last of
  // them on its object, whatever came of the others.
  lemma ClickUndoes(t: Tree, ops: seq<Op>, id: nat)
    requires Consistent(t) && Legal(t, ops) && OnlyChecks(ops) && id in Ids(t.data)
    ensures Wf(Run(t, ops)) && Run(t, ops).data == t.data
    ensures var t' := Run(t, ops); var last := LastAsked(t, ops, Sub(t.data, id).obj);
      t'.boxes.marks[id] == Partial && last.Some? ==>
        Apply(t', DoClick(id)).boxes.marks[id] == (if last.value then Unchecked else Checked)
  {
    ChecksRemember(t, ops, Sub(t.data, id).obj);
    ClickMoves(Run(t, ops), id);
  }

  // ---------------------------------------------------------------- the exception

  lemma OneLeaf(n: Node)
    requires n.kids == []
    ensures Ids([n]) == {n.id} && Unique([n]) && KidMap([n]) == map[n.id := []]
  {
    OneMore(n, []);
    assert [n] + [] == [n];
  }

  lemma HalfChecked(a: Node, b: Node, root: Node, m: Marks)
    requires a.id == 2 && b.id == 3 && a.kids == [] && b.kids == [] && root.id == 1 && root.kids == [a, b]
    requires m == map[1 := Partial, 2 := Checked, 3 := Unchecked]
    ensures Unique([root]) && Ids([root]) == {1, 2, 3} && Good([root], m)
  {
    HalfShape(a, b, root);
    hide Unique, Ids, KidMap;
    assert 2 in [2, 3] && 3 in [2, 3];
  }

  lemma HalfShape(a: Node, b: Node, root: Node)
    requires a.id == 2 && b.id == 3 && a.kids == [] && b.kids == [] && root.id == 1 && root.kids == [a, b]
    ensures Unique([root]) && Ids([root]) == {1, 2, 3} && KidMap([root]) == map[1 := [2, 3], 2 := [], 3 := []]
  {
    OneLeaf(b);
    OneMore(a, [b]);
    OneMore(root, []);
    hide Unique, Ids, KidMap;
    assert [a] + [b] == [a, b] && [root] + [] == [root];
    assert Roots([a, b]) == [2, 3];
  }

  // The exception is real: a half-checked folder whose children are reloaded as
  // an empty list.
  lemma EmptyReloadBreaks() returns (t: Tree, op: Op)
    ensures Consistent(t) && Applies(t, op) && !Consistent(Apply(t, op))
  {
    var a, b := Node(2, 12, true, []), Node(3, 13, false, []);
    var root := Node(1, 11, false, [a, b]);
    var m: Marks := map[1 := Partial, 2 := Checked, 3 := Unchecked];
    t := Tree([root], Boxes(m, map[]), 4);
    op := DoLoad(Some(1), []);
    HalfChecked(a, b, root, m);
    StepKeeps(t, op);
  }
}
