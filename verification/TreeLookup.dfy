// Looking rows up in a grid's forest breadth first, and listing the rows below
// one by looking each row up again by its id.

module TreeLookup {
  import opened Common

  datatype Node = Node(id: int, children: seq<Node>)

  ghost function Pre(nodes: seq<Node>): seq<Node> {
    if nodes == [] then [] else [nodes[0]] + Pre(nodes[0].children) + Pre(nodes[1..])
  }

  // Two for every node: one for itself, one for its list on the queue.
  ghost function Weight(nodes: seq<Node>): nat {
    if nodes == [] then 0 else 2 + Weight(nodes[0].children) + Weight(nodes[1..])
  }

  ghost function QueueWeight(queue: seq<seq<Node>>): nat {
    if queue == [] then 0 else 1 + Weight(queue[0]) + QueueWeight(queue[1..])
  }

  function ChildLists(nodes: seq<Node>): seq<seq<Node>> {
    if nodes == [] then [] else [nodes[0].children] + ChildLists(nodes[1..])
  }

  lemma {:induction false} QueueConcat(p: seq<seq<Node>>, q: seq<seq<Node>>)
    ensures QueueWeight(p + q) == QueueWeight(p) + QueueWeight(q)
  {
    if p == [] {
      assert p + q == q;
    } else {
      assert (p + q)[1..] == p[1..] + q;
      QueueConcat(p[1..], q);
    }
  }

  lemma {:induction false} ChildWeight(nodes: seq<Node>)
    ensures QueueWeight(ChildLists(nodes)) <= Weight(nodes)
  {
    if nodes != [] {
      ChildWeight(nodes[1..]);
      assert ChildLists(nodes)[1..] == ChildLists(nodes[1..]);
    }
  }

  lemma Shrinks(queue: seq<seq<Node>>)
    requires queue != []
    ensures QueueWeight(queue[1..] + ChildLists(queue[0])) < QueueWeight(queue)
  {
    QueueConcat(queue[1..], ChildLists(queue[0]));
    ChildWeight(queue[0]);
  }

  // The nodes in the order a breadth first walk meets them.
  ghost function Breadth(queue: seq<seq<Node>>): seq<Node>
    decreases QueueWeight(queue)
  {
    if queue == [] then []
    else
      Shrinks(queue);
      queue[0] + Breadth(queue[1..] + ChildLists(queue[0]))
  }

  ghost function First(nodes: seq<Node>, id: int): Option<Node> {
    if nodes == [] then None else if nodes[0].id == id then Some(nodes[0]) else First(nodes[1..], id)
  }

  // ---------------------------------------------------------------- the lookup loop

  lemma {:induction false} FirstConcat(p: seq<Node>, q: seq<Node>, id: int)
    ensures First(p + q, id) == if First(p, id).Some? then First(p, id) else First(q, id)
  {
    if p == [] {
      assert p + q == q;
    } else {
      assert (p + q)[1..] == p[1..] + q;
      FirstConcat(p[1..], q, id);
    }
  }

  method Find(data: seq<Node>, id: int) returns (r: Option<Node>)
    ensures r == First(Breadth([data]), id)
  {
    var cc := [data];
    while cc != []
      invariant First(Breadth(cc), id) == First(Breadth([data]), id)
      decreases QueueWeight(cc)
    {
      Shrinks(cc);
      var c := cc[0];
      ghost var was := cc;
      cc := cc[1..];
      FirstConcat(c, Breadth(cc + ChildLists(c)), id);
      ghost var lists := [];
      for i := 0 to |c|
        invariant First(c, id) == First(c[i..], id)
        invariant cc == was[1..] + lists && lists + ChildLists(c[i..]) == ChildLists(c)
      {
        if c[i].id == id {
          return Some(c[i]);
        }
        assert c[i..][1..] == c[i + 1..];
        assert (lists + [c[i].children]) + ChildLists(c[i + 1..]) == lists + ([c[i].children] + ChildLists(c[i + 1..]));
        cc := cc + [c[i].children];
        lists := lists + [c[i].children];
      }
      assert lists == ChildLists(c);
    }
    return None;
  }

  // ---------------------------------------------------------------- breadth first against preorder

  ghost function PreAll(queue: seq<seq<Node>>): seq<Node> {
    if queue == [] then [] else Pre(queue[0]) + PreAll(queue[1..])
  }

  lemma {:induction false} PreAllConcat(p: seq<seq<Node>>, q: seq<seq<Node>>)
    ensures PreAll(p + q) == PreAll(p) + PreAll(q)
  {
    if p == [] {
      assert p + q == q;
    } else {
      assert (p + q)[1..] == p[1..] + q;
      PreAllConcat(p[1..], q);
    }
  }

  lemma {:induction false} PreLevels(nodes: seq<Node>)
    ensures multiset(Pre(nodes)) == multiset(nodes) + multiset(PreAll(ChildLists(nodes)))
  {
    if nodes != [] {
      PreLevels(nodes[1..]);
      assert ChildLists(nodes)[1..] == ChildLists(nodes[1..]);
      assert nodes == [nodes[0]] + nodes[1..];
    }
  }

  // A breadth first walk meets the nodes of the preorder, each as often.
  lemma {:induction false} BreadthIsPreorder(queue: seq<seq<Node>>)
    ensures multiset(Breadth(queue)) == multiset(PreAll(queue))
    decreases QueueWeight(queue)
  {
    if queue != [] {
      Shrinks(queue);
      BreadthIsPreorder(queue[1..] + ChildLists(queue[0]));
      PreAllConcat(queue[1..], ChildLists(queue[0]));
      PreLevels(queue[0]);
    }
  }

  lemma {:induction false} FirstIff(nodes: seq<Node>, id: int)
    ensures First(nodes, id).Some? <==> exists n :: n in nodes && n.id == id
    ensures First(nodes, id).Some? ==> First(nodes, id).value in nodes && First(nodes, id).value.id == id
  {
    if nodes != [] {
      FirstIff(nodes[1..], id);
      assert nodes == [nodes[0]] + nodes[1..];
    }
  }

  ghost function Concat(lists: seq<seq<Node>>): seq<Node> {
    if lists == [] then [] else lists[0] + Concat(lists[1..])
  }

  // The children of some nodes, from left to right.
  ghost function NextLevel(nodes: seq<Node>): seq<Node> {
    if nodes == [] then [] else nodes[0].children + NextLevel(nodes[1..])
  }

  // A forest level by level.
  ghost function Levels(nodes: seq<Node>): seq<Node>
    decreases Weight(nodes)
  {
    if nodes == [] then []
    else
      LevelWeight(nodes);
      nodes + Levels(NextLevel(nodes))
  }

  lemma {:induction false} WeightConcat(p: seq<Node>, q: seq<Node>)
    ensures Weight(p + q) == Weight(p) + Weight(q)
  {
    if p == [] {
      assert p + q == q;
    } else {
      assert (p + q)[1..] == p[1..] + q;
      WeightConcat(p[1..], q);
    }
  }

  lemma {:induction false} LevelWeight(nodes: seq<Node>)
    ensures Weight(NextLevel(nodes)) + 2 * |nodes| == Weight(nodes)
  {
    if nodes != [] {
      LevelWeight(nodes[1..]);
      WeightConcat(nodes[0].children, NextLevel(nodes[1..]));
    }
  }

  lemma {:induction false} ConcatBoth(p: seq<seq<Node>>, q: seq<seq<Node>>)
    ensures Concat(p + q) == Concat(p) + Concat(q)
  {
    if p == [] {
      assert p + q == q;
    } else {
      assert (p + q)[1..] == p[1..] + q;
      ConcatBoth(p[1..], q);
    }
  }

  lemma {:induction false} NextLevelBoth(p: seq<Node>, q: seq<Node>)
    ensures NextLevel(p + q) == NextLevel(p) + NextLevel(q)
  {
    if p == [] {
      assert p + q == q;
    } else {
      assert (p + q)[1..] == p[1..] + q;
      NextLevelBoth(p[1..], q);
    }
  }

  lemma {:induction false} ListsConcat(nodes: seq<Node>)
    ensures Concat(ChildLists(nodes)) == NextLevel(nodes)
  {
    if nodes != [] {
      ListsConcat(nodes[1..]);
      assert ChildLists(nodes)[1..] == ChildLists(nodes[1..]);
    }
  }

  // What a walk has to do for the lists of one level with some lists behind them.
  ghost predicate Met(level: seq<seq<Node>>, behind: seq<seq<Node>>, lists: seq<seq<Node>>) {
    && Concat(lists) == NextLevel(Concat(level))
    && Breadth(level + behind) == Concat(level) + Breadth(behind + lists)
    && QueueWeight(behind + lists) + |level| <= QueueWeight(level + behind)
  }

  lemma MetNone(behind: seq<seq<Node>>)
    ensures Met([], behind, [])
  {
    assert [] + behind == behind == behind + [];
  }

  lemma Joined(first: seq<seq<Node>>, lists: seq<seq<Node>>, head: seq<Node>, tail: seq<Node>)
    requires Concat(lists) == NextLevel(tail)
    requires Concat(first) == NextLevel(head)
    ensures Concat(first + lists) == NextLevel(head + tail)
  {
    ConcatBoth(first, lists);
    NextLevelBoth(head, tail);
  }

  lemma ConcatCons(level: seq<seq<Node>>)
    requires level != []
    ensures Concat(level) == level[0] + Concat(level[1..])
  {
  }

  lemma BreadthCons(level: seq<seq<Node>>, behind: seq<seq<Node>>)
    requires level != []
    ensures Breadth(level + behind) == level[0] + Breadth(level[1..] + (behind + ChildLists(level[0])))
    ensures QueueWeight(level[1..] + (behind + ChildLists(level[0]))) < QueueWeight(level + behind)
  {
    hide Breadth, ChildLists, QueueWeight;
    var queue := level + behind;
    Shrinks(queue);
    assert queue[1..] + ChildLists(queue[0]) == level[1..] + (behind + ChildLists(level[0]));
    BreadthNext(queue, level[1..] + (behind + ChildLists(level[0])));
  }

  lemma MetCons(level: seq<seq<Node>>, behind: seq<seq<Node>>, lists: seq<seq<Node>>)
    requires level != []
    requires Met(level[1..], behind + ChildLists(level[0]), lists)
    ensures Met(level, behind, ChildLists(level[0]) + lists)
  {
    hide Breadth, ChildLists, Concat, NextLevel, QueueWeight;
    var first, tail := ChildLists(level[0]), Concat(level[1..]);
    BreadthCons(level, behind);
    ConcatCons(level);
    ListsConcat(level[0]);
    Joined(first, lists, level[0], tail);
    assert (behind + first) + lists == behind + (first + lists);
    assert level[0] + (tail + Breadth(behind + (first + lists)))
        == (level[0] + tail) + Breadth(behind + (first + lists));
  }

  // The lists of one level are met before those of the next, queued behind them.
  lemma {:induction false} LevelMet(level: seq<seq<Node>>, behind: seq<seq<Node>>) returns (lists: seq<seq<Node>>)
    ensures Met(level, behind, lists)
    decreases |level|
  {
    hide Breadth, ChildLists, Concat, NextLevel, QueueWeight;
    if level == [] {
      MetNone(behind);
      lists := [];
    } else {
      var more := LevelMet(level[1..], behind + ChildLists(level[0]));
      MetCons(level, behind, more);
      lists := ChildLists(level[0]) + more;
    }
  }

  lemma LevelsStep(nodes: seq<Node>)
    ensures Levels(nodes) == nodes + Levels(NextLevel(nodes))
  {
  }

  // So the walk meets the forest level by level, each from left to right.
  lemma {:induction false} BreadthIsLevels(level: seq<seq<Node>>)
    ensures Breadth(level) == Levels(Concat(level))
    decreases QueueWeight(level)
  {
    if level != [] {
      hide Breadth, ChildLists, Concat, NextLevel, QueueWeight, Levels;
      var lists := LevelMet(level, []);
      assert level + [] == level && [] + lists == lists;
      BreadthIsLevels(lists);
      LevelsStep(Concat(level));
    }
  }

  // The row found is the first with its id level by level.
  lemma FoundByLevel(data: seq<Node>, id: int)
    ensures First(Breadth([data]), id) == First(Levels(data), id)
  {
    BreadthIsLevels([data]);
    ConcatCons([data]);
    assert [data][1..] == [] && Concat([]) == [];
    assert data + [] == data;
  }

  // The lookup finds a row of the forest exactly when one has the id.
  lemma FoundIffOccurs(data: seq<Node>, id: int)
    ensures var r := First(Breadth([data]), id);
      && (r.Some? <==> exists n :: n in Pre(data) && n.id == id)
      && (r.Some? ==> r.value in Pre(data) && r.value.id == id)
  {
    BreadthIsPreorder([data]);
    assert [data][1..] == [];
    assert PreAll([data]) == Pre(data);
    var b, p := Breadth([data]), Pre(data);
    forall n
      ensures n in b <==> n in p
    {
      assert n in b <==> n in multiset(b);
      assert n in p <==> n in multiset(p);
    }
    FirstIff(b, id);
  }

  // ---------------------------------------------------------------- listing by id

  ghost predicate UniqueIds(data: seq<Node>) {
    forall i, j :: 0 <= i < |Pre(data)| && 0 <= j < |Pre(data)| && Pre(data)[i].id == Pre(data)[j].id ==> i == j
  }

  ghost function Lookup(data: seq<Node>, id: int): Option<Node> {
    First(Breadth([data]), id)
  }

  lemma FindsItself(data: seq<Node>, n: Node)
    requires UniqueIds(data) && n in Pre(data)
    ensures Lookup(data, n.id) == Some(n)
  {
    FoundIffOccurs(data, n.id);
  }

  lemma {:induction false} InPre(nodes: seq<Node>, n: Node)
    requires n in nodes
    ensures n in Pre(nodes)
  {
    if n != nodes[0] {
      InPre(nodes[1..], n);
    }
  }

  lemma {:induction false} PreClosed(nodes: seq<Node>, n: Node, c: Node)
    requires n in Pre(nodes) && c in n.children
    ensures c in Pre(nodes)
  {
    if n == nodes[0] {
      InPre(n.children, c);
    } else if n in Pre(nodes[0].children) {
      PreClosed(nodes[0].children, n, c);
    } else {
      PreClosed(nodes[1..], n, c);
    }
  }

  ghost function Below(data: seq<Node>, id: int): seq<Node> {
    var r := Lookup(data, id);
    if r.Some? then Pre(r.value.children) else []
  }

  ghost function Height(data: seq<Node>, id: int): nat {
    var r := Lookup(data, id);
    if r.Some? then 1 + Weight(r.value.children) else 0
  }

  lemma {:induction false} WeightChild(nodes: seq<Node>, i: nat)
    requires i < |nodes|
    ensures 1 + Weight(nodes[i].children) < 1 + Weight(nodes)
  {
    if i > 0 {
      WeightChild(nodes[1..], i - 1);
    }
  }

  lemma {:induction false} PreNext(nodes: seq<Node>, i: nat)
    requires i < |nodes|
    ensures Pre(nodes[..i + 1]) == Pre(nodes[..i]) + [nodes[i]] + Pre(nodes[i].children)
  {
    var p := nodes[..i + 1];
    if i == 0 {
      assert p[1..] == [];
      assert Pre(p) == [p[0]] + Pre(p[0].children) + Pre(p[1..]);
    } else {
      assert p[1..] == nodes[1..][..i] && nodes[1..][..i - 1] == nodes[..i][1..];
      PreNext(nodes[1..], i - 1);
      var a, b, c := [p[0]] + Pre(p[0].children), Pre(nodes[..i][1..]), [nodes[i]];
      var d := Pre(nodes[i].children);
      assert a + (b + c + d) == (a + b) + c + d;
    }
  }

  // ---------------------------------------------------------------- what listing by id gives

  ghost predicate Ranked(data: seq<Node>, rank: map<int, nat>) {
    forall id :: Lookup(data, id).Some? ==>
      && id in rank
      && forall c :: c in Lookup(data, id).value.children ==> c.id in rank && rank[c.id] < rank[id]
  }

  // Looking up a child of the row found for an id, and so on, comes to an end.
  ghost predicate Descends(data: seq<Node>) {
    exists rank: map<int, nat> :: Ranked(data, rank)
  }

  ghost function Rank(data: seq<Node>, id: int): nat
    requires Descends(data)
  {
    var rank: map<int, nat> :| Ranked(data, rank);
    if id in rank then rank[id] else 0
  }

  // The rows listed below an id: the children of the row found for it, each
  // followed by what is listed below its own id.
  ghost function ById(data: seq<Node>, id: int): seq<Node>
    requires Descends(data)
    decreases Rank(data, id), 1, 0
  {
    var r := Lookup(data, id);
    if r.None? then [] else ByIdOf(data, r.value.children, id)
  }

  ghost function ByIdOf(data: seq<Node>, nodes: seq<Node>, id: int): seq<Node>
    requires Descends(data) && Lookup(data, id).Some?
    requires forall c :: c in nodes ==> c in Lookup(data, id).value.children
    decreases Rank(data, id), 0, |nodes|
  {
    if nodes == [] then []
    else
      var n := |nodes| - 1;
      ByIdOf(data, nodes[..n], id) + [nodes[n]] + ById(data, nodes[n].id)
  }

  // What is listed when no row is asked for.
  ghost function Listed(data: seq<Node>, roots: seq<Node>): seq<Node>
    requires Descends(data)
  {
    if roots == [] then []
    else
      var n := |roots| - 1;
      Listed(data, roots[..n]) + [roots[n]] + ById(data, roots[n].id)
  }

  lemma HeightLess(data: seq<Node>, id: int, c: Node)
    requires UniqueIds(data) && Lookup(data, id).Some? && c in Lookup(data, id).value.children
    ensures c in Pre(data) && Lookup(data, c.id) == Some(c) && Height(data, c.id) < Height(data, id)
  {
    var n := Lookup(data, id).value;
    FoundIffOccurs(data, id);
    PreClosed(data, n, c);
    FindsItself(data, c);
    var i :| 0 <= i < |n.children| && n.children[i] == c;
    WeightChild(n.children, i);
  }

  // With unique ids it comes to an end ...
  lemma UniqueDescends(data: seq<Node>)
    requires UniqueIds(data)
    ensures Descends(data)
  {
    var ids := set n | n in Pre(data) :: n.id;
    var rank := map id | id in ids :: Height(data, id);
    forall id | Lookup(data, id).Some?
      ensures id in rank
      ensures forall c :: c in Lookup(data, id).value.children ==> c.id in rank && rank[c.id] < rank[id]
    {
      FoundIffOccurs(data, id);
      forall c | c in Lookup(data, id).value.children
        ensures c.id in rank && rank[c.id] < rank[id]
      {
        HeightLess(data, id, c);
      }
    }
    assert Ranked(data, rank);
  }

  // ... and the rows listed are the descendants in preorder.
  lemma {:induction false} ByIdIsBelow(data: seq<Node>, id: int)
    requires UniqueIds(data) && Descends(data)
    ensures ById(data, id) == Below(data, id)
    decreases Height(data, id), 1, 0
  {
    if Lookup(data, id).Some? {
      ByIdOfIsPre(data, Lookup(data, id).value.children, id);
    }
  }

  lemma {:induction false} ByIdOfIsPre(data: seq<Node>, nodes: seq<Node>, id: int)
    requires UniqueIds(data) && Descends(data) && Lookup(data, id).Some?
    requires forall c :: c in nodes ==> c in Lookup(data, id).value.children
    ensures ByIdOf(data, nodes, id) == Pre(nodes)
    decreases Height(data, id), 0, |nodes|
  {
    if nodes != [] {
      var n := |nodes| - 1;
      ByIdOfIsPre(data, nodes[..n], id);
      HeightLess(data, id, nodes[n]);
      ByIdIsBelow(data, nodes[n].id);
      PreNext(nodes, n);
      assert nodes[..n + 1] == nodes;
    }
  }

  lemma {:induction false} ListedIsPre(data: seq<Node>, roots: seq<Node>)
    requires UniqueIds(data) && Descends(data) && forall n :: n in roots ==> n in data
    ensures Listed(data, roots) == Pre(roots)
  {
    if roots != [] {
      var n := |roots| - 1;
      ListedIsPre(data, roots[..n]);
      InPre(data, roots[n]);
      FindsItself(data, roots[n]);
      ByIdIsBelow(data, roots[n].id);
      PreNext(roots, n);
      assert roots[..n + 1] == roots;
    }
  }

  lemma ByIdNext(data: seq<Node>, id: int, i: nat)
    requires Descends(data) && Lookup(data, id).Some? && i < |Lookup(data, id).value.children|
    ensures var c := Lookup(data, id).value.children;
      && Rank(data, c[i].id) < Rank(data, id)
      && ByIdOf(data, c[..i + 1], id) == ByIdOf(data, c[..i], id) + [c[i]] + ById(data, c[i].id)
  {
    var c := Lookup(data, id).value.children;
    assert c[..i + 1][..i] == c[..i];
  }

  method PushBelow(data: seq<Node>, id: int, list: seq<Node>) returns (out: seq<Node>)
    requires Descends(data)
    ensures out == list + ById(data, id)
    decreases Rank(data, id)
  {
    hide Descends, Rank, ByIdOf;
    out := list;
    var row := Find(data, id);
    if row.Some? {
      var children := row.value.children;
      NoneListed(data, id);
      for i := 0 to |children|
        invariant out == list + ByIdOf(data, children[..i], id)
      {
        ByIdNext(data, id, i);
        out := out + [children[i]];
        out := PushBelow(data, children[i].id, out);
      }
      assert children[..|children|] == children;
    }
  }

  lemma NoneListed(data: seq<Node>, id: int)
    requires Descends(data) && Lookup(data, id).Some?
    ensures ByIdOf(data, Lookup(data, id).value.children[..0], id) == []
  {
  }

  // All rows below the one with the id, or all rows when none is asked for: looked up
  // id by id, and in preorder if no id stands twice.
  method ListBelow(data: seq<Node>, id: int) returns (out: seq<Node>)
    requires Descends(data)
    ensures out == if id != 0 then ById(data, id) else Listed(data, data)
    ensures UniqueIds(data) ==> out == if id != 0 then Below(data, id) else Pre(data)
  {
    out := [];
    if id != 0 {
      out := PushBelow(data, id, out);
      if UniqueIds(data) {
        ByIdIsBelow(data, id);
      }
    } else {
      for i := 0 to |data|
        invariant out == Listed(data, data[..i])
      {
        assert data[..i + 1][..i] == data[..i];
        out := out + [data[i]];
        out := PushBelow(data, data[i].id, out);
      }
      assert data[..|data|] == data;
      if UniqueIds(data) {
        ListedIsPre(data, data);
      }
    }
  }

  lemma BreadthNext(queue: seq<seq<Node>>, lists: seq<seq<Node>>)
    requires queue != [] && lists == queue[1..] + ChildLists(queue[0])
    ensures Breadth(queue) == queue[0] + Breadth(lists)
  {
  }

  lemma ListsOf(nodes: seq<Node>)
    ensures |nodes| == 0 ==> ChildLists(nodes) == []
    ensures |nodes| == 1 ==> ChildLists(nodes) == [nodes[0].children]
    ensures |nodes| == 2 ==> ChildLists(nodes) == [nodes[0].children, nodes[1].children]
  {
    if |nodes| == 2 {
      ListsOf(nodes[1..]);
    }
  }

  lemma FourMet(a: Node, b: Node, c: Node, d: Node)
    requires a.children == [] && b.children == [c] && c.children == [d] && d.children == []
    ensures Breadth([[a, b]]) == [a, b, c, d]
  {
    hide Breadth, ChildLists;
    ListsOf([a, b]);
    ListsOf([c]);
    ListsOf([d]);
    ListsOf([]);
    BreadthNext([[a, b]], [[], [c]]);
    BreadthNext([[], [c]], [[c]]);
    BreadthNext([[c]], [[d]]);
    BreadthNext([[d]], [[]]);
    BreadthNext([[]], []);
    NothingMet();
  }

  lemma NothingMet()
    ensures Breadth([]) == []
  {
  }

  lemma FirstOfFour(a: Node, b: Node, c: Node, d: Node, id: int)
    requires a.id == c.id == 1 && b.id == 2 && d.id == 3
    ensures First([a, b, c, d], id) ==
      if id == 1 then Some(a) else if id == 2 then Some(b) else if id == 3 then Some(d) else None
  {
    assert [a, b, c, d][1..] == [b, c, d] && [b, c, d][1..] == [c, d] && [c, d][1..] == [d] && [d][1..] == [];
    assert First([d], id) == if id == 3 then Some(d) else None;
    assert First([c, d], id) == if id == 1 then Some(c) else First([d], id);
  }

  // With two rows of one id the listing goes below the first of them twice: the row
  // below the second is missing.
  lemma RepeatedMissing(a: Node, b: Node, c: Node, d: Node)
    requires a == Node(1, []) && b == Node(2, [c]) && c == Node(1, [d]) && d == Node(3, [])
    ensures Descends([a, b]) && Listed([a, b], [a, b]) == [a, b, c]
    ensures Pre([a, b]) == [a, b, c, d]
  {
    var data := [a, b];
    FourMet(a, b, c, d);
    forall id
      ensures id == 1 ==> Lookup(data, id) == Some(a)
      ensures id == 2 ==> Lookup(data, id) == Some(b)
      ensures id == 3 ==> Lookup(data, id) == Some(d)
      ensures !(1 <= id <= 3) ==> Lookup(data, id) == None
    {
      FirstOfFour(a, b, c, d, id);
    }
    hide Lookup;
    assert Ranked(data, map[1 := 0, 2 := 1, 3 := 0]);
    hide Descends, Rank;
    FourListed(a, b, c, d);
    FourPre(a, b, c, d);
  }

  lemma FourListed(a: Node, b: Node, c: Node, d: Node)
    requires a == Node(1, []) && b == Node(2, [c]) && c == Node(1, [d]) && Descends([a, b])
    requires Lookup([a, b], 1) == Some(a) && Lookup([a, b], 2) == Some(b)
    ensures Listed([a, b], [a, b]) == [a, b, c]
  {
    hide Lookup, Descends, Rank;
    var data := [a, b];
    assert ById(data, 1) == [];
    ByIdNext(data, 2, 0);
    assert [c][..0] == [] && [c][..1] == [c];
    assert ById(data, 2) == [c];
    assert data[..1] == [a] && [a][..0] == [];
    assert Listed(data, [a]) == [a];
  }

  lemma FourPre(a: Node, b: Node, c: Node, d: Node)
    requires a.children == [] && b.children == [c] && c.children == [d] && d.children == []
    ensures Pre([a, b]) == [a, b, c, d]
  {
    assert [a, b][1..] == [b] && [b][1..] == [] && [c][1..] == [] && [d][1..] == [];
    assert Pre([d]) == [d];
    assert Pre([c]) == [c, d];
    assert Pre([b]) == [b, c, d];
  }
}
