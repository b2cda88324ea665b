// What the forest built from a flat list of rows looks like.

module TreeForest {
  import opened Common
  import opened TreeRows

  // Row p[0] names p[1] as its parent, and so on up to a row that is wanted at the top.
  ghost predicate Path(data: seq<Row>, key: Option<int>, p: seq<nat>) {
    && p != [] && p[0] < |data|
    && if |p| == 1 then Wanted(data[p[0]], key)
       else
         && !Wanted(data[p[0]], key)
         && p[1] < |data| && data[p[0]].parent == Some(data[p[1]].id) && Path(data, key, p[1..])
  }

  ghost predicate Reaches(data: seq<Row>, key: Option<int>, row: Row) {
    exists p :: Path(data, key, p) && data[p[0]] == row
  }

  ghost function Nodes(vs: seq<Visit>): seq<Row> {
    if vs == [] then [] else [vs[0].node] + Nodes(vs[1..])
  }

  ghost function AllKids(vs: seq<Visit>): seq<Row> {
    if vs == [] then [] else vs[0].kids + AllKids(vs[1..])
  }

  ghost predicate UniqueIds(rows: seq<Row>) {
    forall i, j :: 0 <= i < j < |rows| ==> rows[i].id != rows[j].id
  }

  // The worklist and the list after one visit.
  ghost function NextToDo(toDo: seq<Row>, rows: seq<Row>): seq<Row>
    requires toDo != []
  {
    toDo[1..] + Match(rows, Some(toDo[0].id))
  }

  ghost function NextRows(toDo: seq<Row>, rows: seq<Row>): seq<Row>
    requires toDo != []
  {
    Rest(rows, Some(toDo[0].id))
  }

  lemma VisitsFirst(toDo: seq<Row>, rows: seq<Row>)
    requires toDo != []
    ensures |NextToDo(toDo, rows)| + |NextRows(toDo, rows)| < |toDo| + |rows|
    ensures var vs := Visits(toDo, rows);
      && vs != [] && vs[0] == Visit(toDo[0], Match(rows, Some(toDo[0].id)))
      && vs[1..] == Visits(NextToDo(toDo, rows), NextRows(toDo, rows))
    ensures Leftover(toDo, rows) == Leftover(NextToDo(toDo, rows), NextRows(toDo, rows))
  {
    MatchRest(rows, Some(toDo[0].id));
  }

  // Every row that is visited was put on the worklist once: at the start or as a child.
  lemma {:induction false} VisitedOnce(toDo: seq<Row>, rows: seq<Row>)
    ensures Nodes(Visits(toDo, rows)) == toDo + AllKids(Visits(toDo, rows))
    decreases |toDo| + |rows|
  {
    if toDo != [] {
      VisitsFirst(toDo, rows);
      VisitedOnce(NextToDo(toDo, rows), NextRows(toDo, rows));
      var kids, later := Match(rows, Some(toDo[0].id)), AllKids(Visits(toDo, rows)[1..]);
      assert [toDo[0]] + ((toDo[1..] + kids) + later) == toDo + (kids + later);
    }
  }

  lemma NextSame(toDo: seq<Row>, rows: seq<Row>)
    requires toDo != []
    ensures multiset{toDo[0]} + (multiset(NextToDo(toDo, rows)) + multiset(NextRows(toDo, rows)))
      == multiset(toDo) + multiset(rows)
  {
    MatchRestAll(rows, Some(toDo[0].id));
    assert toDo == [toDo[0]] + toDo[1..];
  }

  // Every row ends in exactly one place: visited or left over.
  lemma {:induction false} Conserved(toDo: seq<Row>, rows: seq<Row>)
    ensures multiset(Nodes(Visits(toDo, rows))) + multiset(Leftover(toDo, rows)) == multiset(toDo) + multiset(rows)
    decreases |toDo| + |rows|
  {
    if toDo != [] {
      VisitsFirst(toDo, rows);
      Conserved(NextToDo(toDo, rows), NextRows(toDo, rows));
      NextSame(toDo, rows);
      var later := Nodes(Visits(NextToDo(toDo, rows), NextRows(toDo, rows)));
      assert Nodes(Visits(toDo, rows)) == [toDo[0]] + later;
    }
  }

  // Whether an earlier visit was to a row of the same id.
  ghost predicate IdSeen(vs: seq<Visit>, n: nat)
    requires n < |vs|
  {
    exists j :: 0 <= j < n && vs[j].node.id == vs[n].node.id
  }

  lemma {:induction false} MatchOfRest(rows: seq<Row>, k: Option<int>, l: Option<int>)
    requires k.Some? && l.Some?
    ensures Match(Rest(rows, k), l) == if k == l then [] else Match(rows, l)
  {
    if rows != [] {
      MatchOfRest(rows[1..], k, l);
      var rest := Rest(rows[1..], k);
      if Wanted(rows[0], k) {
        assert Rest(rows, k) == rest;
      } else {
        assert Rest(rows, k) == [rows[0]] + rest && ([rows[0]] + rest)[1..] == rest;
        assert Match(Rest(rows, k), l) == (if Wanted(rows[0], l) then [rows[0]] else []) + Match(rest, l);
      }
    }
  }

  // The first row of an id to be visited gets every row that names it, in input
  // order; the others of that id get nothing.
  lemma {:induction false} KidsAt(toDo: seq<Row>, rows: seq<Row>, n: nat)
    requires n < |Visits(toDo, rows)|
    ensures var vs := Visits(toDo, rows); vs[n].kids == if IdSeen(vs, n) then [] else Match(rows, Some(vs[n].node.id))
    decreases |toDo| + |rows|
  {
    VisitsFirst(toDo, rows);
    if n > 0 {
      var vs, key := Visits(toDo, rows), Some(toDo[0].id);
      KidsAt(NextToDo(toDo, rows), NextRows(toDo, rows), n - 1);
      MatchOfRest(rows, key, Some(vs[n].node.id));
      if IdSeen(vs[1..], n - 1) {
        var j :| 0 <= j < n - 1 && vs[1..][j].node.id == vs[1..][n - 1].node.id;
        assert vs[j + 1].node.id == vs[n].node.id;
      } else if IdSeen(vs, n) {
        var j :| 0 <= j < n && vs[j].node.id == vs[n].node.id;
        assert j > 0 ==> vs[1..][j - 1].node.id == vs[1..][n - 1].node.id;
      }
    }
  }

  // So a visited row gets all that name it exactly when no earlier one had its id, or
  // none name it.
  lemma KidsAllIff(toDo: seq<Row>, rows: seq<Row>, n: nat)
    requires n < |Visits(toDo, rows)|
    ensures var vs := Visits(toDo, rows); var named := Match(rows, Some(vs[n].node.id));
      vs[n].kids == named <==> !IdSeen(vs, n) || named == []
  {
    KidsAt(toDo, rows, n);
  }

  // Of two rows of one id, both named by the second, the first gets it.
  lemma SecondGetsNothing(a: Row, b: Row)
    requires a.id == b.id != 0 && a.parent == None && b.parent == Some(a.id)
    ensures Match([a, b], None) == [a] && Rest([a, b], None) == [b]
    ensures Visits([a], [b]) == [Visit(a, [b]), Visit(b, [])] && Match([b], Some(b.id)) == [b]
  {
    MatchCons([a, b], None);
    MatchCons([b], None);
    MatchCons([b], Some(b.id));
    assert [a, b][1..] == [b] && [a][1..] == [] && [b][1..] == [];
    VisitsFirst([a], [b]);
    assert NextToDo([a], [b]) == [b] && NextRows([a], [b]) == [];
    VisitsFirst([b], []);
    assert NextToDo([b], []) == [] && NextRows([b], []) == [];
    var vs := Visits([a], [b]);
    assert vs == [vs[0]] + vs[1..] && vs[1..] == [vs[1..][0]] + vs[1..][1..];
  }

  // ---------------------------------------------------------------- which rows are placed

  ghost predicate AllReach(rows: seq<Row>, data: seq<Row>, key: Option<int>) {
    forall i :: 0 <= i < |rows| ==> Reaches(data, key, rows[i])
  }

  ghost predicate AllBelow(rows: seq<Row>, data: seq<Row>, key: Option<int>) {
    forall i :: 0 <= i < |rows| ==> rows[i] in data && !Wanted(rows[i], key)
  }

  lemma {:induction false} MatchReach(rows: seq<Row>, node: Row, data: seq<Row>, key: Option<int>)
    requires AllBelow(rows, data, key) && Reaches(data, key, node)
    ensures AllReach(Match(rows, Some(node.id)), data, key) && AllBelow(Rest(rows, Some(node.id)), data, key)
  {
    if rows != [] {
      MatchReach(rows[1..], node, data, key);
      if Wanted(rows[0], Some(node.id)) {
        Longer(data, key, rows[0], node);
      }
    }
  }

  lemma {:induction false} VisitedReach(toDo: seq<Row>, rows: seq<Row>, data: seq<Row>, key: Option<int>, row: Row)
    requires AllReach(toDo, data, key) && AllBelow(rows, data, key)
    requires row in Nodes(Visits(toDo, rows))
    ensures Reaches(data, key, row)
    decreases |toDo| + |rows|
  {
    VisitsFirst(toDo, rows);
    assert Reaches(data, key, toDo[0]);
    if row != toDo[0] {
      MatchReach(rows, toDo[0], data, key);
      VisitedReach(NextToDo(toDo, rows), NextRows(toDo, rows), data, key, row);
    }
  }

  lemma {:induction false} TopReach(rows: seq<Row>, data: seq<Row>, key: Option<int>)
    requires Within(rows, data)
    ensures AllReach(Match(rows, key), data, key) && AllBelow(Rest(rows, key), data, key)
  {
    if rows != [] {
      TopReach(rows[1..], data, key);
      if Wanted(rows[0], key) {
        var i :| 0 <= i < |data| && data[i] == rows[0];
        assert Path(data, key, [i]);
      }
    }
  }

  lemma Longer(data: seq<Row>, key: Option<int>, row: Row, parent: Row)
    requires Reaches(data, key, parent) && row in data && !Wanted(row, key) && row.parent == Some(parent.id)
    ensures Reaches(data, key, row)
  {
    var p :| Path(data, key, p) && data[p[0]] == parent;
    var i :| 0 <= i < |data| && data[i] == row;
    assert ([i] + p)[1..] == p;
    assert Path(data, key, [i] + p);
  }

  // A row that names a visited row is visited.
  lemma {:induction false} ChildVisited(toDo: seq<Row>, rows: seq<Row>, parent: Row, row: Row)
    requires parent in Nodes(Visits(toDo, rows)) && row in rows && row.parent == Some(parent.id)
    ensures row in Nodes(Visits(toDo, rows))
    decreases |toDo| + |rows|
  {
    VisitsFirst(toDo, rows);
    InMatch(rows, Some(toDo[0].id), row);
    if row.parent == Some(toDo[0].id) {
      assert row in NextToDo(toDo, rows);
      VisitedOnce(NextToDo(toDo, rows), NextRows(toDo, rows));
    } else {
      ChildVisited(NextToDo(toDo, rows), NextRows(toDo, rows), parent, row);
    }
  }

  lemma {:induction false} PathVisited(data: seq<Row>, key: Option<int>, p: seq<nat>)
    requires Path(data, key, p)
    ensures data[p[0]] in Nodes(Visits(Match(data, key), Rest(data, key)))
  {
    InMatch(data, key, data[p[0]]);
    if |p| == 1 {
      VisitedOnce(Match(data, key), Rest(data, key));
    } else {
      PathVisited(data, key, p[1..]);
      ChildVisited(Match(data, key), Rest(data, key), data[p[1]], data[p[0]]);
    }
  }

  // For any rows, orphans and cycles included: a row is placed in the forest
  // exactly when its chain of parents reaches a top row.
  lemma PlacedIffReaches(data: seq<Row>, key: Option<int>, row: Row)
    requires row in data
    ensures row in Nodes(Visits(Match(data, key), Rest(data, key))) <==> Reaches(data, key, row)
  {
    if row in Nodes(Visits(Match(data, key), Rest(data, key))) {
      TopReach(data, data, key);
      VisitedReach(Match(data, key), Rest(data, key), data, key, row);
    }
    if Reaches(data, key, row) {
      var p :| Path(data, key, p) && data[p[0]] == row;
      PathVisited(data, key, p);
    }
  }

  // ---------------------------------------------------------------- unique ids

  ghost predicate Apart(p: seq<Row>, q: seq<Row>) {
    forall i, j :: 0 <= i < |p| && 0 <= j < |q| ==> p[i].id != q[j].id
  }

  ghost predicate NoId(rows: seq<Row>, id: int) {
    forall i :: 0 <= i < |rows| ==> rows[i].id != id
  }

  lemma SubApart(p: seq<Row>, q: seq<Row>, p': seq<Row>, q': seq<Row>)
    requires Apart(p, q) && Within(p', p) && Within(q', q)
    ensures Apart(p', q')
  {
    forall i, j | 0 <= i < |p'| && 0 <= j < |q'|
      ensures p'[i].id != q'[j].id
    {
      var a :| 0 <= a < |p| && p[a] == p'[i];
      var b :| 0 <= b < |q| && q[b] == q'[j];
    }
  }

  lemma {:induction false} SplitUnique(rows: seq<Row>, key: Option<int>)
    requires UniqueIds(rows)
    ensures UniqueIds(Match(rows, key)) && UniqueIds(Rest(rows, key)) && Apart(Match(rows, key), Rest(rows, key))
  {
    if rows != [] {
      var first, tail := [rows[0]], rows[1..];
      SplitUnique(tail, key);
      WithinSplit(tail, key, tail);
      SubApart(first, tail, first, Match(tail, key));
      SubApart(first, tail, first, Rest(tail, key));
    }
  }

  lemma NextUnique(toDo: seq<Row>, rows: seq<Row>)
    requires toDo != [] && UniqueIds(toDo) && UniqueIds(rows) && Apart(toDo, rows)
    ensures UniqueIds(NextToDo(toDo, rows)) && UniqueIds(NextRows(toDo, rows))
    ensures Apart(NextToDo(toDo, rows), NextRows(toDo, rows))
    ensures NoId(NextToDo(toDo, rows), toDo[0].id) && NoId(NextRows(toDo, rows), toDo[0].id)
  {
    var key := Some(toDo[0].id);
    SplitUnique(rows, key);
    WithinSplit(rows, key, rows);
    SubApart(toDo, rows, toDo, Match(rows, key));
    SubApart(toDo, rows, toDo, Rest(rows, key));
  }

  lemma {:induction false} GivenNone(vs: seq<Visit>, row: Row)
    requires row !in Nodes(vs)
    ensures Given(vs, row) == []
  {
    if vs != [] {
      GivenNone(vs[1..], row);
    }
  }

  lemma NotVisited(toDo: seq<Row>, rows: seq<Row>, row: Row)
    requires NoId(toDo, row.id) && NoId(rows, row.id)
    ensures row !in Nodes(Visits(toDo, rows))
  {
    Conserved(toDo, rows);
    assert row !in toDo && row !in rows;
    var nodes, lost := multiset(Nodes(Visits(toDo, rows))), multiset(Leftover(toDo, rows));
    assert (multiset(toDo) + multiset(rows))[row] == 0;
    assert (nodes + lost)[row] == 0;
    assert nodes[row] == 0;
  }

  lemma {:induction false} GivenUnique(toDo: seq<Row>, rows: seq<Row>, row: Row)
    requires UniqueIds(toDo) && UniqueIds(rows) && Apart(toDo, rows)
    ensures Given(Visits(toDo, rows), row) == if row in Nodes(Visits(toDo, rows)) then Match(rows, Some(row.id)) else []
    decreases |toDo| + |rows|
  {
    if row !in Nodes(Visits(toDo, rows)) {
      GivenNone(Visits(toDo, rows), row);
    } else {
      VisitsFirst(toDo, rows);
      NextUnique(toDo, rows);
      var toDo', rows' := NextToDo(toDo, rows), NextRows(toDo, rows);
      if row.id == toDo[0].id {
        NotVisited(toDo', rows', row);
        GivenNone(Visits(toDo', rows'), row);
      } else {
        GivenUnique(toDo', rows', row);
        MatchOfRest(rows, Some(toDo[0].id), Some(row.id));
      }
    }
  }

  // With unique ids, a row whose chain of parents reaches the top is given, in
  // input order, exactly the rows that name it; any other row is given nothing.
  lemma ForestOfRows(data: seq<Row>, key: Option<int>, row: Row)
    requires UniqueIds(data) && row in data
    ensures Given(Visits(Match(data, key), Rest(data, key)), row)
      == if Reaches(data, key, row) then Match(Rest(data, key), Some(row.id)) else []
  {
    SplitUnique(data, key);
    GivenUnique(Match(data, key), Rest(data, key), row);
    PlacedIffReaches(data, key, row);
  }

  // Every row of the list is at the top once, or a child once, or left over once.
  lemma EveryRowOnce(data: seq<Row>, key: Option<int>)
    ensures var top, rows := Match(data, key), Rest(data, key);
      multiset(top) + multiset(AllKids(Visits(top, rows))) + multiset(Leftover(top, rows)) == multiset(data)
  {
    var top, rows := Match(data, key), Rest(data, key);
    Conserved(top, rows);
    VisitedOnce(top, rows);
    MatchRestAll(data, key);
  }

  // A row left over names none of the visited rows.
  lemma {:induction false} LeftoverNames(toDo: seq<Row>, rows: seq<Row>, row: Row, node: Row)
    requires row in Leftover(toDo, rows)
    ensures row in rows && (node in Nodes(Visits(toDo, rows)) ==> row.parent != Some(node.id))
    decreases |toDo| + |rows|
  {
    if toDo != [] {
      VisitsFirst(toDo, rows);
      LeftoverNames(NextToDo(toDo, rows), NextRows(toDo, rows), row, node);
      InMatch(rows, Some(toDo[0].id), row);
    }
  }

  lemma LeftoverLost(data: seq<Row>, key: Option<int>, row: Row)
    requires row in Leftover(Match(data, key), Rest(data, key))
    ensures !Reaches(data, key, row)
  {
    hide Leftover, Visits, Nodes, Match, Rest;
    if Reaches(data, key, row) {
      var p :| Path(data, key, p) && data[p[0]] == row;
      LeftoverNames(Match(data, key), Rest(data, key), row, row);
      InMatch(data, key, row);
      PathVisited(data, key, p[1..]);
      LeftoverNames(Match(data, key), Rest(data, key), row, data[p[1]]);
    }
  }

  lemma LostLeftover(toDo: seq<Row>, rows: seq<Row>, row: Row)
    requires row in toDo + rows && row !in Nodes(Visits(toDo, rows))
    ensures row in Leftover(toDo, rows)
  {
    hide Leftover, Visits, Nodes;
    Conserved(toDo, rows);
    var nodes, left := multiset(Nodes(Visits(toDo, rows))), multiset(Leftover(toDo, rows));
    assert (nodes + left)[row] == (multiset(toDo) + multiset(rows))[row] > 0;
    assert nodes[row] == 0;
    assert left[row] > 0;
  }

  // The rows left over are those no chain of parents leads to the top.
  lemma LeftoverIffLost(data: seq<Row>, key: Option<int>, row: Row)
    requires row in data
    ensures row in Leftover(Match(data, key), Rest(data, key)) <==> !Reaches(data, key, row)
  {
    hide Leftover, Visits, Nodes, Match, Rest, Reaches;
    var top, rows := Match(data, key), Rest(data, key);
    if row in Leftover(top, rows) {
      LeftoverLost(data, key, row);
    } else {
      PlacedIffReaches(data, key, row);
      InMatch(data, key, row);
      if row !in Nodes(Visits(top, rows)) {
        LostLeftover(top, rows, row);
      }
    }
  }
}
