// Turning a flat list of rows that name their parents into a forest: a worklist
// that takes matching rows out of the list while it scans it.

module TreeRows {
  import opened Common

  class Row {
    const id: int
    const parent: Option<int>
    var children: seq<Row>

    constructor (id: int, parent: Option<int>)
      ensures this.id == id && this.parent == parent && children == []
    {
      this.id, this.parent, this.children := id, parent, [];
    }
  }

  // Absent and 0 both read as no parent.
  predicate Truthy(x: Option<int>) {
    x.Some? && x.value != 0
  }

  function Key(parentId: Option<int>): Option<int> {
    if Truthy(parentId) then parentId else None
  }

  // Without a key the rows that name no parent are wanted, otherwise those that name the key.
  predicate Wanted(row: Row, key: Option<int>) {
    if key == None then !Truthy(row.parent) else row.parent == key
  }

  function Match(rows: seq<Row>, key: Option<int>): seq<Row> {
    if rows == [] then [] else (if Wanted(rows[0], key) then [rows[0]] else []) + Match(rows[1..], key)
  }

  function Rest(rows: seq<Row>, key: Option<int>): seq<Row> {
    if rows == [] then [] else (if Wanted(rows[0], key) then [] else [rows[0]]) + Rest(rows[1..], key)
  }

  lemma {:induction false} MatchRest(rows: seq<Row>, key: Option<int>)
    ensures |Match(rows, key)| + |Rest(rows, key)| == |rows|
  {
    if rows != [] {
      MatchRest(rows[1..], key);
    }
  }

  // No row is lost or doubled.
  lemma {:induction false} MatchRestAll(rows: seq<Row>, key: Option<int>)
    ensures multiset(Match(rows, key)) + multiset(Rest(rows, key)) == multiset(rows)
  {
    if rows != [] {
      MatchRestAll(rows[1..], key);
      assert rows == [rows[0]] + rows[1..];
    }
  }

  lemma {:induction false} InMatch(rows: seq<Row>, key: Option<int>, row: Row)
    ensures row in Match(rows, key) <==> row in rows && Wanted(row, key)
    ensures row in Rest(rows, key) <==> row in rows && !Wanted(row, key)
  {
    if rows != [] {
      InMatch(rows[1..], key, row);
      assert rows == [rows[0]] + rows[1..];
    }
  }

  // A row stands at the top of what is asked for under an id if it names that id; under
  // no id, or 0, if it names none, or 0.
  lemma {:induction false} TopRows(rows: seq<Row>, parentId: Option<int>, row: Row)
    ensures var named :=
      if parentId == None || parentId == Some(0) then row.parent == None || row.parent == Some(0)
      else row.parent == parentId;
      row in Match(rows, Key(parentId)) <==> row in rows && named
    ensures row in rows ==> row in Match(rows, Key(parentId)) || row in Rest(rows, Key(parentId))
  {
    if rows != [] {
      TopRows(rows[1..], parentId, row);
    }
  }

  // Rows are taken, and left, in the order of the list.
  lemma {:induction false} MatchSnoc(rows: seq<Row>, row: Row, key: Option<int>)
    ensures Match(rows + [row], key) == Match(rows, key) + if Wanted(row, key) then [row] else []
    ensures Rest(rows + [row], key) == Rest(rows, key) + if Wanted(row, key) then [] else [row]
  {
    hide Match, Rest, Wanted;
    MatchCons(rows, key);
    MatchCons(rows + [row], key);
    if rows == [] {
      assert (rows + [row])[1..] == [];
      MatchCons([], key);
    } else {
      assert (rows + [row])[1..] == rows[1..] + [row];
      MatchSnoc(rows[1..], row, key);
    }
  }

  lemma MatchCons(rows: seq<Row>, key: Option<int>)
    ensures rows == [] ==> Match(rows, key) == [] && Rest(rows, key) == []
    ensures rows != [] && Wanted(rows[0], key) ==>
      Match(rows, key) == [rows[0]] + Match(rows[1..], key) && Rest(rows, key) == Rest(rows[1..], key)
    ensures rows != [] && !Wanted(rows[0], key) ==>
      Match(rows, key) == Match(rows[1..], key) && Rest(rows, key) == [rows[0]] + Rest(rows[1..], key)
  {
  }

  // The scan stands at the first row of the part still ahead: the row is spliced
  // out or stepped over.
  lemma Scanned(rows: seq<Row>, kept: seq<Row>, ahead: seq<Row>)
    requires rows == kept + ahead && |kept| < |rows|
    ensures ahead != [] && rows[|kept|] == ahead[0]
    ensures rows[..|kept|] + rows[|kept| + 1..] == kept + ahead[1..]
    ensures rows == (kept + [ahead[0]]) + ahead[1..]
  {
  }

  // A row taken off the worklist and the rows it is given.
  datatype Visit = Visit(node: Row, kids: seq<Row>)

  ghost function Visits(toDo: seq<Row>, rows: seq<Row>): (vs: seq<Visit>)
    decreases |toDo| + |rows|
  {
    if toDo == [] then []
    else
      var key := Some(toDo[0].id);
      MatchRest(rows, key);
      [Visit(toDo[0], Match(rows, key))] + Visits(toDo[1..] + Match(rows, key), Rest(rows, key))
  }

  // The rows nobody takes.
  ghost function Leftover(toDo: seq<Row>, rows: seq<Row>): seq<Row>
    decreases |toDo| + |rows|
  {
    if toDo == [] then rows
    else
      var key := Some(toDo[0].id);
      MatchRest(rows, key);
      Leftover(toDo[1..] + Match(rows, key), Rest(rows, key))
  }

  ghost function Given(vs: seq<Visit>, row: Row): seq<Row> {
    if vs == [] then [] else (if vs[0].node == row then vs[0].kids else []) + Given(vs[1..], row)
  }

  ghost predicate Within(rows: seq<Row>, data: seq<Row>) {
    forall i :: 0 <= i < |rows| ==> rows[i] in data
  }

  lemma {:induction false} WithinSplit(rows: seq<Row>, key: Option<int>, data: seq<Row>)
    requires Within(rows, data)
    ensures Within(Match(rows, key), data) && Within(Rest(rows, key), data)
  {
    if rows != [] {
      WithinSplit(rows[1..], key, data);
    }
  }

  lemma WithinNext(toDo: seq<Row>, rows: seq<Row>, data: seq<Row>)
    requires toDo != [] && Within(toDo, data) && Within(rows, data)
    ensures Within(toDo[1..] + Match(rows, Some(toDo[0].id)), data) && Within(Rest(rows, Some(toDo[0].id)), data)
  {
    WithinSplit(rows, Some(toDo[0].id), data);
  }

  // ---------------------------------------------------------------- the loops

  // Take the wanted rows out of the list while scanning it.
  method TakeOut(list: seq<Row>, key: Option<int>) returns (taken: seq<Row>, rows: seq<Row>)
    ensures taken == Match(list, key) && rows == Rest(list, key)
  {
    hide Match, Rest;
    taken, rows := [], list;
    var i := 0;
    ghost var kept, ahead := [], list;
    while i < |rows|
      invariant i == |kept| && rows == kept + ahead
      invariant kept + Rest(ahead, key) == Rest(list, key) && taken + Match(ahead, key) == Match(list, key)
      decreases |rows| - i
    {
      Scanned(rows, kept, ahead);
      MatchCons(ahead, key);
      var row := rows[i];
      if Wanted(row, key) {
        Reassociated(taken, [row], Match(ahead[1..], key));
        taken := taken + [row];
        rows := rows[..i] + rows[i + 1..];
      } else {
        Reassociated(kept, [row], Rest(ahead[1..], key));
        kept := kept + [row];
        i := i + 1;
      }
      ahead := ahead[1..];
    }
    MatchCons(ahead, key);
  }

  // Give the rows that name it to a row, each at the end of its children and of the worklist.
  method Adopt(node: Row, list: seq<Row>, queue: seq<Row>) returns (toDo: seq<Row>, rows: seq<Row>)
    modifies node
    ensures rows == Rest(list, Some(node.id)) && toDo == queue + Match(list, Some(node.id))
    ensures node.children == old(node.children) + Match(list, Some(node.id))
  {
    hide Match, Rest;
    ghost var key := Some(node.id);
    toDo, rows := queue, list;
    var i := 0;
    ghost var kept, ahead := [], list;
    while i < |rows|
      invariant i == |kept| && rows == kept + ahead && kept + Rest(ahead, key) == Rest(list, key)
      invariant toDo + Match(ahead, key) == queue + Match(list, key)
      invariant node.children + Match(ahead, key) == old(node.children) + Match(list, key)
      decreases |rows| - i
    {
      Scanned(rows, kept, ahead);
      MatchCons(ahead, key);
      var row := rows[i];
      if row.parent == Some(node.id) {
        Reassociated(node.children, [row], Match(ahead[1..], key));
        Reassociated(toDo, [row], Match(ahead[1..], key));
        node.children := node.children + [row];
        toDo := toDo + [row];
        rows := rows[..i] + rows[i + 1..];
      } else {
        Reassociated(kept, [row], Rest(ahead[1..], key));
        kept := kept + [row];
        i := i + 1;
      }
      ahead := ahead[1..];
    }
    MatchCons(ahead, key);
  }

  // What a row still gets: its share of the next visit, then of the later ones.
  lemma GivenFirst(toDo: seq<Row>, rows: seq<Row>, row: Row, had: seq<Row>)
    requires toDo != []
    ensures var key := Some(toDo[0].id);
      had + Given(Visits(toDo, rows), row)
        == (if row == toDo[0] then had + Match(rows, key) else had)
           + Given(Visits(toDo[1..] + Match(rows, key), Rest(rows, key)), row)
  {
    var key := Some(toDo[0].id);
    MatchRest(rows, key);
    var later := Visits(toDo[1..] + Match(rows, key), Rest(rows, key));
    assert Visits(toDo, rows)[1..] == later;
    Reassociated(had, Match(rows, key), Given(later, row));
  }

  method Transfer(data: seq<Row>, parentId: Option<int>) returns (top: seq<Row>)
    modifies data
    ensures top == Match(data, Key(parentId))
    ensures forall row :: row in data ==>
      row.children == old(row.children) + Given(Visits(top, Rest(data, Key(parentId))), row)
  {
    var rows;
    top, rows := TakeOut(data, Key(parentId));
    WithinSplit(data, Key(parentId), data);
    var toDo := top;
    ghost var all := Visits(top, rows);
    while toDo != []
      invariant Within(toDo, data) && Within(rows, data)
      invariant forall row :: row in data ==>
        row.children + Given(Visits(toDo, rows), row) == old(row.children) + Given(all, row)
      decreases |toDo| + |rows|
    {
      MatchRest(rows, Some(toDo[0].id));
      WithinNext(toDo, rows, data);
      forall row | row in data {
        GivenFirst(toDo, rows, row, row.children);
      }
      toDo, rows := Adopt(toDo[0], rows, toDo[1..]);
    }
  }
}
