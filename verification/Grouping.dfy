// Grouping the rows of a list by a field: one group for each value, in the order
// the values first appear, with the index of its first row.

module Grouping {
  import opened Common

  datatype Row = Row(id: int, key: int)

  datatype Group = Group(value: int, rows: seq<Row>, startIndex: int)

  // ---------------------------------------------------------------- what grouping means

  // The values in the order they first appear.
  function Keys(rows: seq<Row>): seq<int> {
    if rows == [] then []
    else
      var before, key := Keys(rows[..|rows| - 1]), rows[|rows| - 1].key;
      if key in before then before else before + [key]
  }

  // The rows of one value, in order.
  function Of(rows: seq<Row>, key: int): seq<Row> {
    if rows == [] then []
    else Of(rows[..|rows| - 1], key) + if rows[|rows| - 1].key == key then [rows[|rows| - 1]] else []
  }

  function Flat(groups: seq<Group>): seq<Row> {
    if groups == [] then [] else Flat(groups[..|groups| - 1]) + groups[|groups| - 1].rows
  }

  // Each group starts where the rows before it end.
  ghost predicate Started(groups: seq<Group>) {
    forall i :: 0 <= i < |groups| ==> groups[i].startIndex == |Flat(groups[..i])|
  }

  ghost predicate NoneTwice(groups: seq<Group>) {
    forall i, j :: 0 <= i < j < |groups| ==> groups[i].value != groups[j].value
  }

  ghost predicate OfValue(group: Group) {
    group.rows != [] && forall i :: 0 <= i < |group.rows| ==> group.rows[i].key == group.value
  }

  // The rows lie group by group.
  ghost predicate Proper(groups: seq<Group>, rows: seq<Row>) {
    Flat(groups) == rows && NoneTwice(groups) && Started(groups) && AllOfValue(groups)
  }

  // Groups of all values and rows, the start left open.
  ghost predicate Sorted(groups: seq<Group>, rows: seq<Row>) {
    && |groups| == |Keys(rows)|
    && forall i :: 0 <= i < |groups| ==> groups[i].value == Keys(rows)[i] && groups[i].rows == Of(rows, groups[i].value)
  }

  // ---------------------------------------------------------------- the loops

  method FindGroup(groups: seq<Group>, key: int) returns (at: Option<nat>)
    ensures at.Some? ==> at.value < |groups| && groups[at.value].value == key
    ensures at.Some? ==> forall i :: 0 <= i < at.value ==> groups[i].value != key
    ensures at == None ==> forall i :: 0 <= i < |groups| ==> groups[i].value != key
  {
    for i := 0 to |groups|
      invariant forall j :: 0 <= j < i ==> groups[j].value != key
    {
      if groups[i].value == key {
        return Some(i);
      }
    }
    return None;
  }

  lemma {:induction false} KeysDistinct(rows: seq<Row>)
    ensures forall i, j :: 0 <= i < j < |Keys(rows)| ==> Keys(rows)[i] != Keys(rows)[j]
    ensures forall k :: k in Keys(rows) <==> Of(rows, k) != []
  {
    if rows != [] {
      KeysDistinct(rows[..|rows| - 1]);
    }
  }

  lemma OneMore(groups: seq<Group>, rows: seq<Row>, row: Row, at: Option<nat>, after: seq<Group>)
    requires Sorted(groups, rows)
    requires at.Some? ==> at.value < |groups| && groups[at.value].value == row.key
    requires at.Some? ==> after == groups[at.value := groups[at.value].(rows := groups[at.value].rows + [row])]
    requires at == None ==> forall i :: 0 <= i < |groups| ==> groups[i].value != row.key
    requires at == None ==> after == groups + [Group(row.key, [row], 0)]
    ensures Sorted(after, rows + [row])
  {
    var all := rows + [row];
    KeysDistinct(rows);
    assert all[..|all| - 1] == rows;
    assert at == None ==> row.key !in Keys(rows);
    forall i | 0 <= i < |after|
      ensures after[i].value == Keys(all)[i] && after[i].rows == Of(all, after[i].value)
    {
      assert i < |groups| ==>
        Of(all, groups[i].value) == groups[i].rows + if row.key == groups[i].value then [row] else [];
    }
  }

  // Put each row into the group of its value, making the group for a first one.
  method Collect(rows: seq<Row>) returns (groups: seq<Group>)
    ensures Sorted(groups, rows)
  {
    groups := [];
    for i := 0 to |rows|
      invariant Sorted(groups, rows[..i])
    {
      var row := rows[i];
      ghost var before := groups;
      var at := FindGroup(groups, row.key);
      if at.Some? {
        groups := groups[at.value := groups[at.value].(rows := groups[at.value].rows + [row])];
      } else {
        groups := groups + [Group(row.key, [row], 0)];
      }
      OneMore(before, rows[..i], row, at, groups);
      assert rows[..i + 1] == rows[..i] + [row];
    }
    assert rows[..|rows|] == rows;
  }

  // Number the groups and lay their rows end to end.
  method Lay(groups: seq<Group>) returns (laid: seq<Group>, rows: seq<Row>)
    ensures |laid| == |groups| && Started(laid) && rows == Flat(laid)
    ensures forall i :: 0 <= i < |laid| ==> laid[i].value == groups[i].value && laid[i].rows == groups[i].rows
  {
    laid, rows := [], [];
    var start := 0;
    for i := 0 to |groups|
      invariant |laid| == i && Started(laid) && rows == Flat(laid) && start == |rows|
      invariant forall j :: 0 <= j < i ==> laid[j].value == groups[j].value && laid[j].rows == groups[j].rows
    {
      ghost var before := laid;
      laid := laid + [groups[i].(startIndex := start)];
      start := start + |groups[i].rows|;
      rows := rows + groups[i].rows;
      assert laid[..i] == before;
      assert forall j :: 0 <= j < i ==> laid[..j] == before[..j];
    }
  }

  method GroupRows(rows: seq<Row>) returns (groups: seq<Group>, grouped: seq<Row>)
    ensures Sorted(groups, rows) && Started(groups) && grouped == Flat(groups)
  {
    groups := Collect(rows);
    groups, grouped := Lay(groups);
  }

  // ---------------------------------------------------------------- a stable permutation

  lemma {:induction false} OfKey(rows: seq<Row>, key: int)
    ensures forall i :: 0 <= i < |Of(rows, key)| ==> Of(rows, key)[i].key == key
  {
    if rows != [] {
      OfKey(rows[..|rows| - 1], key);
    }
  }

  lemma {:induction false} OfConcat(p: seq<Row>, q: seq<Row>, key: int)
    ensures Of(p + q, key) == Of(p, key) + Of(q, key)
  {
    if q == [] {
      assert p + q == p;
    } else {
      assert (p + q)[..|p + q| - 1] == p + q[..|q| - 1];
      OfConcat(p, q[..|q| - 1], key);
    }
  }

  lemma {:induction false} OfSame(rows: seq<Row>, key: int, other: int)
    requires forall i :: 0 <= i < |rows| ==> rows[i].key == key
    ensures Of(rows, other) == if other == key then rows else []
  {
    if rows != [] {
      OfSame(rows[..|rows| - 1], key, other);
      assert rows == rows[..|rows| - 1] + [rows[|rows| - 1]];
    }
  }

  // The rows of a value no group has ...
  lemma {:induction false} OfNone(groups: seq<Group>, key: int)
    requires AllOfValue(groups) && NoneHas(groups, key)
    ensures Of(Flat(groups), key) == []
  {
    if groups != [] {
      hide Of, OfValue;
      var n := |groups| - 1;
      OfNone(groups[..n], key);
      OfLast(groups, n, key);
    } else {
      assert Of([], key) == [];
    }
  }

  // ... and those of a group's value.
  lemma {:induction false} OfGroup(groups: seq<Group>, i: nat)
    requires AllOfValue(groups) && NoneTwice(groups) && i < |groups|
    ensures Of(Flat(groups), groups[i].value) == groups[i].rows
  {
    hide Of, OfValue;
    var n := |groups| - 1;
    OfLast(groups, n, groups[i].value);
    if i < n {
      OfGroup(groups[..n], i);
    } else {
      OfNone(groups[..n], groups[n].value);
    }
  }

  ghost predicate AllOfValue(groups: seq<Group>) {
    forall i :: 0 <= i < |groups| ==> OfValue(groups[i])
  }

  ghost predicate NoneHas(groups: seq<Group>, key: int) {
    forall i :: 0 <= i < |groups| ==> groups[i].value != key
  }

  lemma OfLast(groups: seq<Group>, n: nat, key: int)
    requires |groups| == n + 1 && OfValue(groups[n])
    ensures Of(Flat(groups), key) == Of(Flat(groups[..n]), key) + if groups[n].value == key then groups[n].rows else []
  {
    hide Of;
    OfConcat(Flat(groups[..n]), groups[n].rows, key);
    OfSame(groups[n].rows, groups[n].value, key);
  }

  lemma {:induction false} KeysConcat(p: seq<Row>, q: seq<Row>, key: int)
    requires q != [] && key !in Keys(p) && forall i :: 0 <= i < |q| ==> q[i].key == key
    ensures Keys(p + q) == Keys(p) + [key]
  {
    var init := q[..|q| - 1];
    assert (p + q)[..|p + q| - 1] == p + init;
    if init == [] {
      assert p + init == p;
    } else {
      KeysConcat(p, init, key);
    }
  }

  // Rows that lie group by group have the groups' values in the groups' order.
  lemma {:induction false} KeysFlat(groups: seq<Group>)
    requires NoneTwice(groups) && AllOfValue(groups)
    ensures Keys(Flat(groups)) == seq(|groups|, i requires 0 <= i < |groups| => groups[i].value)
  {
    if groups != [] {
      hide Keys;
      var n := |groups| - 1;
      KeysFlat(groups[..n]);
      KeysConcat(Flat(groups[..n]), groups[n].rows, groups[n].value);
    } else {
      assert Keys([]) == [];
    }
  }

  lemma SortedProper(groups: seq<Group>, rows: seq<Row>)
    requires Sorted(groups, rows) && Started(groups)
    ensures Proper(groups, Flat(groups))
  {
    hide Flat, Started;
    KeysDistinct(rows);
    forall i | 0 <= i < |groups|
      ensures OfValue(groups[i])
    {
      assert Keys(rows)[i] in Keys(rows);
      OfKey(rows, groups[i].value);
    }
  }

  // Grouping rows that lie group by group gives the groups they lie in: grouping
  // again changes nothing.
  lemma Regroup(groups: seq<Group>, rows: seq<Row>, again: seq<Group>)
    requires Proper(groups, rows) && Sorted(again, rows) && Started(again)
    ensures again == groups && Flat(again) == rows
  {
    hide Keys, Of, Started, NoneTwice, AllOfValue;
    KeysFlat(groups);
    assert |again| == |groups|;
    forall i | 0 <= i < |groups|
      ensures again[i].value == groups[i].value && again[i].rows == groups[i].rows
    {
      OfGroup(groups, i);
    }
    SameStarts(groups, again, |groups|);
    assert again[..|groups|] == again && groups[..|groups|] == groups;
  }

  lemma {:induction false} SameStarts(groups: seq<Group>, again: seq<Group>, n: nat)
    requires |again| == |groups| && n <= |groups| && Started(groups) && Started(again)
    requires forall i :: 0 <= i < |groups| ==> again[i].value == groups[i].value && again[i].rows == groups[i].rows
    ensures Flat(again[..n]) == Flat(groups[..n]) && again[..n] == groups[..n]
  {
    if n > 0 {
      SameStarts(groups, again, n - 1);
      assert again[..n][..n - 1] == again[..n - 1] && groups[..n][..n - 1] == groups[..n - 1];
    } else {
      assert again[..0] == groups[..0] == [];
    }
  }

  lemma {:induction false} OfCounts(rows: seq<Row>, key: int, row: Row)
    ensures multiset(Of(rows, key))[row] == if row.key == key then multiset(rows)[row] else 0
  {
    if rows != [] {
      OfCounts(rows[..|rows| - 1], key, row);
      assert rows == rows[..|rows| - 1] + [rows[|rows| - 1]];
    }
  }

  // No row is lost or doubled.
  lemma Permutes(groups: seq<Group>, rows: seq<Row>)
    requires Sorted(groups, rows) && Started(groups)
    ensures multiset(Flat(groups)) == multiset(rows)
  {
    SortedProper(groups, rows);
    forall row: Row
      ensures multiset(Flat(groups))[row] == multiset(rows)[row]
    {
      OfCounts(rows, row.key, row);
      OfCounts(Flat(groups), row.key, row);
      SameRows(groups, rows, row.key);
    }
  }

  // Stable: the rows of a value come out in the order they went in.
  lemma SameRows(groups: seq<Group>, rows: seq<Row>, key: int)
    requires Sorted(groups, rows) && Started(groups)
    ensures Of(Flat(groups), key) == Of(rows, key)
  {
    hide Of, Flat, Started;
    SortedProper(groups, rows);
    KeysDistinct(rows);
    if key in Keys(rows) {
      var i :| 0 <= i < |Keys(rows)| && Keys(rows)[i] == key;
      OfGroup(groups, i);
    } else {
      OfNone(groups, key);
    }
  }
}
