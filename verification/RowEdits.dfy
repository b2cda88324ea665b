// Editing the rows of a grid: the lists of inserted, deleted and updated rows, and
// taking the changes back.

module RowEdits {
  type Value = map<string, string>

  // What stands in the editors of a row being edited, and whether it passes validation.
  datatype Editor = Editor(fields: Value, valid: bool)

  // Rows are numbered objects; vals holds their fields. original holds the field
  // values copied at the last snapshot.
  datatype State = State(rows: seq<nat>, vals: map<nat, Value>, total: int, inserted: seq<nat>, deleted: seq<nat>,
                         updated: seq<nat>, original: seq<Value>, editors: map<nat, Editor>, next: nat)

  // A row index beyond the last row is a TypeError and not an event.
  datatype Event =
    | Load(values: seq<Value>, total: int)
    | Insert(at: nat, value: Value)
    | Append(value: Value)
    | BeginEdit(index: nat, valid: bool)
    | Enter(index: nat, fields: Value, valid: bool)
    | EndEdit(index: nat)
    | CancelEdit(index: nat)
    | Delete(index: nat)
    | Accept
    | Reject

  ghost predicate Enabled(s: State, e: Event) {
    match e
    case BeginEdit(i, _) => i < |s.rows|
    case Enter(i, _, _) => i < |s.rows| && s.rows[i] in s.editors
    case EndEdit(i) => i < |s.rows|
    case CancelEdit(i) => i < |s.rows|
    case Delete(i) => i < |s.rows|
    case _ => true
  }

  // ---------------------------------------------------------------- what the operations do

  function Fields(vals: map<nat, Value>, row: nat): Value {
    if row in vals then vals[row] else map[]
  }

  function Values(rows: seq<nat>, vals: map<nat, Value>): (r: seq<Value>)
    ensures |r| == |rows|
  {
    seq(|rows|, i requires 0 <= i < |rows| => Fields(vals, rows[i]))
  }

  function FirstAt(a: seq<nat>, x: nat): (i: nat)
    ensures i <= |a| && (i < |a| <==> x in a) && (i < |a| ==> a[i] == x)
  {
    if a == [] || a[0] == x then 0 else 1 + FirstAt(a[1..], x)
  }

  function RemoveFirst(a: seq<nat>, x: nat): seq<nat> {
    var i := FirstAt(a, x);
    if i < |a| then a[..i] + a[i + 1..] else a
  }

  lemma NotThere(a: seq<nat>, x: nat)
    requires x !in a
    ensures RemoveFirst(a, x) == a
  {
  }

  // Copies of the current rows become the original ones.
  function Snapshot(s: State): State {
    s.(original := Values(s.rows, s.vals), updated := [], inserted := [], deleted := [])
  }

  function Ids(next: nat, n: nat): (r: seq<nat>)
    ensures |r| == n
  {
    seq(n, i => next + i)
  }

  function AddAll(vals: map<nat, Value>, next: nat, values: seq<Value>): map<nat, Value> {
    if values == [] then vals
    else
      var n := |values| - 1;
      AddAll(vals, next, values[..n])[next + n := values[n]]
  }

  // Rows made from values, as objects of their own.
  function Fresh(s: State, values: seq<Value>): State {
    s.(rows := Ids(s.next, |values|), vals := AddAll(s.vals, s.next, values), editors := map[],
       next := s.next + |values|)
  }

  function InsertAt(s: State, at: nat, value: Value): State {
    var k := if at > |s.rows| then |s.rows| else at;
    s.(rows := s.rows[..k] + [s.next] + s.rows[k..], vals := s.vals[s.next := value], total := s.total + 1,
       inserted := s.inserted + [s.next], next := s.next + 1)
  }

  function DropEditor(s: State, row: nat): State {
    s.(editors := map o | o in s.editors && o != row :: s.editors[o])
  }

  predicate Passes(s: State, row: nat) {
    row in s.editors ==> s.editors[row].valid
  }

  // What leaves the editors goes into the row; a row that was there at the last
  // snapshot and changes is an updated one.
  function Commit(s: State, row: nat): State {
    if row !in s.editors || !s.editors[row].valid then s
    else
      var value := Fields(s.vals, row) + s.editors[row].fields;
      var changed := value != Fields(s.vals, row);
      DropEditor(s.(vals := s.vals[row := value],
                    updated := if changed && row !in s.inserted && row !in s.updated then s.updated + [row]
                               else s.updated),
                 row)
  }

  // The first n rows committed.
  function CommitRows(s: State, n: nat): (t: State)
    requires n <= |s.rows|
    ensures t.rows == s.rows
  {
    if n == 0 then s else var t := CommitRows(s, n - 1); Commit(t, s.rows[n - 1])
  }

  predicate AllPass(s: State, n: nat)
    requires n <= |s.rows|
  {
    n == 0 || (AllPass(s, n - 1) && Passes(s, s.rows[n - 1]))
  }

  function DeleteAt(s: State, i: nat): State
    requires i < |s.rows|
  {
    var row := s.rows[i];
    var t := DropEditor(s, row);
    t.(inserted := RemoveFirst(s.inserted, row), deleted := if row in s.inserted then s.deleted else s.deleted + [row],
       total := s.total - 1, rows := s.rows[..i] + s.rows[i + 1..])
  }

  function Rejected(s: State): State {
    Snapshot(Fresh(s.(total := s.total + |s.deleted| - |s.inserted|), s.original))
  }

  function Step(s: State, e: Event): State
    requires Enabled(s, e)
  {
    match e
    case Load(values, total) => Snapshot(Fresh(s.(total := total), values))
    case Insert(at, value) => InsertAt(s, at, value)
    case Append(value) => InsertAt(s, |s.rows|, value)
    case BeginEdit(i, valid) =>
      var row := s.rows[i];
      if row in s.editors then s else s.(editors := s.editors[row := Editor(Fields(s.vals, row), valid)])
    case Enter(i, fields, valid) => s.(editors := s.editors[s.rows[i] := Editor(fields, valid)])
    case EndEdit(i) => Commit(s, s.rows[i])
    case CancelEdit(i) => DropEditor(s, s.rows[i])
    case Delete(i) => DeleteAt(s, i)
    case Accept =>
      var t := CommitRows(s, |s.rows|);
      if AllPass(s, |s.rows|) then Snapshot(t) else t
    case Reject => Rejected(s)
  }

  // ---------------------------------------------------------------- the grid

  method IndexOf(a: seq<nat>, x: nat) returns (i: int)
    ensures i == if x in a then FirstAt(a, x) else -1
  {
    for k := 0 to |a|
      invariant FirstAt(a, x) == k + FirstAt(a[k..], x) && x !in a[..k]
    {
      assert a[k..][0] == a[k] && a[k..][1..] == a[k + 1..];
      if a[k] == x {
        return k;
      }
    }
    return -1;
  }

  method RemoveValue(a: seq<nat>, x: nat) returns (r: seq<nat>)
    ensures r == RemoveFirst(a, x)
  {
    var i := IndexOf(a, x);
    r := if i != -1 then a[..i] + a[i + 1..] else a;
  }

  class Grid {
    var rows: seq<nat>
    var vals: map<nat, Value>
    var total: int
    var inserted: seq<nat>
    var deleted: seq<nat>
    var updated: seq<nat>
    var original: seq<Value>
    var editors: map<nat, Editor>
    var next: nat

    constructor ()
      ensures Now() == State([], map[], 0, [], [], [], [], map[], 0)
    {
      rows, vals, total, inserted, deleted, updated, original, editors, next := [], map[], 0, [], [], [], [], map[], 0;
    }

    function Now(): State
      reads this
    {
      State(rows, vals, total, inserted, deleted, updated, original, editors, next)
    }

    method TakeSnapshot()
      modifies this
      ensures Now() == Snapshot(old(Now()))
    {
      var copies: seq<Value> := [];
      for i := 0 to |rows|
        invariant Now() == old(Now()) && copies == Values(rows[..i], vals)
      {
        copies := copies + [Fields(vals, rows[i])];
      }
      assert rows[..|rows|] == rows;
      original, updated, inserted, deleted := copies, [], [], [];
    }

    method SetRows(values: seq<Value>)
      modifies this
      ensures Now() == Fresh(old(Now()), values)
    {
      rows := [];
      ghost var first, had := next, vals;
      for i := 0 to |values|
        invariant Now() ==
          old(Now()).(rows := Ids(first, i), vals := AddAll(had, first, values[..i]), next := first + i)
      {
        assert values[..i + 1][..i] == values[..i];
        rows := rows + [next];
        vals := vals[next := values[i]];
        next := next + 1;
      }
      assert values[..|values|] == values;
      editors := map[];
    }

    method LoadData(values: seq<Value>, count: int)
      modifies this
      ensures Now() == Step(old(Now()), Load(values, count))
    {
      total := count;
      SetRows(values);
      TakeSnapshot();
    }

    method InsertRow(at: nat, value: Value)
      modifies this
      ensures Now() == InsertAt(old(Now()), at, value)
    {
      var k := at;
      if k > |rows| {
        k := |rows|;
      }
      total := total + 1;
      rows := rows[..k] + [next] + rows[k..];
      inserted := inserted + [next];
      vals, next := vals[next := value], next + 1;
    }

    method AppendRow(value: Value)
      modifies this
      ensures Now() == Step(old(Now()), Append(value))
    {
      InsertRow(|rows|, value);
    }

    method EndEdit(i: nat, cancel: bool)
      requires i < |rows|
      modifies this
      ensures Now() == if cancel then DropEditor(old(Now()), old(rows[i])) else Commit(old(Now()), old(rows[i]))
    {
      var row := rows[i];
      if row !in editors {
        assert (map o | o in editors && o != row :: editors[o]) == editors;
        return;
      }
      if !cancel {
        if !editors[row].valid {
          return;
        }
        var value := Fields(vals, row) + editors[row].fields;
        if value != Fields(vals, row) {
          var ins := IndexOf(inserted, row);
          if ins == -1 {
            var upd := IndexOf(updated, row);
            if upd == -1 {
              updated := updated + [row];
            }
          }
        }
        vals := vals[row := value];
      }
      editors := map o | o in editors && o != row :: editors[o];
    }

    method DeleteRow(i: nat)
      requires i < |rows|
      modifies this
      ensures Now() == DeleteAt(old(Now()), i)
    {
      hide FirstAt, RemoveFirst;
      EndEdit(i, true);
      var row := rows[i];
      var at := IndexOf(inserted, row);
      if at >= 0 {
        inserted := RemoveValue(inserted, row);
      } else {
        NotThere(inserted, row);
        deleted := deleted + [row];
      }
      total := total - 1;
      rows := rows[..i] + rows[i + 1..];
    }

    // Commit every row that passes; only if all did, the changes are final.
    method AcceptChanges()
      modifies this
      ensures Now() == Step(old(Now()), Accept)
    {
      ghost var s := Now();
      var ok := true;
      for i := 0 to |rows|
        invariant i <= |s.rows| && Now() == CommitRows(s, i) && ok == AllPass(s, i) && rows == s.rows
        invariant forall o :: Passes(Now(), o) == Passes(s, o)
      {
        var row := rows[i];
        if row !in editors || editors[row].valid {
          EndEdit(i, false);
        } else {
          ok := false;
        }
      }
      if ok {
        TakeSnapshot();
      }
    }

    method RejectChanges()
      modifies this
      ensures Now() == Step(old(Now()), Reject)
    {
      ghost var s := Now();
      for i := 0 to |rows|
        invariant Now() == s.(editors := editors)
      {
        EndEdit(i, true);
      }
      total := total + |deleted| - |inserted|;
      SetRows(original);
      TakeSnapshot();
    }
  }
}
