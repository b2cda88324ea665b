// Selecting and checking the rows of a grid that has an id field: two lists of ids
// that outlive the page, and the marks on the rows of the page.

module Selection {
  // ids: the rows chosen, on any page; on: which rows of the page carry the mark.
  datatype Marks = Marks(ids: seq<int>, on: seq<bool>)

  datatype Flags = Flags(singleSelect: bool, checkOnSelect: bool, selectOnCheck: bool)

  datatype State = State(rows: seq<int>, sel: Marks, chk: Marks)

  datatype Event =
    | Select(i: nat)
    | Unselect(i: nat)
    | SelectAll
    | UnselectAll
    | Check(i: nat)
    | Uncheck(i: nat)
    | CheckAll
    | UncheckAll
    | ClearSelections
    | ClearChecked
    | Load(rows: seq<int>)
    | Delete(i: nat)
    | Reject(rows: seq<int>)

  // A row index beyond the page is a TypeError and not an event.
  ghost predicate Enabled(s: State, e: Event) {
    match e
    case Select(i) => i < |s.rows|
    case Unselect(i) => i < |s.rows|
    case Check(i) => i < |s.rows|
    case Uncheck(i) => i < |s.rows|
    case Delete(i) => i < |s.rows|
    case _ => true
  }

  ghost predicate Fits(s: State) {
    |s.sel.on| == |s.rows| && |s.chk.on| == |s.rows|
  }

  // ---------------------------------------------------------------- one list and its marks

  function Push(ids: seq<int>, id: int): seq<int> {
    if id in ids then ids else ids + [id]
  }

  function Remove(ids: seq<int>, id: int): seq<int> {
    if ids == [] then [] else if ids[0] == id then ids[1..] else [ids[0]] + Remove(ids[1..], id)
  }

  function PushAll(ids: seq<int>, rows: seq<int>): seq<int> {
    if rows == [] then ids else Push(PushAll(ids, rows[..|rows| - 1]), rows[|rows| - 1])
  }

  function RemoveAll(ids: seq<int>, rows: seq<int>): seq<int> {
    if rows == [] then ids else Remove(RemoveAll(ids, rows[..|rows| - 1]), rows[|rows| - 1])
  }

  function Same(n: nat, b: bool): (r: seq<bool>)
    ensures |r| == n
  {
    seq(n, i => b)
  }

  function Mark(m: Marks, rows: seq<int>, i: nat): Marks
    requires i < |rows| == |m.on|
  {
    Marks(Push(m.ids, rows[i]), m.on[i := true])
  }

  function Unmark(m: Marks, rows: seq<int>, i: nat): Marks
    requires i < |rows| == |m.on|
  {
    Marks(Remove(m.ids, rows[i]), m.on[i := false])
  }

  function MarkAll(m: Marks, rows: seq<int>): Marks {
    Marks(PushAll(m.ids, rows), Same(|rows|, true))
  }

  function UnmarkAll(m: Marks, rows: seq<int>): Marks {
    Marks(RemoveAll(m.ids, rows), Same(|rows|, false))
  }

  // Nothing chosen, on this page or another.
  function Emptied(rows: seq<int>): Marks {
    Marks([], Same(|rows|, false))
  }

  // ---------------------------------------------------------------- the linked operations

  function Selected(f: Flags, s: State, i: nat, inner: bool): (t: State)
    requires Fits(s) && i < |s.rows|
    ensures Fits(t) && t.rows == s.rows
    decreases if inner then 0 else 1
  {
    var a := if f.singleSelect then s.(sel := Emptied(s.rows)) else s;
    var b := if !inner && f.checkOnSelect then Checked(f, a, i, true) else a;
    b.(sel := Mark(b.sel, b.rows, i))
  }

  function Checked(f: Flags, s: State, i: nat, inner: bool): (t: State)
    requires Fits(s) && i < |s.rows|
    ensures Fits(t) && t.rows == s.rows
    decreases if inner then 0 else 1
  {
    var a := if f.singleSelect && f.selectOnCheck then s.(chk := Emptied(s.rows)) else s;
    var b := if !inner && f.selectOnCheck then Selected(f, a, i, true) else a;
    b.(chk := Mark(b.chk, b.rows, i))
  }

  function Unselected(f: Flags, s: State, i: nat): (t: State)
    requires Fits(s) && i < |s.rows|
    ensures Fits(t) && t.rows == s.rows
  {
    s.(sel := Unmark(s.sel, s.rows, i), chk := if f.checkOnSelect then Unmark(s.chk, s.rows, i) else s.chk)
  }

  function Unchecked(f: Flags, s: State, i: nat): (t: State)
    requires Fits(s) && i < |s.rows|
    ensures Fits(t) && t.rows == s.rows
  {
    s.(chk := Unmark(s.chk, s.rows, i), sel := if f.selectOnCheck then Unmark(s.sel, s.rows, i) else s.sel)
  }

  // A row of a new page takes its marks from the lists.
  function RestoredRow(f: Flags, s: State, i: nat): (t: State)
    requires Fits(s) && i < |s.rows|
    ensures Fits(t) && t.rows == s.rows
  {
    var b := if s.rows[i] in s.sel.ids then Selected(f, s, i, true) else s;
    if b.rows[i] in b.chk.ids then Checked(f, b, i, true) else b
  }

  function Restored(f: Flags, s: State, n: nat): (t: State)
    requires Fits(s) && n <= |s.rows|
    ensures Fits(t) && t.rows == s.rows
  {
    if n == 0 then s else RestoredRow(f, Restored(f, s, n - 1), n - 1)
  }

  function Loaded(f: Flags, s: State, rows: seq<int>): (t: State)
    ensures Fits(t) && t.rows == rows
  {
    Restored(f, State(rows, Marks(s.sel.ids, Same(|rows|, false)), Marks(s.chk.ids, Same(|rows|, false))), |rows|)
  }

  // The position of an id on the page, or the page's length.
  function RowIndex(rows: seq<int>, id: int): (i: nat)
    ensures i <= |rows| && (i < |rows| <==> id in rows) && (i < |rows| ==> rows[i] == id)
  {
    if rows == [] || rows[0] == id then 0 else 1 + RowIndex(rows[1..], id)
  }

  function Reselected(f: Flags, s: State, ids: seq<int>): (t: State)
    requires Fits(s)
    ensures Fits(t) && t.rows == s.rows
  {
    if ids == [] then s
    else
      var a := Reselected(f, s, ids[..|ids| - 1]);
      var i := RowIndex(a.rows, ids[|ids| - 1]);
      if i < |a.rows| then Selected(f, a, i, true) else a
  }

  function Rechecked(f: Flags, s: State, ids: seq<int>): (t: State)
    requires Fits(s)
    ensures Fits(t) && t.rows == s.rows
  {
    if ids == [] then s
    else
      var a := Rechecked(f, s, ids[..|ids| - 1]);
      var i := RowIndex(a.rows, ids[|ids| - 1]);
      if i < |a.rows| then Checked(f, a, i, true) else a
  }

  function Deleted(s: State, i: nat): (t: State)
    requires Fits(s) && i < |s.rows|
    ensures Fits(t)
  {
    var id := s.rows[i];
    State(s.rows[..i] + s.rows[i + 1..],
          Marks(Remove(s.sel.ids, id), s.sel.on[..i] + s.sel.on[i + 1..]),
          Marks(Remove(s.chk.ids, id), s.chk.on[..i] + s.chk.on[i + 1..]))
  }

  // Taking the changes back loads the old rows and chooses again what they hold.
  function Rejected(f: Flags, s: State, rows: seq<int>): (t: State)
    ensures Fits(t) && t.rows == rows
  {
    var a := Loaded(f, s.(sel := s.sel.(ids := []), chk := s.chk.(ids := [])), rows);
    Rechecked(f, Reselected(f, a, s.sel.ids), s.chk.ids)
  }

  function Step(f: Flags, s: State, e: Event): (t: State)
    requires Fits(s) && Enabled(s, e)
    ensures Fits(t)
  {
    match e
    case Select(i) => Selected(f, s, i, false)
    case Unselect(i) => Unselected(f, s, i)
    case SelectAll =>
      s.(sel := MarkAll(s.sel, s.rows), chk := if f.checkOnSelect then MarkAll(s.chk, s.rows) else s.chk)
    case UnselectAll =>
      s.(sel := UnmarkAll(s.sel, s.rows), chk := if f.checkOnSelect then UnmarkAll(s.chk, s.rows) else s.chk)
    case Check(i) => Checked(f, s, i, false)
    case Uncheck(i) => Unchecked(f, s, i)
    case CheckAll =>
      s.(chk := MarkAll(s.chk, s.rows), sel := if f.selectOnCheck then MarkAll(s.sel, s.rows) else s.sel)
    case UncheckAll =>
      s.(chk := UnmarkAll(s.chk, s.rows), sel := if f.selectOnCheck then UnmarkAll(s.sel, s.rows) else s.sel)
    case ClearSelections =>
      s.(sel := Emptied(s.rows), chk := if f.checkOnSelect then Emptied(s.rows) else s.chk)
    case ClearChecked =>
      s.(chk := Emptied(s.rows), sel := if f.selectOnCheck then Emptied(s.rows) else s.sel)
    case Load(rows) => Loaded(f, s, rows)
    case Delete(i) => Deleted(s, i)
    case Reject(rows) => Rejected(f, s, rows)
  }

  // ---------------------------------------------------------------- the grid

  method PushId(ids: seq<int>, id: int) returns (r: seq<int>)
    ensures r == Push(ids, id)
  {
    for k := 0 to |ids|
      invariant id !in ids[..k]
    {
      if ids[k] == id {
        return ids;
      }
    }
    return ids + [id];
  }

  lemma {:induction false} RemoveAt(ids: seq<int>, id: int, k: nat)
    requires k < |ids| && ids[k] == id && id !in ids[..k]
    ensures Remove(ids, id) == ids[..k] + ids[k + 1..]
  {
    if k > 0 {
      assert ids[1..][..k - 1] == ids[..k][1..];
      assert ids[0] == ids[..k][0];
      RemoveAt(ids[1..], id, k - 1);
    }
  }

  lemma {:induction false} RemoveNone(ids: seq<int>, id: int)
    requires id !in ids
    ensures Remove(ids, id) == ids
  {
    if ids != [] {
      RemoveNone(ids[1..], id);
    }
  }

  method RemoveId(ids: seq<int>, id: int) returns (r: seq<int>)
    ensures r == Remove(ids, id)
  {
    for k := 0 to |ids|
      invariant id !in ids[..k]
    {
      if ids[k] == id {
        RemoveAt(ids, id, k);
        return ids[..k] + ids[k + 1..];
      }
    }
    RemoveNone(ids, id);
    return ids;
  }

  class Grid {
    var rows: seq<int>
    var selected: seq<int>
    var checked: seq<int>
    var selOn: seq<bool>
    var chkOn: seq<bool>
    const flags: Flags

    constructor (flags: Flags)
      ensures this.flags == flags && Now() == State([], Marks([], []), Marks([], []))
    {
      this.flags := flags;
      rows, selected, checked, selOn, chkOn := [], [], [], [], [];
    }

    function Now(): State
      reads this
    {
      State(rows, Marks(selected, selOn), Marks(checked, chkOn))
    }

    ghost predicate Valid()
      reads this
    {
      Fits(Now())
    }

    method Select(i: nat, inner: bool)
      requires Valid() && i < |rows|
      modifies this
      ensures Valid() && Now() == Selected(flags, old(Now()), i, inner)
      decreases if inner then 0 else 1
    {
      if flags.singleSelect {
        UnselectAll(true);
        selected := [];
      }
      if !inner && flags.checkOnSelect {
        Check(i, true);
      }
      selected := PushId(selected, rows[i]);
      selOn := selOn[i := true];
    }

    method Check(i: nat, inner: bool)
      requires Valid() && i < |rows|
      modifies this
      ensures Valid() && Now() == Checked(flags, old(Now()), i, inner)
      decreases if inner then 0 else 1
    {
      if flags.singleSelect && flags.selectOnCheck {
        UncheckAll(true);
        checked := [];
      }
      if !inner && flags.selectOnCheck {
        Select(i, true);
      }
      chkOn := chkOn[i := true];
      checked := PushId(checked, rows[i]);
    }

    method Unselect(i: nat, inner: bool)
      requires Valid() && i < |rows|
      modifies this
      ensures Valid()
      ensures Now() ==
        if inner then old(Now()).(sel := Unmark(old(Now()).sel, old(rows), i))
        else Unselected(flags, old(Now()), i)
      decreases if inner then 0 else 1
    {
      if !inner && flags.checkOnSelect {
        Uncheck(i, true);
      }
      selOn := selOn[i := false];
      selected := RemoveId(selected, rows[i]);
    }

    method Uncheck(i: nat, inner: bool)
      requires Valid() && i < |rows|
      modifies this
      ensures Valid()
      ensures Now() ==
        if inner then old(Now()).(chk := Unmark(old(Now()).chk, old(rows), i))
        else Unchecked(flags, old(Now()), i)
      decreases if inner then 0 else 1
    {
      if !inner && flags.selectOnCheck {
        Unselect(i, true);
      }
      chkOn := chkOn[i := false];
      checked := RemoveId(checked, rows[i]);
    }

    method SelectAll(inner: bool)
      requires Valid()
      modifies this
      ensures Valid()
      ensures Now() ==
        if inner then old(Now()).(sel := MarkAll(old(Now()).sel, old(rows)))
        else Step(flags, old(Now()), Event.SelectAll)
      decreases if inner then 0 else 1
    {
      if !inner && flags.checkOnSelect {
        CheckAll(true);
      }
      selOn := Same(|rows|, true);
      ghost var s := Now();
      for k := 0 to |rows|
        invariant Now() == s.(sel := Marks(PushAll(s.sel.ids, s.rows[..k]), s.sel.on))
      {
        assert rows[..k + 1][..k] == rows[..k];
        selected := PushId(selected, rows[k]);
      }
      assert rows[..|rows|] == rows;
    }

    method CheckAll(inner: bool)
      requires Valid()
      modifies this
      ensures Valid()
      ensures Now() ==
        if inner then old(Now()).(chk := MarkAll(old(Now()).chk, old(rows)))
        else Step(flags, old(Now()), Event.CheckAll)
      decreases if inner then 0 else 1
    {
      if !inner && flags.selectOnCheck {
        SelectAll(true);
      }
      chkOn := Same(|rows|, true);
      ghost var s := Now();
      for k := 0 to |rows|
        invariant Now() == s.(chk := Marks(PushAll(s.chk.ids, s.rows[..k]), s.chk.on))
      {
        assert rows[..k + 1][..k] == rows[..k];
        checked := PushId(checked, rows[k]);
      }
      assert rows[..|rows|] == rows;
    }

    method UnselectAll(inner: bool)
      requires Valid()
      modifies this
      ensures Valid()
      ensures Now() ==
        if inner then old(Now()).(sel := UnmarkAll(old(Now()).sel, old(rows)))
        else Step(flags, old(Now()), Event.UnselectAll)
      decreases if inner then 0 else 1
    {
      if !inner && flags.checkOnSelect {
        UncheckAll(true);
      }
      selOn := Same(|rows|, false);
      ghost var s := Now();
      for k := 0 to |rows|
        invariant Now() == s.(sel := Marks(RemoveAll(s.sel.ids, s.rows[..k]), s.sel.on))
      {
        assert rows[..k + 1][..k] == rows[..k];
        selected := RemoveId(selected, rows[k]);
      }
      assert rows[..|rows|] == rows;
    }

    method UncheckAll(inner: bool)
      requires Valid()
      modifies this
      ensures Valid()
      ensures Now() ==
        if inner then old(Now()).(chk := UnmarkAll(old(Now()).chk, old(rows)))
        else Step(flags, old(Now()), Event.UncheckAll)
      decreases if inner then 0 else 1
    {
      if !inner && flags.selectOnCheck {
        UnselectAll(true);
      }
      chkOn := Same(|rows|, false);
      ghost var s := Now();
      for k := 0 to |rows|
        invariant Now() == s.(chk := Marks(RemoveAll(s.chk.ids, s.rows[..k]), s.chk.on))
      {
        assert rows[..k + 1][..k] == rows[..k];
        checked := RemoveId(checked, rows[k]);
      }
      assert rows[..|rows|] == rows;
    }

    method ClearSelections()
      requires Valid()
      modifies this
      ensures Valid() && Now() == Step(flags, old(Now()), Event.ClearSelections)
    {
      selected := [];
      RemovedEmpty(rows);
      UnselectAll(false);
      if flags.checkOnSelect {
        checked := [];
      }
    }

    method ClearChecked()
      requires Valid()
      modifies this
      ensures Valid() && Now() == Step(flags, old(Now()), Event.ClearChecked)
    {
      checked := [];
      RemovedEmpty(rows);
      UncheckAll(false);
      if flags.selectOnCheck {
        selected := [];
      }
    }

    method RestoreMarks()
      requires Valid()
      modifies this
      ensures Valid() && Now() == Restored(flags, old(Now()), |old(rows)|)
    {
      ghost var s := Now();
      for i := 0 to |rows|
        invariant Valid() && rows == s.rows && Now() == Restored(flags, s, i)
      {
        if rows[i] in selected {
          Select(i, true);
        }
        if rows[i] in checked {
          Check(i, true);
        }
      }
    }

    method LoadRows(page: seq<int>)
      requires Valid()
      modifies this
      ensures Valid() && Now() == Loaded(flags, old(Now()), page)
    {
      rows, selOn, chkOn := page, Same(|page|, false), Same(|page|, false);
      RestoreMarks();
    }

    method DeleteRow(i: nat)
      requires Valid() && i < |rows|
      modifies this
      ensures Valid() && Now() == Deleted(old(Now()), i)
    {
      selected := RemoveId(selected, rows[i]);
      checked := RemoveId(checked, rows[i]);
      rows, selOn, chkOn := rows[..i] + rows[i + 1..], selOn[..i] + selOn[i + 1..], chkOn[..i] + chkOn[i + 1..];
    }

    method Reselect(ids: seq<int>)
      requires Valid()
      modifies this
      ensures Valid() && Now() == Reselected(flags, old(Now()), ids)
    {
      ghost var s := Now();
      for k := 0 to |ids|
        invariant Valid() && Now() == Reselected(flags, s, ids[..k])
      {
        assert ids[..k + 1][..k] == ids[..k];
        var i := RowIndex(rows, ids[k]);
        if i < |rows| {
          Select(i, true);
        }
      }
      assert ids[..|ids|] == ids;
    }

    method Recheck(ids: seq<int>)
      requires Valid()
      modifies this
      ensures Valid() && Now() == Rechecked(flags, old(Now()), ids)
    {
      ghost var s := Now();
      for k := 0 to |ids|
        invariant Valid() && Now() == Rechecked(flags, s, ids[..k])
      {
        assert ids[..k + 1][..k] == ids[..k];
        var i := RowIndex(rows, ids[k]);
        if i < |rows| {
          Check(i, true);
        }
      }
      assert ids[..|ids|] == ids;
    }

    method Reject(page: seq<int>)
      requires Valid()
      modifies this
      ensures Valid() && Now() == Rejected(flags, old(Now()), page)
    {
      var sel, chk := selected, checked;
      selected, checked := [], [];
      LoadRows(page);
      Reselect(sel);
      Recheck(chk);
    }
  }

  lemma {:induction false} RemovedEmpty(rows: seq<int>)
    ensures RemoveAll([], rows) == []
  {
    if rows != [] {
      RemovedEmpty(rows[..|rows| - 1]);
    }
  }
}
