// What every run of selecting, checking, paging and deleting keeps.

module SelectionRuns {
  import opened Common
  import opened Selection

  // No id twice, and the marks on the page are those of the ids chosen.
  ghost predicate Good(m: Marks, rows: seq<int>) {
    Distinct(m.ids) && |m.on| == |rows| && forall i :: 0 <= i < |rows| ==> (m.on[i] <==> rows[i] in m.ids)
  }

  ghost predicate Consistent(s: State) {
    Distinct(s.rows) && Good(s.sel, s.rows) && Good(s.chk, s.rows)
  }

  ghost predicate Linked(f: Flags) {
    f.checkOnSelect && f.selectOnCheck
  }

  // A page holds no id twice.
  ghost predicate Paged(e: Event) {
    (e.Load? ==> Distinct(e.rows)) && (e.Reject? ==> Distinct(e.rows))
  }

  // ---------------------------------------------------------------- lists of ids

  lemma PushGood(ids: seq<int>, id: int)
    requires Distinct(ids)
    ensures Distinct(Push(ids, id)) && forall x :: x in Push(ids, id) <==> x in ids || x == id
  {
  }

  lemma {:induction false} RemoveHas(ids: seq<int>, id: int, x: int)
    requires Distinct(ids)
    ensures x in Remove(ids, id) <==> x in ids && x != id
  {
    if ids != [] {
      RemoveHas(ids[1..], id, x);
      assert ids == [ids[0]] + ids[1..];
    }
  }

  lemma {:induction false} RemoveDistinct(ids: seq<int>, id: int)
    requires Distinct(ids)
    ensures Distinct(Remove(ids, id))
  {
    if ids != [] {
      RemoveDistinct(ids[1..], id);
      RemoveHas(ids[1..], id, ids[0]);
    }
  }

  lemma {:induction false} PushAllGood(ids: seq<int>, rows: seq<int>)
    requires Distinct(ids)
    ensures Distinct(PushAll(ids, rows)) && forall x :: x in PushAll(ids, rows) <==> x in ids || x in rows
  {
    if rows != [] {
      var init, last := rows[..|rows| - 1], rows[|rows| - 1];
      assert rows == init + [last];
      PushAllGood(ids, init);
      PushGood(PushAll(ids, init), last);
    }
  }

  lemma PushAllHas(ids: seq<int>, rows: seq<int>, x: int)
    requires Distinct(ids)
    ensures x in PushAll(ids, rows) <==> x in ids || x in rows
  {
    PushAllGood(ids, rows);
  }

  // The ids that are not on the page, in order.
  ghost function Others(ids: seq<int>, rows: seq<int>): seq<int> {
    if ids == [] then [] else (if ids[0] in rows then [] else [ids[0]]) + Others(ids[1..], rows)
  }

  lemma {:induction false} OthersHas(ids: seq<int>, rows: seq<int>, x: int)
    ensures x in Others(ids, rows) <==> x in ids && x !in rows
  {
    if ids != [] {
      OthersHas(ids[1..], rows, x);
      assert ids == [ids[0]] + ids[1..];
    }
  }

  lemma {:induction false} OthersDistinct(ids: seq<int>, rows: seq<int>)
    requires Distinct(ids)
    ensures Distinct(Others(ids, rows))
  {
    if ids != [] {
      OthersDistinct(ids[1..], rows);
      OthersHas(ids[1..], rows, ids[0]);
    }
  }

  lemma {:induction false} RemoveFromOthers(ids: seq<int>, rows: seq<int>, id: int)
    requires Distinct(ids)
    ensures Remove(Others(ids, rows), id) == Others(ids, rows + [id])
  {
    if ids != [] {
      var rest := Others(ids[1..], rows);
      RemoveFromOthers(ids[1..], rows, id);
      if ids[0] in rows {
        assert Others(ids, rows) == rest;
      } else {
        assert Others(ids, rows) == [ids[0]] + rest && ([ids[0]] + rest)[1..] == rest;
        if ids[0] == id {
          OthersHas(ids[1..], rows, id);
          RemoveNone(rest, id);
        }
      }
    }
  }

  // Removing the ids of a page one by one leaves the others.
  lemma {:induction false} RemoveAllIs(ids: seq<int>, rows: seq<int>)
    requires Distinct(ids)
    ensures RemoveAll(ids, rows) == Others(ids, rows)
  {
    if rows == [] {
      OthersAll(ids);
    } else {
      var init := rows[..|rows| - 1];
      RemoveAllIs(ids, init);
      RemoveFromOthers(ids, init, rows[|rows| - 1]);
      assert rows == init + [rows[|rows| - 1]];
    }
  }

  lemma {:induction false} OthersAll(ids: seq<int>)
    ensures Others(ids, []) == ids
  {
    if ids != [] {
      OthersAll(ids[1..]);
    }
  }

  // ---------------------------------------------------------------- one list

  lemma MarkGood(m: Marks, rows: seq<int>, i: nat)
    requires Distinct(rows) && i < |rows| && Good(m, rows)
    ensures Good(Mark(m, rows, i), rows)
  {
    PushGood(m.ids, rows[i]);
  }

  lemma UnmarkGood(m: Marks, rows: seq<int>, i: nat)
    requires Distinct(rows) && i < |rows| && Good(m, rows)
    ensures Good(Unmark(m, rows, i), rows)
  {
    RemoveDistinct(m.ids, rows[i]);
    forall k | 0 <= k < |rows|
      ensures rows[k] in Remove(m.ids, rows[i]) <==> rows[k] in m.ids && k != i
    {
      RemoveHas(m.ids, rows[i], rows[k]);
    }
  }

  lemma MarkAllGood(m: Marks, rows: seq<int>)
    requires Good(m, rows)
    ensures Good(MarkAll(m, rows), rows)
  {
    PushAllGood(m.ids, rows);
    forall i | 0 <= i < |rows|
      ensures rows[i] in MarkAll(m, rows).ids
    {
      PushAllHas(m.ids, rows, rows[i]);
    }
  }

  lemma UnmarkAllGood(m: Marks, rows: seq<int>)
    requires Good(m, rows)
    ensures Good(UnmarkAll(m, rows), rows)
  {
    RemoveAllIs(m.ids, rows);
    OthersDistinct(m.ids, rows);
    forall i | 0 <= i < |rows|
      ensures rows[i] !in UnmarkAll(m, rows).ids
    {
      OthersHas(m.ids, rows, rows[i]);
    }
  }

  // ---------------------------------------------------------------- linked operations

  lemma {:induction false} SelectedGood(f: Flags, s: State, i: nat, inner: bool)
    requires Consistent(s) && i < |s.rows|
    ensures Consistent(Selected(f, s, i, inner))
    decreases if inner then 0 else 1
  {
    var a := if f.singleSelect then s.(sel := Emptied(s.rows)) else s;
    if !inner && f.checkOnSelect {
      CheckedGood(f, a, i, true);
    }
    var b := if !inner && f.checkOnSelect then Checked(f, a, i, true) else a;
    MarkGood(b.sel, b.rows, i);
  }

  lemma {:induction false} CheckedGood(f: Flags, s: State, i: nat, inner: bool)
    requires Consistent(s) && i < |s.rows|
    ensures Consistent(Checked(f, s, i, inner))
    decreases if inner then 0 else 1
  {
    var a := if f.singleSelect && f.selectOnCheck then s.(chk := Emptied(s.rows)) else s;
    if !inner && f.selectOnCheck {
      SelectedGood(f, a, i, true);
    }
    var b := if !inner && f.selectOnCheck then Selected(f, a, i, true) else a;
    MarkGood(b.chk, b.rows, i);
  }

  // One list after choosing a row; without singleSelect the others stay.
  ghost function Chosen(single: bool, m: Marks, rows: seq<int>, i: nat): Marks
    requires i < |rows| == |m.on|
  {
    Mark(if single then Emptied(rows) else m, rows, i)
  }

  lemma SelectedInner(f: Flags, s: State, i: nat)
    requires Fits(s) && i < |s.rows|
    ensures Selected(f, s, i, true) == s.(sel := Chosen(f.singleSelect, s.sel, s.rows, i))
    ensures Linked(f) ==> Checked(f, s, i, true) == s.(chk := Chosen(f.singleSelect, s.chk, s.rows, i))
  {
  }

  lemma SelectedBoth(f: Flags, s: State, i: nat)
    requires Fits(s) && i < |s.rows| && Linked(f)
    ensures Selected(f, s, i, false) == Checked(f, s, i, false)
      == s.(sel := Chosen(f.singleSelect, s.sel, s.rows, i), chk := Chosen(f.singleSelect, s.chk, s.rows, i))
  {
  }

  lemma {:induction false} RestoredGood(f: Flags, s: State, n: nat)
    requires n <= |s.rows| && Fits(s) && Partial(s, 0)
    ensures Partial(Restored(f, s, n), n)
  {
    if n > 0 {
      hide RestoredRow, PartGood;
      RestoredGood(f, s, n - 1);
      RestoreOne(f, Restored(f, s, n - 1), n - 1);
    }
  }

  // The first n rows of the page carry their marks, the others none yet.
  ghost predicate Partial(s: State, n: nat) {
    && Distinct(s.rows) && n <= |s.rows| && PartGood(s.sel, s.rows, n) && PartGood(s.chk, s.rows, n)
  }

  ghost predicate PartGood(m: Marks, rows: seq<int>, n: nat) {
    Distinct(m.ids) && |m.on| == |rows| && forall i :: 0 <= i < |rows| ==> (m.on[i] <==> i < n && rows[i] in m.ids)
  }

  lemma ChosenPart(single: bool, m: Marks, rows: seq<int>, n: nat)
    requires n < |rows| && Distinct(rows) && PartGood(m, rows, n) && rows[n] in m.ids
    ensures PartGood(Chosen(single, m, rows, n), rows, n + 1)
  {
  }

  lemma RestoreOne(f: Flags, s: State, n: nat)
    requires Partial(s, n) && n < |s.rows|
    ensures Partial(RestoredRow(f, s, n), n + 1)
  {
    SelectedInner(f, s, n);
    if s.rows[n] in s.sel.ids {
      ChosenPart(f.singleSelect, s.sel, s.rows, n);
    }
    if s.rows[n] in s.chk.ids {
      ChosenPart(f.singleSelect && f.selectOnCheck, s.chk, s.rows, n);
    }
  }

  lemma WholePage(s: State)
    requires Partial(s, |s.rows|)
    ensures Consistent(s)
  {
  }

  lemma LoadedGood(f: Flags, s: State, rows: seq<int>)
    requires Distinct(rows) && Distinct(s.sel.ids) && Distinct(s.chk.ids)
    ensures Consistent(Loaded(f, s, rows))
  {
    hide Restored;
    var a := State(rows, Marks(s.sel.ids, Same(|rows|, false)), Marks(s.chk.ids, Same(|rows|, false)));
    RestoredGood(f, a, |rows|);
    WholePage(Restored(f, a, |rows|));
  }

  lemma {:induction false} ReselectedGood(f: Flags, s: State, ids: seq<int>)
    requires Consistent(s)
    ensures Consistent(Reselected(f, s, ids))
  {
    if ids != [] {
      hide Consistent;
      ReselectedGood(f, s, ids[..|ids| - 1]);
      var a := Reselected(f, s, ids[..|ids| - 1]);
      var i := RowIndex(a.rows, ids[|ids| - 1]);
      if i < |a.rows| {
        SelectedGood(f, a, i, true);
      }
    }
  }

  lemma {:induction false} RecheckedGood(f: Flags, s: State, ids: seq<int>)
    requires Consistent(s)
    ensures Consistent(Rechecked(f, s, ids))
  {
    if ids != [] {
      hide Consistent;
      RecheckedGood(f, s, ids[..|ids| - 1]);
      var a := Rechecked(f, s, ids[..|ids| - 1]);
      var i := RowIndex(a.rows, ids[|ids| - 1]);
      if i < |a.rows| {
        CheckedGood(f, a, i, true);
      }
    }
  }

  lemma DroppedGood(m: Marks, rows: seq<int>, i: nat)
    requires Distinct(rows) && i < |rows| && Good(m, rows)
    ensures Good(Marks(Remove(m.ids, rows[i]), m.on[..i] + m.on[i + 1..]), rows[..i] + rows[i + 1..])
  {
    RemoveDistinct(m.ids, rows[i]);
    var rest := rows[..i] + rows[i + 1..];
    forall k | 0 <= k < |rest|
      ensures (m.on[..i] + m.on[i + 1..])[k] <==> rest[k] in Remove(m.ids, rows[i])
    {
      RemoveHas(m.ids, rows[i], rest[k]);
      assert rest[k] == rows[if k < i then k else k + 1];
    }
  }

  // Every event keeps the lists free of repetition and in step with the page.
  lemma StepKeeps(f: Flags, s: State, e: Event)
    requires Consistent(s) && Enabled(s, e) && Paged(e)
    ensures Consistent(Step(f, s, e))
  {
    hide Selected, Checked, Loaded, Reselected, Rechecked, Mark, Unmark, MarkAll, UnmarkAll;
    match e
    case Select(i) =>
      SelectedGood(f, s, i, false);
    case Check(i) =>
      CheckedGood(f, s, i, false);
    case Unselect(i) =>
      UnmarkGood(s.sel, s.rows, i);
      UnmarkGood(s.chk, s.rows, i);
    case Uncheck(i) =>
      UnmarkGood(s.sel, s.rows, i);
      UnmarkGood(s.chk, s.rows, i);
    case SelectAll =>
      AllLengths(s);
      MarkAllGood(s.sel, s.rows);
      MarkAllGood(s.chk, s.rows);
    case CheckAll =>
      AllLengths(s);
      MarkAllGood(s.sel, s.rows);
      MarkAllGood(s.chk, s.rows);
    case UnselectAll =>
      AllLengths(s);
      UnmarkAllGood(s.sel, s.rows);
      UnmarkAllGood(s.chk, s.rows);
    case UncheckAll =>
      AllLengths(s);
      UnmarkAllGood(s.sel, s.rows);
      UnmarkAllGood(s.chk, s.rows);
    case ClearSelections =>
    case ClearChecked =>
    case Load(rows) =>
      LoadedGood(f, s, rows);
    case Delete(i) =>
      DeletedGood(s, i);
    case Reject(rows) =>
      var a := s.(sel := s.sel.(ids := []), chk := s.chk.(ids := []));
      LoadedGood(f, a, rows);
      ReselectedGood(f, Loaded(f, a, rows), s.sel.ids);
      RecheckedGood(f, Reselected(f, Loaded(f, a, rows), s.sel.ids), s.chk.ids);
  }

  lemma AllLengths(s: State)
    requires Consistent(s)
    ensures |MarkAll(s.sel, s.rows).on| == |s.rows| == |UnmarkAll(s.sel, s.rows).on|
  {
  }

  lemma DeletedGood(s: State, i: nat)
    requires Consistent(s) && i < |s.rows|
    ensures Consistent(Deleted(s, i))
  {
    DroppedGood(s.sel, s.rows, i);
    DroppedGood(s.chk, s.rows, i);
    assert Distinct(s.rows[..i] + s.rows[i + 1..]);
  }

  // ---------------------------------------------------------------- both links on

  // The two lists hold the same ids in the same order.
  ghost predicate Agree(s: State) {
    s.sel.ids == s.chk.ids
  }

  lemma {:induction false} RestoredAgrees(f: Flags, s: State, n: nat)
    requires Fits(s) && n <= |s.rows| && Linked(f) && Agree(s)
    ensures Agree(Restored(f, s, n))
  {
    if n > 0 {
      RestoredAgrees(f, s, n - 1);
      RowAgrees(f, Restored(f, s, n - 1), n - 1);
    }
  }

  lemma RowAgrees(f: Flags, s: State, i: nat)
    requires Fits(s) && i < |s.rows| && Linked(f) && Agree(s)
    ensures Agree(RestoredRow(f, s, i))
  {
    SelectedInner(f, s, i);
  }

  // The list after choosing the rows with some ids, one after another.
  ghost function ChosenAll(single: bool, m: Marks, rows: seq<int>, ids: seq<int>): (r: Marks)
    requires |m.on| == |rows|
    ensures |r.on| == |rows|
  {
    if ids == [] then m
    else
      var a := ChosenAll(single, m, rows, ids[..|ids| - 1]);
      var i := RowIndex(rows, ids[|ids| - 1]);
      if i < |rows| then Chosen(single, a, rows, i) else a
  }

  lemma {:induction false} ReselectedIs(f: Flags, s: State, ids: seq<int>)
    requires Fits(s)
    ensures Reselected(f, s, ids) == s.(sel := ChosenAll(f.singleSelect, s.sel, s.rows, ids))
  {
    if ids != [] {
      ReselectedIs(f, s, ids[..|ids| - 1]);
      var a := Reselected(f, s, ids[..|ids| - 1]);
      var i := RowIndex(a.rows, ids[|ids| - 1]);
      if i < |a.rows| {
        SelectedInner(f, a, i);
      }
    }
  }

  lemma {:induction false} RecheckedIs(f: Flags, s: State, ids: seq<int>)
    requires Fits(s) && Linked(f)
    ensures Rechecked(f, s, ids) == s.(chk := ChosenAll(f.singleSelect, s.chk, s.rows, ids))
  {
    if ids != [] {
      RecheckedIs(f, s, ids[..|ids| - 1]);
      var a := Rechecked(f, s, ids[..|ids| - 1]);
      var i := RowIndex(a.rows, ids[|ids| - 1]);
      if i < |a.rows| {
        SelectedInner(f, a, i);
      }
    }
  }

  lemma {:induction false} RestoredEmpty(f: Flags, s: State, n: nat)
    requires Fits(s) && n <= |s.rows| && s.sel.ids == [] && s.chk.ids == []
    ensures Restored(f, s, n) == s
  {
    if n > 0 {
      RestoredEmpty(f, s, n - 1);
    }
  }

  lemma RejectedAgrees(f: Flags, s: State, rows: seq<int>)
    requires Linked(f) && Agree(s)
    ensures Agree(Rejected(f, s, rows))
  {
    hide Restored, Reselected, Rechecked, ChosenAll;
    var none := Marks([], Same(|rows|, false));
    var a := State(rows, none, none);
    RestoredEmpty(f, a, |rows|);
    ReselectedIs(f, a, s.sel.ids);
    RecheckedIs(f, Reselected(f, a, s.sel.ids), s.chk.ids);
  }

  lemma StepAgrees(f: Flags, s: State, e: Event)
    requires Fits(s) && Enabled(s, e) && Linked(f) && Agree(s)
    ensures Agree(Step(f, s, e))
  {
    hide Selected, Checked, Restored, Rejected;
    match e
    case Select(i) =>
      SelectedBoth(f, s, i);
    case Check(i) =>
      SelectedBoth(f, s, i);
    case Load(rows) =>
      var none := Same(|rows|, false);
      RestoredAgrees(f, State(rows, Marks(s.sel.ids, none), Marks(s.chk.ids, none)), |rows|);
    case Reject(rows) =>
      RejectedAgrees(f, s, rows);
    case _ =>
  }

  // ---------------------------------------------------------------- runs

  ghost predicate Runs(f: Flags, s: State, es: seq<Event>)
    requires Fits(s)
    decreases |es|
  {
    es == [] || (Enabled(s, es[0]) && Paged(es[0]) && Runs(f, Step(f, s, es[0]), es[1..]))
  }

  ghost function After(f: Flags, s: State, es: seq<Event>): State
    requires Fits(s) && Runs(f, s, es)
    decreases |es|
  {
    if es == [] then s else After(f, Step(f, s, es[0]), es[1..])
  }

  lemma {:induction false} RunKeeps(f: Flags, s: State, es: seq<Event>)
    requires Consistent(s) && Runs(f, s, es)
    ensures Consistent(After(f, s, es))
    decreases |es|
  {
    if es != [] {
      StepKeeps(f, s, es[0]);
      RunKeeps(f, Step(f, s, es[0]), es[1..]);
    }
  }

  // With both links on, selected and checked are the same list after every run.
  lemma {:induction false} RunAgrees(f: Flags, s: State, es: seq<Event>)
    requires Fits(s) && Runs(f, s, es) && Linked(f) && Agree(s)
    ensures Agree(After(f, s, es))
    decreases |es|
  {
    if es != [] {
      StepAgrees(f, s, es[0]);
      RunAgrees(f, Step(f, s, es[0]), es[1..]);
    }
  }

  // Unselecting all rows of a page keeps the rows selected on other pages, in order.
  lemma OtherPagesSurvive(f: Flags, s: State)
    requires Consistent(s)
    ensures Step(f, s, UnselectAll).sel.ids == Others(s.sel.ids, s.rows)
    ensures f.checkOnSelect ==> Step(f, s, UnselectAll).chk.ids == Others(s.chk.ids, s.rows)
  {
    RemoveAllIs(s.sel.ids, s.rows);
    RemoveAllIs(s.chk.ids, s.rows);
  }

  // Selecting a row alone leaves it the only one selected, on any page; selecting
  // all rows selects them all even then.
  lemma SingleSelection(f: Flags, s: State, i: nat)
    requires Consistent(s) && i < |s.rows| && f.singleSelect
    ensures Step(f, s, Select(i)).sel.ids == [s.rows[i]]
    ensures forall x :: x in Step(f, s, SelectAll).sel.ids <==> x in s.sel.ids || x in s.rows
  {
    PushAllGood(s.sel.ids, s.rows);
  }
}
