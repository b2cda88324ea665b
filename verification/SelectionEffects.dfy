// What each operation does to the ids selected and to the ids checked. The marks on
// the page follow from them after every run.

module SelectionEffects {
  import opened Common
  import opened Selection
  import opened SelectionRuns

  // An id chosen: alone, or after those chosen before.
  ghost predicate Chooses(alone: bool, ids: seq<int>, id: int, now: seq<int>) {
    now == if alone then [id] else if id in ids then ids else ids + [id]
  }

  // All ids of a page chosen as well, in order.
  ghost predicate ChoosesAll(ids: seq<int>, rows: seq<int>, now: seq<int>) {
    now == ids + Others(rows, ids)
  }

  lemma SelectChooses(f: Flags, s: State, i: nat)
    requires Fits(s) && i < |s.rows|
    ensures var t := Step(f, s, Select(i));
      && t.rows == s.rows
      && Chooses(f.singleSelect, s.sel.ids, s.rows[i], t.sel.ids)
      && (f.checkOnSelect ==> Chooses(f.singleSelect && f.selectOnCheck, s.chk.ids, s.rows[i], t.chk.ids))
      && (!f.checkOnSelect ==> t.chk == s.chk)
  {
  }

  lemma CheckChooses(f: Flags, s: State, i: nat)
    requires Fits(s) && i < |s.rows|
    ensures var t := Step(f, s, Check(i));
      && t.rows == s.rows
      && Chooses(f.singleSelect && f.selectOnCheck, s.chk.ids, s.rows[i], t.chk.ids)
      && (f.selectOnCheck ==> Chooses(f.singleSelect, s.sel.ids, s.rows[i], t.sel.ids))
      && (!f.selectOnCheck ==> t.sel == s.sel)
  {
  }

  lemma RemoveIsOthers(ids: seq<int>, id: int)
    requires Distinct(ids)
    ensures Remove(ids, id) == Others(ids, [id])
  {
    RemoveAllIs(ids, [id]);
    assert [id][..0] == [];
    assert RemoveAll(ids, [id]) == Remove(RemoveAll(ids, []), id);
  }

  lemma UnselectDrops(f: Flags, s: State, i: nat)
    requires Consistent(s) && i < |s.rows|
    ensures var t := Step(f, s, Unselect(i));
      && t.rows == s.rows
      && t.sel.ids == Others(s.sel.ids, [s.rows[i]])
      && (f.checkOnSelect ==> t.chk.ids == Others(s.chk.ids, [s.rows[i]]))
      && (!f.checkOnSelect ==> t.chk == s.chk)
  {
    RemoveIsOthers(s.sel.ids, s.rows[i]);
    RemoveIsOthers(s.chk.ids, s.rows[i]);
  }

  lemma UncheckDrops(f: Flags, s: State, i: nat)
    requires Consistent(s) && i < |s.rows|
    ensures var t := Step(f, s, Uncheck(i));
      && t.rows == s.rows
      && t.chk.ids == Others(s.chk.ids, [s.rows[i]])
      && (f.selectOnCheck ==> t.sel.ids == Others(s.sel.ids, [s.rows[i]]))
      && (!f.selectOnCheck ==> t.sel == s.sel)
  {
    RemoveIsOthers(s.sel.ids, s.rows[i]);
    RemoveIsOthers(s.chk.ids, s.rows[i]);
  }

  lemma {:induction false} PushAllExtends(ids: seq<int>, rows: seq<int>)
    requires Distinct(ids) && Distinct(rows)
    ensures ChoosesAll(ids, rows, PushAll(ids, rows))
  {
    if rows != [] {
      var before, last := rows[..|rows| - 1], rows[|rows| - 1];
      PushAllExtends(ids, before);
      PushAllHas(ids, before, last);
      assert rows == before + [last];
      OthersSnoc(before, last, ids);
      Reassociated(ids, Others(before, ids), [last]);
    }
  }

  lemma {:induction false} OthersSnoc(rows: seq<int>, x: int, ids: seq<int>)
    ensures Others(rows + [x], ids) == Others(rows, ids) + if x in ids then [] else [x]
  {
    if rows == [] {
      assert [x][1..] == [];
    } else {
      assert (rows + [x])[1..] == rows[1..] + [x];
      OthersSnoc(rows[1..], x, ids);
    }
  }

  // Selecting or checking the whole page.
  lemma AllChooses(f: Flags, s: State)
    requires Consistent(s)
    ensures var t := Step(f, s, SelectAll);
      && t.rows == s.rows && ChoosesAll(s.sel.ids, s.rows, t.sel.ids)
      && (f.checkOnSelect ==> ChoosesAll(s.chk.ids, s.rows, t.chk.ids))
      && (!f.checkOnSelect ==> t.chk == s.chk)
    ensures var t := Step(f, s, CheckAll);
      && t.rows == s.rows && ChoosesAll(s.chk.ids, s.rows, t.chk.ids)
      && (f.selectOnCheck ==> ChoosesAll(s.sel.ids, s.rows, t.sel.ids))
      && (!f.selectOnCheck ==> t.sel == s.sel)
  {
    PushAllExtends(s.sel.ids, s.rows);
    PushAllExtends(s.chk.ids, s.rows);
  }

  // Unselecting or unchecking the whole page keeps what is chosen on other pages.
  lemma AllDrops(f: Flags, s: State)
    requires Consistent(s)
    ensures var t := Step(f, s, UnselectAll);
      && t.rows == s.rows && t.sel.ids == Others(s.sel.ids, s.rows)
      && (f.checkOnSelect ==> t.chk.ids == Others(s.chk.ids, s.rows))
      && (!f.checkOnSelect ==> t.chk == s.chk)
    ensures var t := Step(f, s, UncheckAll);
      && t.rows == s.rows && t.chk.ids == Others(s.chk.ids, s.rows)
      && (f.selectOnCheck ==> t.sel.ids == Others(s.sel.ids, s.rows))
      && (!f.selectOnCheck ==> t.sel == s.sel)
  {
    RemoveAllIs(s.sel.ids, s.rows);
    RemoveAllIs(s.chk.ids, s.rows);
  }

  // Clearing forgets every page.
  lemma ClearForgets(f: Flags, s: State)
    requires Consistent(s)
    ensures var t := Step(f, s, ClearSelections);
      && t.rows == s.rows && t.sel.ids == []
      && (f.checkOnSelect ==> t.chk.ids == []) && (!f.checkOnSelect ==> t.chk == s.chk)
    ensures var t := Step(f, s, ClearChecked);
      && t.rows == s.rows && t.chk.ids == []
      && (f.selectOnCheck ==> t.sel.ids == []) && (!f.selectOnCheck ==> t.sel == s.sel)
  {
  }

  lemma DeleteDrops(f: Flags, s: State, i: nat)
    requires Consistent(s) && i < |s.rows|
    ensures var t := Step(f, s, Delete(i));
      && t.rows == s.rows[..i] + s.rows[i + 1..]
      && t.sel.ids == Others(s.sel.ids, [s.rows[i]]) && t.chk.ids == Others(s.chk.ids, [s.rows[i]])
  {
    RemoveIsOthers(s.sel.ids, s.rows[i]);
    RemoveIsOthers(s.chk.ids, s.rows[i]);
  }

  // ---------------------------------------------------------------- a new page

  // The ids chosen once the first n rows of a page have been met: as before, but if
  // only one may be chosen, the first row met that was.
  ghost predicate Met(alone: bool, ids: seq<int>, rows: seq<int>, n: nat, now: seq<int>) {
    && n <= |rows|
    && (!alone ==> now == ids)
    && (alone && (forall k :: 0 <= k < n ==> rows[k] !in ids) ==> now == ids)
    && (alone ==> forall k ::
          0 <= k < n && rows[k] in ids && (forall j :: 0 <= j < k ==> rows[j] !in ids) ==> now == [rows[k]])
  }

  lemma MeetOne(alone: bool, ids: seq<int>, rows: seq<int>, n: nat, now: seq<int>, next: seq<int>)
    requires Distinct(rows) && n < |rows| && Met(alone, ids, rows, n, now)
    requires if rows[n] in now then Chooses(alone, now, rows[n], next) else next == now
    ensures Met(alone, ids, rows, n + 1, next)
  {
    if alone && exists k :: 0 <= k < n && rows[k] in ids {
      var k := FirstMet(ids, rows, n);
      assert now == [rows[k]] && rows[n] !in now;
    }
  }

  lemma FirstMet(ids: seq<int>, rows: seq<int>, n: nat) returns (k: nat)
    requires n <= |rows| && exists k :: 0 <= k < n && rows[k] in ids
    ensures k < n && rows[k] in ids && forall j :: 0 <= j < k ==> rows[j] !in ids
  {
    k := 0;
    while rows[k] !in ids
      invariant k < n && forall j :: 0 <= j < k ==> rows[j] !in ids
      invariant exists m :: k <= m < n && rows[m] in ids
      decreases n - k
    {
      k := k + 1;
    }
  }

  lemma RowRestored(f: Flags, s: State, i: nat)
    requires Fits(s) && i < |s.rows|
    ensures var t := RestoredRow(f, s, i);
      && (if s.rows[i] in s.sel.ids then Chooses(f.singleSelect, s.sel.ids, s.rows[i], t.sel.ids)
          else t.sel.ids == s.sel.ids)
      && (if s.rows[i] in s.chk.ids then Chooses(f.singleSelect && f.selectOnCheck, s.chk.ids, s.rows[i], t.chk.ids)
          else t.chk.ids == s.chk.ids)
  {
  }

  lemma {:induction false} RestoredMet(f: Flags, s: State, n: nat)
    requires Fits(s) && Distinct(s.rows) && n <= |s.rows|
    ensures var t := Restored(f, s, n);
      && Met(f.singleSelect, s.sel.ids, s.rows, n, t.sel.ids)
      && Met(f.singleSelect && f.selectOnCheck, s.chk.ids, s.rows, n, t.chk.ids)
  {
    hide Restored, RestoredRow, Met, Chooses;
    if n > 0 {
      RestoredMet(f, s, n - 1);
      var a := Restored(f, s, n - 1);
      RowRestored(f, a, n - 1);
      RestoredNext(f, s, n - 1);
      var t := Restored(f, s, n);
      MeetOne(f.singleSelect, s.sel.ids, s.rows, n - 1, a.sel.ids, t.sel.ids);
      MeetOne(f.singleSelect && f.selectOnCheck, s.chk.ids, s.rows, n - 1, a.chk.ids, t.chk.ids);
    } else {
      NoneMet(f, s);
    }
  }

  lemma RestoredNext(f: Flags, s: State, n: nat)
    requires Fits(s) && n < |s.rows|
    ensures Restored(f, s, n + 1) == RestoredRow(f, Restored(f, s, n), n)
  {
  }

  lemma NoneMet(f: Flags, s: State)
    requires Fits(s)
    ensures Restored(f, s, 0) == s
    ensures forall alone, ids :: Met(alone, ids, s.rows, 0, ids)
  {
  }

  // Loading a page keeps what is chosen, on it and on other pages; if only one row may
  // be chosen and the page has one that was, the first of those is.
  lemma LoadKeeps(f: Flags, s: State, rows: seq<int>)
    requires Consistent(s) && Distinct(rows)
    ensures var t := Step(f, s, Load(rows));
      && t.rows == rows
      && Met(f.singleSelect, s.sel.ids, rows, |rows|, t.sel.ids)
      && Met(f.singleSelect && f.selectOnCheck, s.chk.ids, rows, |rows|, t.chk.ids)
  {
    hide Restored, Met;
    var none := Same(|rows|, false);
    RestoredMet(f, State(rows, Marks(s.sel.ids, none), Marks(s.chk.ids, none)), |rows|);
  }

  // ---------------------------------------------------------------- taking changes back

  // The ids that are on a page, in the order they were chosen.
  ghost function OnPage(ids: seq<int>, rows: seq<int>): seq<int> {
    if ids == [] then []
    else
      var n := |ids| - 1;
      OnPage(ids[..n], rows) + if ids[n] in rows then [ids[n]] else []
  }

  lemma {:induction false} OnPageHas(ids: seq<int>, rows: seq<int>, x: int)
    ensures x in OnPage(ids, rows) <==> x in ids && x in rows
  {
    if ids != [] {
      var n := |ids| - 1;
      assert ids == ids[..n] + [ids[n]];
      OnPageHas(ids[..n], rows, x);
    }
  }

  function LastOf(ids: seq<int>): seq<int> {
    if ids == [] then [] else [ids[|ids| - 1]]
  }

  lemma {:induction false} ChosenAgain(single: bool, m: Marks, rows: seq<int>, ids: seq<int>)
    requires |m.on| == |rows| && m.ids == [] && Distinct(ids)
    ensures ChosenAll(single, m, rows, ids).ids == if single then LastOf(OnPage(ids, rows)) else OnPage(ids, rows)
  {
    if ids != [] {
      var n := |ids| - 1;
      ChosenAgain(single, m, rows, ids[..n]);
      OnPageHas(ids[..n], rows, ids[n]);
    }
  }

  lemma CheckedInner(f: Flags, s: State, i: nat)
    requires Fits(s) && i < |s.rows|
    ensures Checked(f, s, i, true) == s.(chk := Chosen(f.singleSelect && f.selectOnCheck, s.chk, s.rows, i))
  {
  }

  lemma {:induction false} RecheckedAll(f: Flags, s: State, ids: seq<int>)
    requires Fits(s)
    ensures Rechecked(f, s, ids) == s.(chk := ChosenAll(f.singleSelect && f.selectOnCheck, s.chk, s.rows, ids))
  {
    if ids != [] {
      RecheckedAll(f, s, ids[..|ids| - 1]);
      var a := Rechecked(f, s, ids[..|ids| - 1]);
      var i := RowIndex(a.rows, ids[|ids| - 1]);
      if i < |a.rows| {
        CheckedInner(f, a, i);
      }
    }
  }

  // Taking changes back keeps, of what was chosen, only what is on the page.
  lemma RejectKeepsPage(f: Flags, s: State, rows: seq<int>)
    requires Consistent(s) && Distinct(rows)
    ensures var t := Step(f, s, Reject(rows));
      && t.rows == rows
      && t.sel.ids == (if f.singleSelect then LastOf(OnPage(s.sel.ids, rows)) else OnPage(s.sel.ids, rows))
      && t.chk.ids == (if f.singleSelect && f.selectOnCheck then LastOf(OnPage(s.chk.ids, rows))
                       else OnPage(s.chk.ids, rows))
  {
    hide Restored, Reselected, Rechecked, ChosenAll;
    var none := Marks([], Same(|rows|, false));
    var a := State(rows, none, none);
    RestoredEmpty(f, a, |rows|);
    ReselectedIs(f, a, s.sel.ids);
    RecheckedAll(f, Reselected(f, a, s.sel.ids), s.chk.ids);
    ChosenAgain(f.singleSelect, none, rows, s.sel.ids);
    ChosenAgain(f.singleSelect && f.selectOnCheck, none, rows, s.chk.ids);
  }

  lemma {:induction false} OnPageAll(ids: seq<int>, rows: seq<int>)
    ensures |OnPage(ids, rows)| <= |ids|
    ensures OnPage(ids, rows) == ids <==> forall x :: x in ids ==> x in rows
  {
    if ids != [] {
      var n := |ids| - 1;
      assert ids == ids[..n] + [ids[n]];
      OnPageAll(ids[..n], rows);
      assert forall x :: x in ids <==> x in ids[..n] || x == ids[n];
      if ids[n] in rows && OnPage(ids, rows) == ids {
        assert OnPage(ids, rows)[..|OnPage(ids[..n], rows)|] == OnPage(ids[..n], rows);
      }
    }
  }

  // So where several rows may be chosen, all of them stay chosen exactly when all are
  // on the page.
  lemma RejectKeepsAllIff(f: Flags, s: State, rows: seq<int>)
    requires Consistent(s) && Distinct(rows) && !f.singleSelect
    ensures var t := Step(f, s, Reject(rows));
      && (t.sel.ids == s.sel.ids <==> forall x :: x in s.sel.ids ==> x in rows)
      && (t.chk.ids == s.chk.ids <==> forall x :: x in s.chk.ids ==> x in rows)
  {
    hide Step, Consistent;
    RejectKeepsPage(f, s, rows);
    OnPageAll(s.sel.ids, rows);
    OnPageAll(s.chk.ids, rows);
  }
}
