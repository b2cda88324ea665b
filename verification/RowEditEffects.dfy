// What each edit of a grid's rows does to the rows, their values and the lists.

module RowEditEffects {
  import opened Common
  import opened RowEdits
  import opened RowEditRuns

  // Everything but the values, the editors and the updated list is as it was.
  ghost predicate SameRows(s: State, t: State) {
    && t.rows == s.rows && t.total == s.total && t.inserted == s.inserted && t.deleted == s.deleted
    && t.original == s.original && t.next == s.next
  }

  // The row holds what was typed over what it had.
  ghost predicate TypedOver(had: Value, typed: Value, now: Value) {
    && (forall f :: f in typed ==> f in now && now[f] == typed[f])
    && (forall f :: f !in typed ==> (f in now <==> f in had) && (f in had ==> now[f] == had[f]))
  }

  // Some field was typed that the row did not have so.
  ghost predicate Differs(had: Value, typed: Value) {
    exists f :: f in typed && (f !in had || had[f] != typed[f])
  }

  lemma MergeIs(had: Value, typed: Value)
    ensures TypedOver(had, typed, had + typed)
    ensures had + typed != had <==> Differs(had, typed)
  {
    if !Differs(had, typed) {
      assert had + typed == had;
    } else {
      var f :| f in typed && (f !in had || had[f] != typed[f]);
      assert f in had + typed && (had + typed)[f] == typed[f];
    }
  }

  ghost predicate OthersEdited(s: State, t: State, row: nat) {
    forall o :: o != row ==>
      && (o in t.editors <==> o in s.editors)
      && (o in s.editors ==> t.editors[o] == s.editors[o])
      && Fields(t.vals, o) == Fields(s.vals, o)
  }

  // Ending an edit whose editors are valid stores what was typed, closes them, and
  // lists the row as updated just if it changed and is neither inserted nor listed.
  lemma EndEditWrites(s: State, i: nat)
    requires i < |s.rows| && s.rows[i] in s.editors && s.editors[s.rows[i]].valid
    ensures var row := s.rows[i]; var typed := s.editors[row].fields; var t := Step(s, EndEdit(i));
      && TypedOver(Fields(s.vals, row), typed, Fields(t.vals, row))
      && row !in t.editors && OthersEdited(s, t, row) && SameRows(s, t)
      && t.updated == s.updated +
           if Differs(Fields(s.vals, row), typed) && row !in s.inserted && row !in s.updated then [row] else []
  {
    MergeIs(Fields(s.vals, s.rows[i]), s.editors[s.rows[i]].fields);
  }

  // Otherwise nothing happens.
  lemma EndEditRefused(s: State, i: nat)
    requires i < |s.rows| && (s.rows[i] in s.editors ==> !s.editors[s.rows[i]].valid)
    ensures Step(s, EndEdit(i)) == s
  {
  }

  // Cancelling closes the editors and stores nothing.
  lemma CancelEditDrops(s: State, i: nat)
    requires i < |s.rows|
    ensures var t := Step(s, CancelEdit(i));
      && t.vals == s.vals && t.updated == s.updated && s.rows[i] !in t.editors
      && OthersEdited(s, t, s.rows[i]) && SameRows(s, t)
  {
  }

  // Beginning to edit, typing and ending stores what was typed, whatever was there.
  lemma TypedIsStored(s: State, i: nat, first: bool, typed: Value)
    requires i < |s.rows|
    ensures var a := Step(s, BeginEdit(i, first));
      && Enabled(a, Enter(i, typed, true))
      && var b := Step(a, Enter(i, typed, true));
      && i < |b.rows| && b.rows[i] == s.rows[i]
      && var t := Step(b, EndEdit(i));
      && TypedOver(Fields(s.vals, s.rows[i]), typed, Fields(t.vals, s.rows[i]))
      && s.rows[i] !in t.editors && SameRows(s, t)
      && (s.rows[i] in t.updated <==>
            s.rows[i] in s.updated || (Differs(Fields(s.vals, s.rows[i]), typed) && s.rows[i] !in s.inserted))
  {
    EndEditWrites(Step(Step(s, BeginEdit(i, first)), Enter(i, typed, true)), i);
  }

  // The editors open with the row's own values: ending at once changes nothing.
  lemma OpenedUnchanged(s: State, i: nat)
    requires i < |s.rows| && s.rows[i] !in s.editors
    ensures var a := Step(s, BeginEdit(i, true));
      && i < |a.rows| && s.rows[i] in a.editors && a.editors[s.rows[i]].fields == Fields(s.vals, s.rows[i])
      && var t := Step(a, EndEdit(i));
      && (forall o :: Fields(t.vals, o) == Fields(s.vals, o)) && t.updated == s.updated && SameRows(s, t)
  {
    var a := Step(s, BeginEdit(i, true));
    EndEditWrites(a, i);
    var had := Fields(s.vals, s.rows[i]);
    assert had + had == had;
  }

  // An editor that is open already is left as it is.
  lemma OpenOnce(s: State, i: nat, valid: bool)
    requires i < |s.rows| && s.rows[i] in s.editors
    ensures Step(s, BeginEdit(i, valid)) == s
  {
  }

  // Where a row is inserted.
  ghost predicate InsertPlace(s: State, at: nat, k: nat) {
    k <= |s.rows| && (at <= |s.rows| ==> k == at) && (at > |s.rows| ==> k == |s.rows|)
  }

  // An inserted row is a new one at its place, with its values, and counted.
  lemma InsertPuts(s: State, base: seq<nat>, at: nat, value: Value, k: nat)
    requires Known(s, base) && InsertPlace(s, at, k)
    ensures var t := Step(s, Insert(at, value));
      && |t.rows| == |s.rows| + 1 && t.rows[k] !in s.rows
      && t.rows == s.rows[..k] + [t.rows[k]] + s.rows[k..]
      && Fields(t.vals, t.rows[k]) == value && (forall o :: o in s.rows ==> Fields(t.vals, o) == Fields(s.vals, o))
      && t.inserted == s.inserted + [t.rows[k]] && t.total == s.total + 1
      && t.deleted == s.deleted && t.updated == s.updated && t.editors == s.editors && t.original == s.original
    ensures at == |s.rows| ==> Step(s, Append(value)) == Step(s, Insert(at, value))
  {
  }

  // A deleted row leaves its place; it is listed as deleted unless it was inserted,
  // and leaves the inserted list then.
  lemma DeleteTakes(s: State, base: seq<nat>, count: int, i: nat)
    requires Tracked(s, base, count) && i < |s.rows|
    ensures var row := s.rows[i]; var t := Step(s, Delete(i));
      && t.rows == s.rows[..i] + s.rows[i + 1..] && t.total == s.total - 1
      && t.vals == s.vals && t.updated == s.updated && t.original == s.original && row !in t.editors
      && OthersEdited(s, t, row)
      && t.inserted == Kept(s.inserted, {row})
      && t.deleted == s.deleted + if row in s.inserted then [] else [row]
  {
    RemoveKept(s.inserted, s.rows[i]);
  }

  // ---------------------------------------------------------------- accepting

  ghost predicate Fails(s: State, row: nat) {
    row in s.editors && !s.editors[row].valid
  }

  // The first n rows are stored, the others as they were.
  ghost predicate StoredTo(s: State, t: State, n: nat) {
    && n <= |s.rows| && SameRows(s, t)
    && (forall o :: o in s.rows[..n] ==>
          && (o in t.editors <==> Fails(s, o))
          && (o in s.editors && !Fails(s, o) ==>
                TypedOver(Fields(s.vals, o), s.editors[o].fields, Fields(t.vals, o)))
          && (o !in s.editors || Fails(s, o) ==> Fields(t.vals, o) == Fields(s.vals, o)))
    && (forall o :: o !in s.rows[..n] ==>
          (o in t.editors <==> o in s.editors) && Fields(t.vals, o) == Fields(s.vals, o))
    && (forall o :: o in t.editors ==> o in s.editors && t.editors[o] == s.editors[o])
  }

  // One row stored, or left with its invalid editors, the others untouched.
  ghost predicate OneStored(t: State, u: State, row: nat) {
    && SameRows(t, u) && OthersEdited(t, u, row)
    && (row in u.editors <==> Fails(t, row)) && (row in u.editors ==> u.editors[row] == t.editors[row])
    && (row in t.editors && !Fails(t, row) ==>
          TypedOver(Fields(t.vals, row), t.editors[row].fields, Fields(u.vals, row)))
    && (row !in t.editors || Fails(t, row) ==> Fields(u.vals, row) == Fields(t.vals, row))
  }

  lemma CommitStores(t: State, n: nat)
    requires n < |t.rows|
    ensures OneStored(t, Commit(t, t.rows[n]), t.rows[n])
  {
    hide TypedOver, Differs;
    if t.rows[n] in t.editors && t.editors[t.rows[n]].valid {
      EndEditWrites(t, n);
    } else {
      EndEditRefused(t, n);
    }
  }

  lemma NotBefore(rows: seq<nat>, n: nat)
    requires Distinct(rows) && n < |rows|
    ensures rows[n] !in rows[..n] && forall o :: o in rows[..n + 1] <==> o in rows[..n] || o == rows[n]
  {
    assert rows[..n + 1] == rows[..n] + [rows[n]];
  }

  lemma StoreOne(s: State, t: State, n: nat)
    requires Distinct(s.rows) && n < |s.rows| && StoredTo(s, t, n)
    ensures StoredTo(s, Commit(t, s.rows[n]), n + 1)
  {
    hide Commit, TypedOver, Fields;
    NotBefore(s.rows, n);
    CommitStores(t, n);
  }

  lemma {:induction false} StoreAll(s: State, n: nat)
    requires Distinct(s.rows) && n <= |s.rows|
    ensures StoredTo(s, CommitRows(s, n), n)
  {
    hide Commit, StoredTo, TypedOver;
    if n == 0 {
      StoreNone(s);
    } else {
      StoreAll(s, n - 1);
      StoreOne(s, CommitRows(s, n - 1), n - 1);
    }
  }

  lemma StoreNone(s: State)
    ensures StoredTo(s, s, 0)
  {
    hide TypedOver, Fields;
  }

  lemma {:induction false} AllPassIs(s: State, n: nat)
    requires n <= |s.rows|
    ensures AllPass(s, n) <==> forall i :: 0 <= i < n ==> !Fails(s, s.rows[i])
  {
    if n > 0 {
      AllPassIs(s, n - 1);
    }
  }

  // Accepting stores every valid edit and keeps the invalid ones open. Only if there
  // is none of those, the changes are final: the lists are empty and the values
  // copied are the ones stored.
  lemma AcceptStores(s: State)
    requires Distinct(s.rows)
    ensures var t := Step(s, Accept); var some := exists i :: 0 <= i < |s.rows| && Fails(s, s.rows[i]);
      && t.rows == s.rows && t.total == s.total
      && (forall o :: o in s.rows ==>
            && (o in t.editors <==> Fails(s, o))
            && (o in s.editors && !Fails(s, o) ==>
                  TypedOver(Fields(s.vals, o), s.editors[o].fields, Fields(t.vals, o)))
            && (o !in s.editors || Fails(s, o) ==> Fields(t.vals, o) == Fields(s.vals, o)))
      && (some ==> t.inserted == s.inserted && t.deleted == s.deleted && t.original == s.original)
      && (!some ==>
            && t.inserted == [] && t.deleted == [] && t.updated == [] && |t.original| == |t.rows|
            && forall i :: 0 <= i < |t.rows| ==> t.original[i] == Fields(t.vals, t.rows[i]))
  {
    hide Commit, CommitRows, AllPass, TypedOver;
    StoreAll(s, |s.rows|);
    AllPassIs(s, |s.rows|);
    assert s.rows[..|s.rows|] == s.rows;
  }
}
