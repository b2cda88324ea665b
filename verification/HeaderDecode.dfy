// Decoding a table header: rows of colspan/rowspan cells are turned into the list
// of column fields by filling, cell by cell, the first free slot of the cell's row.

module HeaderDecode {
  import opened Common

  // A header cell; a span of 0 stands for an absent one.
  datatype Col = Col(field: string, colspan: nat, rowspan: nat)

  // A slot of the working table: undefined, or the field that covers it.
  type Slot = Option<string>

  function Span(n: nat): nat {
    if n == 0 then 1 else n
  }

  // ---------------------------------------------------------------- what the loops compute

  function Width(row: seq<Col>): nat {
    if row == [] then 0 else Span(row[0].colspan) + Width(row[1..])
  }

  // The position of the first free slot, or the length of the row.
  function FirstFree(row: seq<Slot>): (i: nat)
    ensures i <= |row|
    ensures i < |row| ==> row[i] == None
    ensures forall j :: 0 <= j < i ==> row[j] != None
  {
    if row == [] || row[0] == None then 0 else 1 + FirstFree(row[1..])
  }

  function Repeat(n: nat, x: Slot): (r: seq<Slot>)
    ensures |r| == n && forall i :: 0 <= i < n ==> r[i] == x
  {
    seq(n, i => x)
  }

  // The row with slots at .. at + n holding x; a JavaScript array grows as needed.
  function Fill(row: seq<Slot>, at: nat, n: nat, x: Slot): (r: seq<Slot>)
    ensures |r| == if n == 0 || at + n <= |row| then |row| else at + n
  {
    if n == 0 then row
    else (if at <= |row| then row[..at] else row + Repeat(at - |row|, None)) + Repeat(n, x)
         + if at + n <= |row| then row[at + n..] else []
  }

  // The table with one cell placed in row e, or None for a TypeError: the cell
  // reaches below the last row.
  function PlaceCell(aa: seq<seq<Slot>>, e: nat, col: Col): Option<seq<seq<Slot>>>
    requires e < |aa|
  {
    var at := FirstFree(aa[e]);
    if at == |aa[e]| then Some(aa)
    else if e + Span(col.rowspan) > |aa| then None
    else
      Some(seq(|aa|, k requires 0 <= k < |aa| =>
        if e <= k < e + Span(col.rowspan) then Fill(aa[k], at, Span(col.colspan), Some(col.field)) else aa[k]))
  }

  function PlaceCells(aa: seq<seq<Slot>>, e: nat, cols: seq<Col>): (r: Option<seq<seq<Slot>>>)
    requires e < |aa|
    ensures r.Some? ==> |r.value| == |aa|
  {
    if cols == [] then Some(aa)
    else
      var before := PlaceCells(aa, e, cols[..|cols| - 1]);
      if before == None then None else PlaceCell(before.value, e, cols[|cols| - 1])
  }

  function PlaceRows(aa: seq<seq<Slot>>, columns: seq<seq<Col>>, n: nat): (r: Option<seq<seq<Slot>>>)
    requires n <= |columns| == |aa|
    ensures r.Some? ==> |r.value| == |aa|
  {
    if n == 0 then Some(aa)
    else
      var before := PlaceRows(aa, columns, n - 1);
      if before == None then None else PlaceCells(before.value, n - 1, columns[n - 1])
  }

  function Blank(columns: seq<seq<Col>>): (aa: seq<seq<Slot>>)
    requires columns != []
    ensures |aa| == |columns|
  {
    seq(|columns|, i => Repeat(Width(columns[0]), None))
  }

  // The last row of the filled table, or None for a TypeError.
  function Decoded(columns: seq<seq<Col>>): Option<seq<Slot>> {
    if columns == [] then Some([])
    else
      var aa := PlaceRows(Blank(columns), columns, |columns|);
      if aa == None then None else Some(aa.value[|columns| - 1])
  }

  // ---------------------------------------------------------------- what a cell covers

  lemma FillPlaces(row: seq<Slot>, at: nat, n: nat, x: Slot, i: nat)
    requires i < |Fill(row, at, n, x)|
    ensures Fill(row, at, n, x)[i] == if at <= i < at + n then x else if i < |row| then row[i] else None
  {
  }

  // A cell whose row has no free slot is dropped. Otherwise it covers the rectangle of
  // its spans from the first free slot on, and no slot besides changes; a row it leaves
  // grows. It is a TypeError that there are not rows enough.
  lemma PlaceCovers(aa: seq<seq<Slot>>, e: nat, col: Col, at: nat)
    requires e < |aa| && at <= |aa[e]| && (forall i :: 0 <= i < at ==> aa[e][i] != None)
    requires at < |aa[e]| ==> aa[e][at] == None
    ensures var r := PlaceCell(aa, e, col);
      && (at == |aa[e]| ==> r == Some(aa))
      && (at < |aa[e]| ==> (r == None <==> e + Span(col.rowspan) > |aa|))
      && (at < |aa[e]| && r.Some? ==>
            && |r.value| == |aa|
            && forall k :: 0 <= k < |aa| ==> Covered(aa[k], r.value[k], e <= k < e + Span(col.rowspan), at, col))
  {
    hide Fill;
    var i := FirstFree(aa[e]);
    assert i == at by {
      assert !(i < at) && !(at < i);
    }
    var r := PlaceCell(aa, e, col);
    if at < |aa[e]| && r.Some? {
      forall k | 0 <= k < |aa|
        ensures Covered(aa[k], r.value[k], e <= k < e + Span(col.rowspan), at, col)
      {
        if e <= k < e + Span(col.rowspan) {
          FillCovers(aa[k], at, col);
        }
      }
    }
  }

  // What a row holds once a cell that reaches it, or does not, is placed.
  ghost predicate Covered(row: seq<Slot>, now: seq<Slot>, reaches: bool, at: nat, col: Col) {
    var end := at + Span(col.colspan);
    if !reaches then now == row
    else
      && |now| == (if end <= |row| then |row| else end)
      && forall i :: 0 <= i < |now| ==>
           now[i] == if at <= i < end then Some(col.field) else if i < |row| then row[i] else None
  }

  lemma FillCovers(row: seq<Slot>, at: nat, col: Col)
    ensures Covered(row, Fill(row, at, Span(col.colspan), Some(col.field)), true, at, col)
  {
    hide Fill;
    var now := Fill(row, at, Span(col.colspan), Some(col.field));
    forall i | 0 <= i < |now|
      ensures now[i] == if at <= i < at + Span(col.colspan) then Some(col.field) else if i < |row| then row[i] else None
    {
      FillPlaces(row, at, Span(col.colspan), Some(col.field), i);
    }
  }

  // ---------------------------------------------------------------- which headers fail

  // With the cells before it placed, cell i of row e has a free slot in its row and
  // reaches below the last row.
  ghost predicate Overruns(columns: seq<seq<Col>>, e: nat, i: nat)
    requires e < |columns| && i < |columns[e]|
  {
    var before := PlaceRows(Blank(columns), columns, e);
    && before.Some?
    && var aa := PlaceCells(before.value, e, columns[e][..i]);
    && aa.Some? && None in aa.value[e] && e + Span(columns[e][i].rowspan) > |columns|
  }

  lemma {:induction false} CellsFailAt(aa: seq<seq<Slot>>, e: nat, cols: seq<Col>) returns (i: nat)
    requires e < |aa| && PlaceCells(aa, e, cols) == None
    ensures i < |cols|
    ensures var b := PlaceCells(aa, e, cols[..i]);
      b.Some? && None in b.value[e] && e + Span(cols[i].rowspan) > |aa|
    decreases |cols|
  {
    var n := |cols| - 1;
    if PlaceCells(aa, e, cols[..n]) == None {
      i := CellsFailAt(aa, e, cols[..n]);
      assert cols[..n][..i] == cols[..i];
    } else {
      i := n;
    }
  }

  lemma {:induction false} RowsFailAt(columns: seq<seq<Col>>, n: nat) returns (e: nat, i: nat)
    requires columns != [] && n <= |columns| && PlaceRows(Blank(columns), columns, n) == None
    ensures e < n && i < |columns[e]| && Overruns(columns, e, i)
  {
    var before := PlaceRows(Blank(columns), columns, n - 1);
    if before == None {
      e, i := RowsFailAt(columns, n - 1);
    } else {
      i := CellsFailAt(before.value, n - 1, columns[n - 1]);
      e := n - 1;
    }
  }

  lemma OverrunFails(columns: seq<seq<Col>>, e: nat, i: nat)
    requires e < |columns| && i < |columns[e]| && Overruns(columns, e, i)
    ensures Decoded(columns) == None
  {
    hide Fill, Blank;
    var aa := PlaceRows(Blank(columns), columns, e).value;
    assert columns[e][..i + 1][..i] == columns[e][..i];
    PlaceFails(aa, e, columns[e], i + 1);
    RowsFail(Blank(columns), columns, e + 1, |columns|);
  }

  // Decoding is a TypeError exactly when some cell, met while its row has a free slot,
  // reaches below the last row.
  lemma FailsIff(columns: seq<seq<Col>>)
    ensures Decoded(columns) == None <==>
      exists e, i :: 0 <= e < |columns| && 0 <= i < |columns[e]| && Overruns(columns, e, i)
  {
    hide Overruns;
    if Decoded(columns) == None {
      var e, i := RowsFailAt(columns, |columns|);
    } else {
      forall e, i | 0 <= e < |columns| && 0 <= i < |columns[e]|
        ensures !Overruns(columns, e, i)
      {
        if Overruns(columns, e, i) {
          OverrunFails(columns, e, i);
        }
      }
    }
  }

  // ---------------------------------------------------------------- the loops

  method FindFree(a: seq<Slot>) returns (i: int)
    ensures i == if FirstFree(a) == |a| then -1 else FirstFree(a)
  {
    for k := 0 to |a|
      invariant k <= FirstFree(a)
    {
      if a[k] == None {
        return k;
      }
    }
    return -1;
  }

  method TotalWidth(row: seq<Col>) returns (w: nat)
    ensures w == Width(row)
  {
    w := 0;
    for i := 0 to |row|
      invariant w + Width(row[i..]) == Width(row)
    {
      w := w + if row[i].colspan == 0 then 1 else row[i].colspan;
    }
  }

  // Row k after rows e .. e + rows have been filled.
  function Striped(row: seq<Slot>, k: nat, e: nat, rows: nat, at: nat, n: nat, x: Slot): seq<Slot> {
    if e <= k < e + rows then Fill(row, at, n, x) else row
  }

  lemma StripedGrows(row: seq<Slot>, k: nat, e: nat, rows: nat, at: nat, n: nat, x: Slot)
    ensures Striped(row, k, e, rows, at, 0, x) == row
    ensures Striped(Striped(row, k, e, rows, at, n, x), k, e, rows, at + n, 1, x)
         == Striped(row, k, e, rows, at, n + 1, x)
  {
  }

  // Write one column of a cell down its rows; false is a TypeError.
  method WriteColumn(aa: array<seq<Slot>>, e: nat, rows: nat, at: nat, field: string) returns (ok: bool)
    requires e < aa.Length
    modifies aa
    ensures ok <==> e + rows <= aa.Length
    ensures ok ==> forall k :: 0 <= k < aa.Length ==> aa[k] == Striped(old(aa[k]), k, e, rows, at, 1, Some(field))
  {
    for r := 0 to rows
      invariant e + r <= aa.Length
      invariant forall k :: 0 <= k < aa.Length ==> aa[k] == Striped(old(aa[k]), k, e, r, at, 1, Some(field))
    {
      if e + r >= aa.Length {
        return false;
      }
      aa[e + r] := Fill(aa[e + r], at, 1, Some(field));
    }
    return true;
  }

  // Write one cell from slot at on, column by column.
  method WriteCell(aa: array<seq<Slot>>, e: nat, col: Col, at: nat) returns (ok: bool)
    requires e < aa.Length
    modifies aa
    ensures ok <==> e + Span(col.rowspan) <= aa.Length
    ensures ok ==> forall k :: 0 <= k < aa.Length ==>
      aa[k] == Striped(old(aa[k]), k, e, Span(col.rowspan), at, Span(col.colspan), Some(col.field))
  {
    hide Striped;
    var rows := if col.rowspan == 0 then 1 else col.rowspan;
    var cols := if col.colspan == 0 then 1 else col.colspan;
    ghost var x, was := Some(col.field), aa[..];
    var slot := at;
    forall k | 0 <= k < aa.Length
      ensures aa[k] == Striped(was[k], k, e, rows, at, 0, x)
    {
      StripedGrows(was[k], k, e, rows, at, 0, x);
    }
    for c := 0 to cols
      invariant slot == at + c
      invariant c > 0 ==> e + rows <= aa.Length
      invariant forall k :: 0 <= k < aa.Length ==> aa[k] == Striped(was[k], k, e, rows, at, c, x)
    {
      ok := WriteColumn(aa, e, rows, slot, col.field);
      if !ok {
        return;
      }
      forall k | 0 <= k < aa.Length
        ensures aa[k] == Striped(was[k], k, e, rows, at, c + 1, x)
      {
        StripedGrows(was[k], k, e, rows, at, c, x);
      }
      slot := slot + 1;
    }
    return true;
  }

  // Place the cells of row e in the first free slots.
  method WriteRow(aa: array<seq<Slot>>, e: nat, cols: seq<Col>) returns (ok: bool)
    requires e < aa.Length
    modifies aa
    ensures ok <==> PlaceCells(old(aa[..]), e, cols).Some?
    ensures ok ==> PlaceCells(old(aa[..]), e, cols) == Some(aa[..])
  {
    ghost var was := aa[..];
    for i := 0 to |cols|
      invariant PlaceCells(was, e, cols[..i]) == Some(aa[..])
    {
      assert cols[..i + 1][..i] == cols[..i];
      ghost var now := aa[..];
      var at := FindFree(aa[e]);
      if at >= 0 {
        ok := WriteCell(aa, e, cols[i], at);
        if !ok {
          PlaceFails(was, e, cols, i + 1);
          return;
        }
        assert PlaceCell(now, e, cols[i]).value == aa[..];
      }
    }
    assert cols[..|cols|] == cols;
    return true;
  }

  lemma {:induction false} PlaceFails(aa: seq<seq<Slot>>, e: nat, cols: seq<Col>, i: nat)
    requires e < |aa| && i <= |cols| && PlaceCells(aa, e, cols[..i]) == None
    ensures PlaceCells(aa, e, cols) == None
    decreases |cols| - i
  {
    if i < |cols| {
      assert cols[..i + 1][..i] == cols[..i];
      PlaceFails(aa, e, cols, i + 1);
    } else {
      assert cols[..i] == cols;
    }
  }

  lemma {:induction false} RowsFail(aa: seq<seq<Slot>>, columns: seq<seq<Col>>, n: nat, m: nat)
    requires n <= m <= |columns| == |aa| && PlaceRows(aa, columns, n) == None
    ensures PlaceRows(aa, columns, m) == None
    decreases m - n
  {
    if n < m {
      RowsFail(aa, columns, n + 1, m);
    }
  }

  // The column fields of a header; None is a TypeError.
  method ColumnFields(columns: seq<seq<Col>>) returns (r: Option<seq<Slot>>)
    ensures r == Decoded(columns)
  {
    if |columns| == 0 {
      return Some([]);
    }
    var width := TotalWidth(columns[0]);
    var aa := new seq<Slot>[|columns|](i => Repeat(width, None));
    assert aa[..] == Blank(columns);
    for e := 0 to |columns|
      invariant PlaceRows(Blank(columns), columns, e) == Some(aa[..])
    {
      var ok := WriteRow(aa, e, columns[e]);
      if !ok {
        RowsFail(Blank(columns), columns, e + 1, |columns|);
        return None;
      }
    }
    return Some(aa[aa.Length - 1]);
  }
}
