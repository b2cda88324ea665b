// Nested column headers written as rows of cells, and what decoding them gives.

module HeaderNested {
  import opened Common
  import opened HeaderDecode

  // A column, or a group of headers whose own cell is span rows high.
  datatype Header = Leaf(field: string) | Group(field: string, span: nat, kids: seq<Header>)

  ghost function Leaves(hs: seq<Header>): seq<string> {
    if hs == [] then []
    else (match hs[0] case Leaf(f) => [f] case Group(_, _, kids) => Leaves(kids)) + Leaves(hs[1..])
  }

  // Every group has kids and every column finds a row of its own above height.
  ghost predicate Fits(hs: seq<Header>, row: nat, height: nat) {
    hs != [] ==>
      && (hs[0].Leaf? ==> row < height)
      && (hs[0].Group? ==> hs[0].span >= 1 && hs[0].kids != [] && Fits(hs[0].kids, row + hs[0].span, height))
      && Fits(hs[1..], row, height)
  }

  // The cells, in row e, of headers that start at row: a group is as wide as its
  // columns, a column reaches down to the last row.
  ghost function Cells(hs: seq<Header>, row: nat, height: nat, e: nat): seq<Col>
    requires Fits(hs, row, height)
  {
    if hs == [] then []
    else
      (match hs[0]
       case Leaf(f) => if e == row then [Col(f, 1, height - row)] else []
       case Group(f, span, kids) =>
         if e == row then [Col(f, |Leaves(kids)|, span)]
         else if row + span <= e then Cells(kids, row + span, height, e) else [])
      + Cells(hs[1..], row, height, e)
  }

  ghost function Layout(hs: seq<Header>, height: nat): seq<seq<Col>>
    requires Fits(hs, 0, height)
  {
    seq(height, (e: nat) => Cells(hs, 0, height, e))
  }

  // Spans written out: an absent span is 1.
  function Written(col: Col): Col {
    Col(col.field, Span(col.colspan), Span(col.rowspan))
  }

  function Explicit(cols: seq<Col>): (r: seq<Col>)
    ensures |r| == |cols|
  {
    seq(|cols|, i requires 0 <= i < |cols| => Written(cols[i]))
  }

  // The rows are the layout of the headers, an absent span standing for 1.
  ghost predicate Lays(columns: seq<seq<Col>>, hs: seq<Header>, height: nat)
    requires Fits(hs, 0, height)
  {
    && |columns| == height
    && forall e :: 0 <= e < height ==> Explicit(columns[e]) == Layout(hs, height)[e]
  }

  // Row k of the area of headers that start at row, once all cells of the rows
  // before e have been placed.
  ghost function Area(hs: seq<Header>, row: nat, k: nat, e: nat): seq<Slot> {
    if hs == [] then []
    else
      (match hs[0]
       case Leaf(f) => [if row < e && row <= k then Some(f) else None]
       case Group(f, span, kids) =>
         if k < row || e <= row then Repeat(|Leaves(kids)|, None)
         else if k < row + span then Repeat(|Leaves(kids)|, Some(f))
         else Area(kids, row + span, k, e))
      + Area(hs[1..], row, k, e)
  }

  ghost predicate Filled(s: seq<Slot>) {
    forall i :: 0 <= i < |s| ==> s[i] != None
  }

  lemma {:induction false} AreaWidth(hs: seq<Header>, row: nat, k: nat, e: nat)
    ensures |Area(hs, row, k, e)| == |Leaves(hs)|
  {
    if hs != [] {
      if hs[0].Group? {
        AreaWidth(hs[0].kids, row + hs[0].span, k, e);
      }
      AreaWidth(hs[1..], row, k, e);
    }
  }

  // Nothing is placed before its row comes.
  lemma {:induction false} AreaBlank(hs: seq<Header>, row: nat, k: nat, e: nat)
    requires e <= row || k < row
    ensures Area(hs, row, k, e) == Repeat(|Leaves(hs)|, None)
  {
    if hs != [] {
      AreaBlank(hs[1..], row, k, e);
    }
  }

  // After its own cells have been placed, a row is full.
  lemma {:induction false} AreaFull(hs: seq<Header>, row: nat, k: nat)
    requires row <= k
    ensures Filled(Area(hs, row, k, k + 1))
  {
    if hs != [] {
      if hs[0].Group? && row + hs[0].span <= k {
        AreaFull(hs[0].kids, row + hs[0].span, k);
      }
      AreaFull(hs[1..], row, k);
    }
  }

  function Shown(fields: seq<string>): (r: seq<Slot>)
    ensures |r| == |fields|
  {
    seq(|fields|, i requires 0 <= i < |fields| => Some(fields[i]))
  }

  lemma ShownConcat(p: seq<string>, q: seq<string>)
    ensures Shown(p + q) == Shown(p) + Shown(q)
  {
  }

  // In the end the last row holds the columns left to right.
  lemma {:induction false} AreaLast(hs: seq<Header>, row: nat, height: nat)
    requires Fits(hs, row, height) && row < height
    ensures Area(hs, row, height - 1, height) == Shown(Leaves(hs))
  {
    if hs != [] {
      hide Area, Leaves, Shown;
      if hs[0].Group? {
        FitsBelow(hs[0].kids, row + hs[0].span, height);
        AreaLast(hs[0].kids, row + hs[0].span, height);
      }
      FirstLeaves(hs, row, height);
      FirstLast(hs[0], row, height);
      AreaLast(hs[1..], row, height);
      BothLast(hs, row, height, Leaves([hs[0]]), Leaves(hs[1..]));
    }
  }

  lemma FirstLast(h: Header, row: nat, height: nat)
    requires row < height && Fits([h], row, height)
    requires h.Group? ==> Area(h.kids, row + h.span, height - 1, height) == Shown(Leaves(h.kids))
    ensures Area([h], row, height - 1, height) == Shown(Leaves([h]))
  {
    if h.Group? {
      FitsBelow(h.kids, row + h.span, height);
      GroupArea(h, row, height - 1, height);
    } else {
      assert [h][1..] == [];
    }
  }

  lemma BothLast(hs: seq<Header>, row: nat, height: nat, p: seq<string>, q: seq<string>)
    requires hs != [] && row < height && Leaves(hs) == p + q
    requires Area([hs[0]], row, height - 1, height) == Shown(p)
    requires Area(hs[1..], row, height - 1, height) == Shown(q)
    ensures Area(hs, row, height - 1, height) == Shown(Leaves(hs))
  {
    FirstArea(hs, row, height - 1, height);
    ShownConcat(p, q);
  }

  lemma {:induction false} FitsBelow(hs: seq<Header>, row: nat, height: nat)
    requires Fits(hs, row, height) && hs != []
    ensures row < height && |Leaves(hs)| > 0
  {
    if hs[0].Group? {
      FitsBelow(hs[0].kids, row + hs[0].span, height);
    }
  }

  lemma FirstLeaves(hs: seq<Header>, row: nat, height: nat)
    requires hs != [] && Fits(hs, row, height)
    ensures Fits([hs[0]], row, height) && Fits(hs[1..], row, height)
    ensures Leaves(hs) == Leaves([hs[0]]) + Leaves(hs[1..])
  {
    assert [hs[0]][1..] == [];
  }

  lemma FirstCells(hs: seq<Header>, row: nat, height: nat, e: nat)
    requires hs != [] && Fits(hs, row, height)
    ensures Fits([hs[0]], row, height)
    ensures Cells(hs, row, height, e) == Cells([hs[0]], row, height, e) + Cells(hs[1..], row, height, e)
  {
    FirstLeaves(hs, row, height);
    assert [hs[0]][1..] == [];
  }

  lemma FirstArea(hs: seq<Header>, row: nat, k: nat, e: nat)
    requires hs != []
    ensures Area(hs, row, k, e) == Area([hs[0]], row, k, e) + Area(hs[1..], row, k, e)
  {
    assert [hs[0]][1..] == [];
  }

  // ---------------------------------------------------------------- placing a row of cells

  lemma {:induction false} PlaceConcat(aa: seq<seq<Slot>>, e: nat, p: seq<Col>, q: seq<Col>)
    requires e < |aa|
    ensures PlaceCells(aa, e, p + q) ==
      if PlaceCells(aa, e, p) == None then None else PlaceCells(PlaceCells(aa, e, p).value, e, q)
  {
    if q == [] {
      assert p + q == p;
    } else {
      assert (p + q)[..|p + q| - 1] == p + q[..|q| - 1];
      PlaceConcat(aa, e, p, q[..|q| - 1]);
    }
  }

  // Before each cell is placed, all slots it is about to cover are free.
  ghost predicate Clean(aa: seq<seq<Slot>>, e: nat, cols: seq<Col>)
    requires e < |aa|
    decreases |cols|
  {
    cols == [] ||
    (var before := cols[..|cols| - 1];
     Clean(aa, e, before) && PlaceCells(aa, e, before).Some?
     && FreeFor(PlaceCells(aa, e, before).value, e, cols[|cols| - 1]))
  }

  // The cell fits inside the table and covers only free slots.
  ghost predicate FreeFor(aa: seq<seq<Slot>>, e: nat, col: Col)
    requires e < |aa|
  {
    var at := FirstFree(aa[e]);
    && at < |aa[e]| && e + Span(col.rowspan) <= |aa|
    && forall k :: e <= k < e + Span(col.rowspan) ==>
         at + Span(col.colspan) <= |aa[k]| && aa[k][at..at + Span(col.colspan)] == Repeat(Span(col.colspan), None)
  }

  lemma {:induction false} CleanConcat(aa: seq<seq<Slot>>, e: nat, p: seq<Col>, q: seq<Col>)
    requires e < |aa| && Clean(aa, e, p) && PlaceCells(aa, e, p).Some? && Clean(PlaceCells(aa, e, p).value, e, q)
    ensures Clean(aa, e, p + q)
  {
    if q == [] {
      assert p + q == p;
    } else {
      assert (p + q)[..|p + q| - 1] == p + q[..|q| - 1];
      CleanConcat(aa, e, p, q[..|q| - 1]);
      PlaceConcat(aa, e, p, q[..|q| - 1]);
    }
  }

  // Row k holds, from slot a on, the area of hs with the rows before e placed.
  ghost predicate RowReady(s: seq<Slot>, hs: seq<Header>, row: nat, k: nat, e: nat, a: nat) {
    a + |Leaves(hs)| <= |s| && s[a..a + |Leaves(hs)|] == Area(hs, row, k, e)
  }

  // The row with that area brought forward by one row of cells.
  ghost function NextRow(s: seq<Slot>, hs: seq<Header>, row: nat, k: nat, e: nat, a: nat): seq<Slot>
    requires a + |Leaves(hs)| <= |s|
  {
    s[..a] + Area(hs, row, k, e + 1) + s[a + |Leaves(hs)|..]
  }

  // Rows e and below are ready for hs from slot a on; left of it row e is full.
  ghost predicate Ready(aa: seq<seq<Slot>>, hs: seq<Header>, row: nat, height: nat, e: nat, a: nat) {
    && |aa| == height && row <= e < height && Fits(hs, row, height)
    && (forall k :: e <= k < height ==> RowReady(aa[k], hs, row, k, e, a))
    && Filled(aa[e][..a])
  }

  ghost function Advanced(aa: seq<seq<Slot>>, hs: seq<Header>, row: nat, height: nat, e: nat, a: nat)
    : (r: seq<seq<Slot>>)
    requires Ready(aa, hs, row, height, e, a)
    ensures |r| == |aa|
  {
    seq(height, (k: nat) requires k < height =>
      if k < e then aa[k] else assert RowReady(aa[k], hs, row, k, e, a); NextRow(aa[k], hs, row, k, e, a))
  }

  lemma FirstFreeAt(s: seq<Slot>, a: nat)
    requires a < |s| && Filled(s[..a]) && s[a] == None
    ensures FirstFree(s) == a
  {
    assert forall j :: 0 <= j < a ==> s[..a][j] == s[j];
  }

  lemma OneCell(aa: seq<seq<Slot>>, e: nat, col: Col)
    requires e < |aa|
    ensures PlaceCells(aa, e, [col]) == PlaceCell(aa, e, col)
    ensures Clean(aa, e, [col]) <==> FreeFor(aa, e, col)
  {
    assert [col][..0] == [];
  }

  // The cell of a header that starts in row e.
  ghost function StartCell(h: Header, e: nat, height: nat): Col
    requires Fits([h], e, height)
  {
    match h
    case Leaf(f) => Col(f, 1, height - e)
    case Group(f, span, kids) => Col(f, |Leaves(kids)|, span)
  }

  lemma StartFacts(h: Header, e: nat, height: nat)
    requires Fits([h], e, height)
    ensures var col := StartCell(h, e, height);
      && Cells([h], e, height, e) == [col]
      && col.colspan == |Leaves([h])| >= 1 && col.rowspan >= 1 && e + col.rowspan <= height
  {
    assert [h][1..] == [];
    if h.Group? {
      FitsBelow(h.kids, e + h.span, height);
    }
  }

  lemma StartArea(h: Header, e: nat, height: nat, k: nat)
    requires Fits([h], e, height) && e <= k < height
    ensures var col := StartCell(h, e, height);
      && Area([h], e, k, e) == Repeat(|Leaves([h])|, None)
      && Area([h], e, k, e + 1) == Repeat(|Leaves([h])|, if k < e + col.rowspan then Some(col.field) else None)
  {
    assert [h][1..] == [];
    AreaBlank([h], e, k, e);
    if h.Group? && e + h.span <= k {
      AreaBlank(h.kids, e + h.span, k, e + 1);
    }
  }

  lemma StartIsFree(aa: seq<seq<Slot>>, h: Header, height: nat, e: nat, a: nat)
    requires Ready(aa, [h], e, height, e, a)
    ensures FirstFree(aa[e]) == a && FreeFor(aa, e, StartCell(h, e, height))
  {
    var w := |Leaves([h])|;
    StartFacts(h, e, height);
    forall k | e <= k < height
      ensures a + w <= |aa[k]| && aa[k][a..a + w] == Repeat(w, None)
    {
      assert RowReady(aa[k], [h], e, k, e, a);
      StartArea(h, e, height, k);
    }
    assert aa[e][a] == aa[e][a..a + w][0];
    FirstFreeAt(aa[e], a);
  }

  lemma StartRow(s: seq<Slot>, h: Header, e: nat, height: nat, k: nat, a: nat)
    requires Fits([h], e, height) && e <= k < height && RowReady(s, [h], e, k, e, a)
    ensures var col := StartCell(h, e, height);
      NextRow(s, [h], e, k, e, a) == if k < e + col.rowspan then Fill(s, a, col.colspan, Some(col.field)) else s
  {
    StartFacts(h, e, height);
    StartArea(h, e, height, k);
    var w := |Leaves([h])|;
    assert s == s[..a] + s[a..a + w] + s[a + w..];
  }

  // One cell that starts in row e.
  lemma PlaceStart(aa: seq<seq<Slot>>, h: Header, height: nat, e: nat, a: nat)
    requires Ready(aa, [h], e, height, e, a)
    ensures Clean(aa, e, Cells([h], e, height, e))
    ensures PlaceCells(aa, e, Cells([h], e, height, e)) == Some(Advanced(aa, [h], e, height, e, a))
  {
    var col := StartCell(h, e, height);
    StartFacts(h, e, height);
    StartIsFree(aa, h, height, e, a);
    OneCell(aa, e, col);
    var g, p := Advanced(aa, [h], e, height, e, a), PlaceCell(aa, e, col).value;
    forall k | 0 <= k < height
      ensures p[k] == g[k]
    {
      if e <= k {
        assert RowReady(aa[k], [h], e, k, e, a);
        StartRow(aa[k], h, e, height, k, a);
      }
    }
    assert p == g;
  }

  lemma IdleArea(h: Header, row: nat, k: nat, e: nat)
    requires row < e <= k && (h.Group? ==> e < row + h.span)
    ensures Area([h], row, k, e) == Area([h], row, k, e + 1)
  {
    assert [h][1..] == [];
    if h.Group? && row + h.span <= k {
      AreaBlank(h.kids, row + h.span, k, e);
      AreaBlank(h.kids, row + h.span, k, e + 1);
    }
  }

  lemma IdleRow(s: seq<Slot>, h: Header, row: nat, k: nat, e: nat, a: nat)
    requires RowReady(s, [h], row, k, e, a) && row < e <= k && (h.Group? ==> e < row + h.span)
    ensures NextRow(s, [h], row, k, e, a) == s
  {
    IdleArea(h, row, k, e);
    var w := |Leaves([h])|;
    assert s == s[..a] + s[a..a + w] + s[a + w..];
  }

  // Headers that started earlier and have nothing to place in row e.
  lemma NothingToPlace(aa: seq<seq<Slot>>, h: Header, row: nat, height: nat, e: nat, a: nat)
    requires Ready(aa, [h], row, height, e, a) && row < e && (h.Group? ==> e < row + h.span)
    ensures Cells([h], row, height, e) == [] && Advanced(aa, [h], row, height, e, a) == aa
  {
    assert [h][1..] == [];
    forall k | 0 <= k < height
      ensures Advanced(aa, [h], row, height, e, a)[k] == aa[k]
    {
      if e <= k {
        assert RowReady(aa[k], [h], row, k, e, a);
        IdleRow(aa[k], h, row, k, e, a);
      }
    }
  }

  // A group whose own cell ended above row e is its kids.
  lemma GroupCells(h: Header, row: nat, height: nat, e: nat)
    requires Fits([h], row, height) && h.Group? && row + h.span <= e
    ensures Fits(h.kids, row + h.span, height) && Leaves([h]) == Leaves(h.kids)
    ensures Cells([h], row, height, e) == Cells(h.kids, row + h.span, height, e)
  {
    assert [h][1..] == [];
  }

  lemma GroupArea(h: Header, row: nat, k: nat, e: nat)
    requires h.Group? && row + h.span <= k && row < e && h.span >= 1
    ensures Area([h], row, k, e) == Area(h.kids, row + h.span, k, e) && Leaves([h]) == Leaves(h.kids)
  {
    assert [h][1..] == [];
  }

  lemma GroupRow(s: seq<Slot>, h: Header, row: nat, k: nat, e: nat, a: nat)
    requires h.Group? && row + h.span <= e <= k && h.span >= 1 && RowReady(s, [h], row, k, e, a)
    ensures RowReady(s, h.kids, row + h.span, k, e, a)
    ensures NextRow(s, h.kids, row + h.span, k, e, a) == NextRow(s, [h], row, k, e, a)
  {
    GroupArea(h, row, k, e);
    GroupArea(h, row, k, e + 1);
  }

  lemma GroupReady(aa: seq<seq<Slot>>, h: Header, row: nat, height: nat, e: nat, a: nat)
    requires Ready(aa, [h], row, height, e, a) && h.Group? && row + h.span <= e
    ensures Ready(aa, h.kids, row + h.span, height, e, a)
    ensures Advanced(aa, h.kids, row + h.span, height, e, a) == Advanced(aa, [h], row, height, e, a)
  {
    GroupCells(h, row, height, e);
    forall k | e <= k < height
      ensures RowReady(aa[k], h.kids, row + h.span, k, e, a)
    {
      assert RowReady(aa[k], [h], row, k, e, a);
      GroupRow(aa[k], h, row, k, e, a);
    }
    assert Ready(aa, h.kids, row + h.span, height, e, a);
    var p, q := Advanced(aa, h.kids, row + h.span, height, e, a), Advanced(aa, [h], row, height, e, a);
    forall k | 0 <= k < height
      ensures p[k] == q[k]
    {
      if e <= k {
        assert RowReady(aa[k], [h], row, k, e, a);
        GroupRow(aa[k], h, row, k, e, a);
      }
    }
  }

  lemma SplitSlice<T>(s: seq<T>, a: nat, w: nat, z: nat, p: seq<T>, q: seq<T>)
    requires a + w + z <= |s| && s[a..a + w + z] == p + q && |p| == w
    ensures s[a..a + w] == p && s[a + w..a + w + z] == q
  {
    assert s[a..a + w] == s[a..a + w + z][..w];
    assert s[a + w..a + w + z] == s[a..a + w + z][w..];
  }

  lemma SpliceTwice<T>(s: seq<T>, a: nat, w: nat, z: nat, p: seq<T>, q: seq<T>)
    requires a + w + z <= |s| && |p| == w
    ensures var b := s[..a] + p + s[a + w..];
      && |b| == |s| && b[a + w..] == s[a + w..] && b[..a + w] == s[..a] + p
      && b[..a + w] + q + b[a + w + z..] == s[..a] + (p + q) + s[a + w + z..]
  {
    var b := s[..a] + p + s[a + w..];
    assert b[a + w..] == s[a + w..];
    assert b[a + w + z..] == s[a + w + z..];
    assert b[..a + w] == s[..a] + p;
  }

  // The area of hs in row k in two parts.
  ghost predicate Parts(hs: seq<Header>, row: nat, k: nat, e: nat, w: nat, z: nat, p: seq<Slot>, q: seq<Slot>) {
    && hs != [] && |p| == w == |Leaves([hs[0]])| && |q| == z == |Leaves(hs[1..])| && |Leaves(hs)| == w + z
    && p == Area([hs[0]], row, k, e) && q == Area(hs[1..], row, k, e) && Area(hs, row, k, e) == p + q
  }

  lemma InParts(hs: seq<Header>, row: nat, height: nat, k: nat, e: nat)
    requires hs != [] && Fits(hs, row, height)
    ensures Parts(hs, row, k, e, |Leaves([hs[0]])|, |Leaves(hs[1..])|,
                  Area([hs[0]], row, k, e), Area(hs[1..], row, k, e))
  {
    FirstLeaves(hs, row, height);
    FirstArea(hs, row, k, e);
    AreaWidth([hs[0]], row, k, e);
    AreaWidth(hs[1..], row, k, e);
  }

  // In one row: first the first header, then the rest.
  lemma RowInTwo(s: seq<Slot>, hs: seq<Header>, row: nat, k: nat, e: nat, a: nat, w: nat, z: nat,
                 p: seq<Slot>, q: seq<Slot>, p': seq<Slot>, q': seq<Slot>)
    requires Parts(hs, row, k, e, w, z, p, q) && Parts(hs, row, k, e + 1, w, z, p', q')
    requires RowReady(s, hs, row, k, e, a)
    ensures RowReady(s, [hs[0]], row, k, e, a)
    ensures var b := NextRow(s, [hs[0]], row, k, e, a);
      && RowReady(b, hs[1..], row, k, e, a + w) && b[..a + w] == s[..a] + p'
      && NextRow(b, hs[1..], row, k, e, a + w) == NextRow(s, hs, row, k, e, a)
  {
    hide Area, Leaves;
    SplitSlice(s, a, w, z, p, q);
    SpliceTwice(s, a, w, z, p', q');
    var b := NextRow(s, [hs[0]], row, k, e, a);
    assert b == s[..a] + p' + s[a + w..];
    assert b[a + w..a + w + z] == b[a + w..][..z];
  }

  // One row for RestReady.
  lemma RestRow(aa: seq<seq<Slot>>, hs: seq<Header>, row: nat, height: nat, e: nat, a: nat, w: nat, k: nat)
    requires Ready(aa, hs, row, height, e, a) && hs != [] && w == |Leaves([hs[0]])| && e <= k < height
    ensures RowReady(aa[k], [hs[0]], row, k, e, a)
    ensures var b := NextRow(aa[k], [hs[0]], row, k, e, a);
      && RowReady(b, hs[1..], row, k, e, a + w) && b[..a + w] == aa[k][..a] + Area([hs[0]], row, k, e + 1)
      && NextRow(b, hs[1..], row, k, e, a + w) == NextRow(aa[k], hs, row, k, e, a)
  {
    assert RowReady(aa[k], hs, row, k, e, a);
    InParts(hs, row, height, k, e);
    InParts(hs, row, height, k, e + 1);
    RowInTwo(aa[k], hs, row, k, e, a, w, |Leaves(hs[1..])|, Area([hs[0]], row, k, e), Area(hs[1..], row, k, e),
             Area([hs[0]], row, k, e + 1), Area(hs[1..], row, k, e + 1));
  }

  lemma FirstReady(aa: seq<seq<Slot>>, hs: seq<Header>, row: nat, height: nat, e: nat, a: nat)
    requires Ready(aa, hs, row, height, e, a) && hs != []
    ensures Ready(aa, [hs[0]], row, height, e, a)
  {
    FirstLeaves(hs, row, height);
    forall k | e <= k < height
      ensures RowReady(aa[k], [hs[0]], row, k, e, a)
    {
      RestRow(aa, hs, row, height, e, a, |Leaves([hs[0]])|, k);
    }
  }

  // The rest of the headers is ready once the first has been placed ...
  lemma RestReady(aa: seq<seq<Slot>>, hs: seq<Header>, row: nat, height: nat, e: nat, a: nat, w: nat)
    requires Ready(aa, hs, row, height, e, a) && hs != [] && w == |Leaves([hs[0]])|
    requires Ready(aa, [hs[0]], row, height, e, a)
    ensures Ready(Advanced(aa, [hs[0]], row, height, e, a), hs[1..], row, height, e, a + w)
  {
    var h, rest, b := [hs[0]], hs[1..], Advanced(aa, [hs[0]], row, height, e, a);
    FirstLeaves(hs, row, height);
    forall k | e <= k < height
      ensures RowReady(b[k], rest, row, k, e, a + w)
    {
      RestRow(aa, hs, row, height, e, a, w, k);
    }
    RestRow(aa, hs, row, height, e, a, w, e);
    AreaFull(h, row, e);
    assert b[e][..a + w] == aa[e][..a] + Area(h, row, e, e + 1);
  }

  // ... and placing both advances all.
  lemma BothAdvanced(aa: seq<seq<Slot>>, hs: seq<Header>, row: nat, height: nat, e: nat, a: nat, w: nat,
                     b: seq<seq<Slot>>, rest: seq<Header>, c: nat)
    requires Ready(aa, hs, row, height, e, a) && hs != [] && w == |Leaves([hs[0]])|
    requires Ready(aa, [hs[0]], row, height, e, a) && b == Advanced(aa, [hs[0]], row, height, e, a)
    requires rest == hs[1..] && c == a + w && Ready(b, rest, row, height, e, c)
    ensures Advanced(b, rest, row, height, e, c) == Advanced(aa, hs, row, height, e, a)
  {
    hide Area, Leaves, NextRow, RowReady, Fits;
    var p, q := Advanced(b, rest, row, height, e, c), Advanced(aa, hs, row, height, e, a);
    forall k | 0 <= k < height
      ensures p[k] == q[k]
    {
      if e <= k {
        RestRow(aa, hs, row, height, e, a, w, k);
        assert b[k] == NextRow(aa[k], [hs[0]], row, k, e, a);
      }
    }
  }

  // Placing the cells of row e brings the whole area forward by one row, each
  // cell landing on free slots only.
  lemma {:induction false} PlaceArea(aa: seq<seq<Slot>>, hs: seq<Header>, row: nat, height: nat, e: nat, a: nat)
    requires Ready(aa, hs, row, height, e, a)
    ensures Clean(aa, e, Cells(hs, row, height, e))
    ensures PlaceCells(aa, e, Cells(hs, row, height, e)) == Some(Advanced(aa, hs, row, height, e, a))
    decreases hs, 1
  {
    if hs == [] {
      forall k | e <= k < height
        ensures NextRow(aa[k], hs, row, k, e, a) == aa[k]
      {
        assert RowReady(aa[k], hs, row, k, e, a);
      }
      assert Advanced(aa, hs, row, height, e, a) == aa;
    } else {
      var w := |Leaves([hs[0]])|;
      FirstReady(aa, hs, row, height, e, a);
      RestReady(aa, hs, row, height, e, a, w);
      var b := Advanced(aa, [hs[0]], row, height, e, a);
      BothAdvanced(aa, hs, row, height, e, a, w, b, hs[1..], a + w);
      PlaceFirst(aa, hs, row, height, e, a);
      PlaceArea(b, hs[1..], row, height, e, a + w);
      PlaceBoth(aa, hs, row, height, e, b);
    }
  }

  lemma PlaceBoth(aa: seq<seq<Slot>>, hs: seq<Header>, row: nat, height: nat, e: nat, b: seq<seq<Slot>>)
    requires e < |aa| && hs != [] && Fits(hs, row, height) && Fits([hs[0]], row, height) && |b| == |aa|
    requires var p := Cells([hs[0]], row, height, e); Clean(aa, e, p) && PlaceCells(aa, e, p) == Some(b)
    requires Clean(b, e, Cells(hs[1..], row, height, e))
    ensures Clean(aa, e, Cells(hs, row, height, e))
    ensures PlaceCells(aa, e, Cells(hs, row, height, e)) == PlaceCells(b, e, Cells(hs[1..], row, height, e))
  {
    var p, q := Cells([hs[0]], row, height, e), Cells(hs[1..], row, height, e);
    FirstCells(hs, row, height, e);
    PlaceConcat(aa, e, p, q);
    CleanConcat(aa, e, p, q);
  }

  lemma {:induction false} PlaceFirst(aa: seq<seq<Slot>>, hs: seq<Header>, row: nat, height: nat, e: nat, a: nat)
    requires hs != [] && Ready(aa, [hs[0]], row, height, e, a)
    ensures Clean(aa, e, Cells([hs[0]], row, height, e))
    ensures PlaceCells(aa, e, Cells([hs[0]], row, height, e)) == Some(Advanced(aa, [hs[0]], row, height, e, a))
    decreases hs, 0
  {
    var h := hs[0];
    if row == e {
      PlaceStart(aa, h, height, e, a);
    } else if h.Leaf? || e < row + h.span {
      NothingToPlace(aa, h, row, height, e, a);
    } else {
      GroupCells(h, row, height, e);
      GroupReady(aa, h, row, height, e, a);
      PlaceArea(aa, h.kids, row + h.span, height, e, a);
    }
  }

  // ---------------------------------------------------------------- spans left out

  lemma ExplicitCell(aa: seq<seq<Slot>>, e: nat, col: Col)
    requires e < |aa|
    ensures PlaceCell(aa, e, Written(col)) == PlaceCell(aa, e, col)
    ensures FreeFor(aa, e, Written(col)) <==> FreeFor(aa, e, col)
  {
    var c := Written(col);
    assert Span(c.rowspan) == Span(col.rowspan) && Span(c.colspan) == Span(col.colspan);
    if PlaceCell(aa, e, col) != Some(aa) && PlaceCell(aa, e, col) != None {
      assert PlaceCell(aa, e, c).value == PlaceCell(aa, e, col).value;
    }
  }

  lemma ExplicitInit(cols: seq<Col>)
    requires cols != []
    ensures Explicit(cols)[..|cols| - 1] == Explicit(cols[..|cols| - 1])
  {
  }

  lemma {:induction false} ExplicitCells(aa: seq<seq<Slot>>, e: nat, cols: seq<Col>)
    requires e < |aa|
    ensures PlaceCells(aa, e, Explicit(cols)) == PlaceCells(aa, e, cols)
    decreases |cols|
  {
    if cols != [] {
      var before := cols[..|cols| - 1];
      ExplicitInit(cols);
      ExplicitCells(aa, e, before);
      var b := PlaceCells(aa, e, before);
      if b.Some? {
        ExplicitCell(b.value, e, cols[|cols| - 1]);
      }
    }
  }

  lemma {:induction false} ExplicitClean(aa: seq<seq<Slot>>, e: nat, cols: seq<Col>)
    requires e < |aa| && Clean(aa, e, Explicit(cols))
    ensures Clean(aa, e, cols)
    decreases |cols|
  {
    if cols != [] {
      var before := cols[..|cols| - 1];
      ExplicitInit(cols);
      ExplicitCells(aa, e, before);
      ExplicitClean(aa, e, before);
      ExplicitCell(PlaceCells(aa, e, before).value, e, cols[|cols| - 1]);
    }
  }

  lemma {:induction false} ExplicitWidth(cols: seq<Col>)
    ensures Width(Explicit(cols)) == Width(cols)
  {
    if cols != [] {
      assert Explicit(cols)[1..] == Explicit(cols[1..]);
      ExplicitWidth(cols[1..]);
    }
  }

  lemma {:induction false} WidthConcat(p: seq<Col>, q: seq<Col>)
    ensures Width(p + q) == Width(p) + Width(q)
  {
    if p == [] {
      assert p + q == q;
    } else {
      assert (p + q)[1..] == p[1..] + q;
      WidthConcat(p[1..], q);
    }
  }

  lemma {:induction false} TopWidth(hs: seq<Header>, height: nat)
    requires Fits(hs, 0, height)
    ensures Width(Cells(hs, 0, height, 0)) == |Leaves(hs)|
  {
    if hs != [] {
      FirstLeaves(hs, 0, height);
      FirstCells(hs, 0, height, 0);
      StartFacts(hs[0], 0, height);
      var col := StartCell(hs[0], 0, height);
      assert [col][1..] == [];
      WidthConcat([col], Cells(hs[1..], 0, height, 0));
      TopWidth(hs[1..], height);
    }
  }

  lemma {:induction false} CellSpans(hs: seq<Header>, row: nat, height: nat, e: nat)
    requires Fits(hs, row, height)
    ensures Explicit(Cells(hs, row, height, e)) == Cells(hs, row, height, e)
  {
    if hs != [] {
      FirstLeaves(hs, row, height);
      if hs[0].Group? && row + hs[0].span <= e {
        CellSpans(hs[0].kids, row + hs[0].span, height, e);
      }
      FirstSpans(hs[0], row, height, e);
      CellSpans(hs[1..], row, height, e);
      BothSpans(hs, row, height, e);
    }
  }

  lemma FirstSpans(h: Header, row: nat, height: nat, e: nat)
    requires Fits([h], row, height)
    requires h.Group? && row + h.span <= e ==>
               Fits(h.kids, row + h.span, height)
               && Explicit(Cells(h.kids, row + h.span, height, e)) == Cells(h.kids, row + h.span, height, e)
    ensures Explicit(Cells([h], row, height, e)) == Cells([h], row, height, e)
  {
    if row == e {
      StartFacts(h, e, height);
    } else if h.Group? && row + h.span <= e {
      GroupCells(h, row, height, e);
    } else {
      assert [h][1..] == [];
      assert Cells([h], row, height, e) == [];
    }
  }

  lemma BothSpans(hs: seq<Header>, row: nat, height: nat, e: nat)
    requires hs != [] && Fits(hs, row, height) && Fits([hs[0]], row, height) && Fits(hs[1..], row, height)
    requires Explicit(Cells([hs[0]], row, height, e)) == Cells([hs[0]], row, height, e)
    requires Explicit(Cells(hs[1..], row, height, e)) == Cells(hs[1..], row, height, e)
    ensures Explicit(Cells(hs, row, height, e)) == Cells(hs, row, height, e)
  {
    FirstCells(hs, row, height, e);
    ExplicitConcat(Cells([hs[0]], row, height, e), Cells(hs[1..], row, height, e));
  }

  lemma ExplicitConcat(p: seq<Col>, q: seq<Col>)
    ensures Explicit(p + q) == Explicit(p) + Explicit(q)
  {
  }

  // Every header tree has rows that lay it out.
  lemma LayoutLays(hs: seq<Header>, height: nat)
    requires Fits(hs, 0, height)
    ensures Lays(Layout(hs, height), hs, height)
  {
    forall e: nat | e < height
      ensures Explicit(Layout(hs, height)[e]) == Layout(hs, height)[e]
    {
      CellSpans(hs, 0, height, e);
    }
  }

  // ---------------------------------------------------------------- the whole header

  // n rows of cells have been placed: those rows hold all their cells, the rows
  // below what reaches down into them.
  ghost predicate Stage(aa: seq<seq<Slot>>, hs: seq<Header>, height: nat, n: nat) {
    && |aa| == height && n <= height
    && (forall k :: 0 <= k < n ==> aa[k] == Area(hs, 0, k, k + 1))
    && (forall k :: n <= k < height ==> aa[k] == Area(hs, 0, k, n))
  }

  lemma StageReady(aa: seq<seq<Slot>>, hs: seq<Header>, height: nat, n: nat)
    requires Stage(aa, hs, height, n) && n < height && Fits(hs, 0, height)
    ensures Ready(aa, hs, 0, height, n, 0)
  {
    forall k | n <= k < height
      ensures RowReady(aa[k], hs, 0, k, n, 0)
    {
      AreaWidth(hs, 0, k, n);
    }
  }

  lemma StageNext(aa: seq<seq<Slot>>, hs: seq<Header>, height: nat, n: nat, b: seq<seq<Slot>>)
    requires Stage(aa, hs, height, n) && n < height && Ready(aa, hs, 0, height, n, 0)
    requires b == Advanced(aa, hs, 0, height, n, 0)
    ensures Stage(b, hs, height, n + 1)
  {
    forall k | n <= k < height
      ensures b[k] == Area(hs, 0, k, n + 1)
    {
      assert RowReady(aa[k], hs, 0, k, n, 0);
      AreaWidth(hs, 0, k, n);
    }
  }

  lemma BlankStage(columns: seq<seq<Col>>, hs: seq<Header>, height: nat)
    requires columns != [] && Fits(hs, 0, height) && Lays(columns, hs, height)
    ensures Stage(Blank(columns), hs, height, 0)
  {
    ExplicitWidth(columns[0]);
    TopWidth(hs, height);
    forall k | 0 <= k < height
      ensures Blank(columns)[k] == Area(hs, 0, k, 0)
    {
      AreaBlank(hs, 0, k, 0);
    }
  }

  // One more row: its cells land on free slots and bring the table to the next stage.
  lemma NextStage(columns: seq<seq<Col>>, hs: seq<Header>, height: nat, n: nat, aa: seq<seq<Slot>>)
    requires Fits(hs, 0, height) && Lays(columns, hs, height) && n < height && Stage(aa, hs, height, n)
    ensures Clean(aa, n, columns[n])
    ensures PlaceCells(aa, n, columns[n]).Some? && Stage(PlaceCells(aa, n, columns[n]).value, hs, height, n + 1)
  {
    StageReady(aa, hs, height, n);
    PlaceArea(aa, hs, 0, height, n, 0);
    assert Explicit(columns[n]) == Cells(hs, 0, height, n);
    ExplicitCells(aa, n, columns[n]);
    ExplicitClean(aa, n, columns[n]);
    StageNext(aa, hs, height, n, Advanced(aa, hs, 0, height, n, 0));
  }

  lemma {:induction false} Staged(columns: seq<seq<Col>>, hs: seq<Header>, height: nat, n: nat)
    requires columns != [] && Fits(hs, 0, height) && Lays(columns, hs, height) && n <= height
    ensures var aa := PlaceRows(Blank(columns), columns, n); aa.Some? && Stage(aa.value, hs, height, n)
  {
    if n == 0 {
      BlankStage(columns, hs, height);
    } else {
      Staged(columns, hs, height, n - 1);
      NextStage(columns, hs, height, n - 1, PlaceRows(Blank(columns), columns, n - 1).value);
    }
  }

  // No cell of a nested header overwrites a slot, and no row is left with a hole.
  lemma NothingOverwritten(columns: seq<seq<Col>>, hs: seq<Header>, height: nat, e: nat)
    requires e < |columns| && Fits(hs, 0, height) && Lays(columns, hs, height)
    ensures var aa := PlaceRows(Blank(columns), columns, e); aa.Some? && Clean(aa.value, e, columns[e])
    ensures var aa := PlaceRows(Blank(columns), columns, e + 1); aa.Some? && Filled(aa.value[e])
  {
    Staged(columns, hs, height, e);
    NextStage(columns, hs, height, e, PlaceRows(Blank(columns), columns, e).value);
    AreaFull(hs, 0, e);
  }

  // Decoding the rows of a nested header gives its columns, left to right.
  lemma DecodesToLeaves(columns: seq<seq<Col>>, hs: seq<Header>, height: nat)
    requires Fits(hs, 0, height) && Lays(columns, hs, height)
    ensures Decoded(columns) == Some(Shown(Leaves(hs)))
  {
    if columns != [] {
      Staged(columns, hs, height, height);
      AreaLast(hs, 0, height);
    } else if hs != [] {
      FitsBelow(hs, 0, 0);
    }
  }
}
