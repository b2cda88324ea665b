// The table rows of a grid body: inserting and deleting a row renumbers the rows
// after it one by one.

module RowView {
  // A table row: the data row it shows, its index attribute (and the id made from
  // it), its row number cell and whether it is striped.
  datatype Tr = Tr(row: nat, index: int, number: int, alt: bool)

  // numbers: this body shows row numbers; offset: the rows on the pages before.
  datatype Look = Look(numbers: bool, offset: int, striped: bool)

  ghost predicate Numbered(trs: seq<Tr>, look: Look) {
    forall k :: 0 <= k < |trs| ==> trs[k].index == k && Dressed(trs[k], look, k)
  }

  // What a row at place k looks like.
  ghost predicate Dressed(tr: Tr, look: Look, k: int) {
    (look.numbers ==> tr.number == k + 1 + look.offset) && tr.alt == (look.striped && k % 2 == 1)
  }

  ghost predicate NoneShared(trs: seq<Tr>) {
    forall i, j :: 0 <= i < j < |trs| ==> trs[i].index != trs[j].index
  }

  function Rows(trs: seq<Tr>): (r: seq<nat>)
    ensures |r| == |trs|
  {
    seq(|trs|, i requires 0 <= i < |trs| => trs[i].row)
  }

  // The first row with an index.
  function Find(trs: seq<Tr>, index: int): (at: nat)
    ensures at <= |trs|
  {
    if trs == [] || trs[0].index == index then 0 else 1 + Find(trs[1..], index)
  }

  lemma {:induction false} FindAt(trs: seq<Tr>, index: int, at: nat)
    requires at < |trs| && trs[at].index == index && forall j :: 0 <= j < at ==> trs[j].index != index
    ensures Find(trs, index) == at
  {
    if at > 0 {
      FindAt(trs[1..], index, at - 1);
    }
  }

  function Moved(tr: Tr, look: Look, index: int): Tr {
    Tr(tr.row, index, if look.numbers then index + 1 + look.offset else tr.number,
       if look.striped then index % 2 == 1 else tr.alt)
  }

  // Rows from place at on, the first done places of them from the end moved by one.
  ghost predicate ShiftedDown(trs: seq<Tr>, was: seq<Tr>, look: Look, from: int) {
    && |trs| == |was| && Rows(trs) == Rows(was)
    && forall k :: 0 <= k < |trs| ==>
         if k < from then trs[k] == was[k] else trs[k].index == k + 1 && Dressed(trs[k], look, k + 1)
  }

  // The rows when those from a place on have moved on by one.
  function Room(trs: seq<Tr>, look: Look, from: nat): (r: seq<Tr>)
    ensures |r| == |trs|
  {
    seq(|trs|, k requires 0 <= k < |trs| => if k < from then trs[k] else Moved(trs[k], look, k + 1))
  }

  // However far the rows have moved, from the last one down, no two share an index.
  lemma RoomApart(trs: seq<Tr>, look: Look, from: nat)
    requires Numbered(trs, look)
    ensures NoneShared(Room(trs, look, from)) && ShiftedDown(Room(trs, look, from), trs, look, from)
  {
    var r := Room(trs, look, from);
    forall k | 0 <= k < |trs|
      ensures Rows(r)[k] == Rows(trs)[k] && r[k].index == if k < from then k else k + 1
    {
    }
  }

  // Make room at an index: the rows from the last down to it move on by one.
  method MakeRoom(trs: seq<Tr>, look: Look, at: nat) returns (r: seq<Tr>)
    requires Numbered(trs, look) && at <= |trs|
    ensures r == Room(trs, look, at)
  {
    r := trs;
    var i := |trs| - 1;
    while i >= at
      invariant at - 1 <= i < |trs| && r == Room(trs, look, i + 1)
    {
      RoomApart(trs, look, i + 1);
      FindAt(r, i, i);
      var k := Find(r, i);
      r := r[k := Moved(r[k], look, i + 1)];
      i := i - 1;
    }
  }

  lemma RoomFilled(room: seq<Tr>, trs: seq<Tr>, look: Look, at: nat, tr: Tr)
    requires Numbered(trs, look) && at <= |trs| && ShiftedDown(room, trs, look, at)
    requires tr.index == at && Dressed(tr, look, at)
    ensures var r := room[..at] + [tr] + room[at..];
      Numbered(r, look) && Rows(r) == Rows(trs)[..at] + [tr.row] + Rows(trs)[at..]
  {
    var r := room[..at] + [tr] + room[at..];
    assert forall k :: 0 <= k < |trs| ==> Rows(room)[k] == Rows(trs)[k];
    assert Rows(r) == Rows(room)[..at] + [tr.row] + Rows(room)[at..];
  }

  // Insert a table row for a data row.
  method InsertTr(trs: seq<Tr>, look: Look, at: nat, row: nat) returns (r: seq<Tr>)
    requires Numbered(trs, look) && at <= |trs|
    ensures Numbered(r, look) && Rows(r) == Rows(trs)[..at] + [row] + Rows(trs)[at..]
  {
    hide Room, Rows, Find, Moved;
    var room := MakeRoom(trs, look, at);
    RoomApart(trs, look, at);
    var place := |room|;
    if at < |trs| {
      FindAt(room, at + 1, at);
      place := Find(room, at + 1);
    }
    r := room[..place] + [Tr(row, at, 0, false)] + room[place..];
    // Refreshing the new row gives it its number and its stripe.
    FindAt(r, at, at);
    place := Find(r, at);
    var tr := Tr(row, at, if look.numbers then at + 1 + look.offset else 0, look.striped && at % 2 == 1);
    r := r[place := tr];
    assert r == room[..at] + [tr] + room[at..];
    RoomFilled(room, trs, look, at, tr);
  }

  // The rows from place at on still carry the index of the place after theirs.
  ghost predicate Gapped(trs: seq<Tr>, look: Look, at: nat) {
    forall k :: 0 <= k < |trs| ==>
      if k < at then trs[k].index == k && Dressed(trs[k], look, k)
      else trs[k].index == k + 1 && (trs[k].alt ==> look.striped)
  }

  // The rows when those from place at up to another have moved back by one.
  function Closing(trs: seq<Tr>, look: Look, at: nat, to: nat): (r: seq<Tr>)
    ensures |r| == |trs|
  {
    seq(|trs|, k requires 0 <= k < |trs| => if at <= k < to then Moved(trs[k], look, k) else trs[k])
  }

  // However far the rows have moved, from the gap on, no two share an index.
  lemma ClosingApart(trs: seq<Tr>, look: Look, at: nat, to: nat)
    requires Gapped(trs, look, at) && at <= to <= |trs|
    ensures NoneShared(Closing(trs, look, at, to)) && Gapped(Closing(trs, look, at, to), look, to)
    ensures Rows(Closing(trs, look, at, to)) == Rows(trs)
  {
    var r := Closing(trs, look, at, to);
    forall k | 0 <= k < |trs|
      ensures Rows(r)[k] == Rows(trs)[k] && r[k].index == if k < to then k else k + 1
    {
    }
  }

  // Close the gap a deleted row left: the rows after it move back by one, in order.
  method CloseGap(trs: seq<Tr>, look: Look, at: nat) returns (r: seq<Tr>)
    requires Gapped(trs, look, at) && at <= |trs|
    ensures r == Closing(trs, look, at, |trs|)
    ensures Numbered(r, look) && Rows(r) == Rows(trs)
  {
    r := trs;
    ClosingApart(trs, look, at, |trs|);
    for i := at + 1 to |trs| + 1
      invariant r == Closing(trs, look, at, i - 1)
    {
      ClosingApart(trs, look, at, i - 1);
      FindAt(r, i, i - 1);
      var k := Find(r, i);
      r := r[k := Moved(r[k], look, i - 1)];
    }
  }

  // Delete the table row at an index.
  method DeleteTr(trs: seq<Tr>, look: Look, at: nat) returns (r: seq<Tr>)
    requires Numbered(trs, look) && at < |trs|
    ensures Numbered(r, look) && Rows(r) == Rows(trs)[..at] + Rows(trs)[at + 1..]
  {
    FindAt(trs, at, at);
    var k := Find(trs, at);
    r := trs[..k] + trs[k + 1..];
    assert Rows(r) == Rows(trs)[..at] + Rows(trs)[at + 1..];
    r := CloseGap(r, look, at);
  }
}
