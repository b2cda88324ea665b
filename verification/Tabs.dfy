// A row of tabs: which one is selected, and the history that a closed tab falls
// back on.

module Tabs {
  import opened Common

  // selected: the tab's header carries the mark; open: its panel is shown.
  datatype Tab = Tab(title: string, selected: bool, open: bool)

  datatype State = State(tabs: seq<Tab>, history: seq<string>)

  // A tab named by its place or by its title.
  datatype Which = At(index: int) | Titled(title: string)

  datatype Event =
    | Add(title: string, index: Option<int>, select: bool)
    | Select(which: Which)
    | Unselect(which: Which)
    | Rename(place: nat, name: string)
    | Close(which: Which)

  // A tab is renamed through its own panel, so it is one of the tabs.
  ghost predicate Enabled(s: State, e: Event) {
    e.Rename? ==> e.place < |s.tabs|
  }

  // ---------------------------------------------------------------- what the operations do

  function TitleAt(tabs: seq<Tab>, title: string): (r: Option<nat>)
    ensures r.Some? ==> r.value < |tabs| && tabs[r.value].title == title
  {
    if tabs == [] then None
    else if tabs[0].title == title then Some(0)
    else
      var r := TitleAt(tabs[1..], title);
      if r.Some? then Some(r.value + 1) else None
  }

  function Place(tabs: seq<Tab>, which: Which): (r: Option<nat>)
    ensures r.Some? ==> r.value < |tabs|
  {
    match which
    case At(i) => if i < 0 || i >= |tabs| then None else Some(i)
    case Titled(title) => TitleAt(tabs, title)
  }

  function FirstSelected(tabs: seq<Tab>): (r: Option<nat>)
    ensures r.Some? ==> r.value < |tabs| && tabs[r.value].selected
  {
    if tabs == [] then None
    else if tabs[0].selected then Some(0)
    else
      var r := FirstSelected(tabs[1..]);
      if r.Some? then Some(r.value + 1) else None
  }

  function Hidden(s: State, i: nat): State
    requires i < |s.tabs|
  {
    s.(tabs := s.tabs[i := s.tabs[i].(selected := false, open := false)])
  }

  // Showing a tab first hides the selected one, and is refused if a selected one stays.
  function Shown(s: State, i: nat): (t: State)
    requires i < |s.tabs|
    ensures |t.tabs| == |s.tabs|
  {
    var p := FirstSelected(s.tabs);
    if p == Some(i) then s
    else
      var t := if p.Some? && s.tabs[p.value].open then Hidden(s, p.value) else s;
      if FirstSelected(t.tabs).Some? then t
      else
        State(t.tabs[i := t.tabs[i].(selected := true, open := true)], t.history + [t.tabs[i].title])
  }

  function Chosen(s: State, which: Which): State {
    var p := Place(s.tabs, which);
    if p.Some? && !s.tabs[p.value].open then Shown(s, p.value) else s
  }

  function Left(s: State, which: Which): State {
    var p := Place(s.tabs, which);
    if p.Some? && s.tabs[p.value].open then Hidden(s, p.value) else s
  }

  function Added(s: State, title: string, index: Option<int>, select: bool): State {
    var n := |s.tabs|;
    var k := if index == None || index.value > n then n else if index.value < 0 then 0 else index.value;
    var t := s.(tabs := s.tabs[..k] + [Tab(title, false, false)] + s.tabs[k..]);
    if select then Chosen(t, At(k)) else t
  }

  function Replaced(history: seq<string>, from: string, to: string): seq<string> {
    if history == [] then []
    else [if history[0] == from then to else history[0]] + Replaced(history[1..], from, to)
  }

  function Renamed(s: State, i: nat, title: string): State
    requires i < |s.tabs|
  {
    State(s.tabs[i := s.tabs[i].(title := title)], Replaced(s.history, s.tabs[i].title, title))
  }

  function Without(history: seq<string>, title: string): seq<string> {
    if history == [] then []
    else (if history[0] == title then [] else [history[0]]) + Without(history[1..], title)
  }

  // The tab and its title leave; the last title of the history is selected, or else
  // the first tab.
  function Closed(s: State, which: Which): State {
    var p := Place(s.tabs, which);
    if p == None then s
    else
      var history := Without(s.history, s.tabs[p.value].title);
      var tabs := s.tabs[..p.value] + s.tabs[p.value + 1..];
      if history == [] then Chosen(State(tabs, []), At(0))
      else
        var last := history[|history| - 1];
        Chosen(State(tabs, history[..|history| - 1]), if last != "" then Titled(last) else At(0))
  }

  function Step(s: State, e: Event): State
    requires Enabled(s, e)
  {
    match e
    case Add(title, index, select) => Added(s, title, index, select)
    case Select(which) => Chosen(s, which)
    case Unselect(which) => Left(s, which)
    case Rename(i, title) => Renamed(s, i, title)
    case Close(which) => Closed(s, which)
  }

  // ---------------------------------------------------------------- the widget

  method FindPlace(tabs: seq<Tab>, which: Which) returns (r: Option<nat>)
    ensures r == Place(tabs, which)
  {
    if which.At? {
      return if which.index < 0 || which.index >= |tabs| then None else Some(which.index);
    }
    for i := 0 to |tabs|
      invariant TitleAt(tabs, which.title)
        == var r := TitleAt(tabs[i..], which.title); if r.Some? then Some(r.value + i) else None
    {
      assert tabs[i..][1..] == tabs[i + 1..];
      if tabs[i].title == which.title {
        return Some(i);
      }
    }
    return None;
  }

  method FindSelected(tabs: seq<Tab>) returns (r: Option<nat>)
    ensures r == FirstSelected(tabs)
  {
    for i := 0 to |tabs|
      invariant FirstSelected(tabs)
        == var r := FirstSelected(tabs[i..]); if r.Some? then Some(r.value + i) else None
    {
      assert tabs[i..][1..] == tabs[i + 1..];
      if tabs[i].selected {
        return Some(i);
      }
    }
    return None;
  }

  method ReplaceTitle(history: seq<string>, from: string, to: string) returns (r: seq<string>)
    ensures r == Replaced(history, from, to)
  {
    r := history;
    for k := 0 to |history|
      invariant |r| == |history| && r[k..] == history[k..]
      invariant r[..k] + Replaced(history[k..], from, to) == Replaced(history, from, to)
    {
      assert r[k] == r[k..][0] && history[k..][1..] == history[k + 1..];
      ghost var before, rest := r[..k], Replaced(history[k + 1..], from, to);
      if r[k] == from {
        r := r[k := to];
      }
      assert r[..k + 1] == before + [r[k]];
      Reassociated(before, [r[k]], rest);
    }
    assert r[..|r|] == r;
  }

  // Splice the entries of a title out.
  method DropTitle(history: seq<string>, title: string) returns (r: seq<string>)
    ensures r == Without(history, title)
  {
    r := history;
    var i := 0;
    ghost var kept, ahead := [], history;
    while i < |r|
      invariant i == |kept| && r == kept + ahead && kept + Without(ahead, title) == Without(history, title)
      decreases |r| - i
    {
      assert r[i] == ahead[0];
      if r[i] == title {
        assert r[..i] + r[i + 1..] == kept + ahead[1..];
        r := r[..i] + r[i + 1..];
      } else {
        Reassociated(kept, [ahead[0]], Without(ahead[1..], title));
        Reassociated(kept, [ahead[0]], ahead[1..]);
        assert ahead == [ahead[0]] + ahead[1..];
        kept := kept + [ahead[0]];
        i := i + 1;
      }
      ahead := ahead[1..];
    }
  }

  class Tabs {
    var tabs: seq<Tab>
    var history: seq<string>

    constructor ()
      ensures Now() == State([], [])
    {
      tabs, history := [], [];
    }

    function Now(): State
      reads this
    {
      State(tabs, history)
    }

    method ClosePanel(i: nat)
      requires i < |tabs|
      modifies this
      ensures Now() == Hidden(old(Now()), i)
    {
      tabs := tabs[i := tabs[i].(selected := false, open := false)];
    }

    method OpenPanel(i: nat)
      requires i < |tabs|
      modifies this
      ensures Now() == Shown(old(Now()), i)
    {
      var p := FindSelected(tabs);
      if p.Some? {
        if p.value == i {
          return;
        }
        if tabs[p.value].open {
          ClosePanel(p.value);
        }
        p := FindSelected(tabs);
        if p.Some? {
          return;
        }
      }
      tabs := tabs[i := tabs[i].(selected := true, open := true)];
      history := history + [tabs[i].title];
    }

    method SelectTab(which: Which)
      modifies this
      ensures Now() == Chosen(old(Now()), which)
    {
      var p := FindPlace(tabs, which);
      if p.Some? && !tabs[p.value].open {
        OpenPanel(p.value);
      }
    }

    method UnselectTab(which: Which)
      modifies this
      ensures Now() == Left(old(Now()), which)
    {
      var p := FindPlace(tabs, which);
      if p.Some? && tabs[p.value].open {
        ClosePanel(p.value);
      }
    }

    method AddTab(title: string, index: Option<int>, select: bool)
      modifies this
      ensures Now() == Added(old(Now()), title, index, select)
    {
      var k := |tabs|;
      if index.Some? && index.value <= |tabs| {
        k := if index.value < 0 then 0 else index.value;
      }
      if k >= |tabs| {
        tabs := tabs + [Tab(title, false, false)];
      } else {
        tabs := tabs[..k] + [Tab(title, false, false)] + tabs[k..];
      }
      assert tabs == old(tabs)[..k] + [Tab(title, false, false)] + old(tabs)[k..];
      if select {
        SelectTab(At(k));
      }
    }

    method RenameTab(i: nat, title: string)
      requires i < |tabs|
      modifies this
      ensures Now() == Renamed(old(Now()), i, title)
    {
      var before := tabs[i].title;
      tabs := tabs[i := tabs[i].(title := title)];
      if before != title {
        history := ReplaceTitle(history, before, title);
      } else {
        ReplacedSame(history, title);
      }
    }

    method CloseTab(which: Which)
      modifies this
      ensures Now() == Closed(old(Now()), which)
    {
      hide Place, Without, Chosen;
      var p := FindPlace(tabs, which);
      if p == None {
        return;
      }
      var title := tabs[p.value].title;
      tabs := tabs[..p.value] + tabs[p.value + 1..];
      history := DropTitle(history, title);
      if history == [] {
        SelectTab(At(0));
      } else {
        var last := history[|history| - 1];
        history := history[..|history| - 1];
        SelectTab(if last != "" then Titled(last) else At(0));
      }
    }
  }

  lemma {:induction false} ReplacedSame(history: seq<string>, title: string)
    ensures Replaced(history, title, title) == history
  {
    if history != [] {
      ReplacedSame(history[1..], title);
    }
  }
}
