// What every run of adding, selecting, renaming and closing tabs keeps.

module TabsRuns {
  import opened Common
  import opened Tabs

  // A tab shows its panel just when it carries the mark, at most one does, and the
  // history names tabs only.
  ghost predicate Sound(s: State) {
    Marked(s.tabs) && AtMostOne(s.tabs) && Named(s.history, s.tabs)
  }

  ghost predicate Marked(tabs: seq<Tab>) {
    forall i :: 0 <= i < |tabs| ==> tabs[i].selected == tabs[i].open
  }

  ghost predicate AtMostOne(tabs: seq<Tab>) {
    forall i, j :: 0 <= i < j < |tabs| ==> !(tabs[i].selected && tabs[j].selected)
  }

  ghost predicate HasTitle(tabs: seq<Tab>, title: string) {
    exists i :: 0 <= i < |tabs| && tabs[i].title == title
  }

  ghost predicate Named(history: seq<string>, tabs: seq<Tab>) {
    forall k :: 0 <= k < |history| ==> HasTitle(tabs, history[k])
  }

  ghost predicate OneSelected(tabs: seq<Tab>) {
    AtMostOne(tabs) && exists i :: 0 <= i < |tabs| && tabs[i].selected
  }

  // ---------------------------------------------------------------- selecting

  lemma {:induction false} FirstIs(tabs: seq<Tab>)
    ensures FirstSelected(tabs) == None ==> forall i :: 0 <= i < |tabs| ==> !tabs[i].selected
  {
    if tabs != [] {
      FirstIs(tabs[1..]);
      assert forall i :: 0 < i < |tabs| ==> tabs[i] == tabs[1..][i - 1];
    }
  }

  lemma {:induction false} TitleFound(tabs: seq<Tab>, title: string)
    ensures TitleAt(tabs, title).Some? <==> HasTitle(tabs, title)
  {
    if tabs != [] {
      TitleFound(tabs[1..], title);
      if HasTitle(tabs[1..], title) {
        var i :| 0 <= i < |tabs| - 1 && tabs[1..][i].title == title;
        assert tabs[i + 1].title == title;
      }
      if HasTitle(tabs, title) && tabs[0].title != title {
        var i :| 0 <= i < |tabs| && tabs[i].title == title;
        assert tabs[1..][i - 1].title == title;
      }
    }
  }

  // The titles do not change.
  ghost predicate SameTitles(tabs: seq<Tab>, after: seq<Tab>) {
    |after| == |tabs| && forall i :: 0 <= i < |tabs| ==> after[i].title == tabs[i].title
  }

  lemma NamedSame(history: seq<string>, tabs: seq<Tab>, after: seq<Tab>)
    requires Named(history, tabs) && SameTitles(tabs, after)
    ensures Named(history, after)
  {
    forall k | 0 <= k < |history|
      ensures HasTitle(after, history[k])
    {
      var i :| 0 <= i < |tabs| && tabs[i].title == history[k];
      assert after[i].title == history[k];
    }
  }

  lemma HiddenSound(s: State, i: nat)
    requires Sound(s) && i < |s.tabs|
    ensures Sound(Hidden(s, i)) && SameTitles(s.tabs, Hidden(s, i).tabs)
    ensures s.tabs[i].selected ==> FirstSelected(Hidden(s, i).tabs) == None
  {
    NamedSame(s.history, s.tabs, Hidden(s, i).tabs);
  }

  lemma ShownSound(s: State, i: nat)
    requires Sound(s) && i < |s.tabs| && !s.tabs[i].open
    ensures Sound(Shown(s, i)) && OneSelected(Shown(s, i).tabs) && Shown(s, i).tabs[i].selected
  {
    var p := FirstSelected(s.tabs);
    var t := if p.Some? then Hidden(s, p.value) else s;
    FirstIs(s.tabs);
    if p.Some? {
      HiddenSound(s, p.value);
      FirstIs(t.tabs);
    }
    var after := t.tabs[i := t.tabs[i].(selected := true, open := true)];
    NamedSame(t.history, t.tabs, after);
    assert after[i].title == t.tabs[i].title;
    assert Shown(s, i) == State(after, t.history + [t.tabs[i].title]);
  }

  // Selecting an existing tab leaves exactly one selected.
  lemma ChosenSound(s: State, which: Which)
    requires Sound(s)
    ensures Sound(Chosen(s, which))
    ensures Place(s.tabs, which).Some? ==> OneSelected(Chosen(s, which).tabs)
  {
    var p := Place(s.tabs, which);
    if p.Some? {
      if s.tabs[p.value].open {
        assert s.tabs[p.value].selected;
      } else {
        ShownSound(s, p.value);
      }
    }
  }

  // ---------------------------------------------------------------- the other operations

  lemma AddedSound(s: State, title: string, index: Option<int>, select: bool)
    requires Sound(s)
    ensures Sound(Added(s, title, index, select))
  {
    var n := |s.tabs|;
    var k := if index == None || index.value > n then n else if index.value < 0 then 0 else index.value;
    var tabs := s.tabs[..k] + [Tab(title, false, false)] + s.tabs[k..];
    forall h | 0 <= h < |s.history|
      ensures HasTitle(tabs, s.history[h])
    {
      var i :| 0 <= i < n && s.tabs[i].title == s.history[h];
      assert tabs[if i < k then i else i + 1] == s.tabs[i];
    }
    assert Sound(s.(tabs := tabs));
    if select {
      ChosenSound(s.(tabs := tabs), At(k));
    }
  }

  lemma {:induction false} ReplacedAt(history: seq<string>, from: string, to: string)
    ensures |Replaced(history, from, to)| == |history|
    ensures forall k :: 0 <= k < |history| ==>
      Replaced(history, from, to)[k] == if history[k] == from then to else history[k]
  {
    if history != [] {
      ReplacedAt(history[1..], from, to);
    }
  }

  lemma RenamedSound(s: State, i: nat, title: string)
    requires Sound(s) && i < |s.tabs|
    ensures Sound(Renamed(s, i, title))
  {
    var t := Renamed(s, i, title);
    ReplacedAt(s.history, s.tabs[i].title, title);
    forall k | 0 <= k < |t.history|
      ensures HasTitle(t.tabs, t.history[k])
    {
      if s.history[k] == s.tabs[i].title {
        assert t.tabs[i].title == t.history[k];
      } else {
        var j :| 0 <= j < |s.tabs| && s.tabs[j].title == s.history[k];
        assert t.tabs[j].title == t.history[k];
      }
    }
  }

  lemma {:induction false} WithoutHas(history: seq<string>, title: string)
    ensures forall k :: 0 <= k < |Without(history, title)| ==>
      Without(history, title)[k] != title && Without(history, title)[k] in history
  {
    if history != [] {
      WithoutHas(history[1..], title);
      assert history == [history[0]] + history[1..];
    }
  }

  lemma RemovedSound(s: State, p: nat)
    requires Sound(s) && p < |s.tabs|
    ensures Sound(State(s.tabs[..p] + s.tabs[p + 1..], Without(s.history, s.tabs[p].title)))
  {
    var tabs, history := s.tabs[..p] + s.tabs[p + 1..], Without(s.history, s.tabs[p].title);
    WithoutHas(s.history, s.tabs[p].title);
    forall k | 0 <= k < |history|
      ensures HasTitle(tabs, history[k])
    {
      var h :| 0 <= h < |s.history| && s.history[h] == history[k];
      var i :| 0 <= i < |s.tabs| && s.tabs[i].title == s.history[h];
      assert tabs[if i < p then i else i - 1] == s.tabs[i];
    }
  }

  // After a close that finds its tab and leaves any, exactly one tab is selected.
  lemma ClosedSound(s: State, which: Which)
    requires Sound(s)
    ensures Sound(Closed(s, which))
    ensures Place(s.tabs, which).Some? && Closed(s, which).tabs != [] ==> OneSelected(Closed(s, which).tabs)
  {
    var p := Place(s.tabs, which);
    if p.Some? {
      RemovedSound(s, p.value);
      var history := Without(s.history, s.tabs[p.value].title);
      var tabs := s.tabs[..p.value] + s.tabs[p.value + 1..];
      if history == [] {
        ChosenSound(State(tabs, []), At(0));
      } else {
        var last := history[|history| - 1];
        TitleFound(tabs, last);
        ChosenSound(State(tabs, history[..|history| - 1]), if last != "" then Titled(last) else At(0));
      }
    }
  }

  lemma StepKeeps(s: State, e: Event)
    requires Sound(s) && Enabled(s, e)
    ensures Sound(Step(s, e))
  {
    match e
    case Add(title, index, select) => AddedSound(s, title, index, select);
    case Select(which) => ChosenSound(s, which);
    case Unselect(which) =>
      var p := Place(s.tabs, which);
      if p.Some? {
        HiddenSound(s, p.value);
      }
    case Rename(i, title) => RenamedSound(s, i, title);
    case Close(which) => ClosedSound(s, which);
  }

  ghost predicate Runs(s: State, es: seq<Event>)
    decreases |es|
  {
    es == [] || (Enabled(s, es[0]) && Runs(Step(s, es[0]), es[1..]))
  }

  ghost function After(s: State, es: seq<Event>): State
    requires Runs(s, es)
    decreases |es|
  {
    if es == [] then s else After(Step(s, es[0]), es[1..])
  }

  lemma {:induction false} RunKeeps(s: State, es: seq<Event>)
    requires Sound(s) && Runs(s, es)
    ensures Sound(After(s, es))
    decreases |es|
  {
    if es != [] {
      StepKeeps(s, es[0]);
      RunKeeps(Step(s, es[0]), es[1..]);
    }
  }

  // Over every run from no tabs: at most one tab is selected, it is the one shown,
  // and every title of the history belongs to a tab; closing a tab then leaves
  // exactly one selected, if any is left.
  lemma EveryRun(es: seq<Event>, which: Which)
    requires Runs(State([], []), es)
    ensures Sound(After(State([], []), es))
    ensures var s := After(State([], []), es);
      Place(s.tabs, which).Some? && Closed(s, which).tabs != [] ==> OneSelected(Closed(s, which).tabs)
  {
    RunKeeps(State([], []), es);
    ClosedSound(After(State([], []), es), which);
  }
}
