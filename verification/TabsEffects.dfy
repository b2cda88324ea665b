// What each operation on a row of tabs does to the tabs and to the history.

module TabsEffects {
  import opened Common
  import opened Tabs
  import opened TabsRuns

  // Tab i is the one a place or a title names; of several with a title the first.
  ghost predicate Names(tabs: seq<Tab>, which: Which, i: nat) {
    && i < |tabs|
    && match which
       case At(index) => i == index
       case Titled(title) => tabs[i].title == title && forall j :: 0 <= j < i ==> tabs[j].title != title
  }

  ghost predicate OnlyShown(tabs: seq<Tab>, i: nat) {
    i < |tabs| && forall j :: 0 <= j < |tabs| ==> tabs[j].selected == tabs[j].open == (j == i)
  }

  ghost function Titles(tabs: seq<Tab>): (r: seq<string>)
    ensures |r| == |tabs|
  {
    seq(|tabs|, i requires 0 <= i < |tabs| => tabs[i].title)
  }

  lemma {:induction false} TitleFirst(tabs: seq<Tab>, title: string)
    ensures var r := TitleAt(tabs, title);
      r.Some? ==> forall j :: 0 <= j < r.value ==> tabs[j].title != title
    ensures TitleAt(tabs, title) == None ==> forall j :: 0 <= j < |tabs| ==> tabs[j].title != title
  {
    if tabs != [] && tabs[0].title != title {
      TitleFirst(tabs[1..], title);
      assert forall j :: 0 < j < |tabs| ==> tabs[j] == tabs[1..][j - 1];
    }
  }

  lemma PlaceNames(tabs: seq<Tab>, which: Which, i: nat)
    ensures Place(tabs, which) == Some(i) <==> Names(tabs, which, i)
    ensures Place(tabs, which) == None ==> !Names(tabs, which, i)
  {
    if which.Titled? {
      TitleFirst(tabs, which.title);
      var r := TitleAt(tabs, which.title);
      if r.Some? && Names(tabs, which, i) {
        assert !(r.value < i) && !(i < r.value);
      }
    }
  }

  lemma OpenShows(s: State, i: nat)
    requires Sound(s) && i < |s.tabs| && !s.tabs[i].open
    ensures var t := Shown(s, i);
      OnlyShown(t.tabs, i) && Titles(t.tabs) == Titles(s.tabs) && t.history == s.history + [s.tabs[i].title]
  {
    ShownSound(s, i);
    var p := FirstSelected(s.tabs);
    var hidden := if p.Some? then Hidden(s, p.value) else s;
    if p.Some? {
      HiddenSound(s, p.value);
    }
    assert Shown(s, i) == State(hidden.tabs[i := hidden.tabs[i].(selected := true, open := true)],
                                hidden.history + [hidden.tabs[i].title]);
  }

  // Selecting the tab a place or a title names leaves that tab the one shown, and
  // records its title just if it was not shown; naming none does nothing.
  lemma SelectShows(s: State, which: Which, i: nat)
    requires Sound(s)
    ensures Names(s.tabs, which, i) ==>
      var t := Step(s, Select(which));
      && OnlyShown(t.tabs, i) && Titles(t.tabs) == Titles(s.tabs)
      && t.history == s.history + if s.tabs[i].open then [] else [s.tabs[i].title]
    ensures (forall j: nat :: !Names(s.tabs, which, j)) ==> Step(s, Select(which)) == s
  {
    PlaceNames(s.tabs, which, i);
    var p := Place(s.tabs, which);
    if p.Some? {
      PlaceNames(s.tabs, which, p.value);
      if Names(s.tabs, which, i) && !s.tabs[i].open {
        OpenShows(s, i);
      }
    }
  }

  // Unselecting the tab shown leaves none shown; unselecting another does nothing.
  lemma UnselectHides(s: State, which: Which, i: nat)
    requires Sound(s)
    ensures Names(s.tabs, which, i) && s.tabs[i].open ==>
      var t := Step(s, Unselect(which));
      && Titles(t.tabs) == Titles(s.tabs) && t.history == s.history
      && forall j :: 0 <= j < |t.tabs| ==> !t.tabs[j].selected && !t.tabs[j].open
    ensures Names(s.tabs, which, i) && !s.tabs[i].open ==> Step(s, Unselect(which)) == s
    ensures (forall j: nat :: !Names(s.tabs, which, j)) ==> Step(s, Unselect(which)) == s
  {
    PlaceNames(s.tabs, which, i);
    var p := Place(s.tabs, which);
    if p.Some? {
      PlaceNames(s.tabs, which, p.value);
    }
  }

  // Where a new tab goes.
  ghost predicate Clamped(index: Option<int>, n: nat, k: nat) {
    if index == None then k == n
    else if index.value < 0 then k == 0
    else if index.value > n then k == n
    else k == index.value
  }

  // A new tab stands at its index, kept within the row; if it is to be selected it is
  // the one shown, otherwise the others stay as they were.
  lemma AddShows(s: State, title: string, index: Option<int>, select: bool, k: nat)
    requires Sound(s) && Clamped(index, |s.tabs|, k)
    ensures k <= |s.tabs|
    ensures var t := Step(s, Add(title, index, select));
      && Titles(t.tabs) == Titles(s.tabs)[..k] + [title] + Titles(s.tabs)[k..]
      && (select ==> OnlyShown(t.tabs, k) && t.history == s.history + [title])
      && (!select ==> t.history == s.history && t.tabs == s.tabs[..k] + [Tab(title, false, false)] + s.tabs[k..])
  {
    AddedSound(s, title, index, false);
    var a := s.(tabs := s.tabs[..k] + [Tab(title, false, false)] + s.tabs[k..]);
    assert a == Added(s, title, index, false);
    assert Titles(a.tabs) == Titles(s.tabs)[..k] + [title] + Titles(s.tabs)[k..];
    if select {
      SelectShows(a, At(k), k);
    }
  }

  // A renamed tab has its new title, and so have the entries of the history that had
  // the old one; nothing else changes.
  lemma RenameRenames(s: State, i: nat, title: string)
    requires i < |s.tabs|
    ensures var t := Step(s, Rename(i, title));
      && t.tabs == s.tabs[i := Tab(title, s.tabs[i].selected, s.tabs[i].open)]
      && |t.history| == |s.history|
      && forall k :: 0 <= k < |s.history| ==>
           t.history[k] == if s.history[k] == s.tabs[i].title then title else s.history[k]
  {
    ReplacedAt(s.history, s.tabs[i].title, title);
  }

  // ---------------------------------------------------------------- closing

  // The entries of a history other than a title, in order.
  ghost function Others(history: seq<string>, title: string): seq<string> {
    if history == [] then []
    else
      var last := history[|history| - 1];
      Others(history[..|history| - 1], title) + if last == title then [] else [last]
  }

  lemma {:induction false} WithoutSnoc(history: seq<string>, last: string, title: string)
    ensures Without(history + [last], title) == Without(history, title) + if last == title then [] else [last]
  {
    if history == [] {
      assert [last][1..] == [];
    } else {
      assert (history + [last])[1..] == history[1..] + [last];
      WithoutSnoc(history[1..], last, title);
    }
  }

  lemma {:induction false} WithoutIsOthers(history: seq<string>, title: string)
    ensures Without(history, title) == Others(history, title)
  {
    if history != [] {
      var n := |history| - 1;
      assert history == history[..n] + [history[n]];
      WithoutIsOthers(history[..n], title);
      WithoutSnoc(history[..n], history[n], title);
    }
  }

  // The tab to show once a tab has gone, history being the entries left.
  ghost predicate FallsBack(tabs: seq<Tab>, history: seq<string>, i: nat) {
    if history == [] || history[|history| - 1] == "" then i == 0
    else Names(tabs, Titled(history[|history| - 1]), i)
  }

  // Closing a tab takes it away, drops its title and the last entry left from the
  // history, and shows the tab of that entry, or the first tab if there is none.
  lemma CloseShows(s: State, which: Which, p: nat)
    requires Sound(s) && Names(s.tabs, which, p) && |s.tabs| > 1
    ensures var t := Step(s, Close(which)); var tabs := s.tabs[..p] + s.tabs[p + 1..];
      var left := Others(s.history, s.tabs[p].title); var popped := if left == [] then [] else left[..|left| - 1];
      && Titles(t.tabs) == Titles(tabs)
      && exists i: nat ::
           && FallsBack(tabs, left, i) && OnlyShown(t.tabs, i)
           && t.history == popped + if tabs[i].open then [] else [tabs[i].title]
  {
    hide Step, Place, Without;
    RemovedSound(s, p);
    WithoutIsOthers(s.history, s.tabs[p].title);
    var tabs, left := s.tabs[..p] + s.tabs[p + 1..], Others(s.history, s.tabs[p].title);
    var i := FallBack(State(tabs, left));
    var popped := State(tabs, if left == [] then [] else left[..|left| - 1]);
    assert Sound(popped);
    var to := if left == [] || left[|left| - 1] == "" then At(0) else Titled(left[|left| - 1]);
    assert Names(tabs, to, i);
    SelectShows(popped, to, i);
    ClosedIs(s, which, p, to);
  }

  lemma ClosedIs(s: State, which: Which, p: nat, to: Which)
    requires Names(s.tabs, which, p)
    requires var left := Others(s.history, s.tabs[p].title);
      to == if left == [] || left[|left| - 1] == "" then At(0) else Titled(left[|left| - 1])
    ensures var left := Others(s.history, s.tabs[p].title);
      var rest := State(s.tabs[..p] + s.tabs[p + 1..], if left == [] then [] else left[..|left| - 1]);
      Step(s, Close(which)) == Step(rest, Select(to))
  {
    hide Chosen, Place, Without, Names;
    PlaceNames(s.tabs, which, p);
    WithoutIsOthers(s.history, s.tabs[p].title);
  }

  lemma FallBack(s: State) returns (i: nat)
    requires Sound(s) && s.tabs != []
    ensures FallsBack(s.tabs, s.history, i) && i < |s.tabs|
  {
    if s.history == [] || s.history[|s.history| - 1] == "" {
      i := 0;
    } else {
      var last := s.history[|s.history| - 1];
      TitleFound(s.tabs, last);
      i := TitleAt(s.tabs, last).value;
      PlaceNames(s.tabs, Titled(last), i);
    }
  }

  // The last tab leaves nothing, and naming no tab closes none.
  lemma CloseLast(s: State, which: Which, p: nat)
    requires Sound(s)
    ensures Names(s.tabs, which, p) && |s.tabs| == 1 ==> Step(s, Close(which)).tabs == []
    ensures (forall j: nat :: !Names(s.tabs, which, j)) ==> Step(s, Close(which)) == s
  {
    PlaceNames(s.tabs, which, p);
    var q := Place(s.tabs, which);
    if q.Some? {
      PlaceNames(s.tabs, which, q.value);
      if |s.tabs| == 1 {
        assert s.tabs[..q.value] + s.tabs[q.value + 1..] == [];
        ClosedSound(s, which);
      }
    }
  }
}
