// The module loader: many overlapping load calls share one status table and
// interleave through script-loaded events and 10 ms polls.

module LoaderTable {
  type Name = string

  // Module name -> names it depends on (an absent "dependencies" entry is []).
  type Table = map<Name, seq<Name>>

  ghost predicate Ranked(t: Table, rank: map<Name, nat>) {
    forall m :: m in t ==> m in rank && forall d :: d in t[m] && d in t ==> d in rank && rank[d] < rank[m]
  }

  // No module depends on itself, directly or through others.
  ghost predicate Acyclic(t: Table) {
    exists rank :: Ranked(t, rank)
  }

  ghost function Rank(t: Table, m: Name): nat
    requires Acyclic(t)
  {
    var rank :| Ranked(t, rank);
    if m in t then 1 + rank[m] else 0
  }

  // The order in which one name is queued: dependencies first, unknown names skipped.
  ghost function PostOrder(t: Table, m: Name): seq<Name>
    requires Acyclic(t)
    decreases Rank(t, m), 1, 0
  {
    if m !in t then [] else PostOrderAll(t, t[m], m) + [m]
  }

  // The queue of a list of names that are dependencies of parent.
  ghost function PostOrderAll(t: Table, names: seq<Name>, parent: Name): seq<Name>
    requires Acyclic(t)
    requires parent in t && forall d :: d in names ==> d in t[parent]
    decreases Rank(t, parent), 0, |names|
  {
    if names == [] then [] else PostOrderAll(t, names[..|names| - 1], parent) + PostOrder(t, names[|names| - 1])
  }

  // The queue of a whole load call.
  ghost function Queue(t: Table, asked: seq<Name>): seq<Name>
    requires Acyclic(t)
  {
    if asked == [] then [] else Queue(t, asked[..|asked| - 1]) + PostOrder(t, asked[|asked| - 1])
  }

  // Everything queued is known, and its known dependencies are queued before it.
  ghost predicate DepsFirst(t: Table, q: seq<Name>) {
    forall j :: 0 <= j < |q| ==> q[j] in t && forall d :: d in t[q[j]] && d in t ==> d in q[..j]
  }

  lemma DepsFirstConcat(t: Table, p: seq<Name>, q: seq<Name>)
    requires DepsFirst(t, p) && DepsFirst(t, q)
    ensures DepsFirst(t, p + q)
  {
    forall j | 0 <= j < |p + q|
      ensures (p + q)[j] in t && forall d :: d in t[(p + q)[j]] && d in t ==> d in (p + q)[..j]
    {
      if j < |p| {
        assert (p + q)[..j] == p[..j];
      } else {
        assert (p + q)[..j] == p + q[..j - |p|];
      }
    }
  }

  lemma {:induction false} PostOrderDepsFirst(t: Table, m: Name)
    requires Acyclic(t)
    ensures DepsFirst(t, PostOrder(t, m))
    ensures m in t ==> m in PostOrder(t, m)
    decreases Rank(t, m), 1, 0
  {
    if m in t {
      PostOrderAllDepsFirst(t, t[m], m);
      var p := PostOrderAll(t, t[m], m);
      assert (p + [m])[..|p|] == p;
      forall j | 0 <= j < |p| + 1
        ensures (p + [m])[j] in t && forall d :: d in t[(p + [m])[j]] && d in t ==> d in (p + [m])[..j]
      {
        if j < |p| {
          assert (p + [m])[..j] == p[..j];
        }
      }
    }
  }

  lemma {:induction false} PostOrderAllDepsFirst(t: Table, names: seq<Name>, parent: Name)
    requires Acyclic(t)
    requires parent in t && forall d :: d in names ==> d in t[parent]
    ensures DepsFirst(t, PostOrderAll(t, names, parent))
    ensures forall d :: d in names && d in t ==> d in PostOrderAll(t, names, parent)
    decreases Rank(t, parent), 0, |names|
  {
    if names != [] {
      var last := |names| - 1;
      PostOrderAllDepsFirst(t, names[..last], parent);
      PostOrderDepsFirst(t, names[last]);
      DepsFirstConcat(t, PostOrderAll(t, names[..last], parent), PostOrder(t, names[last]));
      assert names == names[..last] + [names[last]];
    }
  }

  lemma {:induction false} QueueDepsFirst(t: Table, asked: seq<Name>)
    requires Acyclic(t)
    ensures DepsFirst(t, Queue(t, asked))
    ensures forall m :: m in asked && m in t ==> m in Queue(t, asked)
  {
    if asked != [] {
      var last := |asked| - 1;
      QueueDepsFirst(t, asked[..last]);
      PostOrderDepsFirst(t, asked[last]);
      DepsFirstConcat(t, Queue(t, asked[..last]), PostOrder(t, asked[last]));
      assert asked == asked[..last] + [asked[last]];
    }
  }

  // A dependency path: each name is known and each next one is a dependency of the one before.
  ghost predicate IsChain(t: Table, c: seq<Name>) {
    && |c| > 0
    && (forall k :: 0 <= k < |c| ==> c[k] in t)
    && forall k :: 0 <= k < |c| - 1 ==> c[k + 1] in t[c[k]]
  }
}

module EasyLoader {
  import opened LoaderTable

  datatype Status = Loading | Loaded

  // What one load call is waiting for.
  datatype Phase = AwaitScript | AwaitTick | AwaitLocale | Finished | GaveUp

  datatype Call = Call(asked: seq<Name>, queue: seq<Name>, waited: nat, injected: bool, phase: Phase)

  datatype Config = Config(table: Table, timeout: int, localeKnown: bool)

  // The shared status table, the calls made so far, the scripts put into the
  // page (in order) and the calls whose callback has run (in order).
  datatype World = World(status: map<Name, Status>, calls: seq<Call>, injections: seq<Name>, fired: seq<nat>)

  datatype Event = Load(asked: seq<Name>) | Script(call: nat) | Tick(call: nat) | Locale(call: nat)

  const INITIAL := World(map[], [], [], [])

  predicate IsLoaded(status: map<Name, Status>, m: Name) {
    m in status && status[m] == Loaded
  }

  // The queue without its leading loaded modules.
  function DropLoaded(status: map<Name, Status>, q: seq<Name>): (r: seq<Name>)
    ensures r != [] ==> !IsLoaded(status, r[0])
  {
    if q != [] && IsLoaded(status, q[0]) then DropLoaded(status, q[1..]) else q
  }

  // What is dropped is a prefix, all of it loaded.
  lemma {:induction false} DropLoadedSuffix(status: map<Name, Status>, q: seq<Name>)
    ensures var r := DropLoaded(status, q);
      && |r| <= |q| && r == q[|q| - |r|..]
      && forall j :: 0 <= j < |q| - |r| ==> IsLoaded(status, q[j])
  {
    if q != [] && IsLoaded(status, q[0]) {
      DropLoadedSuffix(status, q[1..]);
    }
  }

  // Where a resumed call stops next, with the queue it then holds.
  function Settled(c: Config, status: map<Name, Status>, call: Call): Call {
    var q := DropLoaded(status, call.queue);
    if q == [] then
      Call(call.asked, q, call.waited, call.injected, if c.localeKnown && call.injected then AwaitLocale else Finished)
    else if q[0] !in status then
      Call(call.asked, q, call.waited, true, AwaitScript)
    else if call.waited < c.timeout then
      Call(call.asked, q, call.waited + 10, call.injected, AwaitTick)
    else
      Call(call.asked, q, call.waited, call.injected, GaveUp)
  }

  lemma SettledSkipsLoaded(c: Config, status: map<Name, Status>, call: Call)
    requires call.queue != [] && IsLoaded(status, call.queue[0])
    ensures Settled(c, status, call.(queue := call.queue[1..])) == Settled(c, status, call)
  {
    assert DropLoaded(status, call.queue) == DropLoaded(status, call.queue[1..]);
  }

  // A queue whose head is not loaded stays as it is.
  lemma SettledStops(c: Config, status: map<Name, Status>, call: Call)
    requires call.queue != [] ==> !IsLoaded(status, call.queue[0])
    ensures Settled(c, status, call) ==
      if call.queue == [] then call.(phase := if c.localeKnown && call.injected then AwaitLocale else Finished)
      else if call.queue[0] !in status then call.(injected := true, phase := AwaitScript)
      else if call.waited < c.timeout then call.(waited := call.waited + 10, phase := AwaitTick)
      else call.(phase := GaveUp)
  {
    assert DropLoaded(status, call.queue) == call.queue;
  }

  lemma UpdateTwice<T>(s: seq<T>, i: nat, x: T, y: T)
    requires i < |s|
    ensures s[i := x][i := y] == s[i := y]
  {
  }

  // The world after call i is resumed with that outcome.
  function Place(w: World, i: nat, call: Call): World
    requires i < |w.calls|
    requires call.phase == AwaitScript ==> call.queue != []
  {
    World(
      if call.phase == AwaitScript then w.status[call.queue[0] := Loading] else w.status,
      w.calls[i := call],
      if call.phase == AwaitScript then w.injections + [call.queue[0]] else w.injections,
      if call.phase == Finished then w.fired + [i] else w.fired)
  }

  function Resumed(c: Config, w: World, i: nat): World
    requires i < |w.calls|
  {
    Place(w, i, Settled(c, w.status, w.calls[i]))
  }

  predicate Enabled(w: World, e: Event) {
    match e
    case Load(_) => true
    case Script(i) => i < |w.calls| && w.calls[i].phase == AwaitScript && w.calls[i].queue != []
    case Tick(i) => i < |w.calls| && w.calls[i].phase == AwaitTick
    case Locale(i) => i < |w.calls| && w.calls[i].phase == AwaitLocale
  }

  ghost function Step(c: Config, w: World, e: Event): World
    requires Acyclic(c.table) && Enabled(w, e)
  {
    match e
    case Load(asked) =>
      var call := Call(asked, Queue(c.table, asked), 0, false, AwaitTick);
      Resumed(c, w.(calls := w.calls + [call]), |w.calls|)
    case Script(i) =>
      var q := w.calls[i].queue;
      Resumed(c, w.(status := w.status[q[0] := Loaded], calls := w.calls[i := w.calls[i].(queue := q[1..])]), i)
    case Tick(i) => Resumed(c, w, i)
    case Locale(i) => w.(calls := w.calls[i := w.calls[i].(phase := Finished)], fired := w.fired + [i])
  }

  // ---------------------------------------------------------------- the loader itself

  class Loader {
    const config: Config
    var status: map<Name, Status>
    var calls: seq<Call>
    var injections: seq<Name>
    var fired: seq<nat>

    constructor (config: Config)
      requires Acyclic(config.table)
      ensures this.config == config && Snapshot() == INITIAL
    {
      this.config := config;
      status, calls, injections, fired := map[], [], [], [];
    }

    function Snapshot(): World
      reads this
    {
      World(status, calls, injections, fired)
    }

    // Append the post-order of one name to the queue of a new call.
    method Add(queue: seq<Name>, name: Name) returns (queue': seq<Name>)
      requires Acyclic(config.table)
      ensures queue' == queue + PostOrder(config.table, name)
      decreases Rank(config.table, name)
    {
      queue' := queue;
      if name !in config.table {
        return;
      }
      var d := config.table[name];
      for i := 0 to |d|
        invariant queue' == queue + PostOrderAll(config.table, d[..i], name)
      {
        assert d[..i + 1][..i] == d[..i];
        queue' := Add(queue', d[i]);
      }
      assert d[..|d|] == d;
      queue' := queue' + [name];
    }

    method Load(asked: seq<Name>)
      requires Acyclic(config.table)
      modifies this
      ensures Snapshot() == Step(config, old(Snapshot()), Event.Load(asked))
    {
      var queue := [];
      for i := 0 to |asked|
        invariant queue == Queue(config.table, asked[..i])
        invariant Snapshot() == old(Snapshot())
      {
        assert asked[..i + 1][..i] == asked[..i];
        queue := Add(queue, asked[i]);
      }
      assert asked[..|asked|] == asked;
      calls := calls + [Call(asked, queue, 0, false, AwaitTick)];
      Resume(|calls| - 1);
    }

    // One turn of the polling function: runs until the call has to wait or ends.
    method Resume(i: nat)
      requires i < |calls|
      modifies this
      ensures Snapshot() == Resumed(config, old(Snapshot()), i)
      decreases |calls[i].queue|
    {
      var call := calls[i];
      if |call.queue| > 0 && IsLoaded(status, call.queue[0]) {
        SettledSkipsLoaded(config, status, call);
        UpdateTwice(calls, i, call.(queue := call.queue[1..]), Settled(config, status, call));
        calls := calls[i := call.(queue := call.queue[1..])];
        Resume(i);
        return;
      }
      SettledStops(config, status, call);
      if |call.queue| > 0 {
        var m := call.queue[0];
        if m !in status {
          calls := calls[i := call.(injected := true, phase := AwaitScript)];
          status := status[m := Loading];
          injections := injections + [m];
        } else if call.waited < config.timeout {
          calls := calls[i := call.(waited := call.waited + 10, phase := AwaitTick)];
        } else {
          calls := calls[i := call.(phase := GaveUp)];
        }
      } else if config.localeKnown && call.injected {
        calls := calls[i := call.(phase := AwaitLocale)];
      } else {
        calls := calls[i := call.(phase := Finished)];
        fired := fired + [i];
      }
    }

    // The script at the head of call i's queue has arrived.
    method ScriptLoaded(i: nat)
      requires Acyclic(config.table) && Enabled(Snapshot(), Script(i))
      modifies this
      ensures Snapshot() == Step(config, old(Snapshot()), Script(i))
    {
      status := status[calls[i].queue[0] := Loaded];
      calls := calls[i := calls[i].(queue := calls[i].queue[1..])];
      Resume(i);
    }

    // The 10 ms timer of call i has expired.
    method TimerExpired(i: nat)
      requires Acyclic(config.table) && Enabled(Snapshot(), Tick(i))
      modifies this
      ensures Snapshot() == Step(config, old(Snapshot()), Tick(i))
    {
      Resume(i);
    }

    // The locale script of call i has arrived.
    method LocaleLoaded(i: nat)
      requires Acyclic(config.table) && Enabled(Snapshot(), Locale(i))
      modifies this
      ensures Snapshot() == Step(config, old(Snapshot()), Locale(i))
    {
      calls := calls[i := calls[i].(phase := Finished)];
      fired := fired + [i];
    }
  }
}
