// What every interleaving of load calls, arriving scripts and polls keeps.

module EasyLoaderRuns {
  import opened Common
  import opened LoaderTable
  import opened EasyLoader

  ghost predicate Runs(c: Config, es: seq<Event>)
    requires Acyclic(c.table)
    decreases |es|, 0
  {
    es == [] || (Runs(c, es[..|es| - 1]) && Enabled(After(c, es[..|es| - 1]), es[|es| - 1]))
  }

  // The world after a run.
  ghost function After(c: Config, es: seq<Event>): World
    requires Acyclic(c.table) && Runs(c, es)
    decreases |es|, 1
  {
    if es == [] then INITIAL else Step(c, After(c, es[..|es| - 1]), es[|es| - 1])
  }

  // ---------------------------------------------------------------- the invariant

  // Whatever is loading or loaded has all its direct dependencies loaded.
  ghost predicate StatusClosed(c: Config, status: map<Name, Status>) {
    forall m :: m in status ==> m in c.table && forall d :: d in c.table[m] && d in c.table ==> IsLoaded(status, d)
  }

  ghost predicate InjectedOnce(w: World) {
    Distinct(w.injections) && forall m :: m in w.status <==> m in w.injections
  }

  // The call's queue is what is left of its post-order; the rest is loaded.
  ghost predicate QueueOk(c: Config, status: map<Name, Status>, call: Call)
    requires Acyclic(c.table)
  {
    var full := Queue(c.table, call.asked);
    && |call.queue| <= |full|
    && call.queue == full[|full| - |call.queue|..]
    && forall j :: 0 <= j < |full| - |call.queue| ==> IsLoaded(status, full[j])
  }

  ghost predicate PhaseOk(c: Config, status: map<Name, Status>, call: Call) {
    match call.phase
    case AwaitScript => call.queue != [] && call.queue[0] in status
    case AwaitTick => call.queue != [] && call.queue[0] in status && 10 <= call.waited
    case AwaitLocale => call.queue == []
    case Finished => call.queue == []
    case GaveUp => call.queue != [] && c.timeout <= call.waited
  }

  ghost predicate Owns(call: Call, m: Name) {
    call.phase == AwaitScript && call.queue != [] && call.queue[0] == m
  }

  // The invariant while call i is running; no call runs when i is the number of calls.
  ghost predicate Between(c: Config, w: World, i: nat)
    requires Acyclic(c.table)
  {
    && StatusClosed(c, w.status)
    && InjectedOnce(w)
    && (forall j :: 0 <= j < |w.calls| ==> QueueOk(c, w.status, w.calls[j]))
    && (forall j :: 0 <= j < |w.calls| && j != i ==> PhaseOk(c, w.status, w.calls[j]))
    && Distinct(w.fired)
    && (forall k: nat :: k in w.fired <==> k < |w.calls| && k != i && w.calls[k].phase == Finished)
    && (forall m :: m in w.status && w.status[m] == Loading ==>
          exists j :: 0 <= j < |w.calls| && j != i && Owns(w.calls[j], m))
  }

  ghost predicate Inv(c: Config, w: World)
    requires Acyclic(c.table)
  {
    Between(c, w, |w.calls|)
  }

  // More loaded modules never hurt a queue.
  lemma QueueOkMonotone(c: Config, status: map<Name, Status>, status': map<Name, Status>, call: Call)
    requires Acyclic(c.table) && QueueOk(c, status, call)
    requires forall m :: IsLoaded(status, m) ==> IsLoaded(status', m)
    ensures QueueOk(c, status', call)
  {
  }

  lemma QueueOkDrop(c: Config, status: map<Name, Status>, call: Call)
    requires Acyclic(c.table) && QueueOk(c, status, call)
    ensures QueueOk(c, status, call.(queue := DropLoaded(status, call.queue)))
  {
    hide DropLoaded, Queue;
    var full, q, r := Queue(c.table, call.asked), call.queue, DropLoaded(status, call.queue);
    DropLoadedSuffix(status, q);
    var a, b := |full| - |q|, |full| - |r|;
    assert r == full[b..];
    forall j | 0 <= j < b
      ensures IsLoaded(status, full[j])
    {
      if a <= j {
        assert full[j] == q[j - a];
      }
    }
  }

  lemma QueueOkShift(c: Config, status: map<Name, Status>, call: Call)
    requires Acyclic(c.table) && QueueOk(c, status, call)
    requires call.queue != [] && IsLoaded(status, call.queue[0])
    ensures QueueOk(c, status, call.(queue := call.queue[1..]))
  {
    var full, q := Queue(c.table, call.asked), call.queue;
    assert full[|full| - |q|] == q[0];
    assert q[1..] == full[|full| - |q| + 1..];
  }

  // The head of a queue has all its dependencies loaded.
  lemma HeadReady(c: Config, status: map<Name, Status>, call: Call)
    requires Acyclic(c.table) && QueueOk(c, status, call) && call.queue != []
    ensures var m := call.queue[0];
      m in c.table && forall d :: d in c.table[m] && d in c.table ==> IsLoaded(status, d)
  {
    var full := Queue(c.table, call.asked);
    QueueDepsFirst(c.table, call.asked);
    var k := |full| - |call.queue|;
    assert full[k] == call.queue[0];
    forall d | d in c.table[full[k]] && d in c.table
      ensures IsLoaded(status, d)
    {
      assert d in full[..k];
    }
  }

  lemma SettledQueue(c: Config, status: map<Name, Status>, call: Call)
    ensures var s := Settled(c, status, call);
      s.asked == call.asked && s.queue == DropLoaded(status, call.queue)
  {
  }

  lemma SettledQueueOk(c: Config, status: map<Name, Status>, call: Call)
    requires Acyclic(c.table) && QueueOk(c, status, call)
    ensures QueueOk(c, status, Settled(c, status, call))
  {
    QueueOkDrop(c, status, call);
    SettledQueue(c, status, call);
  }

  lemma SettledPhaseOk(c: Config, status: map<Name, Status>, call: Call)
    ensures var s := Settled(c, status, call);
      && (s.phase == AwaitScript ==> s.queue != [] && s.queue[0] !in status)
      && PhaseOk(c, if s.phase == AwaitScript then status[s.queue[0] := Loading] else status, s)
  {
  }

  lemma ResumedKeepsStatus(c: Config, w: World, i: nat)
    requires Acyclic(c.table) && i < |w.calls| && Between(c, w, i)
    ensures var w' := Resumed(c, w, i);
      && StatusClosed(c, w'.status) && InjectedOnce(w')
      && (forall m :: m in w.status ==> m in w'.status && w'.status[m] == w.status[m])
      && forall m :: IsLoaded(w.status, m) <==> IsLoaded(w'.status, m)
  {
    hide Settled, DropLoaded, QueueOk, PhaseOk, Owns;
    var s := Settled(c, w.status, w.calls[i]);
    SettledQueueOk(c, w.status, w.calls[i]);
    SettledPhaseOk(c, w.status, w.calls[i]);
    if s.phase == AwaitScript {
      HeadReady(c, w.status, s);
      assert s.queue[0] !in w.status;
    }
  }

  lemma ResumedQueues(c: Config, w: World, i: nat, j: nat)
    requires Acyclic(c.table) && i < |w.calls| && Between(c, w, i) && j < |w.calls|
    ensures var w' := Resumed(c, w, i); QueueOk(c, w'.status, w'.calls[j])
  {
    hide QueueOk, PhaseOk, Settled, DropLoaded, Owns, StatusClosed, InjectedOnce;
    var w' := Resumed(c, w, i);
    ResumedKeepsStatus(c, w, i);
    SettledQueueOk(c, w.status, w.calls[i]);
    QueueOkMonotone(c, w.status, w'.status, w'.calls[j]);
  }

  lemma PhaseOkMonotone(c: Config, status: map<Name, Status>, status': map<Name, Status>, call: Call)
    requires PhaseOk(c, status, call)
    requires forall m :: m in status ==> m in status'
    ensures PhaseOk(c, status', call)
  {
  }

  lemma ResumedPhases(c: Config, w: World, i: nat, j: nat)
    requires Acyclic(c.table) && i < |w.calls| && Between(c, w, i) && j < |w.calls|
    ensures var w' := Resumed(c, w, i); PhaseOk(c, w'.status, w'.calls[j])
  {
    hide QueueOk, PhaseOk, Settled, DropLoaded, Owns, StatusClosed, InjectedOnce;
    var w' := Resumed(c, w, i);
    ResumedKeepsStatus(c, w, i);
    SettledPhaseOk(c, w.status, w.calls[i]);
    if j != i {
      PhaseOkMonotone(c, w.status, w'.status, w.calls[j]);
    }
  }

  lemma ResumedOwners(c: Config, w: World, i: nat, m: Name)
    requires Acyclic(c.table) && i < |w.calls| && Between(c, w, i)
    requires var w' := Resumed(c, w, i); m in w'.status && w'.status[m] == Loading
    ensures var w' := Resumed(c, w, i); exists j :: 0 <= j < |w'.calls| && Owns(w'.calls[j], m)
  {
    hide QueueOk, PhaseOk, Settled, DropLoaded, StatusClosed, InjectedOnce;
    var w' := Resumed(c, w, i);
    ResumedKeepsStatus(c, w, i);
    SettledPhaseOk(c, w.status, w.calls[i]);
    if m in w.status {
      var j :| 0 <= j < |w.calls| && j != i && Owns(w.calls[j], m);
      assert Owns(w'.calls[j], m);
    } else {
      assert Owns(w'.calls[i], m);
    }
  }

  // A resumed call runs its callback exactly when it finishes.
  lemma ResumedFired(c: Config, w: World, i: nat, k: nat)
    requires Acyclic(c.table) && i < |w.calls| && Between(c, w, i)
    ensures var w' := Resumed(c, w, i);
      Distinct(w'.fired) && (k in w'.fired <==> k < |w'.calls| && w'.calls[k].phase == Finished)
  {
    hide QueueOk, PhaseOk, Settled, DropLoaded, StatusClosed, InjectedOnce, Owns;
    assert i !in w.fired;
  }

  lemma ResumedKeeps(c: Config, w: World, i: nat)
    requires Acyclic(c.table) && i < |w.calls| && Between(c, w, i)
    ensures Inv(c, Resumed(c, w, i))
  {
    hide QueueOk, PhaseOk, Settled, DropLoaded, StatusClosed, InjectedOnce, Owns;
    var w' := Resumed(c, w, i);
    ResumedKeepsStatus(c, w, i);
    forall j: nat | j < |w'.calls|
      ensures QueueOk(c, w'.status, w'.calls[j]) && PhaseOk(c, w'.status, w'.calls[j])
    {
      ResumedQueues(c, w, i, j);
      ResumedPhases(c, w, i, j);
    }
    forall m | m in w'.status && w'.status[m] == Loading
      ensures exists j :: 0 <= j < |w'.calls| && j != |w'.calls| && Owns(w'.calls[j], m)
    {
      ResumedOwners(c, w, i, m);
    }
    forall k: nat
      ensures Distinct(w'.fired) && (k in w'.fired <==> k < |w'.calls| && w'.calls[k].phase == Finished)
    {
      ResumedFired(c, w, i, k);
    }
    ResumedFired(c, w, i, 0);
  }

  lemma LoadKeeps(c: Config, w: World, asked: seq<Name>)
    requires Acyclic(c.table) && Inv(c, w)
    ensures Inv(c, Step(c, w, Load(asked)))
  {
    var call := Call(asked, Queue(c.table, asked), 0, false, AwaitTick);
    var w' := w.(calls := w.calls + [call]);
    assert QueueOk(c, w'.status, call);
    forall m | m in w'.status && w'.status[m] == Loading
      ensures exists j :: 0 <= j < |w'.calls| && j != |w.calls| && Owns(w'.calls[j], m)
    {
      var j :| 0 <= j < |w.calls| && j != |w.calls| && Owns(w.calls[j], m);
      assert Owns(w'.calls[j], m);
    }
    assert Between(c, w', |w.calls|);
    ResumedKeeps(c, w', |w.calls|);
  }

  // The world once call i's script has arrived, before the call is resumed.
  function Arrived(w: World, i: nat): World
    requires Enabled(w, Script(i))
  {
    var q := w.calls[i].queue;
    w.(status := w.status[q[0] := Loaded], calls := w.calls[i := w.calls[i].(queue := q[1..])])
  }

  lemma ArrivedQueues(c: Config, w: World, i: nat)
    requires Acyclic(c.table) && Inv(c, w) && Enabled(w, Script(i))
    ensures var w' := Arrived(w, i);
      forall j :: 0 <= j < |w'.calls| ==> QueueOk(c, w'.status, w'.calls[j])
  {
    var w' := Arrived(w, i);
    forall j | 0 <= j < |w'.calls|
      ensures QueueOk(c, w'.status, w'.calls[j])
    {
      QueueOkMonotone(c, w.status, w'.status, w.calls[j]);
      if j == i {
        QueueOkShift(c, w'.status, w.calls[i]);
      }
    }
  }

  lemma ArrivedOwners(c: Config, w: World, i: nat, m: Name)
    requires Acyclic(c.table) && Inv(c, w) && Enabled(w, Script(i))
    requires var w' := Arrived(w, i); m in w'.status && w'.status[m] == Loading
    ensures var w' := Arrived(w, i);
      exists j :: 0 <= j < |w'.calls| && j != i && Owns(w'.calls[j], m)
  {
    var j :| 0 <= j < |w.calls| && j != |w.calls| && Owns(w.calls[j], m);
    assert Owns(Arrived(w, i).calls[j], m);
  }

  lemma ScriptKeeps(c: Config, w: World, i: nat)
    requires Acyclic(c.table) && Inv(c, w) && Enabled(w, Script(i))
    ensures Inv(c, Step(c, w, Script(i)))
  {
    var w' := Arrived(w, i);
    ArrivedQueues(c, w, i);
    forall m | m in w'.status && w'.status[m] == Loading
      ensures exists j :: 0 <= j < |w'.calls| && j != i && Owns(w'.calls[j], m)
    {
      ArrivedOwners(c, w, i, m);
    }
    assert PhaseOk(c, w.status, w.calls[i]);
    assert StatusClosed(c, w'.status) && InjectedOnce(w');
    assert Between(c, w', i);
    ResumedKeeps(c, w', i);
  }

  lemma TickKeeps(c: Config, w: World, i: nat)
    requires Acyclic(c.table) && Inv(c, w) && Enabled(w, Tick(i))
    ensures Inv(c, Step(c, w, Tick(i)))
  {
    forall m | m in w.status && w.status[m] == Loading
      ensures exists j :: 0 <= j < |w.calls| && j != i && Owns(w.calls[j], m)
    {
      var j :| 0 <= j < |w.calls| && j != |w.calls| && Owns(w.calls[j], m);
      assert j != i;
    }
    assert Between(c, w, i);
    ResumedKeeps(c, w, i);
  }

  lemma LocalePhases(c: Config, w: World, i: nat)
    requires Acyclic(c.table) && Inv(c, w) && Enabled(w, Locale(i))
    ensures var w' := Step(c, w, Locale(i));
      forall j :: 0 <= j < |w'.calls| ==> QueueOk(c, w'.status, w'.calls[j]) && PhaseOk(c, w'.status, w'.calls[j])
  {
    hide StatusClosed, InjectedOnce, Owns;
    var w' := Step(c, w, Locale(i));
    forall j | 0 <= j < |w'.calls|
      ensures QueueOk(c, w'.status, w'.calls[j]) && PhaseOk(c, w'.status, w'.calls[j])
    {
      assert QueueOk(c, w.status, w.calls[j]) && PhaseOk(c, w.status, w.calls[j]);
      assert w'.calls[j].queue == w.calls[j].queue && w'.calls[j].asked == w.calls[j].asked;
    }
  }

  lemma LocaleKeeps(c: Config, w: World, i: nat)
    requires Acyclic(c.table) && Inv(c, w) && Enabled(w, Locale(i))
    ensures Inv(c, Step(c, w, Locale(i)))
  {
    hide QueueOk, PhaseOk, StatusClosed;
    var w' := Step(c, w, Locale(i));
    LocalePhases(c, w, i);
    assert i !in w.fired;
    forall m | m in w'.status && w'.status[m] == Loading
      ensures exists j :: 0 <= j < |w'.calls| && j != |w'.calls| && Owns(w'.calls[j], m)
    {
      var j :| 0 <= j < |w.calls| && j != |w.calls| && Owns(w.calls[j], m);
      assert Owns(w'.calls[j], m);
    }
  }

  lemma StepKeeps(c: Config, w: World, e: Event)
    requires Acyclic(c.table) && Inv(c, w) && Enabled(w, e)
    ensures Inv(c, Step(c, w, e))
  {
    match e
    case Load(asked) => LoadKeeps(c, w, asked);
    case Script(i) => ScriptKeeps(c, w, i);
    case Tick(i) => TickKeeps(c, w, i);
    case Locale(i) => LocaleKeeps(c, w, i);
  }

  // Every run keeps the invariant.
  lemma {:induction false} RunKeeps(c: Config, es: seq<Event>)
    requires Acyclic(c.table) && Runs(c, es)
    ensures Inv(c, After(c, es))
  {
    if es != [] {
      RunKeeps(c, es[..|es| - 1]);
      StepKeeps(c, After(c, es[..|es| - 1]), es[|es| - 1]);
    }
  }

  // ---------------------------------------------------------------- safety of every run

  lemma {:induction false} ChainLoaded(c: Config, status: map<Name, Status>, chain: seq<Name>)
    requires StatusClosed(c, status) && IsChain(c.table, chain)
    requires if |chain| == 1 then IsLoaded(status, chain[0]) else chain[0] in status
    ensures IsLoaded(status, chain[|chain| - 1])
  {
    if |chain| > 1 {
      assert IsLoaded(status, chain[1]);
      ChainLoaded(c, status, chain[1..]);
    }
  }

  // A module that is loading or loaded has all its transitive dependencies loaded.
  lemma LoadedAfterDependencies(c: Config, es: seq<Event>, chain: seq<Name>)
    requires Acyclic(c.table) && Runs(c, es)
    requires IsChain(c.table, chain) && |chain| > 1
    requires chain[0] in After(c, es).status
    ensures IsLoaded(After(c, es).status, chain[|chain| - 1])
  {
    RunKeeps(c, es);
    ChainLoaded(c, After(c, es).status, chain);
  }

  // No script is put into the page twice, and exactly the modules with a status have been put there.
  lemma InjectedAtMostOnce(c: Config, es: seq<Event>)
    requires Acyclic(c.table) && Runs(c, es)
    ensures Distinct(After(c, es).injections)
    ensures forall m :: m in After(c, es).status <==> m in After(c, es).injections
  {
    RunKeeps(c, es);
  }

  // A callback runs at most once, and once it has run everything it asked for is loaded.
  lemma CallbackOnceAndLoaded(c: Config, es: seq<Event>)
    requires Acyclic(c.table) && Runs(c, es)
    ensures var w := After(c, es);
      && Distinct(w.fired)
      && (forall i :: i in w.fired ==> i < |w.calls|)
      && forall i, chain :: i in w.fired && IsChain(c.table, chain) && chain[0] in w.calls[i].asked ==>
           IsLoaded(w.status, chain[|chain| - 1])
  {
    RunKeeps(c, es);
    var w := After(c, es);
    forall i, chain | i in w.fired && IsChain(c.table, chain) && chain[0] in w.calls[i].asked
      ensures IsLoaded(w.status, chain[|chain| - 1])
    {
      var call := w.calls[i];
      assert PhaseOk(c, w.status, call) && QueueOk(c, w.status, call);
      QueueDepsFirst(c.table, call.asked);
      var full := Queue(c.table, call.asked);
      var k :| 0 <= k < |full| && full[k] == chain[0];
      assert IsLoaded(w.status, full[k]);
      ChainLoaded(c, w.status, chain);
    }
  }

  // ---------------------------------------------------------------- every call makes finitely many steps

  // Polls a call may still make, 10 ms apart.
  function PollsLeft(c: Config, waited: nat): nat
    decreases c.timeout - waited
  {
    if waited < c.timeout then 1 + PollsLeft(c, waited + 10) else 0
  }

  // They all start within the timeout.
  lemma {:induction false} PollsWithinTimeout(c: Config, waited: nat)
    ensures PollsLeft(c, waited) > 0 ==> waited + 10 * (PollsLeft(c, waited) - 1) < c.timeout
    ensures c.timeout <= waited + 10 * PollsLeft(c, waited)
    decreases c.timeout - waited
  {
    if waited < c.timeout {
      PollsWithinTimeout(c, waited + 10);
    }
  }

  // An upper bound on the events a call still takes part in.
  function Budget(c: Config, call: Call): nat {
    if call.phase == Finished || call.phase == GaveUp then 0
    else |call.queue| + PollsLeft(c, call.waited) + 1
  }

  function Owner(e: Event): int {
    match e
    case Load(_) => -1
    case Script(i) => i
    case Tick(i) => i
    case Locale(i) => i
  }

  function EventsOf(es: seq<Event>, i: nat): nat {
    if es == [] then 0
    else EventsOf(es[..|es| - 1], i) + if Owner(es[|es| - 1]) == i then 1 else 0
  }

  lemma SettledBudget(c: Config, status: map<Name, Status>, call: Call)
    ensures Settled(c, status, call).asked == call.asked
    ensures Budget(c, Settled(c, status, call)) <= |call.queue| + PollsLeft(c, call.waited) + 1
    ensures call.queue != [] && call.queue[0] in status ==>
      Budget(c, Settled(c, status, call)) <= |call.queue| + PollsLeft(c, call.waited)
  {
    DropLoadedSuffix(status, call.queue);
  }

  // An event shrinks the budget of the call it belongs to and leaves the others alone.
  lemma StepBudget(c: Config, w: World, e: Event, i: nat)
    requires Acyclic(c.table) && Inv(c, w) && Enabled(w, e) && i < |Step(c, w, e).calls|
    ensures var call' := Step(c, w, e).calls[i];
      if i < |w.calls| then
        && call'.asked == w.calls[i].asked
        && Budget(c, call') + (if Owner(e) == i then 1 else 0) <= Budget(c, w.calls[i])
      else
        && Owner(e) == -1
        && Budget(c, call') <= |Queue(c.table, call'.asked)| + PollsLeft(c, 0) + 1
  {
    hide QueueOk, Settled, DropLoaded, PollsLeft, StatusClosed, InjectedOnce, Owns, Queue;
    match e
    case Load(asked) =>
      SettledBudget(c, w.status, Call(asked, Queue(c.table, asked), 0, false, AwaitTick));
    case Script(j) =>
      assert PhaseOk(c, w.status, w.calls[j]);
      var q := w.calls[j].queue;
      SettledBudget(c, w.status[q[0] := Loaded], w.calls[j].(queue := q[1..]));
    case Tick(j) =>
      assert PhaseOk(c, w.status, w.calls[j]);
      SettledBudget(c, w.status, w.calls[j]);
    case Locale(j) =>
  }

  lemma {:induction false} NoEventsBeforeCreation(c: Config, es: seq<Event>, i: nat)
    requires Acyclic(c.table) && Runs(c, es) && |After(c, es).calls| <= i
    ensures EventsOf(es, i) == 0
  {
    if es != [] {
      NoEventsBeforeCreation(c, es[..|es| - 1], i);
    }
  }

  // A load call takes part in at most one event per queued module, one per 10 ms
  // of the timeout, and one for the locale script.
  lemma {:induction false} StepsBounded(c: Config, es: seq<Event>, i: nat)
    requires Acyclic(c.table) && Runs(c, es) && i < |After(c, es).calls|
    ensures var call := After(c, es).calls[i];
      EventsOf(es, i) + Budget(c, call) <= |Queue(c.table, call.asked)| + PollsLeft(c, 0) + 1
  {
    var es' := es[..|es| - 1];
    RunKeeps(c, es');
    StepBudget(c, After(c, es'), es[|es| - 1], i);
    if i < |After(c, es').calls| {
      StepsBounded(c, es', i);
    } else {
      NoEventsBeforeCreation(c, es', i);
    }
  }

  // ---------------------------------------------------------------- where runs end

  // Nothing is pending: only a new load call could change the world.
  ghost predicate Quiescent(w: World) {
    forall e :: Enabled(w, e) ==> e.Load?
  }

  lemma NothingPending(c: Config, w: World, i: nat)
    requires Acyclic(c.table) && Inv(c, w) && Quiescent(w) && i < |w.calls|
    ensures w.calls[i].phase == Finished || w.calls[i].phase == GaveUp
    ensures i in w.fired <==> w.calls[i].phase == Finished
    ensures w.calls[i].phase == GaveUp ==> c.timeout <= w.calls[i].waited
  {
    assert PhaseOk(c, w.status, w.calls[i]);
    assert !Enabled(w, Script(i)) && !Enabled(w, Tick(i)) && !Enabled(w, Locale(i));
  }

  // When nothing is pending no module is left loading, and a call's callback has
  // run unless the call polled past the timeout and gave up.
  lemma QuiescentOutcome(c: Config, es: seq<Event>)
    requires Acyclic(c.table) && Runs(c, es) && Quiescent(After(c, es))
    ensures var w := After(c, es);
      && (forall m :: m in w.status ==> w.status[m] == Loaded)
      && forall i :: 0 <= i < |w.calls| ==>
           && (i in w.fired <==> w.calls[i].phase != GaveUp)
           && (w.calls[i].waited < c.timeout ==> i in w.fired)
  {
    RunKeeps(c, es);
    var w := After(c, es);
    forall i | 0 <= i < |w.calls|
      ensures i in w.fired <==> w.calls[i].phase != GaveUp
      ensures w.calls[i].waited < c.timeout ==> i in w.fired
      ensures !w.calls[i].phase.AwaitScript?
    {
      NothingPending(c, w, i);
    }
    assert forall j, m :: 0 <= j < |w.calls| ==> !Owns(w.calls[j], m);
  }
}
