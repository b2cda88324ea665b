// What the fields of a load call have to do with the events of a run: how long it
// has waited, whether it put in a script, whom it asked for.

module EasyLoaderCounts {
  import opened Common
  import opened LoaderTable
  import opened EasyLoader
  import opened EasyLoaderRuns

  // How often an event occurs in a run.
  function Count(es: seq<Event>, e: Event): nat {
    if es == [] then 0 else Count(es[..|es| - 1], e) + if es[|es| - 1] == e then 1 else 0
  }

  // A call has waited 10 ms for each poll that has come or is under way; it has put in
  // a script just when one has arrived or is under way; it has waited for a locale
  // script just when there is one, it put in a script, and it is through.
  ghost predicate Counted(c: Config, call: Call, ticks: nat, scripts: nat, locales: nat) {
    && call.waited == 10 * (ticks + if call.phase == AwaitTick then 1 else 0)
    && (call.injected <==> scripts > 0 || call.phase == AwaitScript)
    && (call.phase == AwaitLocale ==> c.localeKnown && call.injected)
    && locales == (if call.phase == Finished && c.localeKnown && call.injected then 1 else 0)
  }

  // A call that runs on.
  lemma SettledCounted(c: Config, status: map<Name, Status>, call: Call, ticks: nat, scripts: nat)
    requires call.waited == 10 * ticks && (call.injected <==> scripts > 0)
    ensures Counted(c, Settled(c, status, call), ticks, scripts, 0)
  {
  }

  lemma {:induction false} NoneYet(c: Config, es: seq<Event>, i: nat)
    requires Acyclic(c.table) && Runs(c, es) && |After(c, es).calls| <= i
    ensures Count(es, Tick(i)) == Count(es, Script(i)) == Count(es, Locale(i)) == 0
  {
    if es != [] {
      NoneYet(c, es[..|es| - 1], i);
    }
  }

  lemma {:induction false} CallCounted(c: Config, es: seq<Event>, i: nat)
    requires Acyclic(c.table) && Runs(c, es) && i < |After(c, es).calls|
    ensures Counted(c, After(c, es).calls[i], Count(es, Tick(i)), Count(es, Script(i)), Count(es, Locale(i)))
  {
    var before, e := es[..|es| - 1], es[|es| - 1];
    var w := After(c, before);
    if i < |w.calls| {
      CallCounted(c, before, i);
    } else {
      NoneYet(c, before, i);
    }
    StepCounted(c, w, e, i, Count(before, Tick(i)), Count(before, Script(i)), Count(before, Locale(i)));
  }

  lemma StepCounted(c: Config, w: World, e: Event, i: nat, ticks: nat, scripts: nat, locales: nat)
    requires Acyclic(c.table) && Enabled(w, e) && i < |Step(c, w, e).calls|
    requires if i < |w.calls| then Counted(c, w.calls[i], ticks, scripts, locales) else ticks == scripts == locales == 0
    ensures Counted(c, Step(c, w, e).calls[i], ticks + if e == Tick(i) then 1 else 0,
                    scripts + (if e == Script(i) then 1 else 0), locales + if e == Locale(i) then 1 else 0)
  {
    hide Settled, Queue, DropLoaded;
    match e
    case Load(asked) =>
      if i == |w.calls| {
        SettledCounted(c, w.status, Call(asked, Queue(c.table, asked), 0, false, AwaitTick), 0, 0);
      }
    case Script(j) =>
      if i == j {
        var q := w.calls[i].queue;
        SettledCounted(c, w.status[q[0] := Loaded], w.calls[i].(queue := q[1..]), ticks, scripts + 1);
      }
    case Tick(j) =>
      if i == j {
        SettledCounted(c, w.status, w.calls[i], ticks + 1, scripts);
      }
    case Locale(j) =>
  }

  // A call gives up only after the polls of the whole timeout.
  lemma GivesUpLate(c: Config, es: seq<Event>, i: nat)
    requires Acyclic(c.table) && Runs(c, es) && i < |After(c, es).calls|
    requires After(c, es).calls[i].phase == GaveUp
    ensures c.timeout <= 10 * Count(es, Tick(i))
  {
    RunKeeps(c, es);
    CallCounted(c, es, i);
    assert PhaseOk(c, After(c, es).status, After(c, es).calls[i]);
  }

  // When nothing is pending, the callback of every call has run that was not polled
  // for the whole timeout.
  lemma FiredUnlessPolled(c: Config, es: seq<Event>, i: nat)
    requires Acyclic(c.table) && Runs(c, es) && Quiescent(After(c, es)) && i < |After(c, es).calls|
    requires 10 * Count(es, Tick(i)) < c.timeout
    ensures i in After(c, es).fired
  {
    QuiescentOutcome(c, es);
    if After(c, es).calls[i].phase == GaveUp {
      GivesUpLate(c, es, i);
    }
  }

  // The callback waits for a locale script just when there is one and a script of the
  // call arrived.
  lemma FiredAfterLocale(c: Config, es: seq<Event>, i: nat)
    requires Acyclic(c.table) && Runs(c, es) && i in After(c, es).fired
    ensures Count(es, Locale(i)) == if c.localeKnown && Count(es, Script(i)) > 0 then 1 else 0
  {
    RunKeeps(c, es);
    assert i < |After(c, es).calls|;
    CallCounted(c, es, i);
  }

  // ---------------------------------------------------------------- nothing needless is loaded

  // m is asked for or a dependency of something asked for.
  ghost predicate Needed(t: Table, asked: seq<Name>, m: Name) {
    exists chain :: IsChain(t, chain) && chain[0] in asked && chain[|chain| - 1] == m
  }

  lemma Longer(t: Table, names: seq<Name>, parent: Name, m: Name)
    requires Needed(t, names, m) && parent in t && forall d :: d in names ==> d in t[parent]
    ensures Needed(t, [parent], m)
  {
    var chain :| IsChain(t, chain) && chain[0] in names && chain[|chain| - 1] == m;
    var more := [parent] + chain;
    assert IsChain(t, more) by {
      forall k | 0 <= k < |more| - 1
        ensures more[k + 1] in t[more[k]]
      {
        assert more[k + 1] == chain[k];
        if k > 0 {
          assert more[k] == chain[k - 1] && chain[k] in t[chain[k - 1]];
        }
      }
    }
    assert more[0] in [parent] && more[|more| - 1] == m;
  }

  lemma Wider(t: Table, few: seq<Name>, many: seq<Name>, m: Name)
    requires Needed(t, few, m) && forall d :: d in few ==> d in many
    ensures Needed(t, many, m)
  {
  }

  lemma {:induction false} PostOrderNeeded(t: Table, name: Name, m: Name)
    requires Acyclic(t) && m in PostOrder(t, name)
    ensures Needed(t, [name], m)
    decreases Rank(t, name), 1, 0
  {
    if m in PostOrderAll(t, t[name], name) {
      PostOrderAllNeeded(t, t[name], name, m);
      Longer(t, t[name], name, m);
    } else {
      assert IsChain(t, [name]) && [name][0] in [name];
    }
  }

  lemma {:induction false} PostOrderAllNeeded(t: Table, names: seq<Name>, parent: Name, m: Name)
    requires Acyclic(t) && parent in t && (forall d :: d in names ==> d in t[parent])
    requires m in PostOrderAll(t, names, parent)
    ensures Needed(t, names, m)
    decreases Rank(t, parent), 0, |names|
  {
    var before, last := names[..|names| - 1], names[|names| - 1];
    if m in PostOrderAll(t, before, parent) {
      PostOrderAllNeeded(t, before, parent, m);
      Wider(t, before, names, m);
    } else {
      PostOrderNeeded(t, last, m);
      Wider(t, [last], names, m);
    }
  }

  lemma {:induction false} QueueNeeded(t: Table, asked: seq<Name>, m: Name)
    requires Acyclic(t) && m in Queue(t, asked)
    ensures Needed(t, asked, m)
  {
    var before, last := asked[..|asked| - 1], asked[|asked| - 1];
    if m in Queue(t, before) {
      QueueNeeded(t, before, m);
      Wider(t, before, asked, m);
    } else {
      PostOrderNeeded(t, last, m);
      Wider(t, [last], asked, m);
    }
  }

  // The name a step puts a script in for is the first the call it belongs to waits for.
  lemma StepHeads(c: Config, w: World, e: Event, m: Name)
    requires Acyclic(c.table) && Enabled(w, e)
    requires m in Step(c, w, e).injections && m !in w.injections
    ensures var w' := Step(c, w, e); var i := if e.Load? then |w.calls| else Owner(e);
      && 0 <= i < |w'.calls| && w'.calls[i].phase == AwaitScript
      && w'.calls[i].queue != [] && w'.calls[i].queue[0] == m
  {
    hide Queue, DropLoaded;
  }

  lemma CallQueueOk(c: Config, w: World, i: nat)
    requires Acyclic(c.table) && Inv(c, w) && i < |w.calls|
    ensures QueueOk(c, w.status, w.calls[i])
  {
    hide PhaseOk, QueueOk, Queue;
  }

  // The name a step puts a script in for is one the call it belongs to has queued.
  lemma StepInjects(c: Config, w: World, e: Event, m: Name)
    requires Acyclic(c.table) && Inv(c, w) && Enabled(w, e)
    requires m in Step(c, w, e).injections && m !in w.injections
    ensures exists i :: 0 <= i < |Step(c, w, e).calls| && m in Queue(c.table, Step(c, w, e).calls[i].asked)
  {
    hide Inv, Step, Enabled, Queue;
    StepKeeps(c, w, e);
    var w' := Step(c, w, e);
    var i := if e.Load? then |w.calls| else Owner(e);
    StepHeads(c, w, e, m);
    CallQueueOk(c, w', i);
    assert QueueOk(c, w'.status, w'.calls[i]);
    var full, q := Queue(c.table, w'.calls[i].asked), w'.calls[i].queue;
    assert full[|full| - |q|] == q[0];
  }

  lemma StepAsked(c: Config, w: World, e: Event, i: nat)
    requires Acyclic(c.table) && Enabled(w, e) && i < |w.calls|
    ensures i < |Step(c, w, e).calls| && Step(c, w, e).calls[i].asked == w.calls[i].asked
  {
  }

  // What the load calls of a run asked for, in order.
  function Asked(es: seq<Event>): seq<seq<Name>> {
    if es == [] then []
    else
      var e := es[|es| - 1];
      Asked(es[..|es| - 1]) + if e.Load? then [e.asked] else []
  }

  // The calls are the load calls of the run, each with the names it asked for.
  lemma {:induction false} CallsAsk(c: Config, es: seq<Event>)
    requires Acyclic(c.table) && Runs(c, es)
    ensures var w := After(c, es);
      |w.calls| == |Asked(es)| && forall i :: 0 <= i < |w.calls| ==> w.calls[i].asked == Asked(es)[i]
  {
    if es != [] {
      var before, e := es[..|es| - 1], es[|es| - 1];
      var w := After(c, before);
      CallsAsk(c, before);
      forall i: nat | i < |After(c, es).calls|
        ensures |After(c, es).calls| == |Asked(es)| && After(c, es).calls[i].asked == Asked(es)[i]
      {
        StepCalls(c, w, e);
        if i < |w.calls| {
          StepAsked(c, w, e, i);
        }
      }
      StepCalls(c, w, e);
    }
  }

  lemma StepCalls(c: Config, w: World, e: Event)
    requires Acyclic(c.table) && Enabled(w, e)
    ensures |Step(c, w, e).calls| == |w.calls| + if e.Load? then 1 else 0
    ensures e.Load? ==> Step(c, w, e).calls[|w.calls|].asked == e.asked
  {
  }

  // Every script put into the page is for a module that some call needs.
  lemma {:induction false} InjectedIsNeeded(c: Config, es: seq<Event>, m: Name)
    requires Acyclic(c.table) && Runs(c, es) && m in After(c, es).injections
    ensures exists i :: 0 <= i < |After(c, es).calls| && Needed(c.table, After(c, es).calls[i].asked, m)
  {
    var before, e := es[..|es| - 1], es[|es| - 1];
    var w := After(c, before);
    if m in w.injections {
      InjectedIsNeeded(c, before, m);
      var i :| 0 <= i < |w.calls| && Needed(c.table, w.calls[i].asked, m);
      StepAsked(c, w, e, i);
    } else {
      RunKeeps(c, before);
      StepInjects(c, w, e, m);
      var i :| 0 <= i < |After(c, es).calls| && m in Queue(c.table, After(c, es).calls[i].asked);
      QueueNeeded(c.table, After(c, es).calls[i].asked, m);
    }
  }
}
