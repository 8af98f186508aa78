/** What every run of `start` and `stop` keeps, whatever the callbacks do. */
module Safety {
  import opened Values
  import opened References
  import opened Graphs
  import opened Definitions
  import opened Selection
  import opened Lifecycle

  // ---- what a history shows --------------------------------------------------------------

  /** The components started, recorded and stopped, in the order of the calls; what each was
  recorded with; and the stops that failed. */
  datatype Summary = Summary(starts: seq<Id>, records: seq<Id>, stops: seq<Id>,
                             kept: map<Id, Launched>, failed: Failures)

  function Extend(s: Summary, e: Event): Summary
  {
    match e
    case Validated(_, _, _) => s
    case StartCalled(ctx, _) => s.(starts := s.starts + [ctx.id])
    case Recorded(id, config, instance) =>
      s.(records := s.records + [id], kept := s.kept[id := Launched(config, instance)])
    case StopCalled(ctx, failure) =>
      s.(stops := s.stops + [ctx.id],
         failed := if failure.Some? then s.failed + [(ctx.id, failure.value)] else s.failed)
  }

  /** The summary of the events after the first `from`. */
  function Summarise(h: History, from: nat): Summary
  {
    if |h| <= from then Summary([], [], [], map[], [])
    else Extend(Summarise(h[..|h| - 1], from), h[|h| - 1])
  }

  /** The components that have a `stop`. */
  function Stoppable(components: Components): set<Id>
  {
    set id | id in components && components[id].stop.Some?
  }

  function Only(nodes: set<Id>, order: seq<Id>): seq<Id>
  {
    if order == [] then []
    else (if order[0] in nodes then [order[0]] else []) + Only(nodes, order[1..])
  }

  function Reversed(s: seq<Id>): seq<Id>
  {
    if s == [] then [] else Reversed(s[1..]) + [s[0]]
  }

  lemma {:induction false} ReversedMembers(s: seq<Id>)
    ensures Members(Reversed(s)) == Members(s)
  {
    if s != [] {
      ReversedMembers(s[1..]);
      assert s == [s[0]] + s[1..];
      MembersAppend(Reversed(s[1..]), [s[0]]);
      MembersAppend([s[0]], s[1..]);
    }
  }

  lemma {:induction false} OnlyMembers(nodes: set<Id>, order: seq<Id>)
    ensures Members(Only(nodes, order)) == Members(order) * nodes
  {
    if order != [] {
      OnlyMembers(nodes, order[1..]);
      assert order == [order[0]] + order[1..];
      MembersAppend([order[0]], order[1..]);
      MembersAppend(if order[0] in nodes then [order[0]] else [], Only(nodes, order[1..]));
    }
  }

  // ---- safety ----------------------------------------------------------------------------

  /** The event is safe where `s` sums up what went before: a component starts while all it needs
  is recorded and not stopped; it is stopped once, with the config and instance it was recorded
  with, after everything recorded that needs it and can be stopped. */
  predicate SafeEvent(needs: Graph, stoppable: set<Id>, s: Summary, e: Event)
  {
    match e
    case StartCalled(ctx, _) =>
      && ctx.id in needs && ctx.id !in s.records
      && needs[ctx.id] <= Members(s.records) - Members(s.stops)
    case StopCalled(ctx, _) =>
      && ctx.id in s.kept && s.kept[ctx.id] == Launched(ctx.config, ctx.instance)
      && ctx.id !in s.stops
      && forall d :: d in needs && ctx.id in needs[d] && d in s.records && d in stoppable ==> d in s.stops
    case _ => true
  }

  /** Every event after the first `from` was safe. */
  predicate Safe(needs: Graph, stoppable: set<Id>, h: History, from: nat)
  {
    |h| > from ==>
      && Safe(needs, stoppable, h[..|h| - 1], from)
      && SafeEvent(needs, stoppable, Summarise(h[..|h| - 1], from), h[|h| - 1])
  }

  lemma Append(needs: Graph, stoppable: set<Id>, h: History, from: nat, e: Event)
    requires from <= |h|
    ensures Summarise(h + [e], from) == Extend(Summarise(h, from), e)
    ensures Safe(needs, stoppable, h + [e], from)
       <==> Safe(needs, stoppable, h, from) && SafeEvent(needs, stoppable, Summarise(h, from), e)
  {
    assert (h + [e])[..|h|] == h;
  }

  ghost predicate KeptAre(kept: map<Id, Launched>, order: seq<Id>, configs: map<Id, Value>, instances: map<Id, Value>)
  {
    forall id :: id in order ==>
      && id in configs && id in instances && id in kept
      && kept[id] == Launched(configs[id], instances[id])
  }

  /** The state between two steps of the start loop. */
  ghost predicate Launching(needs: Graph, w: World, order: seq<Id>, k: nat,
                            configs: map<Id, Value>, instances: map<Id, Value>, h: History, from: nat)
  {
    && Progress(w, order, k, configs, instances)
    && from <= |h| && Safe(needs, Stoppable(w.components), h, from)
    && Summarise(h, from).records == order[..k]
    && Summarise(h, from).stops == []
    && Summarise(h, from).failed == []
    && KeptAre(Summarise(h, from).kept, order[..k], configs, instances)
  }

  lemma ValidateKeepsLaunching(needs: Graph, w: World, order: seq<Id>, k: nat,
                               configs: map<Id, Value>, instances: map<Id, Value>, h: History, from: nat,
                               c: Component, id: Id, config: Value)
    requires Launching(needs, w, order, k, configs, instances, h, from)
    ensures
      var h1 := Validate(c, id, config, h).1;
      && Launching(needs, w, order, k, configs, instances, h1, from)
      && Summarise(h1, from).starts == Summarise(h, from).starts
  {
    if c.configSchema.Some? {
      Append(needs, Stoppable(w.components), h, from, Validate(c, id, config, h).1[|h|]);
    }
  }

  lemma StartKeepsLaunching(needs: Graph, w: World, order: seq<Id>, k: nat,
                            configs: map<Id, Value>, instances: map<Id, Value>, h: History, from: nat,
                            ctx: Ctx, outcome: Result<Value, Exn>)
    requires Ordered(needs, order) && k < |order| && ctx.id == order[k]
    requires Launching(needs, w, order, k, configs, instances, h, from)
    ensures
      var h1 := h + [StartCalled(ctx, outcome)];
      && Launching(needs, w, order, k, configs, instances, h1, from)
      && Summarise(h1, from).starts == Summarise(h, from).starts + [order[k]]
  {
    assert order[k] in Members(order) && needs[order[k]] <= Members(order[..k]);
    Append(needs, Stoppable(w.components), h, from, StartCalled(ctx, outcome));
  }

  /** One component: at most a validation and a start, the start being safe. */
  lemma LaunchIsSafe(needs: Graph, w: World, order: seq<Id>, k: nat,
                     configs: map<Id, Value>, instances: map<Id, Value>, h: History, from: nat,
                     c: Component, resolved: Result<Value, Fault>)
    requires Ordered(needs, order) && k < |order|
    requires Launching(needs, w, order, k, configs, instances, h, from)
    ensures
      var (r, h1) := LaunchWith(c, order[k], resolved, h);
      && Launching(needs, w, order, k, configs, instances, h1, from)
      && var starts, starts1 := Summarise(h, from).starts, Summarise(h1, from).starts;
         && (starts1 == starts || starts1 == starts + [order[k]])
         && (r.Ok? ==> starts1 == starts + [order[k]])
  {
    if resolved.Ok? {
      ValidateKeepsLaunching(needs, w, order, k, configs, instances, h, from, c, order[k], resolved.value);
      var (validated, h1) := Validate(c, order[k], resolved.value, h);
      if validated.Ok? {
        var ctx := Ctx(order[k], validated.value, Null);
        StartKeepsLaunching(needs, w, order, k, configs, instances, h1, from, ctx, c.start(h1, ctx));
      }
    }
  }

  lemma RecordKeepsLaunching(needs: Graph, w: World, order: seq<Id>, k: nat,
                             configs: map<Id, Value>, instances: map<Id, Value>, h: History, from: nat,
                             l: Launched)
    requires k < |order| && Launching(needs, w, order, k, configs, instances, h, from)
    ensures
      var h1 := h + [Recorded(order[k], l.config, l.instance)];
      && Launching(needs, w, order, k + 1, configs[order[k] := l.config], instances[order[k] := l.instance], h1, from)
      && Summarise(h1, from).starts == Summarise(h, from).starts
  {
    Append(needs, Stoppable(w.components), h, from, Recorded(order[k], l.config, l.instance));
    CoveredSoFar(w, order, k, configs, instances);
  }

  // ---- teardown --------------------------------------------------------------------------

  /** What has been stopped when a teardown of the first `n` components has come down to `j`. */
  function StoppedBy(components: Components, order: seq<Id>, n: nat, j: nat): seq<Id>
    requires j <= n <= |order|
  {
    Reversed(Only(Stoppable(components), order[j..n]))
  }

  lemma StoppedByStep(components: Components, order: seq<Id>, n: nat, j: nat)
    requires 0 < j <= n <= |order|
    ensures StoppedBy(components, order, n, j - 1)
         == StoppedBy(components, order, n, j) + (if order[j - 1] in Stoppable(components) then [order[j - 1]] else [])
  {
    var nodes, rest := Stoppable(components), order[j..n];
    assert order[j - 1..n] == [order[j - 1]] + rest;
    assert order[j - 1..n][1..] == rest;
    if order[j - 1] in nodes {
      assert Only(nodes, order[j - 1..n])[1..] == Only(nodes, rest);
    } else {
      assert Only(nodes, order[j - 1..n]) == Only(nodes, rest);
    }
  }

  lemma StoppedByMembers(components: Components, order: seq<Id>, n: nat, j: nat)
    requires j <= n <= |order|
    ensures Members(StoppedBy(components, order, n, j)) == Members(order[j..n]) * Stoppable(components)
  {
    OnlyMembers(Stoppable(components), order[j..n]);
    ReversedMembers(Only(Stoppable(components), order[j..n]));
  }

  /** The state between two steps of a teardown that began with the first `n` components of `order`
  recorded, and has come down to the first `j`. */
  ghost predicate Stopping(needs: Graph, components: Components, order: seq<Id>, n: nat, j: nat,
                           configs: map<Id, Value>, instances: map<Id, Value>, h: History, from: nat)
  {
    && from <= |h| && j <= n <= |order|
    && Safe(needs, Stoppable(components), h, from)
    && Covered(components, order, n, configs, instances)
    && Summarise(h, from).records == order[..n]
    && Summarise(h, from).stops == StoppedBy(components, order, n, j)
    && KeptAre(Summarise(h, from).kept, order[..n], configs, instances)
  }

  lemma StopIsSafe(needs: Graph, components: Components, order: seq<Id>, n: nat, j: nat,
                   configs: map<Id, Value>, instances: map<Id, Value>, h: History, from: nat, failure: Option<Exn>)
    requires Ordered(needs, order) && 0 < j
    requires Stopping(needs, components, order, n, j, configs, instances, h, from)
    requires order[j - 1] in Stoppable(components)
    ensures
      var id := order[j - 1];
      Stopping(needs, components, order, n, j - 1, configs, instances,
               h + [StopCalled(Ctx(id, configs[id], instances[id]), failure)], from)
  {
    var id := order[j - 1];
    var s := Summarise(h, from);
    StoppedByMembers(components, order, n, j);
    assert order[..n][j - 1] == id;
    assert id !in Members(order[j..n]);
    forall d | d in needs && id in needs[d] && d in order[..n] && d in Stoppable(components)
      ensures d in Members(s.stops)
    {
      var i :| 0 <= i < n && order[i] == d;
      assert id in Members(order[..i]);
      assert order[j..n][i - j] == d;
    }
    assert forall d :: d in Members(s.stops) <==> d in s.stops;
    StoppedByStep(components, order, n, j);
    Append(needs, Stoppable(components), h, from, StopCalled(Ctx(id, configs[id], instances[id]), failure));
  }

  /** One turn of a teardown, at a component that has a `stop`. */
  lemma TeardownStep(components: Components, order: seq<Id>, j: nat, configs: map<Id, Value>, instances: map<Id, Value>,
                     h: History, ctx: Ctx, failure: Option<Exn>)
    requires Covered(components, order, j, configs, instances) && 0 < j
    requires ctx == Ctx(order[j - 1], configs[order[j - 1]], instances[order[j - 1]])
    requires components[ctx.id].stop.Some? && failure == components[ctx.id].stop.value(h, ctx)
    ensures
      var (rest, h1) := Teardown(components, order, j - 1, configs, instances, h + [StopCalled(ctx, failure)]);
      Teardown(components, order, j, configs, instances, h)
      == ((if failure.Some? then [(ctx.id, failure.value)] else []) + rest, h1)
  {
    var (rest, _) := Teardown(components, order, j - 1, configs, instances, h + [StopCalled(ctx, failure)]);
    assert [] + rest == rest;
  }

  lemma StopIsReported(h: History, from: nat, ctx: Ctx, failure: Option<Exn>)
    requires from <= |h|
    ensures
      var h1 := h + [StopCalled(ctx, failure)];
      && Summarise(h1, from).starts == Summarise(h, from).starts
      && Summarise(h1, from).failed
           == Summarise(h, from).failed + (if failure.Some? then [(ctx.id, failure.value)] else [])
  {
    Append(map[], {}, h, from, StopCalled(ctx, failure));
  }

  /** Teardown starts nothing, and reports exactly the calls that failed. */
  lemma {:induction false} TeardownReports(components: Components, order: seq<Id>, j: nat,
                                           configs: map<Id, Value>, instances: map<Id, Value>, h: History, from: nat)
    requires Covered(components, order, j, configs, instances) && from <= |h|
    ensures
      var (failures, h1) := Teardown(components, order, j, configs, instances, h);
      && Summarise(h1, from).starts == Summarise(h, from).starts
      && Summarise(h1, from).failed == Summarise(h, from).failed + failures
    decreases j
  {
    if j > 0 {
      var id := order[j - 1];
      match components[id].stop {
        case None =>
          TeardownReports(components, order, j - 1, configs, instances, h, from);
        case Some(stop) =>
          var ctx := Ctx(id, configs[id], instances[id]);
          var failure := stop(h, ctx);
          TeardownStep(components, order, j, configs, instances, h, ctx, failure);
          StopIsReported(h, from, ctx, failure);
          TeardownReports(components, order, j - 1, configs, instances, h + [StopCalled(ctx, failure)], from);
      }
    }
  }

  /** Teardown is safe, and calls the `stop` of every component that has one, last first. */
  lemma {:induction false} TeardownIsSafe(needs: Graph, components: Components, order: seq<Id>, n: nat, j: nat,
                                          configs: map<Id, Value>, instances: map<Id, Value>, h: History, from: nat)
    requires Ordered(needs, order)
    requires Stopping(needs, components, order, n, j, configs, instances, h, from)
    ensures
      Stopping(needs, components, order, n, 0, configs, instances,
               Teardown(components, order, j, configs, instances, h).1, from)
    decreases j
  {
    if j > 0 {
      var id := order[j - 1];
      match components[id].stop {
        case None =>
          StoppedByStep(components, order, n, j);
          TeardownIsSafe(needs, components, order, n, j - 1, configs, instances, h, from);
        case Some(stop) =>
          var ctx := Ctx(id, configs[id], instances[id]);
          var e := StopCalled(ctx, stop(h, ctx));
          StopIsSafe(needs, components, order, n, j, configs, instances, h, from, e.failure);
          TeardownIsSafe(needs, components, order, n, j - 1, configs, instances, h + [e], from);
      }
    }
  }

  // ---- the start loop --------------------------------------------------------------------

  /** What the summary of a start shows. A start that fails at the `k`-th component has recorded
  those before it, has called the start of those and perhaps of the `k`-th, and has then called
  each `stop` among those before it once, last first, whether or not some failed. */
  ghost predicate LaunchShows(w: World, order: seq<Id>, outcome: Outcome, s: Summary)
  {
    match outcome
    case Up(configs, instances) =>
      && s.starts == order && s.records == order && s.stops == [] && s.failed == []
      && KeptAre(s.kept, order, configs, instances)
    case Down(id, _, failures) =>
      exists k: nat :: FailedAt(w, order, k, id, failures, s)
  }

  ghost predicate FailedAt(w: World, order: seq<Id>, k: nat, id: Id, failures: Failures, s: Summary)
  {
    && k < |order| && order[k] == id
    && s.records == order[..k]
    && (s.starts == order[..k] || s.starts == order[..k + 1])
    && s.stops == Reversed(Only(Stoppable(w.components), order[..k]))
    && s.failed == failures
    && id !in s.stops
  }

  ghost predicate SafeStart(needs: Graph, w: World, order: seq<Id>, outcome: Outcome, h: History, from: nat)
  {
    Safe(needs, Stoppable(w.components), h, from) && LaunchShows(w, order, outcome, Summarise(h, from))
  }

  lemma LaunchingIsStopping(needs: Graph, w: World, order: seq<Id>, k: nat,
                            configs: map<Id, Value>, instances: map<Id, Value>, h: History, from: nat)
    requires Launching(needs, w, order, k, configs, instances, h, from)
    requires Covered(w.components, order, k, configs, instances)
    ensures Stopping(needs, w.components, order, k, k, configs, instances, h, from)
  {
    assert order[k..k] == [];
  }

  lemma StoppedShows(needs: Graph, w: World, order: seq<Id>, k: nat,
                     configs: map<Id, Value>, instances: map<Id, Value>, h: History, from: nat, failures: Failures)
    requires NoDuplicates(order) && k < |order|
    requires Stopping(needs, w.components, order, k, 0, configs, instances, h, from)
    requires Summarise(h, from).starts == order[..k] || Summarise(h, from).starts == order[..k + 1]
    requires Summarise(h, from).failed == failures
    ensures FailedAt(w, order, k, order[k], failures, Summarise(h, from))
  {
    assert order[0..k] == order[..k];
    FailingIsNotStopped(w.components, order, k);
  }

  /** The failure of the `k`-th component, with its rollback. */
  lemma RollbackIsSafe(needs: Graph, w: World, order: seq<Id>, k: nat,
                       configs: map<Id, Value>, instances: map<Id, Value>, h: History, from: nat, cause: Fault)
    requires Ordered(needs, order) && k < |order|
    requires Launching(needs, w, order, k, configs, instances, h, from)
    requires Summarise(h, from).starts == order[..k] || Summarise(h, from).starts == order[..k + 1]
    requires Covered(w.components, order, k, configs, instances)
    ensures
      var (failures, h1) := Teardown(w.components, order, k, configs, instances, h);
      SafeStart(needs, w, order, Down(order[k], cause, failures), h1, from)
  {
    var (failures, h1) := Teardown(w.components, order, k, configs, instances, h);
    LaunchingIsStopping(needs, w, order, k, configs, instances, h, from);
    TeardownIsSafe(needs, w.components, order, k, k, configs, instances, h, from);
    TeardownReports(w.components, order, k, configs, instances, h, from);
    StoppedShows(needs, w, order, k, configs, instances, h1, from, failures);
  }

  lemma FailingIsNotStopped(components: Components, order: seq<Id>, k: nat)
    requires NoDuplicates(order) && k < |order|
    ensures order[k] !in StoppedBy(components, order, k, 0)
  {
    StoppedByMembers(components, order, k, 0);
    assert order[k] !in Members(order[0..k]);
    assert order[k] !in Members(StoppedBy(components, order, k, 0));
  }

  /** The whole start loop, from any point of it. */
  lemma {:induction false} LaunchFromIsSafe(needs: Graph, w: World, order: seq<Id>, k: nat,
                                            configs: map<Id, Value>, instances: map<Id, Value>, h: History, from: nat)
    requires Ordered(needs, order)
    requires Launching(needs, w, order, k, configs, instances, h, from)
    requires Summarise(h, from).starts == order[..k]
    ensures
      var (outcome, h1) := LaunchFrom(w, order, k, configs, instances, h);
      SafeStart(needs, w, order, outcome, h1, from)
    decreases |order| - k
  {
    if k == |order| {
      assert order[..k] == order;
    } else {
      CoveredSoFar(w, order, k, configs, instances);
      LaunchIsSafe(needs, w, order, k, configs, instances, h, from, w.components[order[k]],
                   ResolveRefs(w.components[order[k]].config, order[k].group, instances, w.attr(h)));
      var (r, h1) := Launch(w, order[k], instances, h);
      match r {
        case Err(cause) =>
          RollbackIsSafe(needs, w, order, k, configs, instances, h1, from, cause);
        case Ok(l) =>
          RecordKeepsLaunching(needs, w, order, k, configs, instances, h1, from, l);
          LaunchFromIsSafe(needs, w, order, k + 1, configs[order[k] := l.config], instances[order[k] := l.instance],
                           h1 + [Recorded(order[k], l.config, l.instance)], from);
      }
    }
  }

  // ---- whole runs ------------------------------------------------------------------------

  /** An order `start` may settle on: a topological order of the selected components. */
  ghost predicate Planned(components: Components, requests: Option<seq<Request>>, order: seq<Id>)
  {
    && NoDangling(components) && AllMatched(components, requests)
    && TopologicalOrder(SelectedGraph(components, requests), order)
  }

  lemma PlannedIsOrdered(components: Components, requests: Option<seq<Request>>, order: seq<Id>)
    requires Planned(components, requests, order)
    ensures Ordered(DependencyGraph(components), order)
    ensures Members(order) == Selected(components, requests) <= components.Keys
  {
    SelectedGraphIsClosed(components, requests);
    OrderedInWhole(DependencyGraph(components), Selected(components, requests), order);
  }

  /** Everything a component depends on, directly or through others. */
  ghost function Needs(components: Components): Graph
  {
    Closure(DependencyGraph(components))
  }

  /** Every start, whatever its callbacks do: dependency safety, and what is left recorded and
  stopped at its end. */
  lemma StartIsSafe(w: World, requests: Option<seq<Request>>, order: seq<Id>, h0: History)
    requires Planned(w.components, requests, order)
    ensures Members(order) <= w.components.Keys
    ensures
      SafeStart(Needs(w.components), w, order, LaunchAll(w, order, h0).0, LaunchAll(w, order, h0).1, |h0|)
  {
    PlannedIsOrdered(w.components, requests, order);
    OrderedInClosure(DependencyGraph(w.components), order);
    LaunchFromIsSafe(Needs(w.components), w, order, 0, map[], map[], h0, |h0|);
  }

  ghost predicate SafeSession(needs: Graph, components: Components, order: seq<Id>, h: History, from: nat)
  {
    var s := Summarise(h, from);
    && Safe(needs, Stoppable(components), h, from)
    && s.stops == Reversed(Only(Stoppable(components), s.records))
    && s.records <= order && s.records <= s.starts <= order
  }

  /** Every session is safe, and stops exactly what it recorded and can be stopped, last first. */
  lemma SessionIsSafe(w: World, requests: Option<seq<Request>>, order: seq<Id>, h0: History)
    requires Planned(w.components, requests, order)
    ensures Members(order) <= w.components.Keys
    ensures h0 <= Session(w, order, h0)
    ensures SafeSession(Needs(w.components), w.components, order, Session(w, order, h0), |h0|)
  {
    StartIsSafe(w, requests, order, h0);
    LaunchFromGrows(w, order, 0, map[], map[], h0);
    PlannedIsOrdered(w.components, requests, order);
    OrderedInClosure(DependencyGraph(w.components), order);
    var (outcome, h) := LaunchAll(w, order, h0);
    match outcome {
      case Down(_, _, _) =>
        DownIsSafe(Needs(w.components), w, order, outcome, h, |h0|);
      case Up(configs, instances) =>
        UpIsCovered(w, order, 0, map[], map[], h0);
        StopAllIsSafe(Needs(w.components), w, order, configs, instances, h, |h0|);
        TeardownOnlyStops(w.components, order, |order|, configs, instances, h);
    }
  }

  lemma DownIsSafe(needs: Graph, w: World, order: seq<Id>, outcome: Outcome, h: History, from: nat)
    requires outcome.Down? && SafeStart(needs, w, order, outcome, h, from)
    ensures SafeSession(needs, w.components, order, h, from)
  {
    var k: nat :| FailedAt(w, order, k, outcome.id, outcome.stopFailures, Summarise(h, from));
  }

  lemma StopAllIsSafe(needs: Graph, w: World, order: seq<Id>,
                      configs: map<Id, Value>, instances: map<Id, Value>, h: History, from: nat)
    requires Ordered(needs, order) && from <= |h|
    requires Covered(w.components, order, |order|, configs, instances)
    requires SafeStart(needs, w, order, Up(configs, instances), h, from)
    ensures
      SafeSession(needs, w.components, order,
                  Teardown(w.components, order, |order|, configs, instances, h).1, from)
  {
    var n := |order|;
    assert order[..n] == order && order[n..n] == [] && order[0..n] == order;
    TeardownIsSafe(needs, w.components, order, n, n, configs, instances, h, from);
    TeardownReports(w.components, order, n, configs, instances, h, from);
  }
}
