/** Starting and stopping a system: the loops, and the functions they compute. */
module Lifecycle {
  import opened Values
  import opened References
  import opened Graphs
  import opened Definitions
  import opened Selection

  /** The flattened definitions, and how attribute access behaves at each moment. */
  datatype World = World(components: Components, attr: History -> Attributes)

  datatype System = System(defs: Defs, order: seq<Id>, configs: map<Id, Value>, instances: map<Id, Value>)

  type Failures = seq<(Id, Exn)>

  datatype StartResult =
    | Started(system: System)
    | Invalid(error: DefinitionError) // DefinitionError
    | Failed(id: Id, cause: Fault, stopFailures: Failures) // StartError, with the note on its cause

  // ---- specifications --------------------------------------------------------------------

  datatype Launched = Launched(config: Value, instance: Value)

  /** The `try` block around one component: resolve, validate, start, check. */
  function Launch(w: World, id: Id, instances: map<Id, Value>, h: History): (Result<Launched, Fault>, History)
    requires id in w.components
  {
    LaunchWith(w.components[id], id, ResolveRefs(w.components[id].config, id.group, instances, w.attr(h)), h)
  }

  function LaunchWith(c: Component, id: Id, resolved: Result<Value, Fault>, h: History)
    : (Result<Launched, Fault>, History)
  {
    match resolved
    case Err(fault) => (Err(fault), h)
    case Ok(config) =>
      match Validate(c, id, config, h)
      case (Err(e), h1) => (Err(Raised(e)), h1)
      case (Ok(valid), h1) => Run(c, Ctx(id, valid, Null), h1)
  }

  function Validate(c: Component, id: Id, config: Value, h: History): (Result<Value, Exn>, History)
  {
    match c.configSchema
    case None => (Ok(config), h)
    case Some(schema) =>
      var outcome := schema(h, config);
      (outcome, h + [Validated(id, config, outcome)])
  }

  function Run(c: Component, ctx: Ctx, h: History): (Result<Launched, Fault>, History)
  {
    var outcome := c.start(h, ctx);
    var h1 := h + [StartCalled(ctx, outcome)];
    match outcome
    case Err(e) => (Err(Raised(e)), h1)
    case Ok(instance) =>
      if c.instanceSchema.Some? && !c.instanceSchema.value(instance) then (Err(WrongInstance), h1)
      else (Ok(Launched(ctx.config, instance)), h1)
  }

  /** The first `j` components of `order` are defined, configured and started. */
  predicate Covered(components: Components, order: seq<Id>, j: nat, configs: map<Id, Value>, instances: map<Id, Value>)
  {
    j <= |order| && forall i :: 0 <= i < j ==> order[i] in components && order[i] in configs && order[i] in instances
  }

  /** `stop` on the first `j` components of `order`, last first: every one is attempted. */
  function Teardown(components: Components, order: seq<Id>, j: nat, configs: map<Id, Value>, instances: map<Id, Value>,
                    h: History): (Failures, History)
    requires Covered(components, order, j, configs, instances)
    decreases j
  {
    if j == 0 then ([], h)
    else
      var id := order[j - 1];
      match components[id].stop
      case None => Teardown(components, order, j - 1, configs, instances, h)
      case Some(stop) =>
        var ctx := Ctx(id, configs[id], instances[id]);
        var failure := stop(h, ctx);
        var (failures, h') :=
          Teardown(components, order, j - 1, configs, instances, h + [StopCalled(ctx, failure)]);
        (if failure.Some? then [(id, failure.value)] + failures else failures, h')
  }

  /** Only the components torn down matter. */
  lemma {:induction false} TeardownPrefix(components: Components, order: seq<Id>, longer: seq<Id>, j: nat,
                                          configs: map<Id, Value>, instances: map<Id, Value>, h: History)
    requires Covered(components, order, j, configs, instances) && order <= longer
    ensures Covered(components, longer, j, configs, instances)
    ensures Teardown(components, longer, j, configs, instances, h)
         == Teardown(components, order, j, configs, instances, h)
    decreases j
  {
    if j > 0 {
      var id := order[j - 1];
      match components[id].stop {
        case None =>
          TeardownPrefix(components, order, longer, j - 1, configs, instances, h);
        case Some(stop) =>
          var ctx := Ctx(id, configs[id], instances[id]);
          TeardownPrefix(components, order, longer, j - 1, configs, instances, h + [StopCalled(ctx, stop(h, ctx))]);
      }
    }
  }

  datatype Outcome =
    | Up(configs: map<Id, Value>, instances: map<Id, Value>)
    | Down(id: Id, cause: Fault, stopFailures: Failures)

  /** The first `k` components are those with a config and an instance. */
  predicate Progress(w: World, order: seq<Id>, k: nat, configs: map<Id, Value>, instances: map<Id, Value>)
  {
    && Members(order) <= w.components.Keys
    && k <= |order|
    && configs.Keys == instances.Keys == Members(order[..k])
  }

  /** The start loop from its `k`-th component on. */
  function LaunchFrom(w: World, order: seq<Id>, k: nat, configs: map<Id, Value>, instances: map<Id, Value>,
                      h: History): (Outcome, History)
    requires Progress(w, order, k, configs, instances)
    decreases |order| - k
  {
    if k == |order| then (Up(configs, instances), h)
    else
      var id := order[k];
      CoveredSoFar(w, order, k, configs, instances);
      match Launch(w, id, instances, h)
      case (Err(cause), h1) =>
        var (failures, h2) := Teardown(w.components, order, k, configs, instances, h1);
        (Down(id, cause, failures), h2)
      case (Ok(launched), h1) =>
        LaunchFrom(w, order, k + 1, configs[id := launched.config], instances[id := launched.instance],
                   h1 + [Recorded(id, launched.config, launched.instance)])
  }

  /** A turn of the loop whose component comes up. */
  lemma LaunchFromOk(w: World, order: seq<Id>, k: nat, configs: map<Id, Value>, instances: map<Id, Value>, h: History,
                     l: Launched, h1: History)
    requires Progress(w, order, k, configs, instances) && k < |order| && order[k] in w.components
    requires Launch(w, order[k], instances, h) == (Ok(l), h1)
    ensures Progress(w, order, k + 1, configs[order[k] := l.config], instances[order[k] := l.instance])
    ensures LaunchFrom(w, order, k, configs, instances, h)
         == LaunchFrom(w, order, k + 1, configs[order[k] := l.config], instances[order[k] := l.instance],
                       h1 + [Recorded(order[k], l.config, l.instance)])
  {
    CoveredSoFar(w, order, k, configs, instances);
  }

  /** A turn of the loop whose component fails. */
  lemma LaunchFromErr(w: World, order: seq<Id>, k: nat, configs: map<Id, Value>, instances: map<Id, Value>, h: History,
                      cause: Fault, h1: History)
    requires Progress(w, order, k, configs, instances) && k < |order| && order[k] in w.components
    requires Launch(w, order[k], instances, h) == (Err(cause), h1)
    ensures Covered(w.components, order, k, configs, instances)
    ensures
      var (failures, h2) := Teardown(w.components, order, k, configs, instances, h1);
      LaunchFrom(w, order, k, configs, instances, h) == (Down(order[k], cause, failures), h2)
  {
    CoveredSoFar(w, order, k, configs, instances);
  }

  /** A whole start in a given order. */
  function LaunchAll(w: World, order: seq<Id>, h: History): (Outcome, History)
    requires Members(order) <= w.components.Keys
  {
    LaunchFrom(w, order, 0, map[], map[], h)
  }

  // ---- a system that has come up ---------------------------------------------------------

  lemma {:induction false} UpIsCovered(w: World, order: seq<Id>, k: nat,
                                       configs: map<Id, Value>, instances: map<Id, Value>, h: History)
    requires Progress(w, order, k, configs, instances)
    ensures LaunchFrom(w, order, k, configs, instances, h).0.Up? ==>
      var up := LaunchFrom(w, order, k, configs, instances, h).0;
      && Progress(w, order, |order|, up.configs, up.instances)
      && Covered(w.components, order, |order|, up.configs, up.instances)
    decreases |order| - k
  {
    CoveredSoFar(w, order, k, configs, instances);
    if k < |order| {
      var (r, h1) := Launch(w, order[k], instances, h);
      if r.Ok? {
        UpIsCovered(w, order, k + 1, configs[order[k] := r.value.config], instances[order[k] := r.value.instance],
                    h1 + [Recorded(order[k], r.value.config, r.value.instance)]);
      }
    }
  }

  /** A start and, if it succeeds, the stop of what it started. */
  function Session(w: World, order: seq<Id>, h0: History): History
    requires Members(order) <= w.components.Keys
  {
    var (outcome, h) := LaunchAll(w, order, h0);
    match outcome
    case Down(_, _, _) => h
    case Up(configs, instances) =>
      UpIsCovered(w, order, 0, map[], map[], h0);
      Teardown(w.components, order, |order|, configs, instances, h).1
  }

  // ---- histories only grow ---------------------------------------------------------------

  /** Teardown adds stop calls to the history, and nothing else. */
  lemma {:induction false} TeardownOnlyStops(components: Components, order: seq<Id>, j: nat,
                                             configs: map<Id, Value>, instances: map<Id, Value>, h: History)
    requires Covered(components, order, j, configs, instances)
    ensures
      var h1 := Teardown(components, order, j, configs, instances, h).1;
      h <= h1 && forall i :: |h| <= i < |h1| ==> h1[i].StopCalled?
    decreases j
  {
    if j > 0 {
      var id := order[j - 1];
      match components[id].stop {
        case None => TeardownOnlyStops(components, order, j - 1, configs, instances, h);
        case Some(stop) =>
          var ctx := Ctx(id, configs[id], instances[id]);
          TeardownOnlyStops(components, order, j - 1, configs, instances, h + [StopCalled(ctx, stop(h, ctx))]);
      }
    }
  }

  lemma LaunchGrows(c: Component, id: Id, resolved: Result<Value, Fault>, h: History)
    ensures h <= LaunchWith(c, id, resolved, h).1
  {
  }

  lemma {:induction false} LaunchFromGrows(w: World, order: seq<Id>, k: nat,
                                           configs: map<Id, Value>, instances: map<Id, Value>, h: History)
    requires Progress(w, order, k, configs, instances)
    ensures h <= LaunchFrom(w, order, k, configs, instances, h).1
    decreases |order| - k
  {
    if k < |order| {
      CoveredSoFar(w, order, k, configs, instances);
      LaunchGrows(w.components[order[k]], order[k],
                  ResolveRefs(w.components[order[k]].config, order[k].group, instances, w.attr(h)), h);
      var (r, h1) := Launch(w, order[k], instances, h);
      match r {
        case Err(_) => TeardownOnlyStops(w.components, order, k, configs, instances, h1);
        case Ok(l) =>
          LaunchFromGrows(w, order, k + 1, configs[order[k] := l.config], instances[order[k] := l.instance],
                          h1 + [Recorded(order[k], l.config, l.instance)]);
      }
    }
  }

  // ---- what is started -------------------------------------------------------------------

  /** The components to start: all of them, or those reachable from the requested ids. */
  ghost function Selected(components: Components, requests: Option<seq<Request>>): set<Id>
  {
    var g := DependencyGraph(components);
    match requests
    case None => components.Keys
    case Some(ids) => ReachableFrom(Seeds(ids, g), g)
  }

  ghost predicate AllMatched(components: Components, requests: Option<seq<Request>>)
  {
    requests.Some? ==>
      forall i :: 0 <= i < |requests.value| ==> Matched(requests.value[i], DependencyGraph(components))
  }

  /** The graph that is sorted: the dependencies of the selected components. */
  ghost function SelectedGraph(components: Components, requests: Option<seq<Request>>): Graph
  {
    Restrict(DependencyGraph(components), Selected(components, requests))
  }

  /** The definitions pass every check that `start` makes before it starts anything. */
  ghost predicate Startable(components: Components, requests: Option<seq<Request>>)
  {
    && NoDangling(components)
    && AllMatched(components, requests)
    && MissingSlots(components, Selected(components, requests)) == {}
    && !Cyclic(SelectedGraph(components, requests))
  }

  /** The first check that fails decides the error: references anywhere, then the requested ids,
  then the required slots of the selection, then its cycles. */
  ghost predicate Explains(error: DefinitionError, components: Components, requests: Option<seq<Request>>)
  {
    if !NoDangling(components) then
      exists id :: id in components && FirstRejected(error, id, components[id].config, components.Keys)
    else if !AllMatched(components, requests) then
      FirstUnmatched(error, requests.value, DependencyGraph(components))
    else
      var selected := Selected(components, requests);
      if MissingSlots(components, selected) != {} then ListsMissing(error, components, selected)
      else error == Cycle && Cyclic(SelectedGraph(components, requests))
  }

  lemma SelectedGraphIsClosed(components: Components, requests: Option<seq<Request>>)
    requires NoDangling(components) && AllMatched(components, requests)
    ensures Selected(components, requests) <= components.Keys
    ensures SelectedGraph(components, requests).Keys == Selected(components, requests)
    ensures Closed(SelectedGraph(components, requests))
  {
    var g := DependencyGraph(components);
    GraphIsClosed(components);
    if requests.Some? {
      SeedsAreNodes(requests.value, g);
      ReachableIsLeast(Seeds(requests.value, g), g, {});
    }
  }

  lemma {:induction false} SeedsAreNodes(ids: seq<Request>, g: Graph)
    requires forall i :: 0 <= i < |ids| ==> Matched(ids[i], g)
    ensures Seeds(ids, g) <= g.Keys
  {
    if ids != [] {
      SeedsAreNodes(ids[..|ids| - 1], g);
    }
  }

  // ---- the operations --------------------------------------------------------------------

  /** The components of a system that `start` has built. */
  predicate ValidSystem(s: System)
  {
    Covered(Flatten(s.defs), s.order, |s.order|, s.configs, s.instances)
  }

  /** `stop`: an empty list of failures means that it returned, any other that it raised. */
  method Stop(system: System, h0: History) returns (failures: Failures, h: History)
    requires ValidSystem(system)
    ensures
      var s := system;
      (failures, h) == Teardown(Flatten(s.defs), s.order, |s.order|, s.configs, s.instances, h0)
  {
    ghost var components := Flatten(system.defs);
    failures, h := [], h0;
    var k := |system.order|;
    ghost var all := Teardown(components, system.order, k, system.configs, system.instances, h0);
    while k > 0
      invariant 0 <= k <= |system.order|
      invariant
        var rest := Teardown(components, system.order, k, system.configs, system.instances, h);
        all.0 == failures + rest.0 && all.1 == rest.1
    {
      var cid := system.order[k - 1];
      FlattenAt(system.defs, cid);
      var component := system.defs[cid.group][cid.name];
      if component.stop.Some? {
        var ctx := Ctx(cid, system.configs[cid], system.instances[cid]);
        var failure := component.stop.value(h, ctx);
        h := h + [StopCalled(ctx, failure)];
        if failure.Some? {
          failures := failures + [(cid, failure.value)];
        }
      }
      k := k - 1;
    }
    assert failures == all.0;
  }

  /** The static half of `start`: the selected graph, or the error that stops it. */
  method Plan(components: Components, requests: Option<seq<Request>>)
    returns (r: Result<seq<Id>, DefinitionError>)
    ensures r.Ok? <==> Startable(components, requests)
    ensures r.Ok? ==> TopologicalOrder(SelectedGraph(components, requests), r.value)
    ensures r.Err? ==> Explains(r.error, components, requests)
  {
    var built := BuildGraph(components);
    if built.Err? {
      return Err(built.error);
    }
    var g := built.value;
    GraphIsClosed(components);
    var selected := g.Keys;
    if requests.Some? {
      var chosen := Select(requests.value, g);
      if chosen.Err? {
        return Err(chosen.error);
      }
      selected := chosen.value;
    }
    SelectedGraphIsClosed(components, requests);
    assert selected == Selected(components, requests);
    assert Restrict(g, selected) == SelectedGraph(components, requests);
    var missing := CheckRequired(components, selected);
    if missing.Some? {
      return Err(missing.value);
    }
    ClosedNeedsNoNodes(Restrict(g, selected));
    var sorted := StaticOrder(Restrict(g, selected));
    match sorted {
      case None => return Err(Cycle);
      case Some(order) => return Ok(order);
    }
  }

  /** What `start` returns or raises once the loop has come to this. */
  function ResultOf(defs: Defs, order: seq<Id>, outcome: Outcome): StartResult
  {
    match outcome
    case Up(configs, instances) => Started(System(defs, order, configs, instances))
    case Down(id, cause, failures) => Failed(id, cause, failures)
  }

  /** The dynamic half of `start`: the loop over the order, with its rollback. */
  method LaunchInOrder(defs: Defs, attr: History -> Attributes, order: seq<Id>, h0: History)
    returns (r: StartResult, h: History)
    requires Members(order) <= Flatten(defs).Keys
    ensures !r.Invalid? && h0 <= h
    ensures r == ResultOf(defs, order, LaunchAll(World(Flatten(defs), attr), order, h0).0)
    ensures h == LaunchAll(World(Flatten(defs), attr), order, h0).1
    ensures r.Started? ==> ValidSystem(r.system)
  {
    var w := World(Flatten(defs), attr);
    LaunchFromGrows(w, order, 0, map[], map[], h0);
    h := h0;
    var configs: map<Id, Value> := map[];
    var instances: map<Id, Value> := map[];
    var started: seq<Id> := []; // the keys of `instances`, in insertion order
    for k := 0 to |order|
      invariant Progress(w, order, k, configs, instances) && started == order[..k]
      invariant LaunchAll(w, order, h0) == LaunchFrom(w, order, k, configs, instances, h)
    {
      var cid := order[k];
      CoveredSoFar(w, order, k, configs, instances);
      var (launched, h1) := Launch(w, cid, instances, h);
      match launched {
        case Err(cause) =>
          TeardownPrefix(w.components, started, order, k, configs, instances, h1);
          var failures;
          failures, h := Stop(System(defs, started, configs, instances), h1);
          return Failed(cid, cause, failures), h;
        case Ok(Launched(config, instance)) =>
          configs, instances := configs[cid := config], instances[cid := instance];
          started := started + [cid];
          h := h1 + [Recorded(cid, config, instance)];
      }
    }
    CoveredSoFar(w, order, |order|, configs, instances);
    return Started(System(defs, order, configs, instances)), h;
  }

  lemma CoveredSoFar(w: World, order: seq<Id>, k: nat, configs: map<Id, Value>, instances: map<Id, Value>)
    requires Progress(w, order, k, configs, instances)
    ensures Covered(w.components, order, k, configs, instances)
    ensures Covered(w.components, order[..k], k, configs, instances)
    ensures k < |order| ==>
      && order[k] in w.components
      && order[..k + 1] == order[..k] + [order[k]]
      && Members(order[..k + 1]) == Members(order[..k]) + {order[k]}
  {
    forall i | 0 <= i < k ensures order[i] in w.components && order[i] in configs && order[i] in instances {
      assert order[..k][i] == order[i];
      assert order[i] in Members(order[..k]) && order[i] in Members(order);
    }
    if k < |order| {
      assert order[k] in Members(order);
      MembersAppend(order[..k], [order[k]]);
    }
  }

  /** What a call of `start` may come to: an error and no event, or the outcome of the loop in a
  topological order of the selected components. */
  ghost predicate StartComesTo(defs: Defs, requests: Option<seq<Request>>, attr: History -> Attributes, h0: History,
                               r: StartResult, h: History, order: seq<Id>)
  {
    var components := Flatten(defs);
    if !Startable(components, requests) then
      r.Invalid? && h == h0 && Explains(r.error, components, requests)
    else
      && TopologicalOrder(SelectedGraph(components, requests), order)
      && Members(order) <= components.Keys
      && r == ResultOf(defs, order, LaunchAll(World(components, attr), order, h0).0)
      && h == LaunchAll(World(components, attr), order, h0).1
  }

  /** `start`. The order it settles on is returned beside its result. */
  method Start(defs: Defs, requests: Option<seq<Request>>, attr: History -> Attributes, h0: History)
    returns (r: StartResult, h: History, ghost order: seq<Id>)
    ensures StartComesTo(defs, requests, attr, h0, r, h, order)
    ensures r.Started? ==> ValidSystem(r.system)
    ensures h0 <= h
  {
    order := [];
    var plan := Plan(Flatten(defs), requests);
    match plan {
      case Err(e) =>
        return Invalid(e), h0, order;
      case Ok(sorted) =>
        order := sorted;
        SelectedGraphIsClosed(Flatten(defs), requests);
        r, h := LaunchInOrder(defs, attr, sorted, h0);
    }
  }

  /** How a `started` block ends: its start fails, or its body returns or raises and then `stop` does. */
  datatype BlockResult =
    | NotEntered(cause: StartResult)
    | Left(system: System, raised: Option<Exn>, stopFailures: Failures)

  /** `started`: the system is stopped however the body ends. */
  method StartedBlock(defs: Defs, requests: Option<seq<Request>>, attr: History -> Attributes,
                      body: System -> Option<Exn>, h0: History)
    returns (r: BlockResult, h: History, ghost order: seq<Id>)
    ensures r.NotEntered? ==> !r.cause.Started? && StartComesTo(defs, requests, attr, h0, r.cause, h, order)
    ensures r.Left? ==>
      var s, w := r.system, World(Flatten(defs), attr);
      && s.defs == defs && ValidSystem(s)
      && TopologicalOrder(SelectedGraph(w.components, requests), s.order)
      && Members(s.order) <= w.components.Keys
      && LaunchAll(w, s.order, h0).0 == Up(s.configs, s.instances)
      && r.raised == body(s)
      && (r.stopFailures, h) ==
           Teardown(w.components, s.order, |s.order|, s.configs, s.instances, LaunchAll(w, s.order, h0).1)
      && h == Session(w, s.order, h0)
  {
    var result;
    result, h, order := Start(defs, requests, attr, h0);
    if !result.Started? {
      return NotEntered(result), h, order;
    }
    ghost var w := World(Flatten(defs), attr);
    UpIsCovered(w, order, 0, map[], map[], h0);
    var raised := body(result.system);
    var failures;
    failures, h := Stop(result.system, h);
    return Left(result.system, raised, failures), h, order;
  }
}
