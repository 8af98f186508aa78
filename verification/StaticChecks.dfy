/** What the checks before the start loop establish, and what they reject. */
module StaticChecks {
  import opened Values
  import opened Merge
  import opened RequiredConfig
  import opened References
  import opened Graphs
  import opened Definitions
  import opened Selection
  import opened Lifecycle
  import opened Safety

  /** Each component of `order` refers only to those before it. */
  ghost predicate RefersBack(components: Components, order: seq<Id>)
  {
    forall k :: 0 <= k < |order| ==>
      && order[k] in components
      && AllResolvable(components[order[k]].config, order[k].group, Members(order[..k]))
  }

  lemma PlannedRefersBack(components: Components, requests: Option<seq<Request>>, order: seq<Id>)
    requires Planned(components, requests, order)
    ensures RefersBack(components, order)
  {
    PlannedIsOrdered(components, requests, order);
    forall k | 0 <= k < |order|
      ensures order[k] in components
      ensures AllResolvable(components[order[k]].config, order[k].group, Members(order[..k]))
    {
      var id := order[k];
      assert id in Members(order);
      var config := components[id].config;
      forall ref | ref in Refs(config) ensures Resolvable(ref, id.group, Members(order[..k])) {
        assert AllResolvable(config, id.group, components.Keys);
        assert TargetOf(ref, id.group).value.id in Targets(config, id.group);
        assert DependencyGraph(components)[id] <= Members(order[..k]);
      }
    }
  }

  /** At every turn of the start loop every reference in the config to be resolved names a
  component whose instance is there, so that only a walk into an instance can fail. */
  lemma NoInstanceIsMissing(w: World, order: seq<Id>, k: nat,
                            configs: map<Id, Value>, instances: map<Id, Value>, h: History)
    requires RefersBack(w.components, order) && k < |order|
    requires Progress(w, order, k, configs, instances)
    ensures
      var config, group := w.components[order[k]].config, order[k].group;
      && AllResolvable(config, group, instances.Keys)
      && var r := ResolveRefs(config, group, instances, w.attr(h));
         (r.Err? ==> FromWalk(r.error))
  {
    ResolveOnlyWalks(w.components[order[k]].config, order[k].group, instances, w.attr(h));
  }

  lemma LaunchFaults(c: Component, id: Id, resolved: Result<Value, Fault>, h: History)
    requires resolved.Err? ==> FromWalk(resolved.error)
    ensures
      var r := LaunchWith(c, id, resolved, h).0;
      r.Err? ==> FromWalk(r.error) || r.error.WrongInstance?
  {
  }

  lemma {:induction false} LoopFailsOnlyInComponents(w: World, order: seq<Id>, k: nat,
                                                     configs: map<Id, Value>, instances: map<Id, Value>, h: History)
    requires RefersBack(w.components, order)
    requires Progress(w, order, k, configs, instances)
    ensures
      var outcome := LaunchFrom(w, order, k, configs, instances, h).0;
      outcome.Down? ==> FromWalk(outcome.cause) || outcome.cause.WrongInstance?
    decreases |order| - k
  {
    if k < |order| {
      CoveredSoFar(w, order, k, configs, instances);
      NoInstanceIsMissing(w, order, k, configs, instances, h);
      LaunchFaults(w.components[order[k]], order[k],
                   ResolveRefs(w.components[order[k]].config, order[k].group, instances, w.attr(h)), h);
      var (r, h1) := Launch(w, order[k], instances, h);
      if r.Ok? {
        LoopFailsOnlyInComponents(w, order, k + 1,
                                  configs[order[k] := r.value.config], instances[order[k] := r.value.instance],
                                  h1 + [Recorded(order[k], r.value.config, r.value.instance)]);
      }
    }
  }

  /** So no start fails for want of an instance or on a malformed reference. */
  lemma StartFailsOnlyInComponents(w: World, requests: Option<seq<Request>>, order: seq<Id>, h0: History)
    requires Planned(w.components, requests, order)
    ensures Members(order) <= w.components.Keys
    ensures
      var outcome := LaunchAll(w, order, h0).0;
      outcome.Down? ==> FromWalk(outcome.cause) || outcome.cause.WrongInstance?
  {
    PlannedIsOrdered(w.components, requests, order);
    PlannedRefersBack(w.components, requests, order);
    LoopFailsOnlyInComponents(w, order, 0, map[], map[], h0);
  }

  // ---- what a failed start leaves running ------------------------------------------------

  predicate Returns(e: Event)
  {
    e.StartCalled? && e.outcome.Ok?
  }

  /** A start returned an instance that its component's schema refuses. */
  predicate Refuses(components: Components, e: Event)
  {
    && Returns(e) && e.ctx.id in components
    && components[e.ctx.id].instanceSchema.Some? && !components[e.ctx.id].instanceSchema.value(e.outcome.value)
  }

  /** The components whose start returned, among the events after the first `from`. */
  function Returned(h: History, from: nat): set<Id>
  {
    set i | from <= i < |h| && Returns(h[i]) :: h[i].ctx.id
  }

  /** Those of them whose instance was refused. */
  function Refused(components: Components, h: History, from: nat): set<Id>
  {
    set i | from <= i < |h| && Refuses(components, h[i]) :: h[i].ctx.id
  }

  lemma ReturnedAppend(components: Components, h: History, from: nat, e: Event)
    requires from <= |h|
    ensures Returned(h + [e], from) == Returned(h, from) + (if Returns(e) then {e.ctx.id} else {})
    ensures Refused(components, h + [e], from)
         == Refused(components, h, from) + (if Refuses(components, e) then {e.ctx.id} else {})
  {
    var h1 := h + [e];
    assert h1[|h|] == e && forall i :: 0 <= i < |h| ==> h1[i] == h[i];
    forall id | id in Returned(h, from) ensures id in Returned(h1, from) {
      var i :| from <= i < |h| && Returns(h[i]) && h[i].ctx.id == id;
      assert Returns(h1[i]);
    }
    forall id | id in Refused(components, h, from) ensures id in Refused(components, h1, from) {
      var i :| from <= i < |h| && Refuses(components, h[i]) && h[i].ctx.id == id;
      assert Refuses(components, h1[i]);
    }
  }

  /** Stops change neither. */
  lemma ReturnedAfterStops(components: Components, h: History, from: nat, h1: History)
    requires from <= |h| && h <= h1 && forall i :: |h| <= i < |h1| ==> h1[i].StopCalled?
    ensures Returned(h1, from) == Returned(h, from)
    ensures Refused(components, h1, from) == Refused(components, h, from)
  {
    assert forall i :: 0 <= i < |h| ==> h1[i] == h[i];
    forall id | id in Returned(h, from) ensures id in Returned(h1, from) {
      var i :| from <= i < |h| && Returns(h[i]) && h[i].ctx.id == id;
      assert Returns(h1[i]);
    }
    forall id | id in Refused(components, h, from) ensures id in Refused(components, h1, from) {
      var i :| from <= i < |h| && Refuses(components, h[i]) && h[i].ctx.id == id;
      assert Refuses(components, h1[i]);
    }
  }

  /** One component: its start has returned exactly when it came up or was refused. */
  lemma LaunchReturns(components: Components, id: Id, resolved: Result<Value, Fault>, h: History, from: nat)
    requires id in components && from <= |h|
    requires resolved.Err? ==> FromWalk(resolved.error)
    ensures
      var (r, h1) := LaunchWith(components[id], id, resolved, h);
      && from <= |h1|
      && Returned(h1, from) == Returned(h, from) + (if r.Ok? || r.error.WrongInstance? then {id} else {})
      && Refused(components, h1, from)
           == Refused(components, h, from) + (if r == Err(WrongInstance) then {id} else {})
  {
    var c := components[id];
    if resolved.Ok? {
      var (validated, h1) := Validate(c, id, resolved.value, h);
      if c.configSchema.Some? {
        ReturnedAppend(components, h, from, h1[|h|]);
      }
      if validated.Ok? {
        var ctx := Ctx(id, validated.value, Null);
        ReturnedAppend(components, h1, from, StartCalled(ctx, c.start(h1, ctx)));
      }
    }
  }

  /** What the history shows of a loop that has come to `outcome`: the starts that returned are those
  of the components before the failing one, and its own exactly when its instance was refused. */
  ghost predicate ReturnsShow(components: Components, order: seq<Id>, outcome: Outcome, h: History, from: nat)
  {
    match outcome
    case Up(_, _) => Returned(h, from) == Members(order) && Refused(components, h, from) == {}
    case Down(id, cause, _) =>
      exists k: nat :: FailedWith(components, order, k, id, cause, h, from)
  }

  ghost predicate FailedWith(components: Components, order: seq<Id>, k: nat, id: Id, cause: Fault,
                             h: History, from: nat)
  {
    && k < |order| && order[k] == id
    && Refused(components, h, from) == (if cause.WrongInstance? then {id} else {})
    && Returned(h, from) == Members(order[..k]) + Refused(components, h, from)
  }

  /** The state between two steps of the start loop. */
  ghost predicate ReturnedSoFar(components: Components, order: seq<Id>, k: nat, h: History, from: nat)
  {
    && from <= |h| && k <= |order|
    && Returned(h, from) == Members(order[..k]) && Refused(components, h, from) == {}
  }

  lemma FailureReturns(components: Components, order: seq<Id>, k: nat,
                       configs: map<Id, Value>, instances: map<Id, Value>, resolved: Result<Value, Fault>,
                       h: History, from: nat, cause: Fault, h1: History)
    requires ReturnedSoFar(components, order, k, h, from)
    requires Covered(components, order, k, configs, instances) && k < |order| && order[k] in components
    requires resolved.Err? ==> FromWalk(resolved.error)
    requires LaunchWith(components[order[k]], order[k], resolved, h) == (Err(cause), h1)
    ensures
      var h2 := Teardown(components, order, k, configs, instances, h1).1;
      FailedWith(components, order, k, order[k], cause, h2, from)
  {
    LaunchReturns(components, order[k], resolved, h, from);
    TeardownOnlyStops(components, order, k, configs, instances, h1);
    ReturnedAfterStops(components, h1, from, Teardown(components, order, k, configs, instances, h1).1);
  }

  lemma SuccessReturns(components: Components, order: seq<Id>, k: nat, resolved: Result<Value, Fault>,
                       h: History, from: nat, l: Launched, h1: History)
    requires ReturnedSoFar(components, order, k, h, from) && k < |order| && order[k] in components
    requires resolved.Err? ==> FromWalk(resolved.error)
    requires LaunchWith(components[order[k]], order[k], resolved, h) == (Ok(l), h1)
    requires Members(order[..k + 1]) == Members(order[..k]) + {order[k]}
    ensures ReturnedSoFar(components, order, k + 1, h1 + [Recorded(order[k], l.config, l.instance)], from)
  {
    LaunchReturns(components, order[k], resolved, h, from);
    ReturnedAppend(components, h1, from, Recorded(order[k], l.config, l.instance));
  }

  lemma {:induction false} LoopReturns(w: World, order: seq<Id>, k: nat,
                                       configs: map<Id, Value>, instances: map<Id, Value>, h: History, from: nat)
    requires RefersBack(w.components, order)
    requires Progress(w, order, k, configs, instances)
    requires ReturnedSoFar(w.components, order, k, h, from)
    ensures
      var (outcome, h1) := LaunchFrom(w, order, k, configs, instances, h);
      ReturnsShow(w.components, order, outcome, h1, from)
    decreases |order| - k
  {
    if k == |order| {
      assert order[..k] == order;
    } else {
      CoveredSoFar(w, order, k, configs, instances);
      NoInstanceIsMissing(w, order, k, configs, instances, h);
      var id := order[k];
      var resolved := ResolveRefs(w.components[id].config, id.group, instances, w.attr(h));
      var (r, h1) := Launch(w, id, instances, h);
      match r {
        case Err(cause) =>
          LaunchFromErr(w, order, k, configs, instances, h, cause, h1);
          FailureReturns(w.components, order, k, configs, instances, resolved, h, from, cause, h1);
        case Ok(l) =>
          LaunchFromOk(w, order, k, configs, instances, h, l, h1);
          SuccessReturns(w.components, order, k, resolved, h, from, l, h1);
          LoopReturns(w, order, k + 1, configs[id := l.config], instances[id := l.instance],
                      h1 + [Recorded(id, l.config, l.instance)], from);
      }
    }
  }

  /** The components that a run has left running although they have a `stop`. */
  function LeftRunning(components: Components, h: History, from: nat): set<Id>
  {
    Returned(h, from) * Stoppable(components) - Members(Summarise(h, from).stops)
  }

  /** What a failed start leaves running: the component whose instance its schema refused, if that
  is why it failed, and nothing otherwise. */
  lemma FailedStartLeaves(w: World, requests: Option<seq<Request>>, order: seq<Id>, h0: History)
    requires Planned(w.components, requests, order)
    ensures Members(order) <= w.components.Keys
    ensures
      var (outcome, h) := LaunchAll(w, order, h0);
      && Refused(w.components, h, |h0|) == (if outcome.Down? && outcome.cause.WrongInstance? then {outcome.id} else {})
      && (outcome.Down? ==>
            && LeftRunning(w.components, h, |h0|) == Refused(w.components, h, |h0|) * Stoppable(w.components)
            && (outcome.id in Returned(h, |h0|) <==> outcome.cause.WrongInstance?))
  {
    PlannedIsOrdered(w.components, requests, order);
    PlannedRefersBack(w.components, requests, order);
    StartIsSafe(w, requests, order, h0);
    LoopReturns(w, order, 0, map[], map[], h0, |h0|);
    var (outcome, h) := LaunchAll(w, order, h0);
    if outcome.Down? {
      var k: nat :| FailedAt(w, order, k, outcome.id, outcome.stopFailures, Summarise(h, |h0|));
      var j: nat :| FailedWith(w.components, order, j, outcome.id, outcome.cause, h, |h0|);
      FailureLeaves(w, order, k, outcome.id, outcome.cause, outcome.stopFailures, h, |h0|);
    }
  }

  lemma FailureLeaves(w: World, order: seq<Id>, k: nat, id: Id, cause: Fault, failures: Failures, h: History, from: nat)
    requires NoDuplicates(order)
    requires FailedAt(w, order, k, id, failures, Summarise(h, from))
    requires FailedWith(w.components, order, k, id, cause, h, from)
    ensures LeftRunning(w.components, h, from) == Refused(w.components, h, from) * Stoppable(w.components)
    ensures id in Returned(h, from) <==> cause.WrongInstance?
  {
    OnlyMembers(Stoppable(w.components), order[..k]);
    ReversedMembers(Only(Stoppable(w.components), order[..k]));
    assert id !in Members(order[..k]);
  }

  /** A component that has a `stop` and returns an instance that is refused, on its own. */
  lemma RefusedIsLeft(id: Id, c: Component, instance: Value)
    requires c.config == Null && c.configSchema.None? && c.stop.Some?
    requires c.start([], Ctx(id, Null, Null)) == Ok(instance)
    requires c.instanceSchema.Some? && !c.instanceSchema.value(instance)
    ensures
      var h := [StartCalled(Ctx(id, Null, Null), Ok(instance))];
      && (forall attr :: LaunchAll(World(map[id := c], attr), [id], []) == (Down(id, WrongInstance, []), h))
      && LeftRunning(map[id := c], h, 0) == {id}
  {
    var components := map[id := c];
    var e := StartCalled(Ctx(id, Null, Null), Ok(instance));
    forall attr ensures LaunchAll(World(components, attr), [id], []) == (Down(id, WrongInstance, []), [e]) {
      assert [] + [e] == [e];
      assert LaunchWith(c, id, Ok(Null), []) == (Err(WrongInstance), [e]);
      LaunchFromErr(World(components, attr), [id], 0, map[], map[], [], WrongInstance, [e]);
    }
    OneReturnedIsLeft(components, e);
  }

  lemma OneReturnedIsLeft(components: Components, e: Event)
    requires Returns(e) && e.ctx.id in Stoppable(components)
    ensures LeftRunning(components, [e], 0) == {e.ctx.id}
  {
    assert [] + [e] == [e];
    ReturnedAppend(components, [], 0, e);
    Append(map[], {}, [], 0, e);
    assert Returned([e], 0) == {e.ctx.id};
    assert Summarise([e], 0).stops == [];
  }

  /** Only cycles through a selected component are rejected: a self-reference counts, a cycle
  elsewhere does not. */
  lemma RejectedCycles(components: Components, requests: Option<seq<Request>>)
    requires NoDangling(components) && AllMatched(components, requests)
    ensures Cyclic(SelectedGraph(components, requests))
       <==> exists n :: n in Selected(components, requests) && OnCycle(DependencyGraph(components), n)
  {
    SelectedIsClosed(components, requests);
    CyclesInRestriction(DependencyGraph(components), Selected(components, requests));
  }

  lemma SelectedIsClosed(components: Components, requests: Option<seq<Request>>)
    requires NoDangling(components) && AllMatched(components, requests)
    ensures ClosedSet(DependencyGraph(components), Selected(components, requests))
  {
    var g := DependencyGraph(components);
    GraphIsClosed(components);
    if requests.Some? {
      SeedsAreNodes(requests.value, g);
      ReachableIsLeast(Seeds(requests.value, g), g, {});
    }
  }

  /** The request names the component, or its group. */
  predicate IsNamed(request: Request, id: Id)
  {
    request == One(id) || request == Group(id.group)
  }

  lemma {:induction false} SeedsAreNamed(ids: seq<Request>, g: Graph, c: Id)
    requires c in g
    ensures c in Seeds(ids, g) <==> exists i :: 0 <= i < |ids| && IsNamed(ids[i], c)
    decreases |ids|
  {
    if ids != [] {
      var front := ids[..|ids| - 1];
      SeedsAreNamed(front, g, c);
      assert ids == front + [ids[|front|]];
      assert forall i :: 0 <= i < |front| ==> front[i] == ids[i];
    }
  }

  /** What a start with ids selects: each component that is named, by itself or by its group, or that
  a named one depends on. */
  lemma SelectedAreNeeded(components: Components, ids: seq<Request>, id: Id)
    requires AllMatched(components, Some(ids))
    ensures id in Selected(components, Some(ids))
       <==> && id in components
            && exists c, i :: && c in components && 0 <= i < |ids| && IsNamed(ids[i], c)
                              && Reaches(DependencyGraph(components), c, id)
  {
    var g := DependencyGraph(components);
    SeedsAreNodes(ids, g);
    if id in Selected(components, Some(ids)) {
      var c :| c in Seeds(ids, g) && Reaches(g, c, id);
      SeedsAreNamed(ids, g, c);
    }
    forall c, i | c in components && 0 <= i < |ids| && IsNamed(ids[i], c) && Reaches(g, c, id) && id in components
      ensures id in Selected(components, Some(ids))
    {
      SeedsAreNamed(ids, g, c);
    }
  }

  // ---- required config -------------------------------------------------------------------

  predicate DistinctConfigs(components: Components)
  {
    forall id :: id in components ==> DistinctKeys(components[id].config)
  }

  /** `start` gets past the required config exactly when no selected component has a slot left
  unfilled. */
  lemma RequiredBlocksStart(components: Components, requests: Option<seq<Request>>)
    requires DistinctConfigs(components)
    ensures MissingSlots(components, Selected(components, requests)) != {}
       <==> exists id :: id in Selected(components, requests) && id in components && Unfilled(components[id].config)
    ensures (exists id :: id in Selected(components, requests) && id in components && Unfilled(components[id].config))
        ==> !Startable(components, requests)
  {
    var selected := Selected(components, requests);
    var missing := MissingSlots(components, selected);
    if missing != {} {
      var m :| m in missing;
      UnfilledIsReported(components[m.0].config);
    }
    forall id | id in selected && id in components && Unfilled(components[id].config) ensures missing != {} {
      UnfilledIsReported(components[id].config);
      assert (id, RequiredPaths(components[id].config, [])[0]) in missing;
    }
  }

  /** A slot that a kind requires and its declaration does not bind is reported under the
  component's id whenever the component is selected. */
  lemma UnboundRequirementIsReported(components: Components, selected: set<Id>, id: Id,
                                     registry: map<string, Component>, kind: string, over: Value, p: seq<string>)
    requires id in selected && id in components
    requires ComponentOf(Plain(ComponentDef(kind, over)), registry) == Ok(components[id])
    requires kind in registry
    requires DistinctKeys(registry[kind].config) && DistinctKeys(over)
    requires StringKeyed(registry[kind].config) && StringKeyed(over)
    ensures (id, p) in MissingSlots(components, selected)
       <==> || p in RequiredPaths(over, [])
            || (p in RequiredPaths(registry[kind].config, []) && Find(over, Names(p)).Missing?)
  {
    RequiredSurvives(registry[kind].config, over, p);
  }
}
