/** When callbacks depend on nothing but their arguments, a start computes the same system in
every order: that of a recursive evaluation over the dependencies. */
module Confluence {
  import opened Values
  import opened References
  import opened Graphs
  import opened Definitions
  import opened Selection
  import opened Lifecycle
  import opened Safety
  import opened StaticChecks

  ghost predicate Deterministic(c: Component)
  {
    && (forall h1, h2, ctx :: c.start(h1, ctx) == c.start(h2, ctx))
    && (c.configSchema.Some? ==> forall h1, h2, v :: c.configSchema.value(h1, v) == c.configSchema.value(h2, v))
  }

  ghost predicate DeterministicWorld(w: World)
  {
    && (forall h1, h2 :: w.attr(h1) == w.attr(h2))
    && (forall id :: id in w.components ==> Deterministic(w.components[id]))
  }

  /** `rank` witnesses that the dependencies of its components go down, and stay among them. */
  ghost predicate Ranked(components: Components, rank: map<Id, nat>)
  {
    forall id :: id in rank ==>
      && id in components
      && forall d :: d in Targets(components[id].config, id.group) ==> d in rank && rank[d] < rank[id]
  }

  /** The reference semantics: a component comes to what it launches to beside its dependencies,
  or to nothing when one of them comes to nothing or its own launch fails. */
  ghost function Evaluate(w: World, rank: map<Id, nat>, id: Id): Option<Launched>
    requires Ranked(w.components, rank) && id in rank
    decreases rank[id]
  {
    var deps := Targets(w.components[id].config, id.group);
    if exists d :: d in deps && Evaluate(w, rank, d).None? then None
    else
      match Launch(w, id, map d | d in deps :: Evaluate(w, rank, d).value.instance, []).0
      case Ok(l) => Some(l)
      case Err(_) => None
  }

  /** The maps hold what every component of `nodes` evaluates to, and nothing else. */
  ghost predicate Evaluated(w: World, rank: map<Id, nat>, nodes: set<Id>,
                            configs: map<Id, Value>, instances: map<Id, Value>)
    requires Ranked(w.components, rank) && nodes <= rank.Keys
  {
    && configs.Keys == instances.Keys == nodes
    && forall id :: id in nodes ==> Evaluate(w, rank, id) == Some(Launched(configs[id], instances[id]))
  }

  /** A launch depends on the instances of the dependencies alone, and not on when it happens. */
  lemma LaunchFrame(w: World, id: Id, a: map<Id, Value>, b: map<Id, Value>, h1: History, h2: History)
    requires DeterministicWorld(w) && id in w.components
    requires forall d :: d in Targets(w.components[id].config, id.group) ==> d in a && d in b && a[d] == b[d]
    ensures Launch(w, id, a, h1).0 == Launch(w, id, b, h2).0
  {
    var c := w.components[id];
    forall ref | ref in Refs(c.config) ensures AgreeOn(ref, id.group, a, b) {
      if TargetOf(ref, id.group).Ok? {
        assert TargetOf(ref, id.group).value.id in Targets(c.config, id.group);
      }
    }
    ResolveFrame(c.config, id.group, a, b, w.attr(h1));
    LaunchAnytime(c, id, ResolveRefs(c.config, id.group, a, w.attr(h1)), h1, h2);
  }

  lemma LaunchAnytime(c: Component, id: Id, resolved: Result<Value, Fault>, h1: History, h2: History)
    requires Deterministic(c)
    ensures LaunchWith(c, id, resolved, h1).0 == LaunchWith(c, id, resolved, h2).0
  {
    if resolved.Ok? {
      assert Validate(c, id, resolved.value, h1).0 == Validate(c, id, resolved.value, h2).0;
    }
  }

  /** One turn of the start loop, its earlier components holding what they evaluate to, does what
  evaluation says. */
  lemma LaunchMatches(w: World, rank: map<Id, nat>, order: seq<Id>, k: nat,
                      configs: map<Id, Value>, instances: map<Id, Value>, h: History)
    requires DeterministicWorld(w) && Ranked(w.components, rank) && Members(order) <= rank.Keys
    requires RefersBack(w.components, order) && k < |order|
    requires Progress(w, order, k, configs, instances)
    requires Members(order[..k]) <= rank.Keys && Evaluated(w, rank, Members(order[..k]), configs, instances)
    ensures order[k] in rank
    ensures
      var r := Launch(w, order[k], instances, h).0;
      Evaluate(w, rank, order[k]) == if r.Ok? then Some(r.value) else None
    ensures forall d :: d in Targets(w.components[order[k]].config, order[k].group) ==>
      d in rank && Evaluate(w, rank, d).Some?
  {
    var id := order[k];
    assert id in Members(order);
    var deps := Targets(w.components[id].config, id.group);
    forall d | d in deps ensures d in instances && Evaluate(w, rank, d).Some? {
      var ref :| ref in Refs(w.components[id].config) && TargetOf(ref, id.group).Ok?
                 && TargetOf(ref, id.group).value.id == d;
      assert Resolvable(ref, id.group, Members(order[..k]));
    }
    LaunchFrame(w, id, instances, map d | d in deps :: Evaluate(w, rank, d).value.instance, h, []);
  }

  /** Every run of the start loop does what evaluation says: it succeeds exactly when every
  component evaluates to something, and then holds just that; when it fails, the component it
  names evaluates to nothing while all its dependencies evaluate to something. */
  ghost predicate RunMatches(w: World, rank: map<Id, nat>, order: seq<Id>, outcome: Outcome)
    requires Ranked(w.components, rank) && Members(order) <= rank.Keys
  {
    match outcome
    case Up(configs, instances) => Evaluated(w, rank, Members(order), configs, instances)
    case Down(id, _, _) =>
      && id in order && id in rank && Evaluate(w, rank, id).None?
      && forall d :: d in Targets(w.components[id].config, id.group) ==> Evaluate(w, rank, d).Some?
  }

  lemma {:induction false} EvaluatedSnoc(w: World, rank: map<Id, nat>, nodes: set<Id>,
                      configs: map<Id, Value>, instances: map<Id, Value>, id: Id, l: Launched)
    requires Ranked(w.components, rank) && nodes + {id} <= rank.Keys
    requires Evaluated(w, rank, nodes, configs, instances) && id !in nodes
    requires Evaluate(w, rank, id) == Some(l)
    ensures Evaluated(w, rank, nodes + {id}, configs[id := l.config], instances[id := l.instance])
  {
  }

  lemma {:induction false} LaunchFromMatches(w: World, rank: map<Id, nat>, order: seq<Id>, k: nat,
                                             configs: map<Id, Value>, instances: map<Id, Value>, h: History)
    requires DeterministicWorld(w) && Ranked(w.components, rank) && Members(order) <= rank.Keys
    requires RefersBack(w.components, order) && NoDuplicates(order)
    requires Progress(w, order, k, configs, instances)
    requires Members(order[..k]) <= rank.Keys && Evaluated(w, rank, Members(order[..k]), configs, instances)
    ensures RunMatches(w, rank, order, LaunchFrom(w, order, k, configs, instances, h).0)
    decreases |order| - k
  {
    if k == |order| {
      assert order[..k] == order;
    } else {
      CoveredSoFar(w, order, k, configs, instances);
      LaunchMatches(w, rank, order, k, configs, instances, h);
      var (r, h1) := Launch(w, order[k], instances, h);
      if r.Ok? {
        EvaluatedSnoc(w, rank, Members(order[..k]), configs, instances, order[k], r.value);
        LaunchFromMatches(w, rank, order, k + 1,
                          configs[order[k] := r.value.config], instances[order[k] := r.value.instance],
                          h1 + [Recorded(order[k], r.value.config, r.value.instance)]);
      }
    }
  }

  lemma PositionsRank(components: Components, order: seq<Id>)
    requires NoDuplicates(order) && RefersBack(components, order)
    ensures Ranked(components, Positions(order)) && Positions(order).Keys == Members(order)
  {
    var rank := Positions(order);
    forall id, d | id in rank && d in Targets(components[id].config, id.group)
      ensures d in rank && rank[d] < rank[id]
    {
      var k := IndexIn(order, id);
      var ref :| ref in Refs(components[id].config) && TargetOf(ref, id.group).Ok?
                 && TargetOf(ref, id.group).value.id == d;
      assert Resolvable(ref, id.group, Members(order[..k]));
      var i :| 0 <= i < k && order[i] == d;
    }
  }

  /** A whole start does what evaluation says, for any ranking of a set it lies in. */
  lemma StartMatchesEvaluation(w: World, requests: Option<seq<Request>>, order: seq<Id>, h: History,
                               rank: map<Id, nat>)
    requires DeterministicWorld(w) && Planned(w.components, requests, order)
    requires Ranked(w.components, rank) && Members(order) <= rank.Keys
    ensures Members(order) <= w.components.Keys
    ensures RunMatches(w, rank, order, LaunchAll(w, order, h).0)
  {
    PlannedIsOrdered(w.components, requests, order);
    PlannedRefersBack(w.components, requests, order);
    LaunchFromMatches(w, rank, order, 0, map[], map[], h);
  }

  /** `part` is `whole` cut down to `nodes`. */
  ghost predicate Restriction(part: map<Id, Value>, whole: map<Id, Value>, nodes: set<Id>)
  {
    part.Keys == nodes <= whole.Keys && forall id :: id in nodes ==> part[id] == whole[id]
  }

  lemma RestrictionToAll(part: map<Id, Value>, whole: map<Id, Value>)
    requires Restriction(part, whole, whole.Keys)
    ensures part == whole
  {
  }

  /** A run over some of the components of a successful run succeeds, with that run's values. */
  lemma MatchingRunsAgree(w: World, rank: map<Id, nat>, whole: seq<Id>, all: Outcome, part: seq<Id>, some: Outcome)
    requires Ranked(w.components, rank) && Members(part) <= Members(whole) <= rank.Keys
    requires RunMatches(w, rank, whole, all) && RunMatches(w, rank, part, some)
    ensures all.Up? ==>
      && some.Up?
      && Restriction(some.configs, all.configs, Members(part))
      && Restriction(some.instances, all.instances, Members(part))
  {
    if all.Up? {
      forall id | id in Members(part)
        ensures some.configs[id] == all.configs[id] && some.instances[id] == all.instances[id]
      {
        assert Evaluate(w, rank, id) == Some(Launched(all.configs[id], all.instances[id]));
      }
    }
  }

  /** The runs of two planned starts, one within the other, agree. */
  lemma PlannedRunsAgree(w: World, r1: Option<seq<Request>>, whole: seq<Id>, h1: History,
                         r2: Option<seq<Request>>, part: seq<Id>, h2: History)
    requires DeterministicWorld(w)
    requires Planned(w.components, r1, whole) && Planned(w.components, r2, part)
    requires Members(part) <= Members(whole)
    ensures Members(whole) <= w.components.Keys
    ensures
      var all, some := LaunchAll(w, whole, h1).0, LaunchAll(w, part, h2).0;
      all.Up? ==>
        && some.Up?
        && Restriction(some.configs, all.configs, Members(part))
        && Restriction(some.instances, all.instances, Members(part))
  {
    PlannedIsOrdered(w.components, r1, whole);
    PlannedRefersBack(w.components, r1, whole);
    PositionsRank(w.components, whole);
    var rank := Positions(whole);
    StartMatchesEvaluation(w, r1, whole, h1, rank);
    StartMatchesEvaluation(w, r2, part, h2, rank);
    MatchingRunsAgree(w, rank, whole, LaunchAll(w, whole, h1).0, part, LaunchAll(w, part, h2).0);
  }

  /** Confluence: two starts of the same selection, in any two orders and after any two histories,
  both succeed with the same configs and instances, or both fail. */
  lemma StartIsConfluent(w: World, requests: Option<seq<Request>>,
                         order1: seq<Id>, h1: History, order2: seq<Id>, h2: History)
    requires DeterministicWorld(w)
    requires Planned(w.components, requests, order1) && Planned(w.components, requests, order2)
    ensures Members(order1) == Members(order2) <= w.components.Keys
    ensures
      var o1, o2 := LaunchAll(w, order1, h1).0, LaunchAll(w, order2, h2).0;
      && o1.Up? == o2.Up?
      && (o1.Up? ==> o1.configs == o2.configs && o1.instances == o2.instances)
  {
    PlannedIsOrdered(w.components, requests, order1);
    PlannedIsOrdered(w.components, requests, order2);
    PlannedRunsAgree(w, requests, order1, h1, requests, order2, h2);
    PlannedRunsAgree(w, requests, order2, h2, requests, order1, h1);
    var o1, o2 := LaunchAll(w, order1, h1).0, LaunchAll(w, order2, h2).0;
    if o1.Up? && o2.Up? {
      RestrictionToAll(o1.configs, o2.configs);
      RestrictionToAll(o1.instances, o2.instances);
    }
  }

  /** Starting a subset refines starting everything: if the whole starts, so does the subset, and
  it holds the whole's configs and instances for what the subset depends on. */
  lemma SubsetRefinesWhole(w: World, requests: seq<Request>, whole: seq<Id>, h1: History, part: seq<Id>, h2: History)
    requires DeterministicWorld(w)
    requires Planned(w.components, None, whole) && Planned(w.components, Some(requests), part)
    ensures Members(part) <= Members(whole) == w.components.Keys
    ensures
      var all, some := LaunchAll(w, whole, h1).0, LaunchAll(w, part, h2).0;
      var g := DependencyGraph(w.components);
      all.Up? ==>
        && some.Up?
        && Restriction(some.configs, all.configs, ReachableFrom(Seeds(requests, g), g))
        && Restriction(some.instances, all.instances, ReachableFrom(Seeds(requests, g), g))
  {
    PlannedIsOrdered(w.components, None, whole);
    PlannedIsOrdered(w.components, Some(requests), part);
    PlannedRunsAgree(w, None, whole, h1, Some(requests), part, h2);
  }

  /** If everything passes the static checks, so does any selection of it. */
  lemma SubsetIsStartable(components: Components, requests: seq<Request>)
    requires Startable(components, None) && AllMatched(components, Some(requests))
    ensures Startable(components, Some(requests))
  {
    RejectedCycles(components, None);
    RejectedCycles(components, Some(requests));
    SelectedGraphIsClosed(components, Some(requests));
    var some, all := Selected(components, Some(requests)), Selected(components, None);
    assert some <= all;
    assert MissingSlots(components, some) <= MissingSlots(components, all);
  }

  /** Of two calls of `start` on the same definitions, the first without ids, the second with: if
  the first succeeds, the second succeeds exactly when all its ids match, and then its system is
  the first one's, cut down to what the ids need. */
  lemma SelectionStarts(defs: Defs, ids: seq<Request>, attr: History -> Attributes,
                        h1: History, all: StartResult, end1: History, order1: seq<Id>,
                        h2: History, some: StartResult, end2: History, order2: seq<Id>)
    requires DeterministicWorld(World(Flatten(defs), attr))
    requires StartComesTo(defs, None, attr, h1, all, end1, order1) && all.Started?
    requires StartComesTo(defs, Some(ids), attr, h2, some, end2, order2)
    ensures some.Started? <==> AllMatched(Flatten(defs), Some(ids))
    ensures some.Started? ==>
      && Restriction(some.system.configs, all.system.configs, Selected(Flatten(defs), Some(ids)))
      && Restriction(some.system.instances, all.system.instances, Selected(Flatten(defs), Some(ids)))
  {
    var components := Flatten(defs);
    if AllMatched(components, Some(ids)) {
      SubsetIsStartable(components, ids);
      SubsetRefinesWhole(World(components, attr), ids, order1, h1, order2, h2);
    }
  }

  // ---- a started system as a solution ----------------------------------------------------

  /** What the definitions say of one component of a started system: its config is its declared
  config with every reference resolved in that system, as its schema converts it; its instance is
  what its start makes of that config, and is accepted. */
  ghost predicate Satisfied(w: World, id: Id, instances: map<Id, Value>, config: Value, instance: Value)
    requires id in w.components
  {
    var c := w.components[id];
    var resolved := ResolveRefs(c.config, id.group, instances, w.attr([]));
    && resolved.Ok?
    && (c.configSchema.None? ==> config == resolved.value)
    && (c.configSchema.Some? ==> c.configSchema.value([], resolved.value) == Ok(config))
    && c.start([], Ctx(id, config, Null)) == Ok(instance)
    && (c.instanceSchema.Some? ==> c.instanceSchema.value(instance))
  }

  ghost predicate Solves(w: World, nodes: set<Id>, configs: map<Id, Value>, instances: map<Id, Value>)
    requires nodes <= w.components.Keys
  {
    && configs.Keys == instances.Keys == nodes
    && forall id :: id in nodes ==> Satisfied(w, id, instances, configs[id], instances[id])
  }

  lemma LaunchSatisfies(w: World, id: Id, instances: map<Id, Value>, l: Launched)
    requires DeterministicWorld(w) && id in w.components
    ensures Launch(w, id, instances, []).0 == Ok(l) <==> Satisfied(w, id, instances, l.config, l.instance)
  {
    var c := w.components[id];
    var resolved := ResolveRefs(c.config, id.group, instances, w.attr([]));
    assert Deterministic(c);
    if resolved.Ok? {
      var (valid, h1) := Validate(c, id, resolved.value, []);
      if valid.Ok? {
        assert c.start(h1, Ctx(id, valid.value, Null)) == c.start([], Ctx(id, valid.value, Null));
      }
    }
  }

  /** The dependencies of `nodes` lie among them. */
  ghost predicate SelfContained(components: Components, nodes: set<Id>)
  {
    forall id :: id in nodes ==> id in components && Targets(components[id].config, id.group) <= nodes
  }

  /** Beside what its dependencies evaluate to, what a component evaluates to is what satisfies it. */
  lemma EvaluationSatisfies(w: World, rank: map<Id, nat>, instances: map<Id, Value>, id: Id, l: Launched)
    requires DeterministicWorld(w) && Ranked(w.components, rank) && id in rank
    requires forall d :: d in Targets(w.components[id].config, id.group) ==>
      d in instances && Evaluate(w, rank, d).Some? && Evaluate(w, rank, d).value.instance == instances[d]
    ensures Evaluate(w, rank, id) == Some(l) <==> Satisfied(w, id, instances, l.config, l.instance)
  {
    var deps := Targets(w.components[id].config, id.group);
    LaunchFrame(w, id, instances, map d | d in deps :: Evaluate(w, rank, d).value.instance, [], []);
    LaunchSatisfies(w, id, instances, l);
  }

  /** A successful run solves the equations of its components. */
  lemma EvaluatedSolves(w: World, rank: map<Id, nat>, nodes: set<Id>,
                        configs: map<Id, Value>, instances: map<Id, Value>)
    requires DeterministicWorld(w) && Ranked(w.components, rank)
    requires nodes <= rank.Keys && SelfContained(w.components, nodes)
    requires Evaluated(w, rank, nodes, configs, instances)
    ensures nodes <= w.components.Keys && Solves(w, nodes, configs, instances)
  {
    forall id | id in nodes ensures Satisfied(w, id, instances, configs[id], instances[id]) {
      EvaluationSatisfies(w, rank, instances, id, Launched(configs[id], instances[id]));
    }
  }

  /** There is no other solution: each component of one is what it evaluates to. */
  lemma {:induction false} SolutionIsEvaluated(w: World, rank: map<Id, nat>, nodes: set<Id>,
                                               configs: map<Id, Value>, instances: map<Id, Value>, id: Id)
    requires DeterministicWorld(w) && Ranked(w.components, rank)
    requires nodes <= rank.Keys && nodes <= w.components.Keys && SelfContained(w.components, nodes)
    requires Solves(w, nodes, configs, instances) && id in nodes
    ensures Evaluate(w, rank, id) == Some(Launched(configs[id], instances[id]))
    decreases rank[id]
  {
    forall d | d in Targets(w.components[id].config, id.group)
      ensures d in nodes && Evaluate(w, rank, d) == Some(Launched(configs[d], instances[d]))
    {
      SolutionIsEvaluated(w, rank, nodes, configs, instances, d);
    }
    EvaluationSatisfies(w, rank, instances, id, Launched(configs[id], instances[id]));
  }

  lemma OrderIsSelfContained(components: Components, order: seq<Id>)
    requires RefersBack(components, order)
    ensures SelfContained(components, Members(order))
  {
    forall id, d | id in Members(order) && d in Targets(components[id].config, id.group)
      ensures d in Members(order)
    {
      var k :| 0 <= k < |order| && order[k] == id;
      var ref :| ref in Refs(components[id].config) && TargetOf(ref, id.group).Ok?
                 && TargetOf(ref, id.group).value.id == d;
      assert Resolvable(ref, id.group, Members(order[..k]));
    }
  }

  lemma SolvedRun(w: World, rank: map<Id, nat>, order: seq<Id>, outcome: Outcome,
                  configs: map<Id, Value>, instances: map<Id, Value>)
    requires DeterministicWorld(w) && Ranked(w.components, rank)
    requires Members(order) <= rank.Keys && Members(order) <= w.components.Keys
    requires SelfContained(w.components, Members(order))
    requires RunMatches(w, rank, order, outcome) && Solves(w, Members(order), configs, instances)
    ensures outcome == Up(configs, instances)
  {
    forall id | id in Members(order) ensures Evaluate(w, rank, id) == Some(Launched(configs[id], instances[id])) {
      SolutionIsEvaluated(w, rank, Members(order), configs, instances, id);
    }
    assert Evaluated(w, rank, Members(order), configs, instances);
    MatchingRunsAgree(w, rank, order, Up(configs, instances), order, outcome);
    RestrictionToAll(outcome.configs, configs);
    RestrictionToAll(outcome.instances, instances);
  }

  /** `start` succeeds exactly when the definitions of the selected components have a solution,
  and what it then returns is that solution, which is the only one. */
  lemma StartSolves(w: World, requests: Option<seq<Request>>, order: seq<Id>, h: History,
                    configs: map<Id, Value>, instances: map<Id, Value>)
    requires DeterministicWorld(w) && Planned(w.components, requests, order)
    ensures Selected(w.components, requests) == Members(order) <= w.components.Keys
    ensures Solves(w, Selected(w.components, requests), configs, instances)
       <==> LaunchAll(w, order, h).0 == Up(configs, instances)
  {
    PlannedIsOrdered(w.components, requests, order);
    PlannedRefersBack(w.components, requests, order);
    PositionsRank(w.components, order);
    OrderIsSelfContained(w.components, order);
    var rank, outcome := Positions(order), LaunchAll(w, order, h).0;
    StartMatchesEvaluation(w, requests, order, h, rank);
    if outcome == Up(configs, instances) {
      EvaluatedSolves(w, rank, Members(order), configs, instances);
    }
    if Solves(w, Selected(w.components, requests), configs, instances) {
      SolvedRun(w, rank, order, outcome, configs, instances);
    }
  }
}
