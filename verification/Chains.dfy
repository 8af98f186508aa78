/** Reading through constants: a path into a constant's instance can be followed in the config
trees themselves, from reference to reference. */
module Chains {
  import opened Values
  import opened References
  import opened Graphs
  import opened Definitions
  import opened Lifecycle
  import opened Safety
  import opened StaticChecks

  /** What `constant` makes, and anything that behaves like it. */
  ghost predicate IsConstant(c: Component)
  {
    c.configSchema.None? && c.instanceSchema.None? && forall h, ctx :: c.start(h, ctx) == Ok(ctx.config)
  }

  lemma ConstantIsConstant(value: Value)
    ensures IsConstant(Constant(value))
  {
  }

  // ---- the instances of constants --------------------------------------------------------

  ghost predicate Steady(w: World, attr: Attributes)
  {
    forall h :: w.attr(h) == attr
  }

  /** `later` holds everything `sooner` does. */
  ghost predicate Keeps(sooner: map<Id, Value>, later: map<Id, Value>)
  {
    sooner.Keys <= later.Keys && forall id :: id in sooner ==> later[id] == sooner[id]
  }

  /** The started instance of every constant is its config with the references resolved. */
  ghost predicate ConstantsHold(w: World, order: seq<Id>, k: nat, instances: map<Id, Value>, attr: Attributes)
    requires k <= |order|
  {
    forall i :: k <= i < |order| && order[i] in w.components && IsConstant(w.components[order[i]]) ==>
      && order[i] in instances
      && ResolveRefs(w.components[order[i]].config, order[i].group, instances, attr) == Ok(instances[order[i]])
  }

  lemma ResolveLater(x: Value, group: string, sooner: map<Id, Value>, later: map<Id, Value>, attr: Attributes)
    requires AllResolvable(x, group, sooner.Keys) && Keeps(sooner, later)
    ensures ResolveRefs(x, group, later, attr) == ResolveRefs(x, group, sooner, attr)
  {
    forall ref | ref in Refs(x) ensures AgreeOn(ref, group, later, sooner) {
      assert Resolvable(ref, group, sooner.Keys);
    }
    ResolveFrame(x, group, later, sooner, attr);
  }

  lemma ConstantLaunch(c: Component, id: Id, resolved: Result<Value, Fault>, h: History)
    requires IsConstant(c)
    ensures LaunchWith(c, id, resolved, h).0
         == match resolved { case Ok(v) => Ok(Launched(v, v)) case Err(e) => Err(e) }
  {
  }

  /** If the loop comes up, it keeps the instances it had, and the constants from `k` on hold. */
  ghost predicate UpKeeps(w: World, order: seq<Id>, k: nat, instances: map<Id, Value>, outcome: Outcome,
                          attr: Attributes)
    requires k <= |order|
  {
    RefersBack(w.components, order) && NoDuplicates(order) && Steady(w, attr) && outcome.Up? ==>
      Keeps(instances, outcome.instances) && ConstantsHold(w, order, k, outcome.instances, attr)
  }

  lemma ConstantStep(w: World, order: seq<Id>, k: nat, configs: map<Id, Value>, instances: map<Id, Value>, h: History,
                     l: Launched, outcome: Outcome, attr: Attributes)
    requires Progress(w, order, k, configs, instances) && k < |order| && order[k] in w.components
    requires Launch(w, order[k], instances, h).0 == Ok(l)
    requires UpKeeps(w, order, k + 1, instances[order[k] := l.instance], outcome, attr)
    ensures UpKeeps(w, order, k, instances, outcome, attr)
  {
    if RefersBack(w.components, order) && NoDuplicates(order) && Steady(w, attr) && outcome.Up? {
      var id, c := order[k], w.components[order[k]];
      assert id !in Members(order[..k]);
      var sooner, later := instances[id := l.instance], outcome.instances;
      assert forall x :: x in instances ==> x in sooner && later[x] == sooner[x];
      assert id in sooner && later[id] == l.instance;
      if IsConstant(c) {
        ConstantLaunch(c, id, ResolveRefs(c.config, id.group, instances, attr), h);
        ResolveLater(c.config, id.group, instances, later, attr);
      }
    }
  }

  lemma {:induction false} LoopKeepsConstants(w: World, order: seq<Id>, k: nat,
                                              configs: map<Id, Value>, instances: map<Id, Value>, h: History,
                                              attr: Attributes)
    requires Progress(w, order, k, configs, instances)
    ensures UpKeeps(w, order, k, instances, LaunchFrom(w, order, k, configs, instances, h).0, attr)
    decreases |order| - k
  {
    if k < |order| {
      assert order[k] in Members(order);
      var (r, h1) := Launch(w, order[k], instances, h);
      match r {
        case Err(cause) => LaunchFromErr(w, order, k, configs, instances, h, cause, h1);
        case Ok(l) =>
          LaunchFromOk(w, order, k, configs, instances, h, l, h1);
          var configs1, instances1 := configs[order[k] := l.config], instances[order[k] := l.instance];
          var h2 := h1 + [Recorded(order[k], l.config, l.instance)];
          LoopKeepsConstants(w, order, k + 1, configs1, instances1, h2, attr);
          ConstantStep(w, order, k, configs, instances, h, l,
                       LaunchFrom(w, order, k + 1, configs1, instances1, h2).0, attr);
      }
    }
  }

  // ---- following a path ------------------------------------------------------------------

  /** Where following a path through the trees ends: at a subtree of some group's config, with
  the part of the path that cannot be followed there, or in the instance of a component that is
  not a constant. */
  datatype Landing = InTree(group: string, tree: Value, path: seq<string>) | InInstance(id: Id, path: seq<string>)

  /** The references of `x` lead to components ranked below `bound`. */
  ghost predicate Below(rank: map<Id, nat>, x: Value, group: string, bound: nat)
  {
    forall ref :: ref in Refs(x) ==>
      Resolvable(ref, group, rank.Keys) && rank[TargetOf(ref, group).value.id] < bound
  }

  ghost predicate ChainRank(components: Components, rank: map<Id, nat>)
  {
    forall id :: id in rank ==> id in components && Below(rank, components[id].config, id.group, rank[id])
  }

  /** Follow `path` from the tree `x`: down mappings, and from a reference to the constant it
  names, with what is left of the path appended to the reference's own. */
  ghost function Follow(components: Components, rank: map<Id, nat>, x: Value, group: string,
                        path: seq<string>, bound: nat): Landing
    requires ChainRank(components, rank) && Below(rank, x, group, bound)
    decreases bound, 1, x
  {
    match x
    case Ref(_) => FollowRef(components, rank, x, group, path, bound)
    case LocalRef(_) => FollowRef(components, rank, x, group, path, bound)
    case Mapping(es) =>
      if path != [] && SegmentKey(es, path[0]).Some? then
        var key := SegmentKey(es, path[0]).value;
        EntryIsBelow(rank, es, key, group, bound);
        Follow(components, rank, Lookup(es, key).value, group, path[1..], bound)
      else
        InTree(group, x, path)
    case _ => InTree(group, x, path)
  }

  ghost function FollowRef(components: Components, rank: map<Id, nat>, ref: Reference, group: string,
                           path: seq<string>, bound: nat): Landing
    requires ChainRank(components, rank) && Resolvable(ref, group, rank.Keys)
    requires rank[TargetOf(ref, group).value.id] < bound
    decreases bound, 0
  {
    var target := TargetOf(ref, group).value;
    if IsConstant(components[target.id]) then
      Follow(components, rank, components[target.id].config, target.id.group, target.path + path, rank[target.id])
    else InInstance(target.id, target.path + path)
  }

  lemma EntryIsBelow(rank: map<Id, nat>, es: Entries, key: Key, group: string, bound: nat)
    requires Below(rank, Mapping(es), group, bound) && Lookup(es, key).Some?
    ensures Below(rank, Lookup(es, key).value, group, bound)
  {
    forall ref | ref in Refs(Lookup(es, key).value) ensures ref in Refs(Mapping(es)) {
      EntryRefs(es, key, ref);
    }
  }

  lemma {:induction false} EntryRefs(es: Entries, key: Key, ref: Reference)
    requires Lookup(es, key).Some? && ref in Refs(Lookup(es, key).value)
    ensures ref in RefsInEntries(es)
  {
    if es.key != key {
      EntryRefs(es.rest, key, ref);
    }
  }

  /** What is found where following ends. */
  function Found(landing: Landing, instances: map<Id, Value>, attr: Attributes): Result<Value, Fault>
  {
    match landing
    case InTree(group, tree, path) =>
      var v :- ResolveRefs(tree, group, instances, attr);
      Walk(v, path, attr)
    case InInstance(id, path) =>
      if id in instances then Walk(instances[id], path, attr) else Err(NoInstance(id))
  }

  ghost predicate ConstantsResolved(components: Components, rank: map<Id, nat>, instances: map<Id, Value>,
                                    attr: Attributes)
  {
    forall id :: id in rank && id in components ==>
      && id in instances
      && (IsConstant(components[id]) ==>
            ResolveRefs(components[id].config, id.group, instances, attr) == Ok(instances[id]))
  }

  /** Walking a path into a resolved tree finds what following it through the trees finds. */
  lemma {:induction false} WalkIsFollow(components: Components, rank: map<Id, nat>,
                                        x: Value, group: string, path: seq<string>, bound: nat,
                                        instances: map<Id, Value>, attr: Attributes)
    requires ChainRank(components, rank) && Below(rank, x, group, bound)
    requires ConstantsResolved(components, rank, instances, attr)
    requires ResolveRefs(x, group, instances, attr).Ok?
    ensures Walk(ResolveRefs(x, group, instances, attr).value, path, attr)
         == Found(Follow(components, rank, x, group, path, bound), instances, attr)
    decreases bound, 1, x
  {
    match x
    case Ref(_) => WalkIsFollowRef(components, rank, x, group, path, bound, instances, attr);
    case LocalRef(_) => WalkIsFollowRef(components, rank, x, group, path, bound, instances, attr);
    case Mapping(es) =>
      if path != [] && SegmentKey(es, path[0]).Some? {
        var key := SegmentKey(es, path[0]).value;
        var rs := ResolveEntries(es, group, instances, attr).value;
        ResolvedEntry(es, group, instances, attr, Name(path[0]));
        if IsDigits(path[0]) {
          ResolvedEntry(es, group, instances, attr, Number(DigitsValue(path[0])));
        }
        EntryIsBelow(rank, es, key, group, bound);
        WalkIsFollow(components, rank, Lookup(es, key).value, group, path[1..], bound, instances, attr);
      }
    case _ =>
  }

  lemma {:induction false} WalkIsFollowRef(components: Components, rank: map<Id, nat>,
                                           ref: Reference, group: string, path: seq<string>, bound: nat,
                                           instances: map<Id, Value>, attr: Attributes)
    requires ChainRank(components, rank) && Resolvable(ref, group, rank.Keys)
    requires rank[TargetOf(ref, group).value.id] < bound
    requires ConstantsResolved(components, rank, instances, attr)
    requires Deref(ref, group, instances, attr).Ok?
    ensures Walk(Deref(ref, group, instances, attr).value, path, attr)
         == Found(FollowRef(components, rank, ref, group, path, bound), instances, attr)
    decreases bound, 0
  {
    var target := TargetOf(ref, group).value;
    WalkAppend(instances[target.id], target.path, path, attr);
    if IsConstant(components[target.id]) {
      WalkIsFollow(components, rank, components[target.id].config, target.id.group, target.path + path,
                   rank[target.id], instances, attr);
    }
  }

  lemma StartedConstants(w: World, requests: Option<seq<Request>>, order: seq<Id>, h0: History, attr: Attributes)
    requires Planned(w.components, requests, order) && Steady(w, attr)
    requires Members(order) <= w.components.Keys && LaunchAll(w, order, h0).0.Up?
    ensures NoDuplicates(order) && RefersBack(w.components, order)
    ensures ConstantsResolved(w.components, Positions(order), LaunchAll(w, order, h0).0.instances, attr)
  {
    PlannedIsOrdered(w.components, requests, order);
    PlannedRefersBack(w.components, requests, order);
    LoopKeepsConstants(w, order, 0, map[], map[], h0, attr);
    UpIsCovered(w, order, 0, map[], map[], h0);
    var instances := LaunchAll(w, order, h0).0.instances;
    forall x | x in Positions(order)
      ensures x in instances
      ensures IsConstant(w.components[x]) ==>
        ResolveRefs(w.components[x].config, x.group, instances, attr) == Ok(instances[x])
    {
      var i := IndexIn(order, x);
      assert order[i] == x;
    }
  }

  /** Reading through constants: in a system that has started, a walk into any constant's instance
  finds what following the path through the config trees finds. */
  lemma ConstantsCanBeFollowed(w: World, requests: Option<seq<Request>>, order: seq<Id>, h0: History,
                               attr: Attributes, id: Id, path: seq<string>)
    requires Planned(w.components, requests, order) && Steady(w, attr)
    requires Members(order) <= w.components.Keys && LaunchAll(w, order, h0).0.Up?
    requires id in order && IsConstant(w.components[id])
    ensures ChainRank(w.components, Positions(order)) && id in Positions(order)
    ensures Below(Positions(order), w.components[id].config, id.group, Positions(order)[id])
    ensures
      var instances := LaunchAll(w, order, h0).0.instances;
      var landing := Follow(w.components, Positions(order), w.components[id].config, id.group, path,
                            Positions(order)[id]);
      id in instances && Walk(instances[id], path, attr) == Found(landing, instances, attr)
  {
    StartedConstants(w, requests, order, h0, attr);
    PositionsChainRank(w.components, order);
    var rank, instances := Positions(order), LaunchAll(w, order, h0).0.instances;
    assert id in rank;
    WalkIsFollow(w.components, rank, w.components[id].config, id.group, path, rank[id], instances, attr);
  }

  lemma PositionsChainRank(components: Components, order: seq<Id>)
    requires NoDuplicates(order) && RefersBack(components, order)
    ensures ChainRank(components, Positions(order))
  {
    var rank := Positions(order);
    forall id, ref | id in rank && ref in Refs(components[id].config)
      ensures Resolvable(ref, id.group, rank.Keys) && rank[TargetOf(ref, id.group).value.id] < rank[id]
    {
      var k := IndexIn(order, id);
      assert Resolvable(ref, id.group, Members(order[..k]));
      var i :| 0 <= i < k && order[i] == TargetOf(ref, id.group).value.id;
    }
  }
  // ---- references left in constants ------------------------------------------------------

  /** No reference is left in a started constant's instance exactly when no tuple of its config
  holds one and none is brought in by the references that are replaced. */
  lemma ConstantIsResolved(w: World, requests: Option<seq<Request>>, order: seq<Id>, h0: History,
                           attr: Attributes, id: Id)
    requires Planned(w.components, requests, order) && Steady(w, attr)
    requires Members(order) <= w.components.Keys && LaunchAll(w, order, h0).0.Up?
    requires id in order && IsConstant(w.components[id])
    ensures
      var config, instances := w.components[id].config, LaunchAll(w, order, h0).0.instances;
      && id in instances
      && (Refs(instances[id]) == []
          <==> NoRefsInTuples(config) &&
               forall ref :: ref in VisibleRefs(config) ==> Settled(ref, id.group, instances, attr))
  {
    StartedConstants(w, requests, order, h0, attr);
    assert id in Positions(order);
    ResolvedRefs(w.components[id].config, id.group, LaunchAll(w, order, h0).0.instances, attr);
  }

  /** Neither an attribute nor the instance of a component that is no constant holds a reference. */
  ghost predicate OthersHoldNoRefs(components: Components, order: seq<Id>, instances: map<Id, Value>, attr: Attributes)
  {
    && (forall v, name :: attr(v, name).Ok? ==> Refs(attr(v, name).value) == [])
    && forall id :: id in order && id in components && id in instances && !IsConstant(components[id]) ==>
         Refs(instances[id]) == []
  }

  lemma {:induction false} WalkFindsNoRefs(value: Value, path: seq<string>, attr: Attributes)
    requires Refs(value) == []
    requires forall v, name :: attr(v, name).Ok? ==> Refs(attr(v, name).value) == []
    ensures Walk(value, path, attr).Ok? ==> Refs(Walk(value, path, attr).value) == []
    decreases |path|
  {
    if path != [] && Step(value, path[0], attr).Ok? {
      var next := Step(value, path[0], attr).value;
      if value.Mapping? {
        var key := SegmentKey(value.entries, path[0]).value;
        if Refs(next) != [] {
          EntryRefs(value.entries, key, Refs(next)[0]);
        }
      }
      WalkFindsNoRefs(next, path[1..], attr);
    }
  }

  /** If no tuple in the constants' configs holds a reference, none of the instances does. */
  lemma {:induction false} InstanceHoldsNoRefs(components: Components, order: seq<Id>, instances: map<Id, Value>,
                                               attr: Attributes, i: nat)
    requires NoDuplicates(order) && RefersBack(components, order) && i < |order|
    requires ConstantsResolved(components, Positions(order), instances, attr)
    requires OthersHoldNoRefs(components, order, instances, attr)
    requires forall id :: id in order && IsConstant(components[id]) ==> NoRefsInTuples(components[id].config)
    ensures order[i] in instances && Refs(instances[order[i]]) == []
    decreases i
  {
    var id := order[i];
    var config := components[id].config;
    assert id in Positions(order);
    if IsConstant(components[id]) {
      AllRefsVisible(config);
      ResolvedRefs(config, id.group, instances, attr);
      forall ref | ref in VisibleRefs(config) ensures Settled(ref, id.group, instances, attr) {
        assert Resolvable(ref, id.group, Members(order[..i]));
        var target := TargetOf(ref, id.group).value;
        var j :| 0 <= j < i && order[j] == target.id;
        InstanceHoldsNoRefs(components, order, instances, attr, j);
        WalkFindsNoRefs(instances[target.id], target.path, attr);
      }
    }
  }

  /** So `constant` keeps its promise throughout a started system, whatever refers to what, exactly
  when no tuple in a constant's config holds a reference, unless other components hand references
  out. */
  lemma ConstantsAreResolved(w: World, requests: Option<seq<Request>>, order: seq<Id>, h0: History, attr: Attributes)
    requires Planned(w.components, requests, order) && Steady(w, attr)
    requires Members(order) <= w.components.Keys && LaunchAll(w, order, h0).0.Up?
    requires OthersHoldNoRefs(w.components, order, LaunchAll(w, order, h0).0.instances, attr)
    ensures forall id :: id in order ==> id in LaunchAll(w, order, h0).0.instances
    ensures (forall id :: id in order && IsConstant(w.components[id]) ==>
               Refs(LaunchAll(w, order, h0).0.instances[id]) == [])
       <==> (forall id :: id in order && IsConstant(w.components[id]) ==> NoRefsInTuples(w.components[id].config))
  {
    StartedConstants(w, requests, order, h0, attr);
    var instances := LaunchAll(w, order, h0).0.instances;
    forall id | id in order ensures id in instances {
      assert id in Positions(order);
    }
    forall id | id in order && IsConstant(w.components[id]) && Refs(instances[id]) == []
      ensures NoRefsInTuples(w.components[id].config)
    {
      ConstantIsResolved(w, requests, order, h0, attr, id);
    }
    if forall id :: id in order && IsConstant(w.components[id]) ==> NoRefsInTuples(w.components[id].config) {
      forall id | id in order ensures Refs(instances[id]) == [] {
        var i :| 0 <= i < |order| && order[i] == id;
        InstanceHoldsNoRefs(w.components, order, instances, attr, i);
      }
    }
  }

  // ---- plain declarations ----------------------------------------------------------------

  /** A plain value in a system block declares a constant with that value for its config. */
  lemma PlainIsConstant(value: Value, registry: map<string, Component>)
    requires !value.ComponentDef?
    ensures ComponentOf(Plain(value), registry).Ok?
    ensures
      var c := ComponentOf(Plain(value), registry).value;
      IsConstant(c) && c.config == value && c.stop.None?
  {
    ConstantIsConstant(value);
  }
}
