/** What a call of `start` returns or raises, and why, read off the history it leaves. */
module StartResults {
  import opened Values
  import opened References
  import opened Graphs
  import opened Definitions
  import opened Selection
  import opened Lifecycle
  import opened Safety
  import opened StaticChecks

  // ---- why each event happens ------------------------------------------------------------

  /** The instances recorded among the events after the first `from`. */
  function InstancesAt(h: History, from: nat): map<Id, Value>
  {
    var kept := Summarise(h, from).kept;
    map id | id in kept :: kept[id].instance
  }

  /** The declared config with its references resolved among what has been recorded so far. */
  function ResolvedAt(w: World, id: Id, h: History, from: nat): Result<Value, Fault>
    requires id in w.components
  {
    ResolveRefs(w.components[id].config, id.group, InstancesAt(h, from), w.attr(h))
  }

  predicate Accepts(c: Component, instance: Value)
  {
    c.instanceSchema.Some? ==> c.instanceSchema.value(instance)
  }

  /** `e` is what the definitions make happen after `h`. A config is resolved among the recorded
  instances and then validated, if there is a schema; `start` is called with the outcome, and
  without an instance; what it returns is recorded with its config, if it is accepted; and the
  outcome of each call is that of the component's own callback at that moment. */
  ghost predicate Justified(w: World, h: History, from: nat, e: Event)
  {
    match e
    case Validated(id, config, outcome) =>
      && id in w.components && w.components[id].configSchema.Some?
      && ResolvedAt(w, id, h, from) == Ok(config)
      && outcome == w.components[id].configSchema.value(h, config)
    case StartCalled(ctx, outcome) =>
      && ctx.id in w.components && ctx.instance == Null
      && outcome == w.components[ctx.id].start(h, ctx)
      && (if w.components[ctx.id].configSchema.None? then ResolvedAt(w, ctx.id, h, from) == Ok(ctx.config)
          else
            && |h| > from && h[|h| - 1].Validated?
            && h[|h| - 1].id == ctx.id && h[|h| - 1].outcome == Ok(ctx.config))
    case Recorded(id, config, instance) =>
      && id in w.components && Accepts(w.components[id], instance)
      && |h| > from && h[|h| - 1] == StartCalled(Ctx(id, config, Null), Ok(instance))
    case StopCalled(ctx, failure) =>
      && ctx.id in w.components && w.components[ctx.id].stop.Some?
      && failure == w.components[ctx.id].stop.value(h, ctx)
  }

  ghost predicate AllJustified(w: World, h: History, from: nat)
  {
    |h| > from ==> AllJustified(w, h[..|h| - 1], from) && Justified(w, h[..|h| - 1], from, h[|h| - 1])
  }

  /** The event is a validation or a start of the component. */
  predicate Concerns(e: Event, id: Id)
  {
    (e.Validated? && e.id == id) || (e.StartCalled? && e.ctx.id == id)
  }

  /** The last validation or start of the component. */
  function LastOf(h: History, from: nat, id: Id): Option<Event>
  {
    if |h| <= from then None
    else if Concerns(h[|h| - 1], id) then Some(h[|h| - 1])
    else LastOf(h[..|h| - 1], from, id)
  }

  lemma {:induction false} OneMore(w: World, h: History, from: nat, e: Event, id: Id)
    requires from <= |h|
    ensures AllJustified(w, h + [e], from) <==> AllJustified(w, h, from) && Justified(w, h, from, e)
    ensures LastOf(h + [e], from, id) == if Concerns(e, id) then Some(e) else LastOf(h, from, id)
    ensures InstancesAt(h + [e], from)
         == if e.Recorded? then InstancesAt(h, from)[e.id := e.instance] else InstancesAt(h, from)
  {
    assert (h + [e])[..|h|] == h;
    assert Summarise(h + [e], from) == Extend(Summarise(h, from), e);
  }

  /** Why a component failed, told from its last validation or start: what that raised; or that it
  returned an instance which is refused; or, when there was none, that its references could not
  be resolved. Only stops come after. */
  ghost predicate FailedFor(w: World, h: History, from: nat, id: Id, cause: Fault)
  {
    && id in w.components
    && match LastOf(h, from, id) {
         case None => exists n ::
           && from <= n <= |h| && ResolvedAt(w, id, h[..n], from) == Err(cause)
           && forall i :: n <= i < |h| ==> h[i].StopCalled?
         case Some(Validated(_, _, outcome)) => outcome.Err? && cause == Raised(outcome.error)
         case Some(StartCalled(_, Err(e))) => cause == Raised(e)
         case Some(StartCalled(_, Ok(instance))) => cause == WrongInstance && !Accepts(w.components[id], instance)
         case Some(_) => false
       }
  }

  // ---- one component ---------------------------------------------------------------------

  /** The state between two turns of the start loop: all that happened is justified, and none of the
  components to come has been touched. */
  ghost predicate Untroubled(w: World, order: seq<Id>, k: nat, instances: map<Id, Value>, h: History, from: nat)
  {
    && from <= |h| && AllJustified(w, h, from) && InstancesAt(h, from) == instances
    && forall i :: k <= i < |order| ==> LastOf(h, from, order[i]).None?
  }

  /** What one turn adds: nothing recorded yet, and nothing for other components. */
  ghost predicate Tried(w: World, id: Id, h: History, h1: History, from: nat)
  {
    && |h| <= |h1| && AllJustified(w, h1, from) && InstancesAt(h1, from) == InstancesAt(h, from)
    && forall other :: other != id ==> LastOf(h1, from, other) == LastOf(h, from, other)
  }

  lemma {:induction false} TriedAppend(w: World, id: Id, h: History, h1: History, from: nat, e: Event)
    requires from <= |h| && Tried(w, id, h, h1, from)
    requires Justified(w, h1, from, e) && !e.Recorded? && forall other :: other != id ==> !Concerns(e, other)
    ensures Tried(w, id, h, h1 + [e], from)
    ensures Concerns(e, id) ==> LastOf(h1 + [e], from, id) == Some(e)
  {
    forall other
      ensures LastOf(h1 + [e], from, other) == if Concerns(e, other) then Some(e) else LastOf(h1, from, other)
    {
      OneMore(w, h1, from, e, other);
    }
    OneMore(w, h1, from, e, id);
  }

  lemma {:induction false} ValidateIsJustified(w: World, id: Id, config: Value, h: History, from: nat)
    requires id in w.components && from <= |h| && AllJustified(w, h, from)
    requires ResolvedAt(w, id, h, from) == Ok(config)
    ensures
      var (r, h1) := Validate(w.components[id], id, config, h);
      && Tried(w, id, h, h1, from)
      && (r.Err? ==> FailedFor(w, h1, from, id, Raised(r.error)))
      && (r.Ok? ==> Justified(w, h1, from, StartCalled(Ctx(id, r.value, Null),
                                                       w.components[id].start(h1, Ctx(id, r.value, Null)))))
  {
    var c := w.components[id];
    if c.configSchema.Some? {
      TriedAppend(w, id, h, h, from, Validated(id, config, c.configSchema.value(h, config)));
    }
  }

  lemma {:induction false} RunIsJustified(w: World, ctx: Ctx, h: History, h1: History, from: nat)
    requires ctx.id in w.components && from <= |h| && Tried(w, ctx.id, h, h1, from) && ctx.instance == Null
    requires Justified(w, h1, from, StartCalled(ctx, w.components[ctx.id].start(h1, ctx)))
    ensures
      var (r, h2) := Run(w.components[ctx.id], ctx, h1);
      && Tried(w, ctx.id, h, h2, from)
      && (r.Err? ==> FailedFor(w, h2, from, ctx.id, r.error))
      && (r.Ok? ==> Justified(w, h2, from, Recorded(ctx.id, r.value.config, r.value.instance)))
  {
    TriedAppend(w, ctx.id, h, h1, from, StartCalled(ctx, w.components[ctx.id].start(h1, ctx)));
  }

  lemma {:induction false} UnresolvedIsExplained(w: World, id: Id, h: History, from: nat, fault: Fault)
    requires id in w.components && from <= |h| && LastOf(h, from, id).None?
    requires ResolvedAt(w, id, h, from) == Err(fault)
    ensures FailedFor(w, h, from, id, fault)
  {
    assert h[..|h|] == h;
  }

  lemma {:induction false} LaunchIsJustified(w: World, id: Id, instances: map<Id, Value>, h: History, from: nat)
    requires id in w.components && from <= |h| && AllJustified(w, h, from)
    requires InstancesAt(h, from) == instances && LastOf(h, from, id).None?
    ensures
      var (r, h1) := Launch(w, id, instances, h);
      && Tried(w, id, h, h1, from)
      && (r.Err? ==> FailedFor(w, h1, from, id, r.error))
      && (r.Ok? ==> Justified(w, h1, from, Recorded(id, r.value.config, r.value.instance)))
  {
    match ResolvedAt(w, id, h, from) {
      case Err(fault) => UnresolvedIsExplained(w, id, h, from, fault);
      case Ok(config) =>
        ValidateIsJustified(w, id, config, h, from);
        var (valid, h1) := Validate(w.components[id], id, config, h);
        if valid.Ok? {
          RunIsJustified(w, Ctx(id, valid.value, Null), h, h1, from);
        }
    }
  }

  // ---- teardown --------------------------------------------------------------------------

  lemma {:induction false} TeardownIsJustified(w: World, order: seq<Id>, j: nat, configs: map<Id, Value>,
                                               instances: map<Id, Value>, h: History, from: nat)
    requires Covered(w.components, order, j, configs, instances) && from <= |h| && AllJustified(w, h, from)
    ensures
      var h1 := Teardown(w.components, order, j, configs, instances, h).1;
      && from <= |h1| && AllJustified(w, h1, from) && InstancesAt(h1, from) == InstancesAt(h, from)
      && forall id :: LastOf(h1, from, id) == LastOf(h, from, id)
    decreases j
  {
    if j > 0 {
      var id := order[j - 1];
      match w.components[id].stop {
        case None => TeardownIsJustified(w, order, j - 1, configs, instances, h, from);
        case Some(stop) =>
          var ctx := Ctx(id, configs[id], instances[id]);
          var e := StopCalled(ctx, stop(h, ctx));
          forall other ensures LastOf(h + [e], from, other) == LastOf(h, from, other) {
            OneMore(w, h, from, e, other);
          }
          OneMore(w, h, from, e, id);
          TeardownIsJustified(w, order, j - 1, configs, instances, h + [e], from);
      }
    }
  }

  lemma {:induction false} FailureStays(w: World, h: History, h1: History, from: nat, id: Id, cause: Fault)
    requires FailedFor(w, h, from, id, cause) && LastOf(h1, from, id) == LastOf(h, from, id)
    requires h <= h1 && forall i :: |h| <= i < |h1| ==> h1[i].StopCalled?
    ensures FailedFor(w, h1, from, id, cause)
  {
    if LastOf(h, from, id).None? {
      var n :| && from <= n <= |h| && ResolvedAt(w, id, h[..n], from) == Err(cause)
               && forall i :: n <= i < |h| ==> h[i].StopCalled?;
      assert h1[..n] == h[..n];
      assert forall i :: n <= i < |h| ==> h1[i] == h[i];
    }
  }

  // ---- the start loop --------------------------------------------------------------------

  /** What the history shows of a loop that has come to `outcome`. */
  ghost predicate Accounted(w: World, outcome: Outcome, h: History, from: nat)
  {
    && from <= |h| && AllJustified(w, h, from)
    && match outcome {
         case Up(_, instances) => InstancesAt(h, from) == instances
         case Down(id, cause, _) => FailedFor(w, h, from, id, cause)
       }
  }

  lemma {:induction false} FailureIsAccounted(w: World, order: seq<Id>, k: nat, configs: map<Id, Value>,
                                              instances: map<Id, Value>, h: History, from: nat, id: Id, cause: Fault)
    requires Covered(w.components, order, k, configs, instances) && from <= |h| && AllJustified(w, h, from)
    requires FailedFor(w, h, from, id, cause)
    ensures
      var (failures, h1) := Teardown(w.components, order, k, configs, instances, h);
      Accounted(w, Down(id, cause, failures), h1, from)
  {
    TeardownIsJustified(w, order, k, configs, instances, h, from);
    TeardownOnlyStops(w.components, order, k, configs, instances, h);
    FailureStays(w, h, Teardown(w.components, order, k, configs, instances, h).1, from, id, cause);
  }

  lemma {:induction false} SuccessIsUntroubled(w: World, order: seq<Id>, k: nat, instances: map<Id, Value>,
                                               h: History, h1: History, from: nat, l: Launched)
    requires NoDuplicates(order) && k < |order| && Untroubled(w, order, k, instances, h, from)
    requires Tried(w, order[k], h, h1, from) && Justified(w, h1, from, Recorded(order[k], l.config, l.instance))
    ensures
      Untroubled(w, order, k + 1, instances[order[k] := l.instance],
                 h1 + [Recorded(order[k], l.config, l.instance)], from)
  {
    var e := Recorded(order[k], l.config, l.instance);
    forall i | k + 1 <= i < |order| ensures LastOf(h1 + [e], from, order[i]).None? {
      OneMore(w, h1, from, e, order[i]);
    }
    OneMore(w, h1, from, e, order[k]);
  }

  lemma {:induction false} LoopIsAccounted(w: World, order: seq<Id>, k: nat,
                                           configs: map<Id, Value>, instances: map<Id, Value>, h: History, from: nat)
    requires NoDuplicates(order) && Progress(w, order, k, configs, instances)
    requires Untroubled(w, order, k, instances, h, from)
    ensures
      var (outcome, h1) := LaunchFrom(w, order, k, configs, instances, h);
      Accounted(w, outcome, h1, from)
    decreases |order| - k
  {
    if k < |order| {
      assert order[k] in Members(order);
      LaunchIsJustified(w, order[k], instances, h, from);
      var (r, h1) := Launch(w, order[k], instances, h);
      match r {
        case Err(cause) =>
          LaunchFromErr(w, order, k, configs, instances, h, cause, h1);
          FailureIsAccounted(w, order, k, configs, instances, h1, from, order[k], cause);
        case Ok(l) =>
          LaunchFromOk(w, order, k, configs, instances, h, l, h1);
          SuccessIsUntroubled(w, order, k, instances, h, h1, from, l);
          LoopIsAccounted(w, order, k + 1, configs[order[k] := l.config], instances[order[k] := l.instance],
                          h1 + [Recorded(order[k], l.config, l.instance)], from);
      }
    }
  }

  /** Every event of a session, started and stopped again or rolled back, is justified. */
  lemma {:induction false} SessionIsJustified(w: World, order: seq<Id>, h0: History)
    requires NoDuplicates(order) && Members(order) <= w.components.Keys
    ensures Accounted(w, LaunchAll(w, order, h0).0, LaunchAll(w, order, h0).1, |h0|)
    ensures AllJustified(w, Session(w, order, h0), |h0|)
  {
    assert InstancesAt(h0, |h0|) == map[];
    LoopIsAccounted(w, order, 0, map[], map[], h0, |h0|);
    var (outcome, h) := LaunchAll(w, order, h0);
    if outcome.Up? {
      UpIsCovered(w, order, 0, map[], map[], h0);
      TeardownIsJustified(w, order, |order|, outcome.configs, outcome.instances, h, |h0|);
    }
  }
  // ---- results of `start` ----------------------------------------------------------------

  /** A `StartError` names the component that failed, and says why. That component is selected; those
  before it in the order, and no others, have been recorded, and so it has not; and the stops
  reported with it are exactly those of the rollback that failed, in order. */
  lemma {:induction false} FailedStart(defs: Defs, requests: Option<seq<Request>>, attr: History -> Attributes,
                                       h0: History, r: StartResult, h: History, order: seq<Id>)
    requires StartComesTo(defs, requests, attr, h0, r, h, order) && r.Failed?
    ensures r.id in Selected(Flatten(defs), requests) && r.id in order
    ensures h0 <= h && AllJustified(World(Flatten(defs), attr), h, |h0|)
    ensures FailedFor(World(Flatten(defs), attr), h, |h0|, r.id, r.cause)
    ensures
      var s := Summarise(h, |h0|);
      && s.records <= order && |s.records| < |order| && order[|s.records|] == r.id && r.id !in s.records
      && s.failed == r.stopFailures
  {
    var w := World(Flatten(defs), attr);
    StartIsSafe(w, requests, order, h0);
    LaunchFromGrows(w, order, 0, map[], map[], h0);
    SessionIsJustified(w, order, h0);
    var outcome := LaunchAll(w, order, h0).0;
    var k: nat :| FailedAt(w, order, k, outcome.id, outcome.stopFailures, Summarise(h, |h0|));
    assert order[k] in Members(order) && order[k] !in order[..k];
  }

  /** A started system holds the definitions it was started from and, for each component of the order
  and no other, the config and instance it was recorded with. */
  lemma {:induction false} StartedSystem(defs: Defs, requests: Option<seq<Request>>, attr: History -> Attributes,
                                         h0: History, r: StartResult, h: History, order: seq<Id>)
    requires StartComesTo(defs, requests, attr, h0, r, h, order) && r.Started?
    ensures h0 <= h && AllJustified(World(Flatten(defs), attr), h, |h0|)
    ensures r.system.defs == defs && r.system.order == order == Summarise(h, |h0|).records
    ensures r.system.configs.Keys == r.system.instances.Keys == Members(order)
    ensures forall id :: id in order ==>
      && id in Summarise(h, |h0|).kept
      && Summarise(h, |h0|).kept[id] == Launched(r.system.configs[id], r.system.instances[id])
  {
    var w := World(Flatten(defs), attr);
    StartIsSafe(w, requests, order, h0);
    LaunchFromGrows(w, order, 0, map[], map[], h0);
    SessionIsJustified(w, order, h0);
    UpIsCovered(w, order, 0, map[], map[], h0);
    assert order[..|order|] == order;
  }

  // ---- errors in the definitions ---------------------------------------------------------

  /** Some reference points to nothing that is defined. */
  ghost predicate Dangling(components: Components, id: Id, ref: Reference)
  {
    && id in components && ref in Refs(components[id].config)
    && forall d :: d in components ==> !PointsTo(ref, id.group, d)
  }

  lemma {:induction false} NoDanglingByName(components: Components)
    ensures NoDangling(components) <==> forall id, ref :: !Dangling(components, id, ref)
  {
    forall id, ref | id in components && ref in Refs(components[id].config)
      ensures Resolvable(ref, id.group, components.Keys) <==> !Dangling(components, id, ref)
    {
      ResolvablePointsTo(ref, id.group, components.Keys);
    }
    forall id | id in components
      ensures AllResolvable(components[id].config, id.group, components.Keys)
         <==> forall ref :: !Dangling(components, id, ref)
    {
    }
  }

  predicate AllDenoted(components: Components, ids: seq<Request>)
  {
    forall i :: 0 <= i < |ids| ==> Denotes(ids[i], components.Keys)
  }

  lemma {:induction false} AllMatchedByName(components: Components, requests: Option<seq<Request>>)
    ensures AllMatched(components, requests) <==> (requests.Some? ==> AllDenoted(components, requests.value))
  {
    if requests.Some? {
      forall i | 0 <= i < |requests.value|
        ensures Matched(requests.value[i], DependencyGraph(components)) <==> Denotes(requests.value[i], components.Keys)
      {
        MatchedDenotes(requests.value[i], DependencyGraph(components));
      }
    }
  }

  /** The error for a reference that points to nothing: it has no component to point to, or names one
  that is not there. */
  predicate ReportsReference(error: DefinitionError, id: Id, ref: Reference)
  {
    match error
    case ShortReference(path) =>
      |path| < 2 && path == if ref.Ref? then ref.path else if ref.LocalRef? then [id.group] + ref.path else []
    case Undefined(from, target) => from == id && PointsTo(ref, id.group, target)
    case _ => false
  }

  lemma {:induction false} RejectionReports(error: DefinitionError, components: Components, id: Id)
    requires id in components && FirstRejected(error, id, components[id].config, components.Keys)
    ensures exists ref :: Dangling(components, id, ref) && ReportsReference(error, id, ref)
  {
    var refs := Refs(components[id].config);
    var i :| && 0 <= i < |refs| && !Resolvable(refs[i], id.group, components.Keys)
             && error == Rejection(id, refs[i]);
    ResolvablePointsTo(refs[i], id.group, components.Keys);
    assert Dangling(components, id, refs[i]) && ReportsReference(error, id, refs[i]);
  }

  /** What `start` refuses, and with which error: a reference that points to nothing, in any component;
  else the first id that asks for nothing; else all the slots missing in the selection; else a
  cycle in it. Whatever it refuses, nothing has happened. */
  lemma {:induction false} InvalidStart(defs: Defs, requests: Option<seq<Request>>, attr: History -> Attributes,
                                        h0: History, r: StartResult, h: History, order: seq<Id>)
    requires StartComesTo(defs, requests, attr, h0, r, h, order)
    ensures r.Invalid? ==> h == h0
    ensures (exists id, ref :: Dangling(Flatten(defs), id, ref)) ==>
      r.Invalid? && exists id, ref :: Dangling(Flatten(defs), id, ref) && ReportsReference(r.error, id, ref)
    ensures
      && (forall id, ref :: !Dangling(Flatten(defs), id, ref))
      && requests.Some? && !AllDenoted(Flatten(defs), requests.value) ==>
        && r.Invalid?
        && exists i ::
             && 0 <= i < |requests.value| && r.error == NoMatch(requests.value[i])
             && !Denotes(requests.value[i], Flatten(defs).Keys)
             && forall j :: 0 <= j < i ==> Denotes(requests.value[j], Flatten(defs).Keys)
    ensures
      && (forall id, ref :: !Dangling(Flatten(defs), id, ref))
      && (requests.Some? ==> AllDenoted(Flatten(defs), requests.value)) ==>
        var missing := MissingSlots(Flatten(defs), Selected(Flatten(defs), requests));
        var cyclic := exists n :: n in Selected(Flatten(defs), requests) && OnCycle(DependencyGraph(Flatten(defs)), n);
        && (missing != {} ==>
              r.Invalid? && ListsMissing(r.error, Flatten(defs), Selected(Flatten(defs), requests)))
        && (missing == {} && cyclic ==> r == Invalid(Cycle))
        && (missing == {} && !cyclic ==> !r.Invalid?)
  {
    var components := Flatten(defs);
    NoDanglingByName(components);
    AllMatchedByName(components, requests);
    if !NoDangling(components) {
      var id :| id in components && FirstRejected(r.error, id, components[id].config, components.Keys);
      RejectionReports(r.error, components, id);
    } else if !AllMatched(components, requests) {
      UnmatchedByName(r.error, requests.value, components);
    } else {
      RejectedCycles(components, requests);
    }
  }

  lemma {:induction false} UnmatchedByName(error: DefinitionError, ids: seq<Request>, components: Components)
    requires FirstUnmatched(error, ids, DependencyGraph(components))
    ensures exists i ::
      && 0 <= i < |ids| && error == NoMatch(ids[i]) && !Denotes(ids[i], components.Keys)
      && forall j :: 0 <= j < i ==> Denotes(ids[j], components.Keys)
  {
    forall i | 0 <= i < |ids|
      ensures Matched(ids[i], DependencyGraph(components)) <==> Denotes(ids[i], components.Keys)
    {
      MatchedDenotes(ids[i], DependencyGraph(components));
    }
  }
}
