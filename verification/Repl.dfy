/** The development session: `go` and `halt` over the one current system. */
module Repl {
  import opened Values
  import opened References
  import opened Graphs
  import opened Definitions
  import opened Lifecycle
  import opened Safety

  // ---- what a session has done -----------------------------------------------------------

  /** A call of `start` or of `stop`, what came of it, and where the history stood at its end. */
  datatype Operation =
    | Starts(defs: Defs, requests: Option<seq<Request>>, attr: History -> Attributes, order: seq<Id>,
             result: StartResult, end: nat)
    | Stops(system: System, failures: Failures, end: nat)

  type Log = seq<Operation>

  /** Where the history stood when the first `n` operations were over. */
  function EndOf(log: Log, n: nat): nat
    requires n <= |log|
  {
    if n == 0 then 0 else log[n - 1].end
  }

  /** The last system that the first `n` operations started, unless a `stop` has returned since. */
  function Outstanding(log: Log, n: nat): Option<System>
    requires n <= |log|
  {
    if n == 0 then None
    else
      match log[n - 1]
      case Starts(_, _, _, _, result, _) =>
        if result.Started? then Some(result.system) else Outstanding(log, n - 1)
      case Stops(_, failures, _) => if failures == [] then None else Outstanding(log, n - 1)
  }

  ghost predicate StopComesTo(s: System, h0: History, failures: Failures, h: History)
  {
    && ValidSystem(s)
    && (failures, h) == Teardown(Flatten(s.defs), s.order, |s.order|, s.configs, s.instances, h0)
  }

  /** The operation takes the history from `h0` to `h`. Only the outstanding system is stopped, and
  nothing is started while there is one. */
  ghost predicate Does(o: Operation, outstanding: Option<System>, h0: History, h: History)
  {
    match o
    case Starts(defs, requests, attr, order, result, _) =>
      outstanding.None? && StartComesTo(defs, requests, attr, h0, result, h, order)
    case Stops(s, failures, _) =>
      outstanding == Some(s) && StopComesTo(s, h0, failures, h)
  }

  ghost predicate DoneAt(log: Log, h: History, k: nat)
    requires k < |log|
  {
    && EndOf(log, k) <= log[k].end <= |h|
    && Does(log[k], Outstanding(log, k), h[..EndOf(log, k)], h[..log[k].end])
  }

  predicate EndsRise(log: Log)
  {
    forall a, b :: 0 <= a <= b < |log| ==> log[a].end <= log[b].end
  }

  ghost predicate AllDone(log: Log, h: History)
  {
    forall k :: 0 <= k < |log| ==> DoneAt(log, h, k)
  }

  /** The history is what these operations, one after the other, have brought about. */
  ghost predicate Happened(log: Log, h: History)
  {
    EndsRise(log) && EndOf(log, |log|) == |h| && AllDone(log, h)
  }

  lemma {:induction false} OutstandingAppend(log: Log, o: Operation, n: nat)
    requires n <= |log|
    ensures Outstanding(log + [o], n) == Outstanding(log, n)
  {
    if n > 0 {
      OutstandingAppend(log, o, n - 1);
    }
  }

  lemma {:induction false} TakeOfPrefix(shorter: History, h: History, n: nat)
    requires shorter <= h && n <= |shorter|
    ensures h[..n] == shorter[..n]
    ensures n == |shorter| ==> h[..n] == shorter
  {
  }

  lemma {:induction false} DoneAppend(log: Log, h0: History, o: Operation, h: History, k: nat)
    requires k < |log| && DoneAt(log, h0, k) && h0 <= h
    ensures DoneAt(log + [o], h, k)
  {
    OutstandingAppend(log, o, k);
    TakeOfPrefix(h0, h, EndOf(log, k));
    TakeOfPrefix(h0, h, log[k].end);
  }

  lemma {:induction false} DoneLast(log: Log, h0: History, o: Operation, h: History)
    requires EndOf(log, |log|) == |h0| && h0 <= h && o.end == |h| && Does(o, Outstanding(log, |log|), h0, h)
    ensures DoneAt(log + [o], h, |log|)
  {
    OutstandingAppend(log, o, |log|);
    TakeOfPrefix(h0, h, |h0|);
    TakeOfPrefix(h, h, |h|);
  }

  lemma {:induction false} EndsAppend(log: Log, o: Operation)
    requires EndsRise(log) && EndOf(log, |log|) <= o.end
    ensures EndsRise(log + [o]) && EndOf(log + [o], |log| + 1) == o.end
  {
  }

  lemma {:induction false} AllDoneAppend(log: Log, h0: History, o: Operation, h: History)
    requires AllDone(log, h0) && h0 <= h && DoneAt(log + [o], h, |log|)
    ensures AllDone(log + [o], h)
  {
    forall k | 0 <= k < |log| ensures DoneAt(log + [o], h, k) {
      DoneAppend(log, h0, o, h, k);
    }
  }

  lemma {:induction false} HappenedAppend(log: Log, h0: History, o: Operation, h: History)
    requires Happened(log, h0) && h0 <= h && o.end == |h| && Does(o, Outstanding(log, |log|), h0, h)
    ensures Happened(log + [o], h)
    ensures Outstanding(log + [o], |log|) == Outstanding(log, |log|)
  {
    EndsAppend(log, o);
    DoneLast(log, h0, o, h);
    AllDoneAppend(log, h0, o, h);
    OutstandingAppend(log, o, |log|);
  }

  /** A system that was started is outstanding until a `stop` of it returns. */
  lemma {:induction false} StaysOutstanding(log: Log, h: History, j: nat, n: nat) returns (m: nat)
    requires Happened(log, h) && j < n <= |log| && log[j].Starts? && log[j].result.Started?
    ensures j < m <= n
    ensures m == n ==> Outstanding(log, n) == Some(log[j].result.system)
    ensures m < n ==> log[m].Stops? && log[m].system == log[j].result.system && log[m].failures == []
    decreases n
  {
    m := n;
    if j < n - 1 {
      m := StaysOutstanding(log, h, j, n - 1);
      assert DoneAt(log, h, n - 1);
      if m == n - 1 && !(log[m].Stops? && log[m].failures == []) {
        m := n;
      }
    }
  }

  // ---- what the history shows of it ------------------------------------------------------

  /** The call of the `stop` of the `i`-th component of the system, returning. */
  function StopReturned(s: System, i: nat): Event
    requires ValidSystem(s) && i < |s.order|
  {
    StopCalled(Ctx(s.order[i], s.configs[s.order[i]], s.instances[s.order[i]]), None)
  }

  /** Each `stop` of the system has been called, and has returned, in the events from `from` to `to`. */
  ghost predicate StoppedWithin(s: System, h: History, from: nat, to: nat)
  {
    && ValidSystem(s) && to <= |h|
    && forall i :: 0 <= i < |s.order| && s.order[i] in Stoppable(Flatten(s.defs)) ==>
         exists p :: from <= p < to && h[p] == StopReturned(s, i)
  }

  lemma {:induction false} TeardownCalls(components: Components, order: seq<Id>, j: nat, configs: map<Id, Value>,
                                         instances: map<Id, Value>, h: History, i: nat) returns (p: nat)
    requires Covered(components, order, j, configs, instances)
    requires i < j && components[order[i]].stop.Some?
    ensures
      var (failures, h1) := Teardown(components, order, j, configs, instances, h);
      && |h| <= p < |h1| && h1[p].StopCalled?
      && h1[p].ctx == Ctx(order[i], configs[order[i]], instances[order[i]])
      && (failures == [] ==> h1[p].failure == None)
    decreases j
  {
    var id := order[j - 1];
    match components[id].stop {
      case None =>
        p := TeardownCalls(components, order, j - 1, configs, instances, h, i);
      case Some(stop) =>
        var ctx := Ctx(id, configs[id], instances[id]);
        var h1 := h + [StopCalled(ctx, stop(h, ctx))];
        if i == j - 1 {
          p := |h|;
          TeardownOnlyStops(components, order, j - 1, configs, instances, h1);
        } else {
          p := TeardownCalls(components, order, j - 1, configs, instances, h1, i);
        }
    }
  }

  lemma {:induction false} StopCallsAll(s: System, h0: History, h: History)
    requires StopComesTo(s, h0, [], h)
    ensures StoppedWithin(s, h, |h0|, |h|)
  {
    forall i | 0 <= i < |s.order| && s.order[i] in Stoppable(Flatten(s.defs))
      ensures exists p :: |h0| <= p < |h| && h[p] == StopReturned(s, i)
    {
      var p := TeardownCalls(Flatten(s.defs), s.order, |s.order|, s.configs, s.instances, h0, i);
      assert h[p] == StopReturned(s, i);
    }
  }

  lemma {:induction false} OperationOf(log: Log, h: History, i: nat, n: nat) returns (k: nat)
    requires n <= |log| && i < EndOf(log, n)
    ensures k < n && EndOf(log, k) <= i < log[k].end
  {
    k := n - 1;
    if i < EndOf(log, k) {
      k := OperationOf(log, h, i, k);
    }
  }

  /** A component is started by a `start` made with no system outstanding. */
  lemma {:induction false} StartedBy(log: Log, h: History, i: nat) returns (k: nat)
    requires Happened(log, h) && i < |h| && h[i].StartCalled?
    ensures k < |log| && EndOf(log, k) <= i < log[k].end
    ensures log[k].Starts? && Outstanding(log, k).None?
  {
    k := OperationOf(log, h, i, |log|);
    assert DoneAt(log, h, k);
    if log[k].Stops? {
      var s := log[k].system;
      TeardownOnlyStops(Flatten(s.defs), s.order, |s.order|, s.configs, s.instances, h[..EndOf(log, k)]);
    }
  }

  lemma {:induction false} ReturnedStop(log: Log, h: History, m: nat)
    requires Happened(log, h) && m < |log| && log[m].Stops? && log[m].failures == []
    ensures EndOf(log, m) <= log[m].end <= |h|
    ensures StoppedWithin(log[m].system, h[..log[m].end], EndOf(log, m), log[m].end)
  {
    assert DoneAt(log, h, m);
    StopCallsAll(log[m].system, h[..EndOf(log, m)], h[..log[m].end]);
  }

  lemma {:induction false} Widen(s: System, h1: History, from1: nat, to1: nat, h: History, from: nat, to: nat)
    requires StoppedWithin(s, h1, from1, to1) && h1 <= h && from <= from1 && to1 <= to <= |h|
    ensures StoppedWithin(s, h, from, to)
  {
    forall i | 0 <= i < |s.order| && s.order[i] in Stoppable(Flatten(s.defs))
      ensures exists p :: from <= p < to && h[p] == StopReturned(s, i)
    {
      var p :| from1 <= p < to1 && h1[p] == StopReturned(s, i);
      assert h[p] == h1[p];
    }
  }

  /** Read off the history: wherever a component is started, every `stop` of every system started
  before has been called, after that start and before this one, and has returned. */
  lemma {:induction false} StartsAreQuiet(log: Log, h: History, i: nat, j: nat)
    requires Happened(log, h) && i < |h| && h[i].StartCalled?
    requires j < |log| && log[j].Starts? && log[j].result.Started? && log[j].end <= i
    ensures StoppedWithin(log[j].result.system, h, log[j].end, i)
  {
    var k := StartedBy(log, h, i);
    assert j < k;
    var m := StaysOutstanding(log, h, j, k);
    ReturnedStop(log, h, m);
    Widen(log[m].system, h[..log[m].end], EndOf(log, m), log[m].end, h, log[j].end, i);
  }

  // ---- stopping again --------------------------------------------------------------------

  /** How often the `stop` of a component has been called in the events after the first `from`. */
  function StopCount(h: History, from: nat, id: Id): nat
  {
    if |h| <= from then 0
    else
      StopCount(h[..|h| - 1], from, id)
      + if h[|h| - 1].StopCalled? && h[|h| - 1].ctx.id == id then 1 else 0
  }

  lemma {:induction false} StopCountAppend(h: History, from: nat, id: Id, e: Event)
    requires from <= |h|
    ensures StopCount(h + [e], from, id)
         == StopCount(h, from, id) + if e.StopCalled? && e.ctx.id == id then 1 else 0
  {
    assert (h + [e])[..|h|] == h;
  }

  lemma {:induction false} TeardownCounts(components: Components, order: seq<Id>, j: nat, configs: map<Id, Value>,
                                          instances: map<Id, Value>, h: History, from: nat, id: Id)
    requires Covered(components, order, j, configs, instances) && NoDuplicates(order) && from <= |h|
    ensures
      StopCount(Teardown(components, order, j, configs, instances, h).1, from, id)
      == StopCount(h, from, id) + if id in order[..j] && id in Stoppable(components) then 1 else 0
    decreases j
  {
    if j > 0 {
      var last := order[j - 1];
      assert order[..j] == order[..j - 1] + [last];
      match components[last].stop {
        case None =>
          TeardownCounts(components, order, j - 1, configs, instances, h, from, id);
        case Some(stop) =>
          var ctx := Ctx(last, configs[last], instances[last]);
          var e := StopCalled(ctx, stop(h, ctx));
          StopCountAppend(h, from, id, e);
          TeardownCounts(components, order, j - 1, configs, instances, h + [e], from, id);
      }
    }
  }

  /** A component of a system is stopped as often as the system is, until the next start: once for
  each `stop` that is tried. All but the last of these have failed, so it is stopped again exactly
  when one fails and `halt` or `go` is called again. */
  lemma {:induction false} StoppedPerTry(log: Log, h: History, j: nat, n: nat, id: Id)
    requires Happened(log, h) && j < n <= |log| && log[j].Starts? && log[j].result.Started?
    requires forall k :: j < k < n ==> log[k].Stops?
    requires id in log[j].result.system.order && id in Stoppable(Flatten(log[j].result.system.defs))
    ensures log[j].end <= EndOf(log, n) <= |h|
    ensures StopCount(h[..EndOf(log, n)], log[j].end, id) == n - j - 1
    ensures forall k :: j < k < n - 1 ==> log[k].failures != []
    decreases n
  {
    OrderIsDistinct(log, h, j);
    if j < n - 1 {
      StoppedPerTry(log, h, j, n - 1, id);
      var m := StaysOutstanding(log, h, j, n - 1);
      var s := log[n - 1].system;
      assert DoneAt(log, h, n - 1);
      StopCountsOnce(s, h[..EndOf(log, n - 1)], log[n - 1].failures, h[..EndOf(log, n)], log[j].end, id);
    }
  }

  lemma {:induction false} StopCountsOnce(s: System, h0: History, failures: Failures, h: History, from: nat, id: Id)
    requires StopComesTo(s, h0, failures, h) && NoDuplicates(s.order) && from <= |h0|
    requires id in s.order && id in Stoppable(Flatten(s.defs))
    ensures from <= |h| && StopCount(h, from, id) == StopCount(h0, from, id) + 1
  {
    assert s.order[..|s.order|] == s.order;
    TeardownOnlyStops(Flatten(s.defs), s.order, |s.order|, s.configs, s.instances, h0);
    TeardownCounts(Flatten(s.defs), s.order, |s.order|, s.configs, s.instances, h0, from, id);
  }

  lemma {:induction false} OrderIsDistinct(log: Log, h: History, j: nat)
    requires Happened(log, h) && j < |log| && log[j].Starts? && log[j].result.Started?
    ensures log[j].end <= |h| && NoDuplicates(log[j].result.system.order)
  {
    assert DoneAt(log, h, j);
  }

  // ---- the session -----------------------------------------------------------------------

  /** What `go` returns or raises. */
  datatype GoResult =
    | Running(system: System)
    | NotHalted(failures: Failures)
    | NoConfig(fault: Exn)
    | NotStarted(cause: StartResult)

  datatype Command = Go(defs: Result<Defs, Exn>, requests: Option<seq<Request>>) | Halt

  /** The operations of `halt`: a `stop` if a system is outstanding. */
  ghost predicate Halts(before: Log, after: Log)
  {
    if Outstanding(before, |before|).None? then after == before
    else |after| == |before| + 1 && before <= after && after[|before|].Stops?
  }

  /** The operations of `go`: those of `halt` and then, unless that leaves a system outstanding or
  there is no config, a `start`. */
  ghost predicate Goes(defs: Result<Defs, Exn>, requests: Option<seq<Request>>, attr: History -> Attributes,
                       before: Log, after: Log)
  {
    exists halted ::
      && Halts(before, halted)
      && if Outstanding(halted, |halted|).Some? || defs.Err? then after == halted
         else
           && |after| == |halted| + 1 && halted <= after && after[|halted|].Starts?
           && after[|halted|].defs == defs.value && after[|halted|].requests == requests
           && after[|halted|].attr == attr
  }

  ghost predicate PerformsOne(command: Command, attr: History -> Attributes, before: Log, after: Log)
  {
    match command
    case Go(defs, requests) => Goes(defs, requests, attr, before, after)
    case Halt => Halts(before, after)
  }

  ghost predicate Performs(commands: seq<Command>, attr: History -> Attributes, before: Log, after: Log)
    decreases |commands|, 0
  {
    if commands == [] then after == before
    else PerformsLast(commands[..|commands| - 1], commands[|commands| - 1], attr, before, after)
  }

  ghost predicate PerformsLast(front: seq<Command>, last: Command, attr: History -> Attributes,
                               before: Log, after: Log)
    decreases |front|, 1
  {
    exists log :: Performs(front, attr, before, log) && PerformsOne(last, attr, log, after)
  }

  lemma {:induction false} PerformsNext(commands: seq<Command>, i: nat, attr: History -> Attributes,
                                        before: Log, log: Log, after: Log)
    requires i < |commands| && Performs(commands[..i], attr, before, log)
    requires PerformsOne(commands[i], attr, log, after)
    ensures Performs(commands[..i + 1], attr, before, after)
  {
    assert commands[..i + 1][..i] == commands[..i];
  }

  class Session {
    var current: Option<System>
    var history: History
    ghost var log: Log

    ghost predicate Valid()
      reads this
    {
      && Happened(log, history)
      && Outstanding(log, |log|) == current
      && (current.Some? ==> ValidSystem(current.value))
    }

    constructor ()
      ensures Valid() && current == None && history == [] && log == []
    {
      current, history, log := None, [], [];
    }

    /** `halt`: if a stop fails, the system stays current. */
    method Halt() returns (failures: Failures)
      requires Valid()
      modifies this
      ensures Valid() && Halts(old(log), log) && old(history) <= history
      ensures current == if failures == [] then None else old(current)
      ensures old(current).None? ==> failures == [] && history == old(history)
      ensures old(current).Some? ==> StopComesTo(old(current).value, old(history), failures, history)
    {
      failures := [];
      if current.Some? {
        var s := current.value;
        var h;
        failures, h := Stop(s, history);
        TeardownOnlyStops(Flatten(s.defs), s.order, |s.order|, s.configs, s.instances, history);
        ghost var o := Stops(s, failures, |h|);
        HappenedAppend(log, history, o, h);
        history, log := h, log + [o];
        if failures == [] {
          current := None;
        }
      }
    }

    /** The assignment in `go`: nothing becomes current if `start` raises. */
    method StartCurrent(defs: Defs, requests: Option<seq<Request>>, attr: History -> Attributes)
      returns (result: StartResult, ghost order: seq<Id>)
      requires Valid() && current.None?
      modifies this
      ensures Valid() && old(history) <= history
      ensures log == old(log) + [Starts(defs, requests, attr, order, result, |history|)]
      ensures StartComesTo(defs, requests, attr, old(history), result, history, order)
      ensures current == if result.Started? then Some(result.system) else None
    {
      var h;
      result, h, order := Start(defs, requests, attr, history);
      ghost var o := Starts(defs, requests, attr, order, result, |h|);
      HappenedAppend(log, history, o, h);
      history, log := h, log + [o];
      if result.Started? {
        current := Some(result.system);
      }
    }

    /** `go`: the running system is stopped before the config is even read; `defs` is what reading
    it and building the definitions comes to. `halted` is the history at that point. */
    method Go(defs: Result<Defs, Exn>, requests: Option<seq<Request>>, attr: History -> Attributes)
      returns (r: GoResult, ghost halted: History, ghost order: seq<Id>)
      requires Valid()
      modifies this
      ensures Valid() && Goes(defs, requests, attr, old(log), log) && old(history) <= halted <= history
      ensures old(current).None? ==> !r.NotHalted? && halted == old(history)
      ensures old(current).Some? ==>
        StopComesTo(old(current).value, old(history), if r.NotHalted? then r.failures else [], halted)
      ensures r.NotHalted? ==> current == old(current) && r.failures != [] && history == halted
      ensures r.NoConfig? ==> current == None && defs == Err(r.fault) && history == halted
      ensures r.Running? ==> current == Some(r.system)
      ensures r.NotStarted? ==> current == None && !r.cause.Started?
      ensures r.Running? || r.NotStarted? ==>
        && defs.Ok?
        && StartComesTo(defs.value, requests, attr, halted,
                        if r.Running? then Started(r.system) else r.cause, history, order)
    {
      order := [];
      var failures := Halt();
      halted := history;
      ghost var afterHalt := log;
      if failures != [] {
        return NotHalted(failures), halted, order;
      }
      if defs.Err? {
        return NoConfig(defs.error), halted, order;
      }
      var result;
      result, order := StartCurrent(defs.value, requests, attr);
      assert afterHalt <= log;
      r := if result.Started? then Running(result.system) else NotStarted(result);
    }

    /** Any sequence of `go` and `halt`. The history is what the operations of these commands have
    brought about, so that `StartsAreQuiet` and `StoppedPerTry` hold of it. */
    method Execute(commands: seq<Command>, attr: History -> Attributes)
      requires Valid()
      modifies this
      ensures Valid() && Performs(commands, attr, old(log), log) && old(history) <= history
    {
      for i := 0 to |commands|
        invariant Valid() && Performs(commands[..i], attr, old(log), log) && old(history) <= history
      {
        ghost var before := log;
        match commands[i] {
          case Go(defs, requests) => var r, _, _ := Go(defs, requests, attr);
          case Halt => var failures := Halt();
        }
        PerformsNext(commands, i, attr, old(log), before, log);
      }
      assert commands[..|commands|] == commands;
    }
  }
}
