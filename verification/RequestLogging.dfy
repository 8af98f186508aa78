/** The request log: one line for every HTTP request, whatever the application sends and when. */
module RequestLogging {
  import opened Values

  /** An ASGI message; `content` stands for all that the log does not look at. */
  datatype Message =
    | ResponseStart(status: int, content: nat)
    | ResponseBody(moreBody: bool, content: nat)
    | OtherMessage(content: nat)

  /** What the middleware does that can be seen: it logs a line, or passes a message to `send`. */
  datatype Effect = Line(status: int) | Forwarded(message: Message)

  /** What can happen next to a request: some task of the application sends, or the application
  ends, by returning or by raising. Each is atomic: nothing is awaited before `send` is called. */
  datatype Step = Send(message: Message) | End(raised: bool)

  datatype State = State(status: Option<int>, logged: bool, effects: seq<Effect>)

  predicate Final(m: Message)
  {
    m.ResponseBody? && !m.moreBody
  }

  /** The variables that one request's closures share, and what has been done so far. */
  class RequestLog {
    var status: Option<int>
    var logged: bool
    var effects: seq<Effect>

    function Now(): State
      reads this
    {
      State(status, logged, effects)
    }

    constructor ()
      ensures Now() == State(None, false, [])
    {
      status, logged, effects := None, false, [];
    }

    /** `log_line`. */
    method LogLine()
      modifies this
      ensures Now() == Logged(old(Now()))
    {
      logged := true;
      var code := if status.None? then 500 else status.value;
      effects := effects + [Line(code)];
    }

    /** `send_logged`, up to its call of `send`. */
    method SendLogged(message: Message)
      modifies this
      ensures Now() == After(old(Now()), Send(message))
    {
      if message.ResponseStart? {
        status := Some(message.status);
      } else if Final(message) && !logged {
        LogLine();
      }
      effects := effects + [Forwarded(message)];
    }

    /** The `finally` around the application. */
    method Finish(ghost raised: bool)
      modifies this
      ensures Now() == After(old(Now()), End(raised))
    {
      if !logged {
        LogLine();
      }
    }
  }

  function Logged(s: State): State
  {
    State(s.status, true, s.effects + [Line(if s.status.None? then 500 else s.status.value)])
  }

  function After(s: State, step: Step): State
  {
    match step
    case Send(m) =>
      var s1 := if m.ResponseStart? then s.(status := Some(m.status))
                else if Final(m) && !s.logged then Logged(s)
                else s;
      s1.(effects := s1.effects + [Forwarded(m)])
    case End(_) => if s.logged then s else Logged(s)
  }

  function Run(s: State, steps: seq<Step>): State
  {
    if steps == [] then s else After(Run(s, steps[..|steps| - 1]), steps[|steps| - 1])
  }

  function Passed(ms: seq<Message>): seq<Effect>
  {
    seq(|ms|, i requires 0 <= i < |ms| => Forwarded(ms[i]))
  }

  function Sends(ms: seq<Message>): seq<Step>
  {
    seq(|ms|, i requires 0 <= i < |ms| => Send(ms[i]))
  }

  /** A request from beginning to end: the steps taken, in the order they are scheduled. */
  method Call(http: bool, steps: seq<Step>) returns (effects: seq<Effect>)
    ensures http ==> effects == Run(State(None, false, []), steps).effects
    ensures !http ==> forall ms, raised, late ::
              steps == Sends(ms) + [End(raised)] + Sends(late) ==> effects == Passed(ms + late)
  {
    if http {
      var log := new RequestLog();
      for i := 0 to |steps|
        invariant log.Now() == Run(State(None, false, []), steps[..i])
      {
        assert steps[..i + 1][..i] == steps[..i];
        match steps[i] {
          case Send(m) => log.SendLogged(m);
          case End(raised) => log.Finish(raised);
        }
      }
      assert steps[..|steps|] == steps;
      return log.effects;
    }
    effects := [];
    for i := 0 to |steps|
      invariant effects == PassedBy(steps[..i])
    {
      assert steps[..i + 1][..i] == steps[..i];
      if steps[i].Send? {
        effects := effects + [Forwarded(steps[i].message)];
      }
    }
    assert steps[..|steps|] == steps;
    forall ms, raised, late | steps == Sends(ms) + [End(raised)] + Sends(late)
      ensures effects == Passed(ms + late)
    {
      PassedBySends(ms, raised, late);
    }
  }

  /** The messages among the steps, passed on. */
  function PassedBy(steps: seq<Step>): seq<Effect>
  {
    if steps == [] then []
    else
      PassedBy(steps[..|steps| - 1])
      + (if steps[|steps| - 1].Send? then [Forwarded(steps[|steps| - 1].message)] else [])
  }

  lemma {:induction false} PassedBySnoc(steps: seq<Step>, ms: seq<Message>)
    ensures PassedBy(steps + Sends(ms)) == PassedBy(steps) + Passed(ms)
    decreases |ms|
  {
    if ms == [] {
      assert steps + Sends(ms) == steps;
    } else {
      var rest := ms[..|ms| - 1];
      assert (steps + Sends(ms))[..|steps| + |rest|] == steps + Sends(rest);
      PassedBySnoc(steps, rest);
      assert Passed(ms) == Passed(rest) + [Forwarded(ms[|rest|])];
    }
  }

  lemma PassedBySends(ms: seq<Message>, raised: bool, late: seq<Message>)
    ensures PassedBy(Sends(ms) + [End(raised)] + Sends(late)) == Passed(ms + late)
  {
    PassedBySnoc([], ms);
    assert [] + Sends(ms) == Sends(ms);
    assert (Sends(ms) + [End(raised)])[..|ms|] == Sends(ms);
    PassedBySnoc(Sends(ms) + [End(raised)], late);
    assert Passed(ms + late) == Passed(ms) + Passed(late);
  }

  // ---- what a request logs ---------------------------------------------------------------

  /** How many messages come before the first final body. */
  function BeforeFinal(ms: seq<Message>): (n: nat)
    ensures n <= |ms| && (n < |ms| ==> Final(ms[n])) && forall i :: 0 <= i < n ==> !Final(ms[i])
  {
    if ms == [] then 0
    else
      var n := BeforeFinal(ms[..|ms| - 1]);
      if n < |ms| - 1 || Final(ms[|ms| - 1]) then n else |ms|
  }

  /** The status of the last response start, if there is one. */
  function LastStatus(ms: seq<Message>): Option<int>
  {
    if ms == [] then None
    else if ms[|ms| - 1].ResponseStart? then Some(ms[|ms| - 1].status)
    else LastStatus(ms[..|ms| - 1])
  }

  /** The `i`-th message is the last response start of the first `n`. */
  predicate IsLastStart(ms: seq<Message>, n: nat, i: int)
  {
    0 <= i < n <= |ms| && ms[i].ResponseStart? && forall j :: i < j < n ==> !ms[j].ResponseStart?
  }

  lemma {:induction false} StatusOfLastStart(ms: seq<Message>, i: nat)
    requires IsLastStart(ms, |ms|, i)
    ensures LastStatus(ms) == Some(ms[i].status)
    decreases |ms|
  {
    if i < |ms| - 1 {
      StatusOfLastStart(ms[..|ms| - 1], i);
    }
  }

  lemma {:induction false} NoStatus(ms: seq<Message>)
    ensures (forall i :: 0 <= i < |ms| ==> !ms[i].ResponseStart?) ==> LastStatus(ms).None?
    decreases |ms|
  {
    if ms != [] {
      NoStatus(ms[..|ms| - 1]);
    }
  }

  function Code(status: Option<int>): int
  {
    if status.None? then 500 else status.value
  }

  /** The messages in order, with the line after the first `n`. */
  function LineAfter(ms: seq<Message>, n: nat): seq<Effect>
    requires n <= |ms|
  {
    Passed(ms[..n]) + [Line(Code(LastStatus(ms[..n])))] + Passed(ms[n..])
  }

  lemma LineAfterSnoc(ms: seq<Message>, n: nat, m: Message)
    requires n <= |ms|
    ensures LineAfter(ms + [m], n) == LineAfter(ms, n) + [Forwarded(m)]
  {
    assert (ms + [m])[..n] == ms[..n];
    assert (ms + [m])[n..] == ms[n..] + [m];
    assert Passed(ms[n..] + [m]) == Passed(ms[n..]) + [Forwarded(m)];
  }

  /** A request still running: the line has been logged if a final body has been sent. */
  lemma {:induction false} RunningRequest(ms: seq<Message>)
    ensures Run(State(None, false, []), Sends(ms)) == Running(ms)
    decreases |ms|
  {
    if ms != [] {
      var rest, m := ms[..|ms| - 1], ms[|ms| - 1];
      assert ms == rest + [m];
      assert Sends(ms)[..|ms| - 1] == Sends(rest);
      RunningRequest(rest);
      RunningSnoc(rest, m);
    }
  }

  function Running(ms: seq<Message>): State
  {
    var n := BeforeFinal(ms);
    State(LastStatus(ms), n < |ms|, if n < |ms| then LineAfter(ms, n) else Passed(ms))
  }

  lemma RunningSnoc(ms: seq<Message>, m: Message)
    ensures After(Running(ms), Send(m)) == Running(ms + [m])
  {
    var more, n := ms + [m], BeforeFinal(ms);
    assert more[..|more| - 1] == ms;
    assert Passed(more) == Passed(ms) + [Forwarded(m)];
    if n < |ms| {
      LineAfterSnoc(ms, n, m);
    } else if Final(m) {
      assert more[..n] == ms && more[n..] == [m];
    }
  }

  /** A request that has ended, with tasks of its application still sending: the one line comes
  right before the first final body sent by then, or at the end if there was none. */
  lemma {:induction false} EndedRequest(ms: seq<Message>, raised: bool, late: seq<Message>)
    ensures
      var s := Run(State(None, false, []), Sends(ms) + [End(raised)] + Sends(late));
      s.logged && s.effects == LineAfter(ms + late, BeforeFinal(ms))
    decreases |late|
  {
    var steps := Sends(ms) + [End(raised)] + Sends(late);
    if late == [] {
      RunningRequest(ms);
      assert steps[..|ms|] == Sends(ms);
      assert ms + late == ms && ms[..|ms|] == ms && ms[|ms|..] == [];
    } else {
      var rest, m := late[..|late| - 1], late[|late| - 1];
      assert steps[..|steps| - 1] == Sends(ms) + [End(raised)] + Sends(rest);
      EndedRequest(ms, raised, rest);
      LineAfterSnoc(ms + rest, BeforeFinal(ms), m);
      assert ms + late == ms + rest + [m];
    }
  }

  /** For every request that ends, however its messages are scheduled: exactly one line is logged;
  it comes before every final body, and carries the last start status passed on before it, or 500;
  and every message is passed on once, in the order of the calls. */
  lemma OneLinePerRequest(ms: seq<Message>, raised: bool, late: seq<Message>) returns (at: nat)
    ensures
      var effects := Run(State(None, false, []), Sends(ms) + [End(raised)] + Sends(late)).effects;
      && at < |effects| && at <= |ms + late|
      && effects[..at] + effects[at + 1..] == Passed(ms + late)
      && effects[at] == Line(Code(LastStatus((ms + late)[..at])))
      && (forall i :: 0 <= i < |effects| && effects[i].Line? ==> i == at)
      && (forall i :: 0 <= i < |effects| && effects[i].Forwarded? && Final(effects[i].message) ==> at < i)
    ensures at <= |ms| && (at < |ms| ==> ms[at].ResponseBody? && !ms[at].moreBody)
    ensures forall i :: 0 <= i < at && ms[i].ResponseBody? ==> ms[i].moreBody
    ensures
      var effects := Run(State(None, false, []), Sends(ms) + [End(raised)] + Sends(late)).effects;
      && ((forall i :: 0 <= i < at ==> !ms[i].ResponseStart?) ==> effects[at] == Line(500))
      && forall i :: IsLastStart(ms, at, i) ==> effects[at] == Line(ms[i].status)
  {
    at := BeforeFinal(ms);
    EndedRequest(ms, raised, late);
    var all := ms + late;
    assert Passed(all) == Passed(all[..at]) + Passed(all[at..]);
    var effects := LineAfter(all, at);
    assert effects[..at] == Passed(all[..at]) && effects[at + 1..] == Passed(all[at..]);
    forall i | 0 <= i < at ensures effects[i] == Forwarded(ms[i]) && !Final(ms[i]) {
      assert all[..at][i] == ms[i];
    }
    assert all[..at] == ms[..at];
    NoStatus(ms[..at]);
    forall i | IsLastStart(ms, at, i) ensures LastStatus(ms[..at]) == Some(ms[i].status) {
      StatusOfLastStart(ms[..at], i);
    }
  }
}
