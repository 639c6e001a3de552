/** The worker that keeps one subscription driver going, whatever its driver raises. */
module SubscriptionWorker {
  import opened Models
  import opened Lifecycle
  import P = PublisherModel
  import R = PublisherRuns

  function FailureResult(device: DeviceSpec, now: real, error: string): ReadResult {
    ReadResult(device, now, [], Some(error))
  }

  function Reports(trace: seq<Action>): seq<string>
    decreases trace
  {
    if trace == [] then []
    else
      var a := trace[|trace| - 1];
      Reports(trace[..|trace| - 1]) + if a.Report? then [a.error] else []
  }

  /** What the failing calls of the cycles raised, in order. */
  function Failures(trace: seq<Action>): seq<string>
    decreases trace
  {
    if trace == [] then []
    else
      var a := trace[|trace| - 1];
      Failures(trace[..|trace| - 1]) + if Failure(a).Some? then [Failure(a).value] else []
  }

  function Pending(phase: Phase): seq<string> {
    if phase.Failed? then [phase.error] else []
  }

  lemma ReportStep(s: Stage, a: Action, reports: seq<string>)
    requires Allowed(s, a)
    ensures (reports + Pending(s.phase)) + (if Failure(a).Some? then [Failure(a).value] else [])
         == (reports + if a.Report? then [a.error] else []) + Pending(Next(s, a).phase)
  {}

  /** The error results are the failures, each once and in order; only the latest may still have to be reported. */
  lemma {:induction false} ReportsAreFailures(trace: seq<Action>)
    requires Orderly(trace)
    ensures Failures(trace) == Reports(trace) + Pending(After(trace).phase)
    decreases trace
  {
    if trace != [] {
      hide Orderly, Allowed, Next, Failure, Pending;
      var k := |trace| - 1;
      OrderlyPrefix(trace, k);
      StepAt(trace, k);
      ReportsAreFailures(trace[..k]);
      ReportStep(After(trace[..k]), trace[k], Reports(trace[..k]));
      assert trace[..k + 1] == trace;
    }
  }

  // ----- Calls into the driver -----

  datatype Op = ConstructOp | ConnectOp | SubscribeOp | RunOp | UnsubscribeOp | DisconnectOp

  function ActionOf(op: Op, n: nat, raised: Option<string>): Action {
    match op
    case ConstructOp => if raised.Some? then ConstructFailed(raised.value) else Constructed(n)
    case ConnectOp => Connect(n, raised)
    case SubscribeOp => Subscribe(n, raised)
    case RunOp => RunOnce(n, raised)
    case UnsubscribeOp => Unsubscribe(n, raised)
    case DisconnectOp => Disconnect(n, raised)
  }

  predicate Ready(phase: Phase, op: Op, n: nat) {
    match op
    case ConstructOp => phase == Starting
    case ConnectOp => phase == Built(n)
    case SubscribeOp => phase == Connected(n)
    case RunOp => phase == Running(n)
    case UnsubscribeOp => phase == Polling(n) || phase == Stopping(n)
    case DisconnectOp => phase == Releasing(n)
  }

  lemma CallIsAllowed(s: Stage, op: Op, n: nat, raised: Option<string>)
    requires Ready(s.phase, op, n) && (op == ConstructOp ==> n == s.built)
    ensures Allowed(s, ActionOf(op, n, raised))
    ensures Next(s, ActionOf(op, n, raised)).built == if op == ConstructOp && raised.None? then s.built + 1 else s.built
  {}

  /** What the calls of a trace raised, in order. */
  function Answers(trace: seq<Action>): seq<Option<string>>
    decreases trace
  {
    if trace == [] then []
    else
      var front, a := Answers(trace[..|trace| - 1]), trace[|trace| - 1];
      match a
      case Constructed(_) => front + [None]
      case ConstructFailed(error) => front + [Some(error)]
      case Connect(_, raised) => front + [raised]
      case Subscribe(_, raised) => front + [raised]
      case RunOnce(_, raised) => front + [raised]
      case Unsubscribe(_, raised) => front + [raised]
      case Disconnect(_, raised) => front + [raised]
      case _ => front
  }

  function Checks(trace: seq<Action>): seq<Health>
    decreases trace
  {
    if trace == [] then []
    else
      var front, a := Checks(trace[..|trace| - 1]), trace[|trace| - 1];
      if a.CheckHealth? then front + [a.found] else front
  }

  /** What a health check tells about the server of a device. */
  datatype ServerReport = ServerReport(device: string, status: string, error: Option<string>)

  function ReportOf(device: string, found: Health): seq<ServerReport> {
    match found
    case NotDue => []
    case Healthy => [ServerReport(device, "OK", None)]
    case Unhealthy(error) => [ServerReport(device, "ERROR", Some(error))]
  }

  function ServerReports(device: string, trace: seq<Action>): seq<ServerReport>
    decreases trace
  {
    if trace == [] then []
    else
      var a := trace[|trace| - 1];
      ServerReports(device, trace[..|trace| - 1]) + if a.CheckHealth? then ReportOf(device, a.found) else []
  }

  function GoesOn(): Action -> bool { (a: Action) => a == GoOn }

  lemma TraceLonger(trace: seq<Action>, a: Action, device: string)
    ensures ServerReports(device, trace + [a])
         == if a.CheckHealth? then ServerReports(device, trace) + ReportOf(device, a.found)
           else ServerReports(device, trace)
    ensures Reports(trace + [a]) == Reports(trace) + if a.Report? then [a.error] else []
    ensures Checks(trace + [a]) == Checks(trace) + if a.CheckHealth? then [a.found] else []
    ensures Count(trace + [a], GoesOn()) == Count(trace, GoesOn()) + One(a == GoOn)
    ensures a.Report? || a.CheckHealth? || a.GoOn? ==> Answers(trace + [a]) == Answers(trace)
  {
    assert (trace + [a])[..|trace|] == trace;
  }

  lemma AnswersLonger(trace: seq<Action>, op: Op, n: nat, raised: Option<string>)
    ensures Answers(trace + [ActionOf(op, n, raised)]) == Answers(trace) + [raised]
  {
    assert (trace + [ActionOf(op, n, raised)])[..|trace|] == trace;
  }

  class OpcUaSubscriptionWorker {
    const device: DeviceSpec
    // The environment: what the n-th call into the driver raises, what the n-th health check finds, when results are
    // made, and how many times the stop event is found unset before it is set for good.
    const answers: nat -> Option<string>
    const health: nat -> Health
    const clock: nat -> real
    const budget: nat
    var calls: nat
    var checks: nat
    var patience: nat

    var drivers: nat
    var driver: Option<nat>
    var subscriptionStarted: bool
    var outbox: seq<ReadResult>
    var statusOutbox: seq<ServerReport>
    ghost var trace: seq<Action>

    /** The trace is orderly, it is what the environment makes of it, and its reports are in the outbox. */
    ghost predicate Sound()
      reads `trace, `drivers, `calls, `checks, `patience, `outbox, `statusOutbox
    {
      && Orderly(trace)
      && After(trace).built == drivers
      && |Answers(trace)| == calls && (forall i :: 0 <= i < calls ==> Answers(trace)[i] == answers(i))
      && |Checks(trace)| == checks && (forall i :: 0 <= i < checks ==> Checks(trace)[i] == health(i))
      && Count(trace, GoesOn()) + patience == budget
      && statusOutbox == ServerReports(device.name, trace)
      && |outbox| == |Reports(trace)|
      && forall i :: 0 <= i < |outbox| ==> outbox[i] == ReadResult(device, clock(i), [], Some(Reports(trace)[i]))
    }

    ghost function Phase(): Phase
      reads `trace
    {
      After(trace).phase
    }

    /** The fields that the cleanup goes by tell where the cycle stands. */
    ghost predicate Mirrors()
      reads `trace, `driver, `subscriptionStarted
    {
      driver == Live(Phase()) && subscriptionStarted == Subscribed(Phase())
    }

    constructor (device: DeviceSpec, answers: nat -> Option<string>, health: nat -> Health, clock: nat -> real,
                 budget: nat)
      ensures Sound() && trace == [] && patience == budget
      ensures this.device == device && this.answers == answers && this.health == health && this.budget == budget
    {
      this.device, this.answers, this.health, this.clock, this.budget := device, answers, health, clock, budget;
      calls, checks, patience, drivers, driver, subscriptionStarted := 0, 0, budget, 0, None, false;
      outbox, statusOutbox, trace := [], [], [];
    }

    /** A call into the driver; what it raises is up to the environment. */
    method Invoke(op: Op, n: nat) returns (raised: Option<string>)
      requires Sound() && Ready(Phase(), op, n) && (op == ConstructOp ==> n == drivers)
      modifies `calls, `drivers, `trace
      ensures Sound() && old(trace) <= trace && Phase() == PhaseAfter(old(Phase()), ActionOf(op, n, raised))
    {
      hide Orderly, After, Answers, Checks, Reports, Count, Allowed, PhaseAfter, Ready, ServerReports;
      raised := answers(calls);
      calls := calls + 1;
      ghost var a := ActionOf(op, n, raised);
      CallIsAllowed(After(trace), op, n, raised);
      if op == ConstructOp && raised.None? { drivers := drivers + 1; }
      AfterLonger(trace, a);
      TraceLonger(trace, a, device.name);
      AnswersLonger(trace, op, n, raised);
      trace := trace + [a];
    }

    method StopIsSet() returns (stop: bool)
      requires Sound() && (Phase().Idle? || Phase().Polling? || Phase().Ended?)
      modifies `patience, `trace
      ensures Sound() && old(trace) <= trace
      ensures stop ==> patience == 0 && Phase() == old(Phase())
      ensures !stop ==> patience < old(patience) && Phase() == Resumed(old(Phase()))
    {
      hide Orderly, After, Answers, Checks, Reports, Count, ServerReports;
      stop := patience == 0;
      if !stop {
        AfterLonger(trace, GoOn);
        TraceLonger(trace, GoOn, device.name);
        patience := patience - 1;
        trace := trace + [GoOn];
      }
    }

    /** The health check puts what it finds into the status outbox, and raises again what the reader raises. */
    method CheckServerStatus(n: nat) returns (raised: Option<string>)
      requires Sound() && Phase() == Polled(n)
      modifies `checks, `statusOutbox, `trace
      ensures Sound() && old(trace) <= trace
      ensures Phase() == if raised.Some? then Failed(Some(n), true, raised.value) else Polling(n)
      ensures statusOutbox == old(statusOutbox) +
        match health(old(checks))
        case NotDue => []
        case Healthy => [ServerReport(device.name, "OK", None)]
        case Unhealthy(error) => [ServerReport(device.name, "ERROR", Some(error))]
      ensures raised == match health(old(checks)) case Unhealthy(error) => Some(error) case _ => None
    {
      hide Orderly, After, Answers, Checks, Reports, Count, ServerReports;
      var found := health(checks);
      checks := checks + 1;
      AfterLonger(trace, CheckHealth(n, found));
      TraceLonger(trace, CheckHealth(n, found), device.name);
      statusOutbox := statusOutbox + ReportOf(device.name, found);
      trace := trace + [CheckHealth(n, found)];
      raised := if found.Unhealthy? then Some(found.error) else None;
    }

    method PutFailure(error: string)
      requires Sound() && Phase().Failed? && Phase().error == error
      modifies `outbox, `trace
      ensures Sound() && old(trace) <= trace
      ensures Phase() == Reported(old(Phase()).live, old(Phase()).subscribed)
    {
      hide Orderly, After, Answers, Checks, Count, Reports, ServerReports;
      AfterLonger(trace, Report(error));
      TraceLonger(trace, Report(error), device.name);
      outbox := outbox + [FailureResult(device, clock(|outbox|), error)];
      trace := trace + [Report(error)];
    }

    /** Builds, connects and subscribes a driver; what is raised on the way is returned. */
    method StartOnce() returns (raised: Option<string>)
      requires Sound() && Mirrors() && Phase() == Starting
      modifies `calls, `drivers, `driver, `subscriptionStarted, `trace
      ensures Sound() && Mirrors() && old(trace) <= trace
      ensures if raised.None? then Phase().Polling? else Phase() == Failed(driver, false, raised.value)
    {
      hide Sound, After;
      var n := drivers;
      raised := Invoke(ConstructOp, n);
      if raised.Some? { return; }
      driver := Some(n);
      raised := Invoke(ConnectOp, n);
      if raised.Some? { return; }
      raised := Invoke(SubscribeOp, n);
      if raised.Some? { return; }
      subscriptionStarted := true;
    }

    /** Polls until a failure, which is reported, or until told to stop. */
    method RunSubscription(n: nat)
      requires Sound() && Mirrors() && Phase() == Polling(n)
      modifies `calls, `checks, `drivers, `patience, `outbox, `statusOutbox, `trace
      ensures Sound() && Mirrors() && old(trace) <= trace && patience <= old(patience)
      ensures Phase() == Stopping(n) || (Phase() == Polling(n) && patience == 0)
    {
      hide Sound, After;
      var stop := StopIsSet();
      while !stop
        invariant Sound() && old(trace) <= trace && patience <= old(patience)
        invariant Phase() == if stop then Polling(n) else Running(n)
        invariant stop ==> patience == 0
        decreases patience, !stop
      {
        var raised := Invoke(RunOp, n);
        if raised.None? { raised := CheckServerStatus(n); }
        if raised.Some? {
          PutFailure(raised.value);
          break;
        }
        stop := StopIsSet();
      }
    }

    /** Stops the subscription if it has started, then disconnects; neither failure keeps the other from being tried. */
    method CleanupDriver()
      requires Sound() && Mirrors()
      requires Phase().Ended? || Phase().Releasing? || Phase().Stopping? || Phase().Polling?
      modifies `calls, `drivers, `trace
      ensures Sound() && old(trace) <= trace && Phase() == Ended
    {
      hide Sound, After;
      if driver.None? { return; }
      var n := driver.value;
      if subscriptionStarted {
        var raised := Invoke(UnsubscribeOp, n);
      }
      var raised := Invoke(DisconnectOp, n);
    }

    /** One cycle, from building a driver to releasing it. */
    method RunCycle()
      requires Sound() && Phase() == Starting
      modifies this
      ensures Sound() && Phase() == Ended && old(trace) <= trace && patience <= old(patience)
    {
      hide Sound, After;
      driver := None;
      subscriptionStarted := false;
      var raised := StartOnce();
      if raised.Some? {
        PutFailure(raised.value);
      } else {
        RunSubscription(driver.value);
      }
      CleanupDriver();
    }

    /** The thread's body: cycles until the stop event is found set. */
    method Run()
      requires Sound() && trace == []
      modifies this
      ensures Sound() && patience == 0
      ensures Phase() == Idle || Phase() == Ended
    {
      assert Phase() == Idle;
      hide Sound, After;
      var stop := StopIsSet();
      while !stop
        invariant Sound() && (stop ==> patience == 0)
        invariant if stop then Phase() == Idle || Phase() == Ended else Phase() == Starting
        decreases patience, !stop
      {
        RunCycle();
        stop := StopIsSet();
        if !stop { stop := StopIsSet(); }
      }
    }
  }

  /** A failed cycle shows as "disconnected" exactly if the raised error has a text; without one it reads as good
      news. */
  lemma FailureDisconnectsExactly(c: P.Config, before: seq<P.Event>, device: DeviceSpec, made: real, error: string,
                                  at: real)
    ensures var after := P.Run(c, before + [P.Received(FailureResult(device, made, error), at)]);
      P.StatusOf(P.MemoryOf(after, P.KeyOf(device))) == Some(if error != "" then P.Disconnected else P.GoodStatus)
  {
    hide P.Run, P.MemoryOf, P.StatusOf, P.StoreTags, R.Delivered;
    var e := P.Received(FailureResult(device, made, error), at);
    var events, key := before + [e], P.KeyOf(device);
    R.StatusMeetsHistory(c, events, key);
    R.LastResultLonger(before, e, key, |before|);
    assert events[|before|] == e;
    assert !R.TimedOut(c, events, |before|);
  }
}
