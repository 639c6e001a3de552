/** Which sequences of driver calls a subscription worker may make, and what that means driver by driver. */
module Lifecycle {
  import opened Models

  /** A health check may not be due, and its reader may raise. */
  datatype Health = NotDue | Healthy | Unhealthy(error: string)

  /** The calls of a worker, each with what it raised, if anything, the error results that it emits, and each time
      it finds the stop event unset.  Drivers are numbered in the order of their construction. */
  datatype Action =
    | Constructed(n: nat)
    | ConstructFailed(error: string)
    | Connect(n: nat, raised: Option<string>)
    | Subscribe(n: nat, raised: Option<string>)
    | RunOnce(n: nat, raised: Option<string>)
    | CheckHealth(n: nat, found: Health)
    | Report(error: string)
    | Unsubscribe(n: nat, raised: Option<string>)
    | Disconnect(n: nat, raised: Option<string>)
    | GoOn

  /** What a worker is about to do: start a cycle if not stopped, build a driver, connect it, subscribe it, poll it if
      not stopped, poll it, check its server, report a failure, stop a subscription, disconnect, or wait if not
      stopped. */
  datatype Phase =
    | Idle
    | Starting
    | Built(n: nat)
    | Connected(n: nat)
    | Polling(n: nat)
    | Running(n: nat)
    | Polled(n: nat)
    | Failed(live: Option<nat>, subscribed: bool, error: string)
    | Stopping(n: nat)
    | Releasing(n: nat)
    | Ended

  datatype Stage = Stage(built: nat, phase: Phase)

  const START := Stage(0, Idle)

  /** The driver that has been built and not yet disconnected. */
  function Live(phase: Phase): Option<nat> {
    match phase
    case Idle => None
    case Starting => None
    case Ended => None
    case Failed(live, _, _) => live
    case _ => Some(phase.n)
  }

  predicate Subscribed(phase: Phase) {
    phase.Polling? || phase.Running? || phase.Polled? || phase.Stopping? || (phase.Failed? && phase.subscribed)
  }

  predicate Allowed(s: Stage, a: Action) {
    match s.phase
    case Idle => a == GoOn
    case Starting => a.ConstructFailed? || a == Constructed(s.built)
    case Built(n) => a.Connect? && a.n == n
    case Connected(n) => a.Subscribe? && a.n == n
    case Polling(n) => a == GoOn || (a.Unsubscribe? && a.n == n)
    case Running(n) => a.RunOnce? && a.n == n
    case Polled(n) => a.CheckHealth? && a.n == n
    case Failed(_, _, error) => a == Report(error)
    case Stopping(n) => a.Unsubscribe? && a.n == n
    case Releasing(n) => a.Disconnect? && a.n == n
    case Ended => a == GoOn
  }

  /** What a call of the cycle proper raised; the failures of releasing a driver are only logged. */
  function Failure(a: Action): Option<string> {
    match a
    case ConstructFailed(error) => Some(error)
    case Connect(_, raised) => raised
    case Subscribe(_, raised) => raised
    case RunOnce(_, raised) => raised
    case CheckHealth(_, found) => if found.Unhealthy? then Some(found.error) else None
    case _ => None
  }

  function Resumed(phase: Phase): Phase {
    if phase.Polling? then Running(phase.n) else if phase.Ended? then Idle else Starting
  }

  function Reported(live: Option<nat>, subscribed: bool): Phase {
    if live.None? then Ended else if subscribed then Stopping(live.value) else Releasing(live.value)
  }

  function PhaseAfter(phase: Phase, a: Action): Phase {
    if Failure(a).Some? then Failed(Live(phase), Subscribed(phase), Failure(a).value)
    else
      match a
      case Constructed(n) => Built(n)
      case ConstructFailed(_) => phase
      case Connect(n, _) => Connected(n)
      case Subscribe(n, _) => Polling(n)
      case RunOnce(n, _) => Polled(n)
      case CheckHealth(n, _) => Polling(n)
      case Report(_) => Reported(Live(phase), Subscribed(phase))
      case Unsubscribe(n, _) => Releasing(n)
      case Disconnect(_, _) => Ended
      case GoOn => Resumed(phase)
  }

  function Next(s: Stage, a: Action): Stage {
    Stage(if a.Constructed? then s.built + 1 else s.built, PhaseAfter(s.phase, a))
  }

  function After(trace: seq<Action>): Stage
    decreases trace
  {
    if trace == [] then START else Next(After(trace[..|trace| - 1]), trace[|trace| - 1])
  }

  ghost predicate Orderly(trace: seq<Action>) {
    forall k :: 0 <= k < |trace| ==> Allowed(After(trace[..k]), trace[k])
  }

  lemma AfterLonger(trace: seq<Action>, a: Action)
    ensures After(trace + [a]) == Next(After(trace), a)
    ensures Orderly(trace) && Allowed(After(trace), a) ==> Orderly(trace + [a])
  {
    var longer := trace + [a];
    assert longer[..|trace|] == trace;
    forall k | 0 <= k < |longer| && Orderly(trace) && Allowed(After(trace), a)
      ensures Allowed(After(longer[..k]), longer[k])
    {
      if k < |trace| { assert longer[..k] == trace[..k]; }
    }
  }

  lemma OrderlyPrefix(trace: seq<Action>, k: nat)
    requires Orderly(trace) && k <= |trace|
    ensures Orderly(trace[..k])
  {
    forall i | 0 <= i < k
      ensures Allowed(After(trace[..k][..i]), trace[..k][i])
    {
      assert trace[..k][..i] == trace[..i];
    }
  }

  lemma StepAt(trace: seq<Action>, k: nat)
    requires Orderly(trace) && k < |trace|
    ensures Allowed(After(trace[..k]), trace[k])
    ensures After(trace[..k + 1]) == Next(After(trace[..k]), trace[k])
  {
    assert trace[..k + 1][..k] == trace[..k];
  }

  // ----- Counting -----

  function Count(trace: seq<Action>, p: Action -> bool): nat
    decreases trace
  {
    if trace == [] then 0 else Count(trace[..|trace| - 1], p) + if p(trace[|trace| - 1]) then 1 else 0
  }

  function Builds(n: nat): Action -> bool { (a: Action) => a == Constructed(n) }
  function Subscribes(n: nat): Action -> bool { (a: Action) => a == Subscribe(n, None) }
  function Unsubscribes(n: nat): Action -> bool { (a: Action) => a.Unsubscribe? && a.n == n }
  function Disconnects(n: nat): Action -> bool { (a: Action) => a.Disconnect? && a.n == n }

  function One(b: bool): nat { if b then 1 else 0 }

  /** Where a driver stands at a stage of an orderly trace. */
  ghost predicate Ledger(s: Stage, trace: seq<Action>, n: nat) {
    && (Live(s.phase).Some? ==> Live(s.phase).value < s.built)
    && (Subscribed(s.phase) ==> Live(s.phase).Some?)
    && Count(trace, Builds(n)) == One(n < s.built)
    && Count(trace, Disconnects(n)) == One(n < s.built && Live(s.phase) != Some(n))
    && Count(trace, Subscribes(n)) ==
         Count(trace, Unsubscribes(n)) + One(Subscribed(s.phase) && Live(s.phase) == Some(n))
  }

  lemma CountLonger(trace: seq<Action>, a: Action, p: Action -> bool)
    ensures Count(trace + [a], p) == Count(trace, p) + One(p(a))
  {
    assert (trace + [a])[..|trace|] == trace;
  }

  lemma EmptyLedger(n: nat)
    ensures Ledger(After([]), [], n)
  {}

  lemma LedgerStep(s: Stage, trace: seq<Action>, a: Action, n: nat)
    requires Ledger(s, trace, n) && Allowed(s, a)
    ensures Ledger(Next(s, a), trace + [a], n)
  {
    hide Count;
    CountLonger(trace, a, Builds(n));
    CountLonger(trace, a, Subscribes(n));
    CountLonger(trace, a, Unsubscribes(n));
    CountLonger(trace, a, Disconnects(n));
  }

  lemma {:induction false} DriverLedger(trace: seq<Action>, n: nat)
    requires Orderly(trace)
    ensures Ledger(After(trace), trace, n)
    decreases trace
  {
    hide Orderly, Ledger, Allowed, Next, After;
    if trace == [] {
      EmptyLedger(n);
    } else {
      var k := |trace| - 1;
      OrderlyPrefix(trace, k);
      StepAt(trace, k);
      DriverLedger(trace[..k], n);
      LedgerStep(After(trace[..k]), trace[..k], trace[k], n);
      assert trace[..k + 1] == trace == trace[..k] + [trace[k]];
    }
  }

  /** Before every call at most one driver is live: of the drivers built so far, all but that one have been
      disconnected. */
  lemma AtMostOneLive(trace: seq<Action>, k: nat, m: nat, n: nat)
    requires Orderly(trace) && k <= |trace|
    requires Count(trace[..k], Builds(m)) > Count(trace[..k], Disconnects(m))
    requires Count(trace[..k], Builds(n)) > Count(trace[..k], Disconnects(n))
    ensures m == n
  {
    OrderlyPrefix(trace, k);
    DriverLedger(trace[..k], m);
    DriverLedger(trace[..k], n);
  }

  /** A worker at rest has tried to disconnect every driver it built, once, and to stop every subscription it started,
      once. */
  lemma EveryDriverIsReleased(trace: seq<Action>, n: nat)
    requires Orderly(trace) && Live(After(trace).phase) == None
    ensures Count(trace, Builds(n)) == Count(trace, Disconnects(n)) <= 1
    ensures Count(trace, Subscribes(n)) == Count(trace, Unsubscribes(n))
  {
    DriverLedger(trace, n);
  }

  /** When a driver is disconnected, its subscription has been stopped if it had started, and nothing is done with it
      later. */
  lemma DisconnectComesLast(trace: seq<Action>, k: nat, j: nat)
    requires Orderly(trace) && k < |trace| && trace[k].Disconnect?
    ensures Count(trace[..k], Subscribes(trace[k].n)) == Count(trace[..k], Unsubscribes(trace[k].n))
    ensures k < j < |trace| && !trace[j].ConstructFailed? && !trace[j].Report? && !trace[j].GoOn? ==>
      trace[j].n != trace[k].n
  {
    hide Orderly, After, Count, Next;
    OrderlyPrefix(trace, k);
    DriverLedger(trace[..k], trace[k].n);
    StepAt(trace, k);
    if k < j < |trace| {
      GoneForGood(trace, k, j);
      StepAt(trace, j);
    }
  }

  lemma {:induction false} GoneForGood(trace: seq<Action>, k: nat, j: nat)
    requires Orderly(trace) && k < j <= |trace| && trace[k].Disconnect?
    ensures Live(After(trace[..j]).phase) != Some(trace[k].n) && trace[k].n < After(trace[..j]).built
    decreases j
  {
    hide Orderly, After, Count;
    StepAt(trace, j - 1);
    if j - 1 == k {
      OrderlyPrefix(trace, k);
      DriverLedger(trace[..k], trace[k].n);
    } else {
      GoneForGood(trace, k, j - 1);
    }
  }

  // ----- Failures -----

  lemma {:induction false} FailedIsLastFailure(trace: seq<Action>, k: nat)
    requires Orderly(trace) && k <= |trace|
    ensures var phase := After(trace[..k]).phase;
      if k == 0 || Failure(trace[k - 1]).None? then !phase.Failed?
        else phase.Failed? && Some(phase.error) == Failure(trace[k - 1])
    decreases k
  {
    hide Orderly;
    if k > 0 {
      StepAt(trace, k - 1);
      FailedIsLastFailure(trace, k - 1);
    }
  }

  /** Reports and failures match one to one: the report of a failure is the very next action, and nothing else is
      reported. */
  lemma ReportsMatchFailures(trace: seq<Action>, k: nat)
    requires Orderly(trace) && !After(trace).phase.Failed? && k < |trace|
    ensures Failure(trace[k]).Some? ==> k + 1 < |trace| && trace[k + 1] == Report(Failure(trace[k]).value)
    ensures trace[k].Report? ==> k > 0 && Failure(trace[k - 1]) == Some(trace[k].error)
  {
    hide Orderly, After, Next, Failure;
    assert trace[..|trace|] == trace;
    StepAt(trace, k);
    FailedIsLastFailure(trace, k);
    FailedIsLastFailure(trace, k + 1);
    if k + 1 < |trace| { StepAt(trace, k + 1); }
  }

  predicate StartsCycle(a: Action) {
    a.Constructed? || a.ConstructFailed?
  }

  /** Once a cycle has failed it only reports, releases and waits. */
  predicate WindsDown(phase: Phase) {
    phase.Failed? || phase.Stopping? || phase.Releasing? || phase.Ended? || phase.Idle? || phase.Starting?
  }

  lemma {:induction false} FailedWindsDown(trace: seq<Action>, i: nat, j: nat)
    requires Orderly(trace) && i < j <= |trace| && Failure(trace[i]).Some?
    requires forall k :: i < k < j ==> !StartsCycle(trace[k])
    ensures WindsDown(After(trace[..j]).phase)
    decreases j
  {
    hide Orderly, After;
    StepAt(trace, j - 1);
    if j - 1 > i { FailedWindsDown(trace, i, j - 1); }
  }

  /** A cycle, from one construction to the next, fails at most once, so it emits at most one error result. */
  lemma OneFailurePerCycle(trace: seq<Action>, i: nat, j: nat)
    requires Orderly(trace) && i < j < |trace|
    requires Failure(trace[i]).Some? && Failure(trace[j]).Some?
    ensures exists k :: i < k <= j && StartsCycle(trace[k])
  {
    if forall k :: i < k < j ==> !StartsCycle(trace[k]) {
      FailedWindsDown(trace, i, j);
      StepAt(trace, j);
      assert StartsCycle(trace[j]);
    }
  }
}
