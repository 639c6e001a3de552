/** The order of a subscription worker's calls, told in the calls alone. */
module CallOrder {
  import opened Models
  import opened Lifecycle

  /** How often the stop event was found unset since the last call. */
  function Waits(trace: seq<Action>): (w: nat)
    ensures w <= |trace|
    decreases trace
  {
    if trace == [] || !trace[|trace| - 1].GoOn? then 0 else 1 + Waits(trace[..|trace| - 1])
  }

  /** How many drivers have been built. */
  function Drivers(trace: seq<Action>): nat
    decreases trace
  {
    if trace == [] then 0 else Drivers(trace[..|trace| - 1]) + if trace[|trace| - 1].Constructed? then 1 else 0
  }

  /** A subscribed driver is polled if the stop event is found unset once more, and otherwise unsubscribed. */
  predicate PollsOrStops(n: nat, waits: nat, a: Action) {
    if waits == 0 then a == GoOn || (a.Unsubscribe? && a.n == n) else a.RunOnce? && a.n == n
  }

  /** A new driver is built once the stop event has been found unset often enough. */
  predicate BuildsNext(trace: seq<Action>, often: nat, a: Action) {
    if Waits(trace) < often then a == GoOn else a.ConstructFailed? || a == Constructed(Drivers(trace))
  }

  /** What may come after a failure has been reported. */
  predicate AfterReport(trace: seq<Action>, failed: Action, waits: nat, a: Action) {
    match failed
    case ConstructFailed(_) => BuildsNext(trace, 2, a)
    case Connect(n, _) => waits == 0 && a.Disconnect? && a.n == n
    case Subscribe(n, _) => waits == 0 && a.Disconnect? && a.n == n
    case RunOnce(n, _) => waits == 0 && a.Unsubscribe? && a.n == n
    case CheckHealth(n, _) => waits == 0 && a.Unsubscribe? && a.n == n
    case _ => false
  }

  /** Whether an action may come next, by the last call and what it raised. */
  predicate MayFollow(trace: seq<Action>, a: Action) {
    var w := Waits(trace);
    var k := |trace| - w;
    if k == 0 then BuildsNext(trace, 1, a)
    else
      match trace[k - 1]
      case Constructed(n) => w == 0 && a.Connect? && a.n == n
      case ConstructFailed(error) => w == 0 && a == Report(error)
      case Connect(n, None) => w == 0 && a.Subscribe? && a.n == n
      case Connect(_, Some(error)) => w == 0 && a == Report(error)
      case Subscribe(n, None) => PollsOrStops(n, w, a)
      case Subscribe(_, Some(error)) => w == 0 && a == Report(error)
      case RunOnce(n, None) => w == 0 && a.CheckHealth? && a.n == n
      case RunOnce(_, Some(error)) => w == 0 && a == Report(error)
      case CheckHealth(_, Unhealthy(error)) => w == 0 && a == Report(error)
      case CheckHealth(n, _) => PollsOrStops(n, w, a)
      case Report(_) => k >= 2 && AfterReport(trace, trace[k - 2], w, a)
      case Unsubscribe(n, _) => w == 0 && a.Disconnect? && a.n == n
      case Disconnect(_, _) => BuildsNext(trace, 2, a)
      case GoOn => false
  }

  // ----- The stage, read off the trace -----

  function Rest(waits: nat): Phase {
    if waits == 0 then Ended else if waits == 1 then Idle else Starting
  }

  function PhaseOfReport(failed: Action, waits: nat): Phase {
    match failed
    case Connect(n, _) => Releasing(n)
    case Subscribe(n, _) => Releasing(n)
    case RunOnce(n, _) => Stopping(n)
    case CheckHealth(n, _) => Stopping(n)
    case _ => Rest(waits)
  }

  function PhaseOf(trace: seq<Action>): Phase {
    var w := Waits(trace);
    var k := |trace| - w;
    if k == 0 then if w == 0 then Idle else Starting
    else
      match trace[k - 1]
      case Constructed(n) => Built(n)
      case ConstructFailed(error) => Failed(None, false, error)
      case Connect(n, None) => Connected(n)
      case Connect(n, Some(error)) => Failed(Some(n), false, error)
      case Subscribe(n, None) => if w == 0 then Polling(n) else Running(n)
      case Subscribe(n, Some(error)) => Failed(Some(n), false, error)
      case RunOnce(n, None) => Polled(n)
      case RunOnce(n, Some(error)) => Failed(Some(n), true, error)
      case CheckHealth(n, Unhealthy(error)) => Failed(Some(n), true, error)
      case CheckHealth(n, _) => if w == 0 then Polling(n) else Running(n)
      case Report(_) => if k >= 2 then PhaseOfReport(trace[k - 2], w) else Ended
      case Unsubscribe(n, _) => Releasing(n)
      case Disconnect(_, _) => Rest(w)
      case GoOn => Ended
  }

  /** The phase machine is where the calls say. */
  ghost predicate Reads(s: Stage, trace: seq<Action>) {
    s.built == Drivers(trace) && s.phase == PhaseOf(trace)
  }

  /** How long a pause can last, and that a report has a failure before it. */
  ghost predicate Plausible(trace: seq<Action>) {
    var w := Waits(trace);
    var k := |trace| - w;
    if k == 0 then w <= 1
    else
      match trace[k - 1]
      case Subscribe(_, None) => w <= 1
      case CheckHealth(_, found) => if found.Unhealthy? then w == 0 else w <= 1
      case Report(_) =>
        k >= 2 && (if trace[k - 2].ConstructFailed? then w <= 2 else w == 0 && Failure(trace[k - 2]).Some?)
      case Disconnect(_, _) => w <= 2
      case GoOn => false
      case _ => w == 0
  }

  lemma WaitsLonger(trace: seq<Action>, a: Action)
    ensures Waits(trace + [a]) == if a.GoOn? then Waits(trace) + 1 else 0
    ensures Drivers(trace + [a]) == Drivers(trace) + if a.Constructed? then 1 else 0
  {
    assert (trace + [a])[..|trace|] == trace;
  }

  lemma AllowedByCalls(s: Stage, trace: seq<Action>, a: Action)
    requires Reads(s, trace) && Plausible(trace)
    ensures Allowed(s, a) <==> MayFollow(trace, a)
  {
    hide Waits, Drivers;
  }

  lemma CallMovesOn(s: Stage, trace: seq<Action>, a: Action)
    requires Reads(s, trace) && Plausible(trace) && Allowed(s, a)
    ensures Reads(Next(s, a), trace + [a]) && Plausible(trace + [a])
  {
    hide Waits, Drivers;
    WaitsLonger(trace, a);
    assert forall i :: 0 <= i < |trace| ==> (trace + [a])[i] == trace[i];
    assert (trace + [a])[|trace|] == a;
  }

  lemma NothingDone()
    ensures Reads(After([]), []) && Plausible([])
  {}

  lemma {:induction false} OrderlyReads(trace: seq<Action>)
    requires Orderly(trace)
    ensures Reads(After(trace), trace) && Plausible(trace)
    decreases trace
  {
    hide Reads, Plausible, Allowed, Next, Orderly;
    if trace == [] {
      NothingDone();
    } else {
      var k := |trace| - 1;
      OrderlyPrefix(trace, k);
      OrderlyReads(trace[..k]);
      StepAt(trace, k);
      CallMovesOn(After(trace[..k]), trace[..k], trace[k]);
      assert trace[..k + 1] == trace == trace[..k] + [trace[k]];
    }
  }

  ghost predicate InOrder(trace: seq<Action>) {
    forall k :: 0 <= k < |trace| ==> MayFollow(trace[..k], trace[k])
  }

  /** The traces that the worker may leave are those in which every action may follow the ones before. */
  lemma {:induction false} OrderlyByCalls(trace: seq<Action>)
    ensures Orderly(trace) <==> InOrder(trace)
    decreases trace
  {
    hide MayFollow, Allowed, Reads, Plausible, After;
    if trace != [] {
      var n := |trace| - 1;
      OrderlyByCalls(trace[..n]);
      assert forall k :: 0 <= k < n ==> trace[..n][..k] == trace[..k];
      if Orderly(trace[..n]) {
        OrderlyReads(trace[..n]);
        AllowedByCalls(After(trace[..n]), trace[..n], trace[n]);
      }
      if Orderly(trace) { OrderlyPrefix(trace, n); }
    }
  }

  // ----- What must have come before a call -----

  /** A driver is connected right after it was built. */
  lemma ConnectsWhatWasBuilt(trace: seq<Action>, k: nat)
    requires Orderly(trace) && k < |trace| && trace[k].Connect?
    ensures k > 0 && trace[k - 1] == Constructed(trace[k].n)
  {
    LastCallBefore(trace, k);
  }

  /** It is subscribed right after it was connected without failure. */
  lemma SubscribesWhatIsConnected(trace: seq<Action>, k: nat)
    requires Orderly(trace) && k < |trace| && trace[k].Subscribe?
    ensures k > 0 && trace[k - 1] == Connect(trace[k].n, None)
  {
    LastCallBefore(trace, k);
  }

  /** Its server is checked right after it was polled without failure. */
  lemma ChecksWhatWasPolled(trace: seq<Action>, k: nat)
    requires Orderly(trace) && k < |trace| && trace[k].CheckHealth?
    ensures k > 0 && trace[k - 1] == RunOnce(trace[k].n, None)
  {
    LastCallBefore(trace, k);
  }

  lemma LastCallBefore(trace: seq<Action>, k: nat)
    requires Orderly(trace) && k < |trace|
    ensures MayFollow(trace[..k], trace[k])
    ensures Waits(trace[..k]) == 0 && k > 0 ==> trace[..k][k - 1] == trace[k - 1]
  {
    OrderlyByCalls(trace);
  }

  /** Between the start of a subscription and a poll: other polls and checks of the same driver, none failing. */
  predicate KeepsPolling(n: nat, a: Action) {
    match a
    case RunOnce(m, raised) => m == n && raised == None
    case CheckHealth(m, found) => m == n && !found.Unhealthy?
    case GoOn => true
    case _ => false
  }

  lemma NothingBefore(trace: seq<Action>)
    ensures After(trace[..0]) == START
  {
    assert trace[..0] == [];
  }

  lemma {:induction false} SubscribedSince(trace: seq<Action>, k: nat, n: nat) returns (i: nat)
    requires Orderly(trace) && k <= |trace|
    requires After(trace[..k]).phase in {Polling(n), Running(n), Polled(n)}
    ensures i < k && trace[i] == Subscribe(n, None) && forall m :: i < m < k ==> KeepsPolling(n, trace[m])
    decreases k
  {
    hide Orderly;
    NothingBefore(trace);
    StepAt(trace, k - 1);
    if trace[k - 1] == Subscribe(n, None) {
      i := k - 1;
    } else {
      i := SubscribedSince(trace, k - 1, n);
    }
  }

  /** A driver is polled only while it is subscribed, and right after the stop event was found unset. */
  lemma PollsWhatIsSubscribed(trace: seq<Action>, k: nat) returns (i: nat)
    requires Orderly(trace) && k < |trace| && trace[k].RunOnce?
    ensures i < k && trace[i] == Subscribe(trace[k].n, None) && trace[k - 1] == GoOn
    ensures forall m :: i < m < k ==> KeepsPolling(trace[k].n, trace[m])
  {
    hide Orderly, After;
    StepAt(trace, k);
    i := SubscribedSince(trace, k, trace[k].n);
    LastCallBefore(trace, k);
  }
}
