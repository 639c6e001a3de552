/** When an unchanged status is published again, told in the times of the events. */
module PublisherRepeats {
  import opened Models
  import opened Dict
  import opened PublisherModel
  import opened PublisherDevices
  import opened PublisherRuns
  import opened PublisherSafety
  import opened PublisherTheorems

  /** The label of a device after the first n events. */
  function StatusAt(c: Config, events: seq<Event>, n: nat, key: DeviceKey): Option<Status>
    requires n <= |events|
  {
    StatusOf(MemoryOf(Run(c, events[..n]), key))
  }

  /** Everything published about its status by then. */
  function PublishedBy(c: Config, events: seq<Event>, n: nat, key: DeviceKey): seq<Publication>
    requires n <= |events|
  {
    PublicationsOf(Run(c, events[..n]).log, key)
  }

  predicate Changes(c: Config, events: seq<Event>, n: nat, key: DeviceKey)
    requires n < |events|
  {
    StatusAt(c, events, n, key) != StatusAt(c, events, n + 1, key)
  }

  predicate Publishes(c: Config, events: seq<Event>, n: nat, key: DeviceKey)
    requires n < |events|
  {
    PublishedBy(c, events, n, key) != PublishedBy(c, events, n + 1, key)
  }

  /** Event i is the latest before event n at which the status changed or was published: the latest publication since
      the last change, or that change if there has been none. */
  ghost predicate LatestMark(c: Config, events: seq<Event>, n: nat, key: DeviceKey, i: nat)
    requires n <= |events|
  {
    i < n && (Changes(c, events, i, key) || Publishes(c, events, i, key)) &&
    forall m :: i < m < n ==> !Changes(c, events, m, key) && !Publishes(c, events, m, key)
  }

  /** A result of the device prompts it; so does a tick, with a timeout configured, if the device has delivered data
      before and is not good. */
  ghost predicate Prompts(c: Config, events: seq<Event>, n: nat, key: DeviceKey)
    requires n < |events|
  {
    match events[n]
    case Received(result, _) => KeyOf(result.device) == key
    case Ticked(_) =>
      c.staleTimeout > 0.0 && StatusAt(c, events, n, key) != Some(GoodStatus) &&
      exists d :: 0 <= d < n && IsDataOf(events[d], key)
  }

  // ----- One step -----

  /** A step that changes or publishes the status starts the interval anew; another leaves it. */
  ghost predicate Restarts(m: Memory, effect: Effect, now: real) {
    if StatusOf(m) != StatusOf(effect.memory) || effect.log != [] then
      effect.memory.state.Some? && IntervalStart(effect.memory.state.value) == now
    else
      (m.state.Some? <==> effect.memory.state.Some?) &&
      (m.state.Some? ==> IntervalStart(effect.memory.state.value) == IntervalStart(m.state.value))
  }

  lemma SetStatusRestarts(m: Memory, before: Memory, c: Config, device: DeviceSpec, status: Status, reason: string,
                          now: real, received: Option<real>, source: Option<real>)
    requires before.state == m.state
    ensures Restarts(before, SetStatus(m, c, device, status, reason, now, received, source), now)
  {
    hide Reports, GroupTags;
  }

  lemma StepRestarts(m: Memory, c: Config, e: Event, key: DeviceKey)
    ensures Restarts(m, DeviceStep(m, c, e, key), e.at)
  {
    hide SetStatus, Reports, GroupTags, StoreTags, DataMessages, Restarts, ResultStatus, ReasonOf;
    match e
    case Received(result, at) =>
      if KeyOf(result.device) != key {
        SilentRestarts(m, at);
      } else if Present(result.error) {
        SetStatusRestarts(m, m, c, result.device, Disconnected, result.error.value, at, None, None);
      } else {
        var snapshot := Snapshot(result.device, StoreTags(CachedTags(m), result.tags), at, result.timestamp);
        var status := ResultStatus(result.tags);
        SetStatusRestarts(m.(snapshot := Some(snapshot)), m, c, result.device, status, ReasonOf(status), at, Some(at),
          Some(result.timestamp));
      }
    case Ticked(at) => TickRestarts(m, c, at);
  }

  lemma SilentRestarts(m: Memory, now: real)
    ensures Restarts(m, Silent(m), now)
  {}

  lemma TickRestarts(m: Memory, c: Config, now: real)
    ensures Restarts(m, CheckAndSend(m, c, now), now)
  {
    hide SetStatus, Reports, GroupTags, DataMessages;
    if m.snapshot.Some? {
      var s := m.snapshot.value;
      SetStatusRestarts(m, m, c, s.device, Stale, "message timeout", now, Some(s.lastReceived), Some(s.lastSource));
    }
  }

  // ----- Runs -----

  lemma NextEvent(c: Config, events: seq<Event>, n: nat, key: DeviceKey)
    requires n < |events|
    ensures var m := MemoryOf(Run(c, events[..n]), key);
      var effect := DeviceStep(m, c, events[n], key);
      MemoryOf(Run(c, events[..n + 1]), key) == effect.memory &&
      PublishedBy(c, events, n + 1, key) == PublishedBy(c, events, n, key) + effect.log &&
      (Publishes(c, events, n, key) <==> effect.log != []) &&
      (Changes(c, events, n, key) <==> StatusOf(m) != StatusOf(effect.memory))
  {
    hide Run, MemoryOf, PublicationsOf, DeviceStep, MessagesOf;
    assert events[..n + 1] == events[..n] + [events[n]];
    SentAboutIsTheDifference(c, events[..n], events[n], key);
    var m := MemoryOf(Run(c, events[..n]), key);
    var log, more := PublishedBy(c, events, n, key), DeviceStep(m, c, events[n], key).log;
    assert |log + more| == |log| + |more|;
    assert more == [] ==> log + more == log;
  }

  /** What the publisher counts from is the time of the latest mark. */
  lemma {:induction false} IntervalRunsFromMark(c: Config, events: seq<Event>, n: nat, key: DeviceKey) returns (i: nat)
    requires n <= |events| && StatusAt(c, events, n, key).Some?
    ensures LatestMark(c, events, n, key, i)
    ensures IntervalStart(MemoryOf(Run(c, events[..n]), key).state.value) == events[i].at
    decreases n
  {
    hide Run, MemoryOf, DeviceStep, Changes, Publishes, IntervalStart;
    if n == 0 {
      assert events[..0] == [];
      NothingYet(c, key);
    }
    var m := MemoryOf(Run(c, events[..n - 1]), key);
    NextEvent(c, events, n - 1, key);
    StepRestarts(m, c, events[n - 1], key);
    if Changes(c, events, n - 1, key) || Publishes(c, events, n - 1, key) {
      i := n - 1;
    } else {
      i := IntervalRunsFromMark(c, events, n - 1, key);
    }
  }

  lemma NothingYet(c: Config, key: DeviceKey)
    ensures StatusOf(MemoryOf(Run(c, []), key)) == None
  {}

  lemma OneMark(c: Config, events: seq<Event>, n: nat, key: DeviceKey, i: nat, j: nat)
    requires n <= |events| && LatestMark(c, events, n, key, i) && LatestMark(c, events, n, key, j)
    ensures i == j
  {}

  lemma {:induction false} DeliveredSomething(c: Config, events: seq<Event>, n: nat, key: DeviceKey)
    requires n <= |events|
    ensures MemoryOf(Run(c, events[..n]), key).snapshot.Some? <==> exists d :: 0 <= d < n && IsDataOf(events[d], key)
    decreases n
  {
    hide Run, MemoryOf, DeviceStep, IsDataOf;
    if n == 0 {
      NothingCachedYet(c, key);
      assert events[..0] == [];
    } else {
      DeliveredSomething(c, events, n - 1, key);
      NextEvent(c, events, n - 1, key);
      StepDelivers(MemoryOf(Run(c, events[..n - 1]), key), c, events[n - 1], key);
    }
  }

  lemma NothingCachedYet(c: Config, key: DeviceKey)
    ensures MemoryOf(Run(c, []), key).snapshot == None
  {}

  lemma StepDelivers(m: Memory, c: Config, e: Event, key: DeviceKey)
    ensures DeviceStep(m, c, e, key).memory.snapshot.Some? <==> m.snapshot.Some? || IsDataOf(e, key)
  {
    hide SetStatus, Receive, CheckAndSend, StoreTags;
    match e
    case Received(result, at) => ReceiveView(m, c, result, at);
    case Ticked(at) => TickView(m, c, at);
  }

  /** With a positive interval, an event that prompts a device and leaves its status as it is publishes it again,
      exactly if it comes an interval or more after the latest publication since the last change, or after that
      change. */
  lemma RepeatsAreOnTime(c: Config, events: seq<Event>, n: nat, key: DeviceKey, i: nat)
    requires n < |events| && !Changes(c, events, n, key) && LatestMark(c, events, n, key, i)
    ensures Publishes(c, events, n, key) <==>
      (c.interval > 0.0 && Prompts(c, events, n, key) && events[n].at - events[i].at >= c.interval)
  {
    hide Run, MemoryOf, DeviceStep, StatusStep, Changes, Publishes, Homely, IntervalStart;
    var m := MemoryOf(Run(c, events[..n]), key);
    DevicesAreIndependent(c, events[..n], key);
    MemoryIsHomely(Run(c, events[..n]), key);
    NextEvent(c, events, n, key);
    StepPublishes(m, c, events[n], key);
    StepIsStatusThenData(m, c, events[n], key);
    DeliveredSomething(c, events, n, key);
    if StatusOf(m).Some? {
      var j := IntervalRunsFromMark(c, events, n, key);
      OneMark(c, events, n, key, i, j);
    } else {
      NoMarkWithoutStatus(c, events, n, key, i);
    }
  }

  lemma {:induction false} NoMarkWithoutStatus(c: Config, events: seq<Event>, n: nat, key: DeviceKey, i: nat)
    requires n <= |events| && i < n && StatusAt(c, events, n, key).None?
    ensures !Changes(c, events, i, key) && !Publishes(c, events, i, key)
    decreases n
  {
    hide Run, MemoryOf, DeviceStep, Changes, Publishes, IntervalStart;
    NextEvent(c, events, n - 1, key);
    StepRestarts(MemoryOf(Run(c, events[..n - 1]), key), c, events[n - 1], key);
    if i < n - 1 { NoMarkWithoutStatus(c, events, n - 1, key, i); }
  }

  /** A change is published at once, unless it is a device's first status and good. */
  lemma ChangesAreAtOnce(c: Config, events: seq<Event>, n: nat, key: DeviceKey)
    requires n < |events| && Changes(c, events, n, key)
    ensures Publishes(c, events, n, key) <==>
      (StatusAt(c, events, n, key).Some? || StatusAt(c, events, n + 1, key) != Some(GoodStatus))
  {
    hide Run, MemoryOf, DeviceStep, StatusStep, Changes, Publishes, Homely;
    var m := MemoryOf(Run(c, events[..n]), key);
    DevicesAreIndependent(c, events[..n], key);
    MemoryIsHomely(Run(c, events[..n]), key);
    NextEvent(c, events, n, key);
    StepPublishes(m, c, events[n], key);
    StepIsStatusThenData(m, c, events[n], key);
  }

  /** A publication is one entry with the time of its event and the status after it; and it sends one report for each
      group of cached tags, while without one no report but those beside measurements goes out. */
  lemma PublicationsAreSent(c: Config, events: seq<Event>, n: nat, key: DeviceKey, group: Option<string>)
    requires n < |events|
    ensures var log, more := PublishedBy(c, events, n, key), PublishedBy(c, events, n + 1, key);
      Publishes(c, events, n, key) ==>
        |more| == |log| + 1 && log < more && more[|log|].at == events[n].at &&
        Some(more[|log|].status) == StatusAt(c, events, n + 1, key)
    ensures var cached := CachedTags(MemoryOf(Run(c, events[..n + 1]), key));
      |ReportsFor(SentAbout(c, events[..n], events[n], key), group)| ==
        if Publishes(c, events, n, key) && TagsIn(cached, c.grouping, group) != [] then 1 else 0
  {
    hide Run, MemoryOf, DeviceStep, StatusStep, Changes, Publishes, Homely, Due, IntervalStart, TagsIn, ReportsFor;
    var m := MemoryOf(Run(c, events[..n]), key);
    DevicesAreIndependent(c, events[..n], key);
    MemoryIsHomely(Run(c, events[..n]), key);
    NextEvent(c, events, n, key);
    StepPublishes(m, c, events[n], key);
    StepIsStatusThenData(m, c, events[n], key);
    StepReportsEachGroupOnce(m, c, events[n], key, group);
  }
}
