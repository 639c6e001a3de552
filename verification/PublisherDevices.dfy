/** A publisher of many devices does for each of them what a publisher of that device alone would do. */
module PublisherDevices {
  import opened Models
  import opened Dict
  import opened PublisherModel

  /** The messages about one device, in order. */
  function MessagesOf(messages: seq<Message>, key: DeviceKey): seq<Message> {
    if messages == [] then []
    else
      var n := |messages| - 1;
      MessagesOf(messages[..n], key) + if KeyOf(messages[n].device) == key then [messages[n]] else []
  }

  function PublicationsOf(log: seq<Publication>, key: DeviceKey): seq<Publication> {
    if log == [] then []
    else
      var n := |log| - 1;
      PublicationsOf(log[..n], key) + if log[n].key == key then [log[n]] else []
  }

  // ----- A device on its own -----

  predicate Concerns(e: Event, key: DeviceKey) {
    e.Received? ==> KeyOf(e.result.device) == key
  }

  function CheckAndSend(m: Memory, c: Config, now: real): Effect {
    var checked := if c.staleTimeout <= 0.0 then Silent(m) else Refresh(m, c, now);
    checked.(sent := checked.sent + DataMessages(checked.memory, c, now))
  }

  function DeviceStep(m: Memory, c: Config, e: Event, key: DeviceKey): Effect {
    match e
    case Received(result, at) => if KeyOf(result.device) == key then Receive(m, c, result, at) else Silent(m)
    case Ticked(at) => CheckAndSend(m, c, at)
  }

  function Then(a: Effect, b: Effect): Effect {
    Effect(b.memory, a.sent + b.sent, a.log + b.log)
  }

  /** The history of one device, told from its own results and the ticks. */
  function Alone(c: Config, events: seq<Event>, key: DeviceKey): Effect
    decreases events
  {
    if events == [] then Silent(Memory(None, None))
    else
      var before := Alone(c, events[..|events| - 1], key);
      Then(before, DeviceStep(before.memory, c, events[|events| - 1], key))
  }

  /** What the publisher holds and has sent about one device. */
  function Share(st: State, key: DeviceKey): Effect {
    Effect(MemoryOf(st, key), MessagesOf(st.sent, key), PublicationsOf(st.log, key))
  }

  // ----- Filters -----

  lemma {:induction false} MessagesOfJoined(a: seq<Message>, b: seq<Message>, key: DeviceKey)
    ensures MessagesOf(a + b, key) == MessagesOf(a, key) + MessagesOf(b, key)
    decreases b
  {
    if b == [] {
      assert a + b == a;
    } else {
      var n := |b| - 1;
      assert (a + b)[..|a + b| - 1] == a + b[..n];
      MessagesOfJoined(a, b[..n], key);
    }
  }

  lemma {:induction false} PublicationsOfJoined(a: seq<Publication>, b: seq<Publication>, key: DeviceKey)
    ensures PublicationsOf(a + b, key) == PublicationsOf(a, key) + PublicationsOf(b, key)
    decreases b
  {
    if b == [] {
      assert a + b == a;
    } else {
      var n := |b| - 1;
      assert (a + b)[..|a + b| - 1] == a + b[..n];
      PublicationsOfJoined(a, b[..n], key);
    }
  }

  ghost predicate AllFor(messages: seq<Message>, key: DeviceKey) {
    forall m :: m in messages ==> KeyOf(m.device) == key
  }

  ghost predicate AllOf(log: seq<Publication>, key: DeviceKey) {
    forall p :: p in log ==> p.key == key
  }

  lemma {:induction false} MessagesOfOne(messages: seq<Message>, owner: DeviceKey, key: DeviceKey)
    requires AllFor(messages, owner)
    ensures MessagesOf(messages, key) == if key == owner then messages else []
    decreases messages
  {
    if messages != [] {
      var n := |messages| - 1;
      assert messages == messages[..n] + [messages[n]];
      MessagesOfOne(messages[..n], owner, key);
    }
  }

  lemma {:induction false} PublicationsOfOne(log: seq<Publication>, owner: DeviceKey, key: DeviceKey)
    requires AllOf(log, owner)
    ensures PublicationsOf(log, key) == if key == owner then log else []
    decreases log
  {
    if log != [] {
      var n := |log| - 1;
      assert log == log[..n] + [log[n]];
      PublicationsOfOne(log[..n], owner, key);
    }
  }

  // ----- What a device's steps send is about that device -----

  ghost predicate Owned(effect: Effect, key: DeviceKey) {
    && AllFor(effect.sent, key)
    && AllOf(effect.log, key)
    && Homely(effect.memory, key)
  }

  /** The cached snapshot is the device's own. */
  ghost predicate Homely(m: Memory, key: DeviceKey) {
    m.snapshot.Some? ==> KeyOf(m.snapshot.value.device) == key
  }

  lemma {:induction false} ReportsOwned(device: DeviceSpec, groups: Groups, on: bool, error: Option<string>, now: real,
                                        origin: Origin)
    ensures AllFor(Reports(device, groups, on, error, now, origin), KeyOf(device))
    decreases groups
  {
    if groups != [] { ReportsOwned(device, groups[..|groups| - 1], on, error, now, origin); }
  }

  lemma AnnounceOwned(m: Memory, c: Config, device: DeviceSpec, now: real, origin: Origin)
    requires Homely(m, KeyOf(device))
    ensures Owned(Announce(m, c, device, now, origin), KeyOf(device))
  {
    hide Reports, GroupTags;
    if m.state.Some? && m.snapshot.Some? {
      var on := m.state.value.status == GoodStatus;
      ReportsOwned(device, GroupTags(m.snapshot.value.tags, c.grouping), on, if on then None
        else Some(m.state.value.reason), now, origin);
    }
  }

  lemma SetStatusOwned(m: Memory, c: Config, device: DeviceSpec, status: Status, reason: string, now: real,
                       received: Option<real>, source: Option<real>)
    requires Homely(m, KeyOf(device))
    ensures Owned(SetStatus(m, c, device, status, reason, now, received, source), KeyOf(device))
  {
    hide Announce;
    if StatusOf(m) == Some(status) {
      var kept := m.state.value.(reason := reason, lastReceived := received, lastSource := source);
      AnnounceOwned(m.(state := Some(kept)), c, device, now, OnInterval);
    } else {
      AnnounceOwned(m.(state := Some(DeviceState(device, status, reason, now, None, received, source))), c, device, now,
        OnChange);
    }
  }

  lemma ReceiveOwned(m: Memory, c: Config, result: ReadResult, now: real)
    requires Homely(m, KeyOf(result.device))
    ensures Owned(Receive(m, c, result, now), KeyOf(result.device))
  {
    hide SetStatus;
    if Present(result.error) {
      SetStatusOwned(m, c, result.device, Disconnected, result.error.value, now, None, None);
    } else {
      var snapshot := Snapshot(result.device, StoreTags(CachedTags(m), result.tags), now, result.timestamp);
      var status := ResultStatus(result.tags);
      SetStatusOwned(m.(snapshot := Some(snapshot)), c, result.device, status, ReasonOf(status), now, Some(now),
        Some(result.timestamp));
    }
  }

  lemma RefreshOwned(m: Memory, c: Config, now: real, key: DeviceKey)
    requires Homely(m, key)
    ensures Owned(Refresh(m, c, now), key)
  {
    hide SetStatus, Announce;
    if m.snapshot.Some? {
      var s := m.snapshot.value;
      SetStatusOwned(m, c, s.device, Stale, "message timeout", now, Some(s.lastReceived), Some(s.lastSource));
      AnnounceOwned(m, c, s.device, now, OnInterval);
    }
  }

  lemma {:induction false} GroupsMessagesOwned(device: DeviceSpec, groups: Groups, now: real)
    ensures AllFor(GroupsMessages(device, groups, now), KeyOf(device))
    decreases groups
  {
    if groups != [] { GroupsMessagesOwned(device, groups[..|groups| - 1], now); }
  }

  lemma DataMessagesOwned(m: Memory, c: Config, now: real, key: DeviceKey)
    requires Homely(m, key)
    ensures AllFor(DataMessages(m, c, now), key)
  {
    hide GroupsMessages, GroupTags;
    if m.snapshot.Some? {
      GroupsMessagesOwned(m.snapshot.value.device, GroupTags(m.snapshot.value.tags, c.grouping), now);
    }
  }

  // ----- Writing one device's memory back -----

  /** Snapshots are stored under their own device's key, once each. */
  ghost predicate WellKept(snapshots: seq<Entry<DeviceKey, Snapshot>>) {
    UniqueKeys(snapshots) && forall e :: e in snapshots ==> KeyOf(e.value.device) == e.key
  }

  lemma MemoryIsHomely(st: State, key: DeviceKey)
    requires WellKept(st.latest)
    ensures Homely(MemoryOf(st, key), key)
  {
    if Lookup(st.latest, key).Some? { LookupFound(st.latest, key); }
  }

  lemma WellKeptStore(latest: seq<Entry<DeviceKey, Snapshot>>, key: DeviceKey, snapshot: Snapshot)
    requires WellKept(latest) && KeyOf(snapshot.device) == key
    ensures WellKept(Store(latest, key, snapshot))
  {
    StoreUnique(latest, key, snapshot);
    forall e | e in Store(latest, key, snapshot)
      ensures KeyOf(e.value.device) == e.key
    {
      StoreMembers(latest, key, snapshot, e);
    }
  }

  /** A step forgets neither the snapshot nor the status. */
  predicate Remembers(before: Memory, after: Memory) {
    (before.snapshot.Some? ==> after.snapshot.Some?) && (before.state.Some? ==> after.state.Some?)
  }

  lemma SetStatusRemembers(m: Memory, c: Config, device: DeviceSpec, status: Status, reason: string, now: real,
                           received: Option<real>, source: Option<real>)
    ensures Remembers(m, SetStatus(m, c, device, status, reason, now, received, source).memory)
    ensures SetStatus(m, c, device, status, reason, now, received, source).memory.snapshot == m.snapshot
    ensures StatusOf(SetStatus(m, c, device, status, reason, now, received, source).memory) == Some(status)
  {}

  lemma ReceiveRemembers(m: Memory, c: Config, result: ReadResult, now: real)
    ensures Remembers(m, Receive(m, c, result, now).memory)
  {
    hide SetStatus;
    if Present(result.error) {
      SetStatusRemembers(m, c, result.device, Disconnected, result.error.value, now, None, None);
    } else {
      var snapshot := Snapshot(result.device, StoreTags(CachedTags(m), result.tags), now, result.timestamp);
      var status := ResultStatus(result.tags);
      SetStatusRemembers(m.(snapshot := Some(snapshot)), c, result.device, status, ReasonOf(status), now, Some(now),
        Some(result.timestamp));
    }
  }

  lemma RefreshRemembers(m: Memory, c: Config, now: real)
    ensures Remembers(m, Refresh(m, c, now).memory)
    ensures Refresh(m, c, now).memory.snapshot == m.snapshot
  {
    hide SetStatus;
    if m.snapshot.Some? {
      var s := m.snapshot.value;
      SetStatusRemembers(m, c, s.device, Stale, "message timeout", now, Some(s.lastReceived), Some(s.lastSource));
    }
  }

  lemma ApplyShares(st: State, owner: DeviceKey, effect: Effect, key: DeviceKey)
    requires WellKept(st.latest) && Owned(effect, owner) && Remembers(MemoryOf(st, owner), effect.memory)
    ensures WellKept(Apply(st, owner, effect).latest)
    ensures Share(Apply(st, owner, effect), key) == if key == owner then Then(Share(st, key), effect)
      else Share(st, key)
  {
    hide MessagesOf, PublicationsOf, AllFor, AllOf, WellKept, UniqueKeys, Store;
    MessagesOfJoined(st.sent, effect.sent, key);
    MessagesOfOne(effect.sent, owner, key);
    PublicationsOfJoined(st.log, effect.log, key);
    PublicationsOfOne(effect.log, owner, key);
    if effect.memory.snapshot.Some? {
      LookupStore(st.latest, owner, effect.memory.snapshot.value, key);
      WellKeptStore(st.latest, owner, effect.memory.snapshot.value);
    }
  }

  // ----- Ticks -----

  lemma {:induction false} RefreshAllShares(st: State, c: Config, snapshots: seq<Entry<DeviceKey, Snapshot>>, now: real,
                                            key: DeviceKey)
    requires WellKept(st.latest) && UniqueKeys(snapshots)
    ensures WellKept(RefreshAll(st, c, snapshots, now).latest)
    ensures Share(RefreshAll(st, c, snapshots, now), key)
         == if Lookup(snapshots, key).Some? then Then(Share(st, key), Refresh(MemoryOf(st, key), c, now))
           else Share(st, key)
    decreases snapshots
  {
    hide Refresh, WellKept, UniqueKeys, Apply, MemoryOf, MessagesOf, PublicationsOf, Lookup, Owned, Remembers;
    if snapshots == [] {
      LookupAbsent(snapshots, key);
    } else {
      var front, last := snapshots[..|snapshots| - 1], snapshots[|snapshots| - 1];
      assert snapshots == front + [last];
      LookupLastUnique(front, last);
      LookupLonger(front, last, key);
      RefreshAllShares(st, c, front, now, key);
      var middle := RefreshAll(st, c, front, now);
      var m := MemoryOf(middle, last.key);
      MemoryIsHomely(middle, last.key);
      RefreshOwned(m, c, now, last.key);
      RefreshRemembers(m, c, now);
      ApplyShares(middle, last.key, Refresh(m, c, now), key);
    }
  }

  lemma NothingSent(key: DeviceKey)
    ensures MessagesOf([], key) == []
  {}

  lemma {:induction false} CachedMessagesShares(st: State, c: Config, snapshots: seq<Entry<DeviceKey, Snapshot>>,
                                                now: real, key: DeviceKey)
    requires WellKept(st.latest) && UniqueKeys(snapshots)
    ensures MessagesOf(CachedMessages(st, c, snapshots, now), key)
         == if Lookup(snapshots, key).Some? then DataMessages(MemoryOf(st, key), c, now) else []
    decreases snapshots
  {
    hide DataMessages, WellKept, UniqueKeys, MemoryOf, MessagesOf, Lookup, AllFor;
    if snapshots == [] {
      LookupAbsent(snapshots, key);
      NothingSent(key);
    } else {
      var front, last := snapshots[..|snapshots| - 1], snapshots[|snapshots| - 1];
      assert snapshots == front + [last];
      LookupLastUnique(front, last);
      LookupLonger(front, last, key);
      CachedMessagesShares(st, c, front, now, key);
      MemoryIsHomely(st, last.key);
      DataMessagesOwned(MemoryOf(st, last.key), c, now, last.key);
      MessagesOfOne(DataMessages(MemoryOf(st, last.key), c, now), last.key, key);
      MessagesOfJoined(CachedMessages(st, c, front, now), DataMessages(MemoryOf(st, last.key), c, now), key);
    }
  }

  lemma RefreshStaleShares(st: State, c: Config, now: real, key: DeviceKey)
    requires WellKept(st.latest)
    ensures WellKept(RefreshStale(st, c, now).latest)
    ensures Share(RefreshStale(st, c, now), key)
         == Then(Share(st, key), if c.staleTimeout <= 0.0 then Silent(MemoryOf(st, key))
           else Refresh(MemoryOf(st, key), c, now))
  {
    hide RefreshAll, MessagesOf, PublicationsOf, Lookup, SetStatus, AnnounceIfDue;
    if c.staleTimeout > 0.0 { RefreshAllShares(st, c, st.latest, now, key); }
  }

  lemma TickShares(st: State, c: Config, now: real, key: DeviceKey)
    requires WellKept(st.latest)
    ensures WellKept(PublishCached(st, c, now).latest)
    ensures Share(PublishCached(st, c, now), key) == Then(Share(st, key), CheckAndSend(MemoryOf(st, key), c, now))
  {
    hide RefreshStale, Refresh, MessagesOf, PublicationsOf, Lookup, GroupsMessages, CachedMessages;
    var refreshed := RefreshStale(st, c, now);
    RefreshStaleShares(st, c, now, key);
    CachedMessagesShares(refreshed, c, refreshed.latest, now, key);
    MessagesOfJoined(refreshed.sent, CachedMessages(refreshed, c, refreshed.latest, now), key);
  }

  lemma ReceiveShares(st: State, c: Config, result: ReadResult, now: real, key: DeviceKey)
    requires WellKept(st.latest)
    ensures WellKept(ReceiveResult(st, c, result, now).latest)
    ensures Share(ReceiveResult(st, c, result, now), key)
         == if KeyOf(result.device) == key then Then(Share(st, key), Receive(MemoryOf(st, key), c, result, now))
           else Share(st, key)
  {
    hide Receive, Apply, MemoryOf, MessagesOf, PublicationsOf;
    var owner := KeyOf(result.device);
    MemoryIsHomely(st, owner);
    ReceiveOwned(MemoryOf(st, owner), c, result, now);
    ReceiveRemembers(MemoryOf(st, owner), c, result, now);
    ApplyShares(st, owner, Receive(MemoryOf(st, owner), c, result, now), key);
  }

  // ----- Runs -----

  lemma NothingHeld(key: DeviceKey)
    ensures Share(EMPTY, key) == Silent(Memory(None, None)) && WellKept(EMPTY.latest)
  {}

  /** Over any run, a device's caches, messages and publications are those of a publisher that serves it alone. */
  lemma {:induction false} DevicesAreIndependent(c: Config, events: seq<Event>, key: DeviceKey)
    ensures WellKept(Run(c, events).latest)
    ensures Share(Run(c, events), key) == Alone(c, events, key)
    decreases events
  {
    hide Receive, CheckAndSend, ReceiveResult, PublishCached, MessagesOf, PublicationsOf, MemoryOf, UniqueKeys;
    if events == [] {
      NothingHeld(key);
    } else {
      var front, e := events[..|events| - 1], events[|events| - 1];
      DevicesAreIndependent(c, front, key);
      match e
      case Received(result, at) => ReceiveShares(Run(c, front), c, result, at, key);
      case Ticked(at) => TickShares(Run(c, front), c, at, key);
    }
  }

  function Concerning(events: seq<Event>, key: DeviceKey): seq<Event>
    decreases events
  {
    if events == [] then []
    else
      var n := |events| - 1;
      Concerning(events[..n], key) + if Concerns(events[n], key) then [events[n]] else []
  }

  lemma {:induction false} OthersLeaveNoTrace(c: Config, events: seq<Event>, key: DeviceKey)
    ensures Alone(c, Concerning(events, key), key) == Alone(c, events, key)
    decreases events
  {
    hide Receive, CheckAndSend;
    if events != [] {
      var n := |events| - 1;
      OthersLeaveNoTrace(c, events[..n], key);
      var front := Concerning(events[..n], key);
      assert (front + [events[n]])[..|front|] == front;
      assert front + [] == front;
      assert Then(Alone(c, events[..n], key), Silent(Alone(c, events[..n], key).memory)) == Alone(c, events[..n], key);
    }
  }

  /** Two histories with the same ticks and the same results of a device treat it the same, whatever other devices
      do. */
  lemma DevicesDoNotInterfere(c: Config, one: seq<Event>, two: seq<Event>, key: DeviceKey)
    requires Concerning(one, key) == Concerning(two, key)
    ensures Share(Run(c, one), key) == Share(Run(c, two), key)
  {
    hide Alone, Share, Concerning;
    DevicesAreIndependent(c, one, key);
    DevicesAreIndependent(c, two, key);
    OthersLeaveNoTrace(c, one, key);
    OthersLeaveNoTrace(c, two, key);
  }
}
