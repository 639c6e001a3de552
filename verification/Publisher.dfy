/** The publishing thread's object, method by method, against the step functions. */
module Publisher {
  import opened Models
  import opened Dict
  import opened PublisherModel
  import opened PublisherDevices

  // ----- Storing what is there already, or twice, changes nothing more -----

  lemma {:induction false} StoreSame<K, V>(d: seq<Entry<K, V>>, key: K)
    requires Lookup(d, key).Some?
    ensures Store(d, key, Lookup(d, key).value) == d
    decreases d
  {
    if d[0].key == key {
      assert [Entry(key, d[0].value)] + d[1..] == d;
    } else {
      StoreSame(d[1..], key);
    }
  }

  lemma {:induction false} StoreTwice<K, V>(d: seq<Entry<K, V>>, key: K, value: V)
    ensures Store(Store(d, key, value), key, value) == Store(d, key, value)
    decreases d
  {
    LookupStore(d, key, value, key);
    StoreSame(Store(d, key, value), key);
  }

  lemma ApplySilent(st: State, key: DeviceKey)
    ensures Apply(st, key, Silent(MemoryOf(st, key))) == st
  {
    if Lookup(st.latest, key).Some? { StoreSame(st.latest, key); }
  }

  /** Writing a new device state before applying an effect that sets it again makes no difference. */
  lemma ApplyOverState(st: State, key: DeviceKey, state: DeviceState, effect: Effect)
    requires effect.memory.state.Some?
    ensures Apply(st.(statuses := st.statuses[key := state]), key, effect) == Apply(st, key, effect)
  {}

  lemma ApplyOverSnapshot(st: State, key: DeviceKey, effect: Effect)
    requires effect.memory.snapshot.Some?
    ensures Apply(st.(latest := Store(st.latest, key, effect.memory.snapshot.value)), key, effect)
      == Apply(st, key, effect)
  {
    StoreTwice(st.latest, key, effect.memory.snapshot.value);
  }

  lemma MemoryOverSnapshot(st: State, key: DeviceKey, snapshot: Snapshot)
    ensures MemoryOf(st.(latest := Store(st.latest, key, snapshot)), key)
      == MemoryOf(st, key).(snapshot := Some(snapshot))
  {
    LookupStore(st.latest, key, snapshot, key);
  }

  method GroupByOutput(tags: seq<Entry<string, TagResult>>, grouping: Grouping) returns (groups: Groups)
    ensures groups == GroupTags(tags, grouping)
  {
    groups := [];
    for i := 0 to |tags|
      invariant groups == GroupTags(tags[..i], grouping)
    {
      assert tags[..i + 1][..i] == tags[..i];
      groups := AddToGroup(groups, grouping, tags[i].value);
    }
    assert tags[..|tags|] == tags;
  }

  /** Stores a result's tags, noting whether any is good and whether any is bad. */
  method MergeTags(cached: seq<Entry<string, TagResult>>, read: seq<TagResult>)
    returns (tags: seq<Entry<string, TagResult>>, status: Status)
    ensures tags == StoreTags(cached, read) && status == ResultStatus(read)
  {
    tags := cached;
    NoneUsable();
    hide SomeUsable, Faulty;
    var hasBad, hasGood := false, false;
    for i := 0 to |read|
      invariant tags == StoreTags(cached, read[..i])
      invariant hasGood == SomeUsable(read[..i])
      invariant hasGood || hasBad <==> i > 0
    {
      assert read[..i + 1][..i] == read[..i];
      SomeUsableLonger(read, i);
      tags := Store(tags, TagKey(read[i]), read[i]);
      if Faulty(read[i]) { hasBad := true; } else { hasGood := true; }
    }
    assert read[..|read|] == read;
    status := if hasGood then GoodStatus else if hasBad then BadStatus else GoodStatus;
  }

  lemma NoneUsable()
    ensures !SomeUsable([])
  {}

  lemma SomeUsableLonger(tags: seq<TagResult>, i: nat)
    requires i < |tags|
    ensures SomeUsable(tags[..i + 1]) <==> SomeUsable(tags[..i]) || !Faulty(tags[i])
  {
    hide Faulty;
    if SomeUsable(tags[..i]) {
      var k :| 0 <= k < i && !Faulty(tags[..i][k]);
      assert tags[..i + 1][k] == tags[k];
    }
    assert tags[..i + 1][i] == tags[i];
    if SomeUsable(tags[..i + 1]) {
      var k :| 0 <= k < i + 1 && !Faulty(tags[..i + 1][k]);
      assert k < i ==> tags[..i][k] == tags[k];
    }
  }

  lemma MemoryIgnoresMessages(a: State, b: State, key: DeviceKey)
    requires a.latest == b.latest && a.statuses == b.statuses
    ensures MemoryOf(a, key) == MemoryOf(b, key)
  {}

  class SinkPublisher {
    const config: Config
    var latest: seq<Entry<DeviceKey, Snapshot>>
    var statuses: map<DeviceKey, DeviceState>
    // Every message handed to the sink; failures of the sink are caught there and change nothing here.
    var sent: seq<Message>
    ghost var log: seq<Publication>

    ghost function Now(): State
      reads this
    {
      State(latest, statuses, sent, log)
    }

    ghost predicate Valid()
      reads this
    {
      WellKept(latest)
    }

    constructor (config: Config)
      ensures Valid() && this.config == config && Now() == EMPTY
    {
      this.config := config;
      latest, statuses, sent, log := [], map[], [], [];
    }

    function DeviceStatus(device: DeviceSpec): (status: Option<Status>)
      reads this
      ensures status == StatusOf(MemoryOf(State(latest, statuses, [], []), KeyOf(device)))
    {
      if KeyOf(device) in statuses then Some(statuses[KeyOf(device)].status) else None
    }

    method SendReports(device: DeviceSpec, groups: Groups, on: bool, error: Option<string>, now: real, origin: Origin)
      modifies `sent
      ensures sent == old(sent) + Reports(device, groups, on, error, now, origin)
    {
      for i := 0 to |groups|
        invariant sent == old(sent) + Reports(device, groups[..i], on, error, now, origin)
      {
        assert groups[..i + 1][..i] == groups[..i];
        sent := sent + [GroupReport(device, groups[i], on, error, now, origin)];
      }
      assert groups[..|groups|] == groups;
    }

    method PublishDeviceStatus(device: DeviceSpec, now: real, origin: Origin)
      modifies `statuses, `sent, `log
      ensures var key := KeyOf(device);
        Now() == Apply(old(Now()), key, Announce(MemoryOf(old(Now()), key), config, device, now, origin))
    {
      var key := KeyOf(device);
      ghost var before := Now();
      ApplySilent(before, key);
      if key !in statuses { return; }
      var state := statuses[key];
      statuses := statuses[key := state.(lastPublished := Some(now))];
      log := log + [Publication(key, state.status, now, origin)];
      var snapshot := Lookup(latest, key);
      if snapshot.None? { return; }
      StoreSame(latest, key);
      var groups := GroupByOutput(snapshot.value.tags, config.grouping);
      var on := state.status == GoodStatus;
      SendReports(device, groups, on, if on then None else Some(state.reason), now, origin);
    }

    method PublishStatusHeartbeatIfDue(device: DeviceSpec, now: real)
      modifies `statuses, `sent, `log
      ensures var key := KeyOf(device);
        Now() == Apply(old(Now()), key, AnnounceIfDue(MemoryOf(old(Now()), key), config, device, now))
    {
      var key := KeyOf(device);
      ApplySilent(Now(), key);
      if config.interval <= 0.0 || key !in statuses { return; }
      if now - IntervalStart(statuses[key]) >= config.interval {
        PublishDeviceStatus(device, now, OnInterval);
      }
    }

    method SetDeviceStatus(device: DeviceSpec, status: Status, reason: string, now: real, received: Option<real>,
                           source: Option<real>)
      modifies `statuses, `sent, `log
      ensures var key := KeyOf(device);
        Now() == Apply(old(Now()), key,
          SetStatus(MemoryOf(old(Now()), key), config, device, status, reason, now, received, source))
    {
      var key := KeyOf(device);
      ghost var before := Now();
      ghost var effect := SetStatus(MemoryOf(before, key), config, device, status, reason, now, received, source);
      if key in statuses && statuses[key].status == status {
        var kept := statuses[key].(reason := reason, lastReceived := received, lastSource := source);
        ApplyOverState(before, key, kept, effect);
        statuses := statuses[key := kept];
        assert Now() == before.(statuses := before.statuses[key := kept]);
        PublishStatusHeartbeatIfDue(device, now);
        return;
      }
      var known := key in statuses;
      var state := DeviceState(device, status, reason, now, None, received, source);
      ApplyOverState(before, key, state, effect);
      statuses := statuses[key := state];
      assert Now() == before.(statuses := before.statuses[key := state]);
      ApplySilent(Now(), key);
      if known || status != GoodStatus {
        PublishDeviceStatus(device, now, OnChange);
      }
    }

    method CacheResult(result: ReadResult, now: real)
      requires Valid() && !Present(result.error)
      modifies this
      ensures Valid()
      ensures Now() == ReceiveResult(old(Now()), config, result, now)
    {
      hide SetStatus, StoreTags, Apply, UniqueKeys, SomeUsable;
      var key := KeyOf(result.device);
      ghost var before := Now();
      var found := Lookup(latest, key);
      var tags, status := MergeTags(if found.Some? then found.value.tags else [], result.tags);
      var snapshot := Snapshot(result.device, tags, now, result.timestamp);
      latest := Store(latest, key, snapshot);
      WellKeptStore(before.latest, key, snapshot);
      MemoryOverSnapshot(before, key, snapshot);
      ghost var m := MemoryOf(before, key).(snapshot := Some(snapshot));
      ghost var effect := SetStatus(m, config, result.device, status, ReasonOf(status), now, Some(now),
        Some(result.timestamp));
      SetStatusRemembers(m, config, result.device, status, ReasonOf(status), now, Some(now), Some(result.timestamp));
      ApplyOverSnapshot(before, key, effect);
      SetDeviceStatus(result.device, status, ReasonOf(status), now, Some(now), Some(result.timestamp));
    }

    /** Takes one result, if there is one. */
    method PublishOnce(inbox: Option<ReadResult>, now: real) returns (taken: bool)
      requires Valid()
      modifies this
      ensures Valid() && taken == inbox.Some?
      ensures Now() == if taken then Step(old(Now()), config, Received(inbox.value, now)) else old(Now())
    {
      if inbox.None? { return false; }
      var result := inbox.value;
      ReceiveShares(Now(), config, result, now, KeyOf(result.device));
      if Present(result.error) {
        SetDeviceStatus(result.device, Disconnected, result.error.value, now, None, None);
        return true;
      }
      CacheResult(result, now);
      return true;
    }

    method RefreshSnapshot(snapshot: Snapshot, now: real)
      requires Lookup(latest, KeyOf(snapshot.device)) == Some(snapshot)
      modifies `statuses, `sent, `log
      ensures var key := KeyOf(snapshot.device);
        Now() == Apply(old(Now()), key, Refresh(MemoryOf(old(Now()), key), config, now))
    {
      hide SetStatus, AnnounceIfDue, Apply;
      ApplySilent(Now(), KeyOf(snapshot.device));
      var elapsed := now - snapshot.lastReceived;
      if elapsed >= config.staleTimeout && DeviceStatus(snapshot.device) == Some(GoodStatus) {
        SetDeviceStatus(snapshot.device, Stale, "message timeout", now, Some(snapshot.lastReceived),
          Some(snapshot.lastSource));
      } else if DeviceStatus(snapshot.device) != Some(GoodStatus) {
        PublishStatusHeartbeatIfDue(snapshot.device, now);
      }
    }

    method RefreshStaleStatuses(now: real)
      requires Valid()
      modifies `statuses, `sent, `log
      ensures Now() == RefreshStale(old(Now()), config, now)
    {
      hide Refresh, Apply, MemoryOf;
      if config.staleTimeout <= 0.0 { return; }
      var snapshots := latest;
      ghost var before := Now();
      for i := 0 to |snapshots|
        invariant Now() == RefreshAll(before, config, snapshots[..i], now)
      {
        assert snapshots[..i + 1][..i] == snapshots[..i];
        assert snapshots[i] in snapshots;
        LookupMember(snapshots, snapshots[i]);
        RefreshSnapshot(snapshots[i].value, now);
      }
      assert snapshots[..|snapshots|] == snapshots;
    }

    method PublishGroups(device: DeviceSpec, groups: Groups, now: real) returns (published: nat)
      modifies `sent
      ensures sent == old(sent) + GroupsMessages(device, groups, now)
      ensures 2 * published == |GroupsMessages(device, groups, now)|
    {
      published := 0;
      for i := 0 to |groups|
        invariant sent == old(sent) + GroupsMessages(device, groups[..i], now)
        invariant 2 * published == |GroupsMessages(device, groups[..i], now)|
      {
        assert groups[..i + 1][..i] == groups[..i];
        var goodTags := UsableTags(groups[i].value);
        if goodTags != [] {
          sent := sent + [Measurement(device, groups[i].key, goodTags, now)];
          sent := sent + [GroupReport(device, groups[i], true, None, now, WithData)];
          published := published + 1;
        }
      }
      assert groups[..|groups|] == groups;
    }

    method PublishSnapshot(snapshot: Snapshot, now: real) returns (published: nat)
      requires Lookup(latest, KeyOf(snapshot.device)) == Some(snapshot)
      modifies `sent
      ensures sent == old(sent) + DataMessages(MemoryOf(old(Now()), KeyOf(snapshot.device)), config, now)
      ensures 2 * published == |sent| - |old(sent)|
    {
      hide GroupsMessages, GroupTags;
      published := 0;
      if DeviceStatus(snapshot.device) != Some(GoodStatus) { return; }
      var groups := GroupByOutput(snapshot.tags, config.grouping);
      published := PublishGroups(snapshot.device, groups, now);
    }

    /** One publishing round; the number of measurements sent is returned. */
    method PublishCached(now: real) returns (published: nat)
      requires Valid()
      modifies `statuses, `sent, `log
      ensures Valid()
      ensures Now() == Step(old(Now()), config, Ticked(now))
      ensures 2 * published == |sent| - |RefreshStale(old(Now()), config, now).sent|
    {
      hide RefreshStale, DataMessages, MemoryOf, UniqueKeys, Lookup;
      RefreshStaleStatuses(now);
      ghost var refreshed := Now();
      published := 0;
      var snapshots := latest;
      for i := 0 to |snapshots|
        invariant statuses == refreshed.statuses && log == refreshed.log
        invariant sent == refreshed.sent + CachedMessages(refreshed, config, snapshots[..i], now)
        invariant 2 * published == |sent| - |refreshed.sent|
      {
        assert snapshots[..i + 1][..i] == snapshots[..i];
        assert snapshots[i] in snapshots;
        LookupMember(snapshots, snapshots[i]);
        MemoryIgnoresMessages(Now(), refreshed, snapshots[i].key);
        var count := PublishSnapshot(snapshots[i].value, now);
        published := published + count;
      }
      assert snapshots[..|snapshots|] == snapshots;
    }
  }
}
