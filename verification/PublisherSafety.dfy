/** What everything that the publisher sends, over every run, says about the devices. */
module PublisherSafety {
  import opened Models
  import opened Dict
  import opened PublisherModel
  import opened PublisherDevices

  // ----- Groups -----

  /** The cached tags of one group, in the order in which they were first stored. */
  function TagsIn(tags: seq<Entry<string, TagResult>>, grouping: Grouping, group: Option<string>): seq<TagResult>
    decreases tags
  {
    if tags == [] then []
    else
      var n := |tags| - 1;
      TagsIn(tags[..n], grouping, group) + if grouping(tags[n].value) == group then [tags[n].value] else []
  }

  lemma AddToGroupEffect(groups: Groups, grouping: Grouping, tag: TagResult, group: Option<string>)
    requires UniqueKeys(groups)
    ensures UniqueKeys(AddToGroup(groups, grouping, tag))
    ensures Lookup(AddToGroup(groups, grouping, tag), group) ==
      if grouping(tag) != group then Lookup(groups, group)
      else if Lookup(groups, group).Some? then Some(Lookup(groups, group).value + [tag]) else Some([tag])
  {
    hide Lookup, Store, UniqueKeys;
    var before := Lookup(groups, grouping(tag));
    var members := if before.Some? then before.value + [tag] else [tag];
    StoreUnique(groups, grouping(tag), members);
    LookupStore(groups, grouping(tag), members, group);
  }

  lemma {:induction false} GroupsAreFilters(tags: seq<Entry<string, TagResult>>, grouping: Grouping,
                                            group: Option<string>)
    ensures UniqueKeys(GroupTags(tags, grouping))
    ensures Lookup(GroupTags(tags, grouping), group)
         == if TagsIn(tags, grouping, group) == [] then None else Some(TagsIn(tags, grouping, group))
    decreases tags
  {
    if tags != [] {
      hide Lookup, AddToGroup, UniqueKeys;
      var n := |tags| - 1;
      GroupsAreFilters(tags[..n], grouping, group);
      AddToGroupEffect(GroupTags(tags[..n], grouping), grouping, tags[n].value, group);
      var front := TagsIn(tags[..n], grouping, group);
      assert TagsIn(tags, grouping, group) == if grouping(tags[n].value) == group then front + [tags[n].value]
        else front;
      assert [] + [tags[n].value] == [tags[n].value];
    }
  }

  lemma GroupIsFilter(tags: seq<Entry<string, TagResult>>, grouping: Grouping, g: Entry<Option<string>, seq<TagResult>>)
    requires g in GroupTags(tags, grouping)
    ensures g.value == TagsIn(tags, grouping, g.key) && g.value != []
  {
    hide Lookup, GroupTags, TagsIn, UniqueKeys;
    GroupsAreFilters(tags, grouping, g.key);
    LookupMember(GroupTags(tags, grouping), g);
  }

  lemma {:induction false} TagsInMembers(tags: seq<Entry<string, TagResult>>, grouping: Grouping, group: Option<string>,
                                         tag: TagResult)
    ensures tag in TagsIn(tags, grouping, group) <==> grouping(tag) == group && exists e :: e in tags && e.value == tag
    decreases tags
  {
    if tags != [] {
      var n := |tags| - 1;
      assert tags == tags[..n] + [tags[n]];
      TagsInMembers(tags[..n], grouping, group, tag);
    }
  }

  lemma {:induction false} UsableTagsMembers(tags: seq<TagResult>, tag: TagResult)
    ensures tag in UsableTags(tags) <==> tag in tags && Usable(tag)
    decreases tags
  {
    if tags != [] {
      var n := |tags| - 1;
      assert tags == tags[..n] + [tags[n]];
      UsableTagsMembers(tags[..n], tag);
    }
  }

  lemma {:induction false} StoreTagsKeyed(tags: seq<TagResult>)
    ensures UniqueKeys(StoreTags([], tags))
    ensures forall e :: e in StoreTags([], tags) ==> e.key == TagKey(e.value)
    decreases tags
  {
    if tags != [] {
      var n := |tags| - 1;
      StoreTagsKeyed(tags[..n]);
      var front := StoreTags([], tags[..n]);
      StoreUnique(front, TagKey(tags[n]), tags[n]);
      forall e | e in StoreTags([], tags)
        ensures e.key == TagKey(e.value)
      {
        StoreMembers(front, TagKey(tags[n]), tags[n], e);
      }
    }
  }

  // ----- Data messages -----

  lemma {:induction false} GroupsMessagesMembers(device: DeviceSpec, groups: Groups, now: real, msg: Message)
    ensures msg in GroupsMessages(device, groups, now) <==>
      exists g :: g in groups && msg in GroupMessages(device, g, now)
    decreases groups
  {
    if groups != [] {
      var n := |groups| - 1;
      assert groups == groups[..n] + [groups[n]];
      GroupsMessagesMembers(device, groups[..n], now, msg);
    }
  }

  /** A measurement holds the usable cached tags of its group. */
  lemma MeasurementHoldsUsable(m: Memory, c: Config, now: real, msg: Message)
    requires msg in DataMessages(m, c, now) && msg.Measurement?
    ensures StatusOf(m) == Some(GoodStatus) && m.snapshot.Some?
    ensures msg.device == m.snapshot.value.device && msg.at == now
    ensures msg.tags == UsableTags(TagsIn(CachedTags(m), c.grouping, msg.group)) && msg.tags != []
  {
    hide GroupsMessages, GroupTags, TagsIn, UsableTags;
    var s := m.snapshot.value;
    GroupsMessagesMembers(s.device, GroupTags(s.tags, c.grouping), now, msg);
    var g :| g in GroupTags(s.tags, c.grouping) && msg in GroupMessages(s.device, g, now);
    GroupIsFilter(s.tags, c.grouping, g);
  }

  /** Every usable cached tag of a device in good status goes out with every tick. */
  lemma UsableTagsAreSent(m: Memory, c: Config, now: real, tag: TagResult)
    requires StatusOf(m) == Some(GoodStatus) && Usable(tag)
    requires exists e :: e in CachedTags(m) && e.value == tag
    ensures m.snapshot.Some?
    ensures var tags := UsableTags(TagsIn(CachedTags(m), c.grouping, c.grouping(tag)));
      tag in tags && Measurement(m.snapshot.value.device, c.grouping(tag), tags, now) in DataMessages(m, c, now)
  {
    hide GroupsMessages, GroupTags, TagsIn, UsableTags, Lookup;
    var s, group := m.snapshot.value, c.grouping(tag);
    var tags := TagsIn(s.tags, c.grouping, group);
    TagsInMembers(s.tags, c.grouping, group, tag);
    UsableTagsMembers(tags, tag);
    GroupsAreFilters(s.tags, c.grouping, group);
    LookupFound(GroupTags(s.tags, c.grouping), group);
    var msg := Measurement(s.device, group, UsableTags(tags), now);
    assert msg in GroupMessages(s.device, Entry(group, tags), now);
    GroupsMessagesMembers(s.device, GroupTags(s.tags, c.grouping), now, msg);
  }

  // ----- Reports -----

  /** Why the device is not in good status, if it is not. */
  function Complaint(m: Memory): Option<string> {
    if m.state.Some? && m.state.value.status != GoodStatus then Some(m.state.value.reason) else None
  }

  /** The report lists exactly the cached tags of its group, each "on" just when device and tag are good. */
  ghost predicate Truthful(m: Memory, c: Config, msg: Message)
    requires msg.StatusReport?
  {
    var tags := TagsIn(CachedTags(m), c.grouping, msg.group);
    && tags != []
    && |msg.sensors| == |tags|
    && forall i :: 0 <= i < |tags| ==>
      && msg.sensors[i].code == tags[i].name
      && msg.sensors[i].lastSeen == tags[i].timestamp
      && (msg.sensors[i].on <==> StatusOf(m) == Some(GoodStatus) && Usable(tags[i]))
      && (msg.sensors[i].healthy <==> msg.sensors[i].on)
      && msg.sensors[i].error == (if Present(tags[i].error) then tags[i].error else Complaint(m))
  }

  lemma {:induction false} SensorAt(tags: seq<TagResult>, on: bool, error: Option<string>, i: nat)
    requires i < |tags|
    ensures |Sensors(tags, on, error)| == |tags| && Sensors(tags, on, error)[i] == SensorOf(tags[i], on, error)
    decreases tags
  {
    var n := |tags| - 1;
    if i < n { SensorAt(tags[..n], on, error, i); } else { SensorsLength(tags[..n], on, error); }
  }

  lemma {:induction false} SensorsLength(tags: seq<TagResult>, on: bool, error: Option<string>)
    ensures |Sensors(tags, on, error)| == |tags|
    decreases tags
  {
    if tags != [] { SensorsLength(tags[..|tags| - 1], on, error); }
  }

  lemma GroupReportIsTruthful(m: Memory, c: Config, g: Entry<Option<string>, seq<TagResult>>, device: DeviceSpec,
                              error: Option<string>, now: real, origin: Origin)
    requires g in GroupTags(CachedTags(m), c.grouping)
    requires error == Complaint(m)
    ensures Truthful(m, c, GroupReport(device, g, StatusOf(m) == Some(GoodStatus), error, now, origin))
  {
    hide GroupTags, TagsIn, Sensors, CachedTags;
    GroupIsFilter(CachedTags(m), c.grouping, g);
    var on := StatusOf(m) == Some(GoodStatus);
    SensorsLength(g.value, on, error);
    forall i | 0 <= i < |g.value|
      ensures Sensors(g.value, on, error)[i] == SensorOf(g.value[i], on, error)
    {
      SensorAt(g.value, on, error, i);
    }
  }

  lemma {:induction false} ReportsMembers(device: DeviceSpec, groups: Groups, on: bool, error: Option<string>,
                                          now: real, origin: Origin, msg: Message)
    requires msg in Reports(device, groups, on, error, now, origin)
    ensures exists g :: g in groups && msg == GroupReport(device, g, on, error, now, origin)
    decreases groups
  {
    var n := |groups| - 1;
    assert groups == groups[..n] + [groups[n]];
    if msg != GroupReport(device, groups[n], on, error, now, origin) {
      ReportsMembers(device, groups[..n], on, error, now, origin, msg);
    }
  }

  lemma AnnounceIsTruthful(m: Memory, c: Config, device: DeviceSpec, now: real, origin: Origin, msg: Message)
    requires msg in Announce(m, c, device, now, origin).sent
    ensures msg.StatusReport? && msg.at == now && msg.origin == origin &&
      Truthful(Announce(m, c, device, now, origin).memory, c, msg)
  {
    hide GroupTags, TagsIn, Reports, Sensors, Truthful;
    var groups := GroupTags(m.snapshot.value.tags, c.grouping);
    var on := m.state.value.status == GoodStatus;
    var error := if on then None else Some(m.state.value.reason);
    ReportsMembers(device, groups, on, error, now, origin, msg);
    var g :| g in groups && msg == GroupReport(device, g, on, error, now, origin);
    GroupReportIsTruthful(Announce(m, c, device, now, origin).memory, c, g, device, error, now, origin);
  }

  lemma DataReportsAreTruthful(m: Memory, c: Config, now: real, msg: Message)
    requires msg in DataMessages(m, c, now) && msg.StatusReport?
    ensures msg.at == now && Truthful(m, c, msg)
  {
    hide GroupsMessages, GroupTags, TagsIn, UsableTags, Sensors, Truthful;
    var s := m.snapshot.value;
    GroupsMessagesMembers(s.device, GroupTags(s.tags, c.grouping), now, msg);
    var g :| g in GroupTags(s.tags, c.grouping) && msg in GroupMessages(s.device, g, now);
    GroupReportIsTruthful(m, c, g, s.device, None, now, WithData);
  }

  // ----- The publications of a step -----

  /** The events at which a device's unchanged status may be repeated. */
  predicate Prompted(m: Memory, c: Config, e: Event, key: DeviceKey) {
    match e
    case Received(result, _) => KeyOf(result.device) == key
    case Ticked(_) => c.staleTimeout > 0.0 && m.snapshot.Some? && StatusOf(m) != Some(GoodStatus)
  }

  /** The step as a status step followed by the data messages of a tick. */
  function StatusStep(m: Memory, c: Config, e: Event, key: DeviceKey): Effect {
    match e
    case Received(result, at) => if KeyOf(result.device) == key then Receive(m, c, result, at) else Silent(m)
    case Ticked(at) => if c.staleTimeout <= 0.0 then Silent(m) else Refresh(m, c, at)
  }

  lemma StepIsStatusThenData(m: Memory, c: Config, e: Event, key: DeviceKey)
    ensures var effect, status := DeviceStep(m, c, e, key), StatusStep(m, c, e, key);
      effect.memory == status.memory && effect.log == status.log &&
      effect.sent == status.sent + if e.Ticked? then DataMessages(status.memory, c, e.at) else []
  {
    hide Receive, Refresh, DataMessages;
    var status := StatusStep(m, c, e, key);
    assert status.sent + [] == status.sent;
  }

  /** Either nothing is published, or the status that holds after the step is announced once. */
  ghost predicate AnnouncesOnce(effect: Effect, c: Config, key: DeviceKey, now: real) {
    || (effect.log == [] && effect.sent == [])
    || exists m: Memory, device: DeviceSpec, origin: Origin ::
         m.state.Some? && KeyOf(device) == key && origin != WithData && effect == Announce(m, c, device, now, origin)
  }

  /** A status that the step changes is published, except a device's first good one; an unchanged one only when due. */
  ghost predicate PublishesChange(before: Memory, effect: Effect, c: Config, key: DeviceKey, prompted: bool,
                                  now: real) {
    var earlier, later := StatusOf(before), StatusOf(effect.memory);
    if earlier != later then
      && later.Some?
      && effect.log == (if earlier.None? && later == Some(GoodStatus) then []
        else [Publication(key, later.value, now, OnChange)])
      && effect.memory.state.value.lastPublished == (if effect.log == [] then None else Some(now))
    else if prompted && before.state.Some? && Due(before.state.value, c, now) then
      && effect.log == [Publication(key, later.value, now, OnInterval)]
      && effect.memory.state.value.lastPublished == Some(now)
    else
      && effect.log == []
      && (later.Some? ==> effect.memory.state.value.lastPublished == before.state.value.lastPublished)
  }

  lemma SetStatusPublishes(before: Memory, m: Memory, c: Config, device: DeviceSpec, status: Status, reason: string,
                           now: real, received: Option<real>, source: Option<real>)
    requires before.state == m.state
    ensures var effect := SetStatus(m, c, device, status, reason, now, received, source);
      PublishesChange(before, effect, c, KeyOf(device), true, now) && AnnouncesOnce(effect, c, KeyOf(device), now)
  {
    hide GroupTags;
    var effect := SetStatus(m, c, device, status, reason, now, received, source);
    if StatusOf(m) == Some(status) {
      var kept := m.(state := Some(m.state.value.(reason := reason, lastReceived := received, lastSource := source)));
      assert effect == Silent(kept) || effect == Announce(kept, c, device, now, OnInterval);
    } else {
      var changed := m.(state := Some(DeviceState(device, status, reason, now, None, received, source)));
      assert effect == Silent(changed) || effect == Announce(changed, c, device, now, OnChange);
    }
  }

  lemma ReceivePublishes(m: Memory, c: Config, result: ReadResult, now: real)
    ensures var effect := Receive(m, c, result, now);
      PublishesChange(m, effect, c, KeyOf(result.device), true, now) &&
        AnnouncesOnce(effect, c, KeyOf(result.device), now)
  {
    hide SetStatus, PublishesChange, AnnouncesOnce;
    if Present(result.error) {
      SetStatusPublishes(m, m, c, result.device, Disconnected, result.error.value, now, None, None);
    } else {
      var snapshot := Snapshot(result.device, StoreTags(CachedTags(m), result.tags), now, result.timestamp);
      var status := ResultStatus(result.tags);
      SetStatusPublishes(m, m.(snapshot := Some(snapshot)), c, result.device, status, ReasonOf(status), now, Some(now),
        Some(result.timestamp));
    }
  }

  lemma RefreshPublishes(m: Memory, c: Config, now: real, key: DeviceKey)
    requires Homely(m, key)
    ensures var effect := Refresh(m, c, now);
      PublishesChange(m, effect, c, key, m.snapshot.Some? && StatusOf(m) != Some(GoodStatus), now) &&
        AnnouncesOnce(effect, c, key, now)
  {
    hide SetStatus, GroupTags;
    if m.snapshot.Some? {
      var s := m.snapshot.value;
      if Expired(c, s, now) && StatusOf(m) == Some(GoodStatus) {
        SetStatusPublishes(m, m, c, s.device, Stale, "message timeout", now, Some(s.lastReceived), Some(s.lastSource));
        SetStatusRemembers(m, c, s.device, Stale, "message timeout", now, Some(s.lastReceived), Some(s.lastSource));
      } else if StatusOf(m) != Some(GoodStatus) {
        assert Refresh(m, c, now) == Silent(m) || Refresh(m, c, now) == Announce(m, c, s.device, now, OnInterval);
      }
    }
  }

  lemma StepPublishes(m: Memory, c: Config, e: Event, key: DeviceKey)
    requires Homely(m, key)
    ensures PublishesChange(m, StatusStep(m, c, e, key), c, key, Prompted(m, c, e, key), e.at)
    ensures AnnouncesOnce(StatusStep(m, c, e, key), c, key, e.at)
  {
    hide Receive, Refresh;
    match e
    case Received(result, at) => if KeyOf(result.device) == key { ReceivePublishes(m, c, result, at); }
    case Ticked(at) => if c.staleTimeout > 0.0 { RefreshPublishes(m, c, at, key); }
  }

  // ----- A publication is one report per group -----

  function ReportsFor(messages: seq<Message>, group: Option<string>): seq<Message> {
    if messages == [] then []
    else
      var n := |messages| - 1;
      ReportsFor(messages[..n], group) +
      if messages[n].StatusReport? && messages[n].origin != WithData && messages[n].group == group then [messages[n]]
        else []
  }

  lemma {:induction false} ReportsForJoined(a: seq<Message>, b: seq<Message>, group: Option<string>)
    ensures ReportsFor(a + b, group) == ReportsFor(a, group) + ReportsFor(b, group)
    decreases b
  {
    if b == [] {
      assert a + b == a;
    } else {
      var n := |b| - 1;
      assert (a + b)[..|a + b| - 1] == a + b[..n];
      ReportsForJoined(a, b[..n], group);
    }
  }

  lemma {:induction false} DataIsNoReport(device: DeviceSpec, groups: Groups, now: real, group: Option<string>)
    ensures ReportsFor(GroupsMessages(device, groups, now), group) == []
    decreases groups
  {
    if groups != [] {
      var n := |groups| - 1;
      DataIsNoReport(device, groups[..n], now, group);
      NoReportInGroup(device, groups[n], now, group);
      ReportsForJoined(GroupsMessages(device, groups[..n], now), GroupMessages(device, groups[n], now), group);
    }
  }

  lemma NoReportInGroup(device: DeviceSpec, g: Entry<Option<string>, seq<TagResult>>, now: real, group: Option<string>)
    ensures ReportsFor(GroupMessages(device, g, now), group) == []
  {
    hide UsableTags;
    var messages := GroupMessages(device, g, now);
    if messages != [] {
      assert messages[..1] == [messages[0]];
      assert ReportsFor(messages[..1], group) == [];
    }
  }

  lemma ReportsForLonger(messages: seq<Message>, report: Message, group: Option<string>)
    requires report.StatusReport? && report.origin != WithData
    ensures ReportsFor(messages + [report], group)
         == ReportsFor(messages, group) + if report.group == group then [report] else []
  {
    assert (messages + [report])[..|messages|] == messages;
  }

  lemma GroupReportFields(device: DeviceSpec, g: Entry<Option<string>, seq<TagResult>>, on: bool, error: Option<string>,
                          now: real, origin: Origin)
    ensures var report := GroupReport(device, g, on, error, now, origin);
      report.StatusReport? && report.origin == origin && report.group == g.key
  {}

  lemma {:induction false} OneReportPerGroup(device: DeviceSpec, groups: Groups, on: bool, error: Option<string>,
                                             now: real, origin: Origin, group: Option<string>)
    requires UniqueKeys(groups) && origin != WithData
    ensures |ReportsFor(Reports(device, groups, on, error, now, origin), group)|
      == if Lookup(groups, group).Some? then 1 else 0
    decreases groups
  {
    if groups != [] {
      hide UniqueKeys, Lookup, GroupReport;
      var n := |groups| - 1;
      assert groups == groups[..n] + [groups[n]];
      LookupLastUnique(groups[..n], groups[n]);
      LookupLonger(groups[..n], groups[n], group);
      var report := GroupReport(device, groups[n], on, error, now, origin);
      GroupReportFields(device, groups[n], on, error, now, origin);
      ReportsForLonger(Reports(device, groups[..n], on, error, now, origin), report, group);
      OneReportPerGroup(device, groups[..n], on, error, now, origin, group);
    }
  }

  lemma AnnounceCoversGroups(m: Memory, c: Config, device: DeviceSpec, now: real, origin: Origin, group: Option<string>)
    requires m.state.Some? && origin != WithData
    ensures |ReportsFor(Announce(m, c, device, now, origin).sent, group)|
         == if TagsIn(CachedTags(m), c.grouping, group) == [] then 0 else 1
  {
    hide GroupTags, TagsIn, Reports, ReportsFor, Lookup, UniqueKeys;
    if m.snapshot.Some? {
      var state := m.state.value;
      var on := state.status == GoodStatus;
      GroupsAreFilters(m.snapshot.value.tags, c.grouping, group);
      OneReportPerGroup(device, GroupTags(m.snapshot.value.tags, c.grouping), on, if on then None
        else Some(state.reason), now, origin, group);
    } else {
      NothingReported(group);
      NothingCached(c.grouping, group);
    }
  }

  lemma NothingReported(group: Option<string>)
    ensures ReportsFor([], group) == []
  {}

  lemma NothingCached(grouping: Grouping, group: Option<string>)
    ensures TagsIn([], grouping, group) == []
  {}

  /** A step that publishes a status reports it once for every group of cached tags; another step reports it for
      none. */
  lemma StepReportsEachGroupOnce(m: Memory, c: Config, e: Event, key: DeviceKey, group: Option<string>)
    requires Homely(m, key)
    ensures var effect := DeviceStep(m, c, e, key);
      |effect.log| <= 1 &&
      |ReportsFor(effect.sent, group)| ==
        if effect.log == [] || TagsIn(CachedTags(effect.memory), c.grouping, group) == [] then 0 else 1
  {
    hide StatusStep, DeviceStep, TagsIn, ReportsFor, GroupsMessages, GroupTags, PublishesChange, Reports;
    var status := StatusStep(m, c, e, key);
    var data := if e.Ticked? then DataMessages(status.memory, c, e.at) else [];
    StepPublishes(m, c, e, key);
    StepIsStatusThenData(m, c, e, key);
    ReportsForJoined(status.sent, data, group);
    NothingReported(group);
    if e.Ticked? && status.memory.snapshot.Some? {
      var s := status.memory.snapshot.value;
      DataIsNoReport(s.device, GroupTags(s.tags, c.grouping), e.at, group);
    }
    if status.log != [] {
      var before: Memory, device: DeviceSpec, origin: Origin :|
        before.state.Some? && KeyOf(device) == key && origin != WithData &&
          status == Announce(before, c, device, e.at, origin);
      AnnounceCoversGroups(before, c, device, e.at, origin, group);
    }
  }
}
