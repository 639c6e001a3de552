/** Safety of everything that is published, over every run of results and ticks. */
module PublisherTheorems {
  import opened Models
  import opened Dict
  import opened PublisherModel
  import opened PublisherDevices
  import opened PublisherRuns
  import opened PublisherSafety
  import Lists

  // ----- Every message is sent by some step -----

  ghost predicate SentBy(c: Config, events: seq<Event>, key: DeviceKey, i: nat, msg: Message)
    requires i < |events|
  {
    msg in DeviceStep(Alone(c, events[..i], key).memory, c, events[i], key).sent
  }

  lemma {:induction false} SentSometime(c: Config, events: seq<Event>, key: DeviceKey, msg: Message) returns (i: nat)
    requires msg in Alone(c, events, key).sent
    ensures i < |events| && SentBy(c, events, key, i, msg)
    decreases events
  {
    hide DeviceStep;
    var n := |events| - 1;
    var front := events[..n];
    if SentBy(c, events, key, n, msg) {
      i := n;
    } else {
      i := SentSometime(c, front, key, msg);
      assert front[..i] == events[..i];
    }
  }

  lemma {:induction false} MessageOfItsDevice(messages: seq<Message>, msg: Message)
    requires msg in messages
    ensures msg in MessagesOf(messages, KeyOf(msg.device))
    decreases messages
  {
    var n := |messages| - 1;
    assert messages == messages[..n] + [messages[n]];
    if msg != messages[n] { MessageOfItsDevice(messages[..n], msg); }
  }

  /** A message of the publisher is sent at some event, by the step of its own device. */
  lemma SentAt(c: Config, events: seq<Event>, msg: Message) returns (i: nat)
    requires msg in Run(c, events).sent
    ensures i < |events| && SentBy(c, events, KeyOf(msg.device), i, msg)
  {
    hide Run, Alone, MessagesOf, PublicationsOf, SentBy;
    MessageOfItsDevice(Run(c, events).sent, msg);
    DevicesAreIndependent(c, events, KeyOf(msg.device));
    i := SentSometime(c, events, KeyOf(msg.device), msg);
  }

  lemma AloneIsHomely(c: Config, events: seq<Event>, key: DeviceKey)
    ensures Homely(Alone(c, events, key).memory, key)
  {
    hide Run, Alone, MessagesOf, PublicationsOf, MemoryOf;
    DevicesAreIndependent(c, events, key);
    MemoryIsHomely(Run(c, events), key);
  }

  lemma AloneLonger(c: Config, events: seq<Event>, i: nat, key: DeviceKey)
    requires i < |events|
    ensures Alone(c, events[..i + 1], key)
         == Then(Alone(c, events[..i], key), DeviceStep(Alone(c, events[..i], key).memory, c, events[i], key))
  {
    hide DeviceStep;
    assert events[..i + 1][..i] == events[..i];
  }

  // ----- Measurements -----

  /** When the i-th event sends a measurement, it is a tick, the device's latest result was good and still fresh. */
  ghost predicate FreshSource(c: Config, events: seq<Event>, i: nat, msg: Message) {
    && i < |events|
    && events[i] == Ticked(msg.at)
    && exists n: nat ::
         && LastResult(events[..i], n, KeyOf(msg.device))
         && !Present(events[n].result.error)
         && !AllFaulty(events[n].result.tags)
         && events[n].result.device == msg.device
         && (c.staleTimeout > 0.0 ==> msg.at - events[n].at < c.staleTimeout)
  }

  /** The tags of a measurement are the latest that the device delivered under their keys, and usable. */
  ghost predicate CurrentTags(c: Config, history: seq<Event>, msg: Message)
    requires msg.Measurement?
  {
    var cached := StoreTags([], Delivered(history, KeyOf(msg.device)));
    && msg.tags != []
    && forall tag :: tag in msg.tags ==>
      Usable(tag) && c.grouping(tag) == msg.group && Lookup(cached, TagKey(tag)) == Some(tag)
  }

  lemma StatusStepSendsNoMeasurement(m: Memory, c: Config, e: Event, key: DeviceKey, msg: Message)
    requires Homely(m, key) && msg in StatusStep(m, c, e, key).sent
    ensures msg.StatusReport? && msg.at == e.at && Truthful(StatusStep(m, c, e, key).memory, c, msg)
  {
    hide StatusStep, Announce, Truthful, Homely, PublishesChange;
    StepPublishes(m, c, e, key);
    var status := StatusStep(m, c, e, key);
    var before: Memory, device: DeviceSpec, origin: Origin :|
      before.state.Some? && KeyOf(device) == key && origin != WithData &&
        status == Announce(before, c, device, e.at, origin);
    AnnounceIsTruthful(before, c, device, e.at, origin, msg);
  }

  lemma MeasurementOfTick(m: Memory, c: Config, e: Event, key: DeviceKey, msg: Message)
    requires Homely(m, key) && msg in DeviceStep(m, c, e, key).sent && msg.Measurement?
    ensures e.Ticked? && msg in DataMessages(DeviceStep(m, c, e, key).memory, c, e.at)
  {
    hide StatusStep, DeviceStep, DataMessages, Homely, Truthful;
    StepIsStatusThenData(m, c, e, key);
    if msg in StatusStep(m, c, e, key).sent { StatusStepSendsNoMeasurement(m, c, e, key, msg); }
  }

  lemma TagsAreCurrent(c: Config, history: seq<Event>, m: Memory, msg: Message)
    requires msg.Measurement? && msg.tags != []
    requires CachedTags(m) == StoreTags([], Delivered(history, KeyOf(msg.device)))
    requires msg.tags == UsableTags(TagsIn(CachedTags(m), c.grouping, msg.group))
    ensures CurrentTags(c, history, msg)
  {
    hide Delivered, TagsIn, UsableTags, StoreTags, Lookup, UniqueKeys;
    StoreTagsKeyed(Delivered(history, KeyOf(msg.device)));
    forall tag | tag in msg.tags
      ensures Usable(tag) && c.grouping(tag) == msg.group && Lookup(CachedTags(m), TagKey(tag)) == Some(tag)
    {
      UsableTagsMembers(TagsIn(CachedTags(m), c.grouping, msg.group), tag);
      TagsInMembers(CachedTags(m), c.grouping, msg.group, tag);
      var e :| e in CachedTags(m) && e.value == tag;
      LookupMember(CachedTags(m), e);
    }
  }

  lemma TickKeepsCache(m: Memory, c: Config, now: real, key: DeviceKey)
    ensures CachedTags(DeviceStep(m, c, Ticked(now), key).memory) == CachedTags(m)
    ensures DeviceStep(m, c, Ticked(now), key).memory.snapshot == m.snapshot
  {
    hide CheckAndSend;
    TickView(m, c, now);
  }

  lemma LastDataResult(events: seq<Event>, key: DeviceKey) returns (n: nat)
    requires exists k: nat :: LastData(events, k, key)
    ensures LastResult(events, n, key)
  {
    var k: nat :| LastData(events, k, key);
    assert !NoResult(events, key) by {
      assert IsResultOf(events[k], key);
    }
    LastResultExists(events, key);
    n :| LastResult(events, n, key);
  }

  /** A tick that leaves the device in good status comes less than the timeout after its latest, good result. */
  lemma GoodMeansFresh(c: Config, history: seq<Event>, now: real, key: DeviceKey, n: nat)
    requires LastResult(history, n, key)
    requires StatusOf(Alone(c, history + [Ticked(now)], key).memory) == Some(GoodStatus)
    ensures !Present(history[n].result.error) && !AllFaulty(history[n].result.tags)
    ensures c.staleTimeout > 0.0 ==> now - history[n].at < c.staleTimeout
  {
    hide Alone, TimedOut, SnapshotReflects, AllFaulty;
    var longer := history + [Ticked(now)];
    MemoryReflectsHistory(c, longer, key);
    LastResultLonger(history, Ticked(now), key, n);
    TimedOutLonger(c, history, Ticked(now), n);
    assert longer[n] == history[n];
  }

  /** With whatever results and ticks, stale or faulty data is never sent. */
  lemma MeasurementsAreFresh(c: Config, events: seq<Event>, msg: Message) returns (i: nat)
    requires msg in Run(c, events).sent && msg.Measurement?
    ensures FreshSource(c, events, i, msg) && CurrentTags(c, events[..i], msg)
  {
    hide Run, Alone, DeviceStep, DataMessages, TagsIn, UsableTags, StoreTags, Delivered, CurrentTags, Homely;
    var key := KeyOf(msg.device);
    i := SentAt(c, events, msg);
    var history := events[..i];
    var m := Alone(c, history, key).memory;
    AloneIsHomely(c, history, key);
    MeasurementOfTick(m, c, events[i], key, msg);
    var now := events[i].at;
    var after := DeviceStep(m, c, Ticked(now), key).memory;
    MeasurementHoldsUsable(after, c, now, msg);
    TickKeepsCache(m, c, now, key);
    MemoryReflectsHistory(c, history, key);
    TagsAreCurrent(c, history, m, msg);
    FreshSourceFound(c, events, i, msg);
  }

  lemma FreshSourceFound(c: Config, events: seq<Event>, i: nat, msg: Message)
    requires i < |events| && events[i] == Ticked(msg.at)
    requires var m := Alone(c, events[..i], KeyOf(msg.device)).memory;
      var after := DeviceStep(m, c, events[i], KeyOf(msg.device)).memory;
      m.snapshot.Some? && m.snapshot.value.device == msg.device && StatusOf(after) == Some(GoodStatus)
    ensures FreshSource(c, events, i, msg)
  {
    hide Alone, DeviceStep, StoreTags, Delivered, StatusReflects;
    var history, key := events[..i], KeyOf(msg.device);
    MemoryReflectsHistory(c, history, key);
    var n := LastDataResult(history, key);
    AloneLonger(c, events, i, key);
    assert events[..i + 1] == history + [Ticked(msg.at)];
    GoodMeansFresh(c, history, msg.at, key, n);
    LatestDataIsLatestResult(history, n, key);
  }

  // ----- Which of the delivered tags go out -----

  function WithKey(tagKey: string): TagResult -> bool {
    (tag: TagResult) => TagKey(tag) == tagKey
  }

  lemma {:induction false} StoredIsLast(tags: seq<TagResult>, tagKey: string)
    ensures Lookup(StoreTags([], tags), tagKey) == Lists.Last(tags, WithKey(tagKey))
    decreases tags
  {
    if tags != [] {
      hide TagKey, Store, Lookup;
      var n := |tags| - 1;
      StoredIsLast(tags[..n], tagKey);
      LookupStore(StoreTags([], tags[..n]), TagKey(tags[n]), tags[n], tagKey);
    } else {
      assert Lookup<string, TagResult>([], tagKey) == None;
    }
  }

  /** The tag is in a measurement of its own group. */
  ghost predicate GoesOut(c: Config, sent: seq<Message>, tag: TagResult) {
    exists msg :: msg in sent && msg.Measurement? && msg.group == c.grouping(tag) && tag in msg.tags
  }

  lemma CachedGoesOut(m: Memory, c: Config, now: real, tag: TagResult)
    requires StatusOf(m) == Some(GoodStatus) && Usable(tag) && Lookup(CachedTags(m), TagKey(tag)) == Some(tag)
    ensures GoesOut(c, DataMessages(m, c, now), tag)
  {
    hide DataMessages, TagsIn, UsableTags, Lookup, TagKey;
    LookupFound(CachedTags(m), TagKey(tag));
    UsableTagsAreSent(m, c, now, tag);
  }

  lemma OutWasCached(m: Memory, c: Config, now: real, delivered: seq<TagResult>, tag: TagResult)
    requires CachedTags(m) == StoreTags([], delivered) && GoesOut(c, DataMessages(m, c, now), tag)
    ensures Lookup(CachedTags(m), TagKey(tag)) == Some(tag)
  {
    hide DataMessages, TagsIn, UsableTags, Lookup, TagKey, StoreTags, UniqueKeys;
    var msg :| msg in DataMessages(m, c, now) && msg.Measurement? && msg.group == c.grouping(tag) && tag in msg.tags;
    MeasurementHoldsUsable(m, c, now, msg);
    UsableTagsMembers(TagsIn(CachedTags(m), c.grouping, msg.group), tag);
    TagsInMembers(CachedTags(m), c.grouping, msg.group, tag);
    var e :| e in CachedTags(m) && e.value == tag;
    StoreTagsKeyed(delivered);
    LookupMember(CachedTags(m), e);
  }

  lemma TickSends(m: Memory, c: Config, now: real, key: DeviceKey, tag: TagResult)
    requires Homely(m, key)
    ensures GoesOut(c, DeviceStep(m, c, Ticked(now), key).sent, tag)
       <==> GoesOut(c, DataMessages(DeviceStep(m, c, Ticked(now), key).memory, c, now), tag)
  {
    hide StatusStep, DeviceStep, DataMessages, Homely;
    StepIsStatusThenData(m, c, Ticked(now), key);
    var effect := DeviceStep(m, c, Ticked(now), key);
    if GoesOut(c, effect.sent, tag) {
      var msg :| msg in effect.sent && msg.Measurement? && msg.group == c.grouping(tag) && tag in msg.tags;
      MeasurementOfTick(m, c, Ticked(now), key, msg);
    }
  }

  /** Of the usable tags that a device has delivered so far, a tick that leaves it in good status sends exactly those
      after which no other has come under the same cache key. */
  lemma DeliveredTagsGoOutExactly(c: Config, events: seq<Event>, now: real, key: DeviceKey, tag: TagResult)
    requires StatusOf(MemoryOf(Run(c, events + [Ticked(now)]), key)) == Some(GoodStatus)
    requires Usable(tag) && tag in Delivered(events, key)
    ensures GoesOut(c, SentAbout(c, events, Ticked(now), key), tag)
       <==> Lists.Last(Delivered(events, key), WithKey(TagKey(tag))) == Some(tag)
  {
    hide Run, Alone, MessagesOf, PublicationsOf, MemoryOf, DeviceStep, DataMessages, Delivered, StoreTags, Lookup,
      TagKey, Usable, GoesOut, Homely, StatusReflects;
    var m := MemoryOf(Run(c, events), key);
    DevicesAreIndependent(c, events, key);
    MemoryIsHomely(Run(c, events), key);
    MemoryReflectsHistory(c, events, key);
    SentAboutIsTheDifference(c, events, Ticked(now), key);
    TickKeepsCache(m, c, now, key);
    TickSends(m, c, now, key, tag);
    StoredIsLast(Delivered(events, key), TagKey(tag));
    var after := DeviceStep(m, c, Ticked(now), key).memory;
    if Lookup(CachedTags(after), TagKey(tag)) == Some(tag) {
      CachedGoesOut(after, c, now, tag);
    } else if GoesOut(c, DataMessages(after, c, now), tag) {
      OutWasCached(after, c, now, Delivered(events, key), tag);
    }
  }

  // ----- Status reports -----

  /** Every status message says of every sensor of its group what held right after the event that sent it. */
  lemma ReportsAreTruthful(c: Config, events: seq<Event>, msg: Message) returns (i: nat)
    requires msg in Run(c, events).sent && msg.StatusReport?
    ensures i < |events| && msg.at == events[i].at
    ensures Truthful(MemoryOf(Run(c, events[..i + 1]), KeyOf(msg.device)), c, msg)
  {
    hide Run, Alone, DeviceStep, DataMessages, Truthful, Homely, StatusStep, MemoryOf, MessagesOf, PublicationsOf;
    var key := KeyOf(msg.device);
    i := SentAt(c, events, msg);
    var m := Alone(c, events[..i], key).memory;
    AloneIsHomely(c, events[..i], key);
    AloneLonger(c, events, i, key);
    DevicesAreIndependent(c, events[..i + 1], key);
    StepIsStatusThenData(m, c, events[i], key);
    var status := StatusStep(m, c, events[i], key);
    if msg in status.sent {
      StatusStepSendsNoMeasurement(m, c, events[i], key, msg);
    } else {
      DataReportsAreTruthful(status.memory, c, events[i].at, msg);
    }
  }

  // ----- Publications over time -----

  /** Equal neighbours are repeats, an interval or more apart; different ones are changes. */
  ghost predicate Timely(c: Config, log: seq<Publication>) {
    forall i :: 0 < i < |log| ==>
      if log[i].status == log[i - 1].status
      then log[i].origin == OnInterval && c.interval > 0.0 && log[i].at - log[i - 1].at >= c.interval
      else log[i].origin == OnChange
  }

  /** The latest publication tells the device's status; only a device that has been good all along has none. */
  ghost predicate UpToDate(m: Memory, log: seq<Publication>) {
    if log == [] then
      m.state.Some? ==> m.state.value.status == GoodStatus && m.state.value.lastPublished == None
    else
      m.state.Some? && m.state.value.status == log[|log| - 1].status &&
        m.state.value.lastPublished == Some(log[|log| - 1].at)
  }

  lemma PublishingKeepsTimely(before: Memory, effect: Effect, c: Config, key: DeviceKey, prompted: bool, now: real,
                              log: seq<Publication>)
    requires PublishesChange(before, effect, c, key, prompted, now)
    requires Timely(c, log) && UpToDate(before, log)
    ensures Timely(c, log + effect.log) && UpToDate(effect.memory, log + effect.log)
  {
    if effect.log == [] {
      assert log + effect.log == log;
    } else {
      var p := effect.log[0];
      assert effect.log == [p];
      assert forall i :: 0 <= i < |log| ==> (log + [p])[i] == log[i];
    }
  }

  lemma {:induction false} AlonePublishesTimely(c: Config, events: seq<Event>, key: DeviceKey)
    ensures var effect := Alone(c, events, key);
      Timely(c, effect.log) && UpToDate(effect.memory, effect.log)
    decreases events
  {
    if events != [] {
      hide DeviceStep, Timely, UpToDate, PublishesChange, AnnouncesOnce, StatusStep, Homely;
      var n := |events| - 1;
      var before := Alone(c, events[..n], key);
      AlonePublishesTimely(c, events[..n], key);
      AloneIsHomely(c, events[..n], key);
      StepPublishes(before.memory, c, events[n], key);
      StepIsStatusThenData(before.memory, c, events[n], key);
      var status := StatusStep(before.memory, c, events[n], key);
      PublishingKeepsTimely(before.memory, status, c, key, Prompted(before.memory, c, events[n], key), events[n].at,
        before.log);
      UpToDateDependsOnMemory(status.memory, DeviceStep(before.memory, c, events[n], key).memory,
        before.log + status.log);
    }
  }

  lemma UpToDateDependsOnMemory(m: Memory, same: Memory, log: seq<Publication>)
    requires m == same && UpToDate(m, log)
    ensures UpToDate(same, log)
  {}

  /** No change of a device's status goes unpublished, and nothing is repeated before the interval is over. */
  lemma PublicationsTellTheStatus(c: Config, events: seq<Event>, key: DeviceKey)
    ensures var log := PublicationsOf(Run(c, events).log, key);
      var status := StatusOf(MemoryOf(Run(c, events), key));
      Timely(c, log) &&
      if log == [] then status == None || status == Some(GoodStatus) else status == Some(log[|log| - 1].status)
  {
    hide Run, Alone, MessagesOf, PublicationsOf, MemoryOf, Timely;
    DevicesAreIndependent(c, events, key);
    AlonePublishesTimely(c, events, key);
  }

  /** What the publisher sends about a device at one more event. */
  function SentAbout(c: Config, events: seq<Event>, e: Event, key: DeviceKey): seq<Message> {
    DeviceStep(MemoryOf(Run(c, events), key), c, e, key).sent
  }

  lemma SentAboutIsTheDifference(c: Config, events: seq<Event>, e: Event, key: DeviceKey)
    ensures MessagesOf(Run(c, events + [e]).sent, key)
      == MessagesOf(Run(c, events).sent, key) + SentAbout(c, events, e, key)
    ensures MemoryOf(Run(c, events + [e]), key) == DeviceStep(MemoryOf(Run(c, events), key), c, e, key).memory
    ensures PublicationsOf(Run(c, events + [e]).log, key)
         == PublicationsOf(Run(c, events).log, key) + DeviceStep(MemoryOf(Run(c, events), key), c, e, key).log
  {
    hide Run, MessagesOf, PublicationsOf, MemoryOf, DeviceStep;
    DevicesAreIndependent(c, events, key);
    DevicesAreIndependent(c, events + [e], key);
    assert (events + [e])[..|events|] == events;
  }

  /** Every change of a device's status, except its first to good, is reported once for each group of its cached tags;
      an unchanged status is reported at most once for each group, and only when the interval is over. */
  lemma ChangesAreReportedPerGroup(c: Config, events: seq<Event>, e: Event, key: DeviceKey, group: Option<string>)
    ensures var before, after := MemoryOf(Run(c, events), key), MemoryOf(Run(c, events + [e]), key);
      var repeated := Prompted(before, c, e, key) && before.state.Some? && Due(before.state.value, c, e.at);
      var told :=
        if StatusOf(before) == StatusOf(after) then repeated
        else StatusOf(before).Some? || StatusOf(after) != Some(GoodStatus);
      |ReportsFor(SentAbout(c, events, e, key), group)| ==
        if told && TagsIn(CachedTags(after), c.grouping, group) != [] then 1 else 0
  {
    hide Run, MessagesOf, PublicationsOf, MemoryOf, DeviceStep, StatusStep, TagsIn, ReportsFor, Homely, Due, Prompted;
    var m := MemoryOf(Run(c, events), key);
    DevicesAreIndependent(c, events, key);
    MemoryIsHomely(Run(c, events), key);
    SentAboutIsTheDifference(c, events, e, key);
    StepPublishes(m, c, e, key);
    StepIsStatusThenData(m, c, e, key);
    StepReportsEachGroupOnce(m, c, e, key, group);
  }
}
