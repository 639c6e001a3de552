/** What the publisher's messages say, told in the results that devices delivered. */
module PublisherReports {
  import opened Models
  import opened Dict
  import opened PublisherModel
  import opened PublisherDevices
  import opened PublisherRuns
  import opened PublisherSafety
  import opened PublisherTheorems
  import Lists

  // ----- Devices and tags by their fields -----

  /** Devices are told apart by their ids, or by their names if they have none. */
  lemma SameDevice(a: DeviceSpec, b: DeviceSpec)
    ensures KeyOf(a) == KeyOf(b) <==> (a.id == b.id && (a.id == None ==> a.name == b.name))
  {}

  predicate HasText(text: Option<string>) {
    text.Some? && text.value != ""
  }

  lemma {:induction false} DigitsAreDigits(n: nat)
    ensures Digits(n) != [] && forall i :: 0 <= i < |Digits(n)| ==> '0' <= Digits(n)[i] <= '9'
    decreases n
  {
    if n >= 10 { DigitsAreDigits(n / 10); }
  }

  lemma LastDigit(n: nat)
    ensures Digits(n)[|Digits(n)| - 1] as int == '0' as int + n % 10
    ensures |Digits(n)| == 1 <==> n < 10
    ensures n >= 10 ==> Digits(n)[..|Digits(n)| - 1] == Digits(n / 10)
  {
    if n >= 10 { DigitsAreDigits(n / 10); }
  }

  lemma {:induction false} DigitsDiffer(m: nat, n: nat)
    requires Digits(m) == Digits(n)
    ensures m == n
    decreases m
  {
    LastDigit(m);
    LastDigit(n);
    if m >= 10 { DigitsDiffer(m / 10, n / 10); }
  }

  lemma Sign(n: int)
    ensures Decimal(n) != "" && (Decimal(n)[0] == '-' <==> n < 0) && ':' !in Decimal(n)
    ensures n < 0 ==> Decimal(n)[1..] == Digits(-n)
  {
    if n < 0 { DigitsAreDigits(-n); } else { DigitsAreDigits(n); }
  }

  lemma DecimalsDiffer(m: int, n: int)
    requires Decimal(m) == Decimal(n)
    ensures m == n
  {
    Sign(m);
    Sign(n);
    if m < 0 { DigitsDiffer(-m, -n); } else { DigitsDiffer(m, n); }
  }

  lemma NoLaterColon(a: string, m: string)
    requires ':' !in m
    ensures forall j :: |a| < j < |a + ":" + m| ==> (a + ":" + m)[j] != ':'
  {
    var text := a + ":" + m;
    forall j | |a| < j < |text|
      ensures text[j] != ':'
    {
      assert text[j] == m[j - |a| - 1];
    }
  }

  lemma LastColon(a: string, b: string, m: string, n: string)
    requires a + ":" + m == b + ":" + n && ':' !in m && ':' !in n
    ensures a == b && m == n
  {
    var text := a + ":" + m;
    assert text[|a|] == ':' && text[|b|] == ':';
    NoLaterColon(a, m);
    NoLaterColon(b, n);
    assert |a| == |b|;
    assert a == text[..|a|] && b == text[..|b|] && m == text[|a| + 1..] && n == text[|b| + 1..];
  }

  /** Tags share a place in the cache exactly if they have the same node id; or, if they have none, the same name and
      address. */
  lemma SameCachePlace(a: TagResult, b: TagResult)
    requires HasText(a.nodeId) == HasText(b.nodeId)
    ensures TagKey(a) == TagKey(b) <==>
      if HasText(a.nodeId) then a.nodeId == b.nodeId else a.name == b.name && a.address == b.address
  {
    if !HasText(a.nodeId) {
      Sign(a.address);
      Sign(b.address);
      if TagKey(a) == TagKey(b) {
        LastColon(a.name, b.name, Decimal(a.address), Decimal(b.address));
        DecimalsDiffer(a.address, b.address);
      }
    }
  }

  // ----- Status and complaint of a device, by its latest result -----

  /** The tag was read without complaint. */
  predicate ReadWell(tag: TagResult) {
    tag.quality == Good && !HasText(tag.error)
  }

  /** The result carries an error, or tags and none that was read well, or nothing to complain of. */
  function ComplaintOf(r: ReadResult): Option<string> {
    if HasText(r.error) then r.error
    else if r.tags != [] && forall i :: 0 <= i < |r.tags| ==> !ReadWell(r.tags[i]) then Some("tag read failed")
    else None
  }

  /** Some tick since the result came the timeout or more after it. */
  ghost predicate Silenced(c: Config, events: seq<Event>, n: nat)
    requires n < |events|
  {
    c.staleTimeout > 0.0 &&
    exists m :: n < m < |events| && events[m].Ticked? && events[m].at - events[n].at >= c.staleTimeout
  }

  ghost function ExpectedComplaint(c: Config, events: seq<Event>, n: nat): Option<string>
    requires n < |events| && events[n].Received?
  {
    var own := ComplaintOf(events[n].result);
    if own.Some? then own else if Silenced(c, events, n) then Some("message timeout") else None
  }

  ghost function ExpectedStatus(c: Config, events: seq<Event>, n: nat): Status
    requires n < |events| && events[n].Received?
  {
    var r := events[n].result;
    if HasText(r.error) then Disconnected
    else if ComplaintOf(r).Some? then BadStatus
    else if Silenced(c, events, n) then Stale
    else GoodStatus
  }

  /** The n-th event is the latest result of the device. */
  ghost predicate IsLatest(events: seq<Event>, n: nat, device: DeviceSpec) {
    n < |events| && events[n].Received? && KeyOf(events[n].result.device) == KeyOf(device) &&
    forall m :: n < m < |events| && events[m].Received? ==> KeyOf(events[m].result.device) != KeyOf(device)
  }

  lemma ComplaintByTags(r: ReadResult)
    ensures ComplaintOf(r) ==
      if Present(r.error) then r.error else if AllFaulty(r.tags) then Some("tag read failed") else None
  {
    if !Present(r.error) && r.tags != [] {
      forall i | 0 <= i < |r.tags|
        ensures ReadWell(r.tags[i]) == Usable(r.tags[i])
      {
      }
      if AllFaulty(r.tags) {
        forall i | 0 <= i < |r.tags|
          ensures !ReadWell(r.tags[i])
        {
          assert r.tags[i] in r.tags;
        }
      }
    }
  }

  // ----- The reason that the publisher holds is that complaint -----

  ghost predicate ReasonReflects(m: Memory, c: Config, events: seq<Event>, key: DeviceKey) {
    forall n: nat :: LastResult(events, n, key) ==> Complaint(m) == ExpectedComplaint(c, events, n)
  }

  lemma ReceiveComplains(m: Memory, c: Config, result: ReadResult, now: real)
    ensures Complaint(Receive(m, c, result, now).memory) == ComplaintOf(result)
  {
    hide StoreTags, Reports, GroupTags, ResultStatus, ComplaintOf;
    ComplaintByTags(result);
    StatusOfTags(result.tags);
  }

  lemma TickComplains(m: Memory, c: Config, now: real)
    ensures var after := CheckAndSend(m, c, now).memory;
      Complaint(after) ==
        if c.staleTimeout > 0.0 && m.snapshot.Some? && Expired(c, m.snapshot.value, now) &&
          StatusOf(m) == Some(GoodStatus)
        then Some("message timeout") else Complaint(m)
  {
    hide Reports, GroupTags, DataMessages;
  }

  lemma SilencedIsTimedOut(c: Config, events: seq<Event>, n: nat)
    requires n < |events|
    ensures Silenced(c, events, n) <==> TimedOut(c, events, n)
  {}

  lemma ResultSetsReason(m: Memory, c: Config, events: seq<Event>, e: Event, key: DeviceKey)
    requires ReasonReflects(m, c, events, key) && e.Received?
    ensures ReasonReflects(DeviceStep(m, c, e, key).memory, c, events + [e], key)
  {
    hide Receive, ComplaintOf, Complaint, Silenced;
    var longer := events + [e];
    forall n: nat | LastResult(longer, n, key)
      ensures Complaint(DeviceStep(m, c, e, key).memory) == ExpectedComplaint(c, longer, n)
    {
      LastResultLonger(events, e, key, n);
      SilencedIsTimedOut(c, longer, n);
      if KeyOf(e.result.device) == key {
        ReceiveComplains(m, c, e.result, e.at);
      } else {
        TimedOutLonger(c, events, e, n);
        SilencedIsTimedOut(c, events, n);
      }
    }
  }

  lemma TickSetsReason(m: Memory, c: Config, events: seq<Event>, at: real, key: DeviceKey)
    requires ReasonReflects(m, c, events, key)
    requires StatusReflects(m, c, events, key) && SnapshotReflects(m, events, key)
    ensures ReasonReflects(DeviceStep(m, c, Ticked(at), key).memory, c, events + [Ticked(at)], key)
  {
    hide CheckAndSend, AllFaulty, Delivered, ComplaintOf, Complaint, Silenced, TimedOut, NoResult, StoreTags;
    var e := Ticked(at);
    TickComplains(m, c, at);
    forall n: nat | LastResult(events + [e], n, key)
      ensures Complaint(DeviceStep(m, c, e, key).memory) == ExpectedComplaint(c, events + [e], n)
    {
      LastResultLonger(events, e, key, n);
      TimedOutLonger(c, events, e, n);
      SilencedIsTimedOut(c, events, n);
      SilencedIsTimedOut(c, events + [e], n);
      ComplaintByTags(events[n].result);
      if !Present(events[n].result.error) { LatestDataIsLatestResult(events, n, key); }
      GoodHasNoComplaint(m);
    }
  }

  lemma GoodHasNoComplaint(m: Memory)
    ensures StatusOf(m) == Some(GoodStatus) ==> Complaint(m) == None
  {}

  lemma {:induction false} MemoryReflectsReason(c: Config, events: seq<Event>, key: DeviceKey)
    ensures ReasonReflects(Alone(c, events, key).memory, c, events, key)
    decreases events
  {
    if events != [] {
      hide ReasonReflects, StatusReflects, SnapshotReflects, DeviceStep;
      var front, e := events[..|events| - 1], events[|events| - 1];
      assert events == front + [e];
      MemoryReflectsReason(c, front, key);
      MemoryReflectsHistory(c, front, key);
      var m := Alone(c, front, key).memory;
      match e
      case Received(_, _) => ResultSetsReason(m, c, front, e, key);
      case Ticked(at) => TickSetsReason(m, c, front, at, key);
    }
  }

  /** After any run, the status and the reason held for a device are those of its latest result, as the ticks since have
      aged it. */
  lemma StatusAndReasonByResult(c: Config, events: seq<Event>, device: DeviceSpec, n: nat)
    requires IsLatest(events, n, device)
    ensures StatusOf(MemoryOf(Run(c, events), KeyOf(device))) == Some(ExpectedStatus(c, events, n))
    ensures Complaint(MemoryOf(Run(c, events), KeyOf(device))) == ExpectedComplaint(c, events, n)
  {
    hide Run, Alone, MemoryOf, MessagesOf, PublicationsOf, Complaint, ComplaintOf, Silenced, TimedOut, AllFaulty,
      StoreTags, Delivered;
    var key := KeyOf(device);
    assert LastResult(events, n, key);
    DevicesAreIndependent(c, events, key);
    MemoryReflectsReason(c, events, key);
    StatusMeetsHistory(c, events, key);
    ComplaintByTags(events[n].result);
    SilencedIsTimedOut(c, events, n);
  }

  // ----- Messages -----

  /** A sensor is on exactly if the device is good and the tag was read well; it shows the tag's own error, or else what
      there is to complain of about the device. */
  ghost predicate Tells(sensor: Sensor, tag: TagResult, status: Status, complaint: Option<string>) {
    && sensor.code == tag.name && sensor.lastSeen == tag.timestamp
    && (sensor.on <==> status == GoodStatus && ReadWell(tag))
    && (sensor.healthy <==> sensor.on)
    && sensor.error == if HasText(tag.error) then tag.error else complaint
  }

  /** In any run, a status message of a device tells of each of its sensors what the device's latest result says. */
  lemma ReportsTellResults(c: Config, events: seq<Event>, msg: Message) returns (i: nat, n: nat)
    requires msg in Run(c, events).sent && msg.StatusReport?
    ensures i < |events| && msg.at == events[i].at && IsLatest(events[..i + 1], n, msg.device)
    ensures var history := events[..i + 1];
      var tags := TagsIn(StoreTags([], Delivered(history, KeyOf(msg.device))), c.grouping, msg.group);
      tags != [] && |msg.sensors| == |tags| &&
      forall k :: 0 <= k < |tags| ==>
        Tells(msg.sensors[k], tags[k], ExpectedStatus(c, history, n), ExpectedComplaint(c, history, n))
  {
    hide Run, MemoryOf, Complaint, ComplaintOf, Silenced, TimedOut, AllFaulty, StoreTags, Delivered, TagsIn,
      ExpectedStatus, ExpectedComplaint, ExpectedFrom;
    var key := KeyOf(msg.device);
    i := ReportsAreTruthful(c, events, msg);
    var history := events[..i + 1];
    StatusMeetsHistory(c, history, key);
    if NoResult(history, key) {
      NothingDelivered(history, key);
      NothingIn(c.grouping, msg.group);
    }
    LastResultExists(history, key);
    n :| LastResult(history, n, key);
    assert IsLatest(history, n, msg.device);
    StatusAndReasonByResult(c, history, msg.device, n);
  }

  lemma {:induction false} NothingDelivered(events: seq<Event>, key: DeviceKey)
    requires NoResult(events, key)
    ensures StoreTags([], Delivered(events, key)) == []
    decreases events
  {
    if events != [] {
      var front := events[..|events| - 1];
      assert forall m :: 0 <= m < |front| ==> front[m] == events[m];
      NothingDelivered(front, key);
      assert !IsResultOf(events[|events| - 1], key);
      assert Delivered(front, key) + [] == Delivered(front, key);
    }
  }

  lemma NothingIn(grouping: Grouping, group: Option<string>)
    ensures TagsIn([], grouping, group) == []
  {}

  /** In any run, a measurement's tags are such as were read well, in a result of its device without error, and it goes
      out at a tick. */
  lemma MeasurementsHoldGoodTags(c: Config, events: seq<Event>, msg: Message, tag: TagResult) returns (i: nat, n: nat)
    requires msg in Run(c, events).sent && msg.Measurement? && tag in msg.tags
    ensures ReadWell(tag) && c.grouping(tag) == msg.group
    ensures i < |events| && events[i] == Ticked(msg.at) && IsLatest(events[..i], n, msg.device)
    ensures ComplaintOf(events[n].result) == None
    ensures c.staleTimeout > 0.0 ==> msg.at - events[n].at < c.staleTimeout
  {
    hide Run, StoreTags, Delivered, AllFaulty, ComplaintOf, Lookup;
    i := MeasurementsAreFresh(c, events, msg);
    n :| LastResult(events[..i], n, KeyOf(msg.device)) && !Present(events[n].result.error) &&
      !AllFaulty(events[n].result.tags) && (c.staleTimeout > 0.0 ==> msg.at - events[n].at < c.staleTimeout);
    ComplaintByTags(events[n].result);
    assert IsLatest(events[..i], n, msg.device);
  }

  /** Of the tags it is made from, a measurement carries those that were read well, in order. */
  lemma {:induction false} UsableTagsAreReadWell(tags: seq<TagResult>)
    ensures UsableTags(tags) == Lists.Filter(tags, (tag: TagResult) => ReadWell(tag))
    decreases tags
  {
    if tags != [] { UsableTagsAreReadWell(tags[..|tags| - 1]); }
  }

  /** Each measurement is followed at once by the status report of its device and group. */
  ghost predicate InPairs(messages: seq<Message>) {
    |messages| % 2 == 0 &&
    forall k :: 0 <= k < |messages| && k % 2 == 0 ==>
      messages[k].Measurement? && messages[k + 1].StatusReport? &&
      messages[k].device == messages[k + 1].device && messages[k].group == messages[k + 1].group
  }

  lemma PairsJoined(a: seq<Message>, b: seq<Message>)
    requires InPairs(a) && InPairs(b)
    ensures InPairs(a + b)
  {
    var all := a + b;
    forall k | 0 <= k < |all| && k % 2 == 0
      ensures all[k].Measurement? && all[k + 1].StatusReport?
      ensures all[k].device == all[k + 1].device && all[k].group == all[k + 1].group
    {
      if k < |a| {
        assert all[k] == a[k] && all[k + 1] == a[k + 1];
      } else {
        assert all[k] == b[k - |a|] && all[k + 1] == b[k - |a| + 1];
      }
    }
  }

  lemma {:induction false} GroupsInPairs(device: DeviceSpec, groups: Groups, now: real)
    ensures InPairs(GroupsMessages(device, groups, now))
    decreases groups
  {
    if groups != [] {
      hide InPairs, GroupMessages;
      var n := |groups| - 1;
      GroupsInPairs(device, groups[..n], now);
      OneGroupInPairs(device, groups[n], now);
      PairsJoined(GroupsMessages(device, groups[..n], now), GroupMessages(device, groups[n], now));
    } else {
      NoMessages();
    }
  }

  lemma OneGroupInPairs(device: DeviceSpec, group: Entry<Option<string>, seq<TagResult>>, now: real)
    ensures InPairs(GroupMessages(device, group, now))
  {}

  lemma NoMessages()
    ensures InPairs([])
  {}

  lemma MeasurementsComeWithReports(m: Memory, c: Config, now: real)
    ensures InPairs(DataMessages(m, c, now))
  {
    hide GroupsMessages, GroupTags;
    NoMessages();
    if m.snapshot.Some? { GroupsInPairs(m.snapshot.value.device, GroupTags(m.snapshot.value.tags, c.grouping), now); }
  }

  // ----- The device that a message names -----

  lemma AnnounceNamesDevice(m: Memory, c: Config, device: DeviceSpec, now: real, origin: Origin, msg: Message)
    requires msg in Announce(m, c, device, now, origin).sent
    ensures msg.device == device
  {
    hide GroupTags, Reports;
    var groups := GroupTags(m.snapshot.value.tags, c.grouping);
    var on := m.state.value.status == GoodStatus;
    ReportsMembers(device, groups, on, if on then None else Some(m.state.value.reason), now, origin, msg);
  }

  lemma SetStatusNamesDevice(m: Memory, c: Config, device: DeviceSpec, status: Status, reason: string, now: real,
                             received: Option<real>, source: Option<real>, msg: Message)
    requires msg in SetStatus(m, c, device, status, reason, now, received, source).sent
    ensures msg.device == device
  {
    hide Announce;
    if StatusOf(m) == Some(status) {
      var kept := m.state.value.(reason := reason, lastReceived := received, lastSource := source);
      AnnounceNamesDevice(m.(state := Some(kept)), c, device, now, OnInterval, msg);
    } else {
      var changed := m.(state := Some(DeviceState(device, status, reason, now, None, received, source)));
      AnnounceNamesDevice(changed, c, device, now, OnChange, msg);
    }
  }

  lemma DataNamesDevice(m: Memory, c: Config, now: real, msg: Message)
    requires msg in DataMessages(m, c, now)
    ensures m.snapshot.Some? && msg.device == m.snapshot.value.device
  {
    hide GroupsMessages, GroupTags;
    var s := m.snapshot.value;
    GroupsMessagesMembers(s.device, GroupTags(s.tags, c.grouping), now, msg);
  }

  lemma StepNamesDevice(m: Memory, c: Config, e: Event, key: DeviceKey, msg: Message)
    requires msg in DeviceStep(m, c, e, key).sent
    ensures if e.Received? then msg.device == e.result.device
      else m.snapshot.Some? && msg.device == m.snapshot.value.device
  {
    hide SetStatus, Announce, DataMessages, StoreTags, ResultStatus, ReasonOf;
    match e
    case Received(result, at) =>
      if Present(result.error) {
        SetStatusNamesDevice(m, c, result.device, Disconnected, result.error.value, at, None, None, msg);
      } else {
        var snapshot := Snapshot(result.device, StoreTags(CachedTags(m), result.tags), at, result.timestamp);
        var status := ResultStatus(result.tags);
        SetStatusNamesDevice(m.(snapshot := Some(snapshot)), c, result.device, status, ReasonOf(status), at, Some(at),
          Some(result.timestamp), msg);
      }
    case Ticked(at) => TickNamesDevice(m, c, at, msg);
  }

  lemma TickNamesDevice(m: Memory, c: Config, now: real, msg: Message)
    requires msg in CheckAndSend(m, c, now).sent
    ensures m.snapshot.Some? && msg.device == m.snapshot.value.device
  {
    hide SetStatus, Announce, DataMessages;
    TickView(m, c, now);
    var checked := if c.staleTimeout <= 0.0 then Silent(m) else Refresh(m, c, now);
    if msg in DataMessages(checked.memory, c, now) {
      DataNamesDevice(checked.memory, c, now, msg);
    } else {
      var s := m.snapshot.value;
      if Expired(c, s, now) && StatusOf(m) == Some(GoodStatus) {
        SetStatusNamesDevice(m, c, s.device, Stale, "message timeout", now, Some(s.lastReceived), Some(s.lastSource),
          msg);
      } else {
        AnnounceNamesDevice(m, c, s.device, now, OnInterval, msg);
      }
    }
  }

  /** A message sent at a result names the device as that result does; one sent at a tick, as the latest result with
      data did. */
  lemma MessagesNameDevice(c: Config, events: seq<Event>, msg: Message) returns (i: nat, d: nat)
    requires msg in Run(c, events).sent
    ensures i < |events| && d <= i
    ensures if events[i].Received? then msg.device == events[i].result.device
      else LastData(events[..i], d, KeyOf(msg.device)) && msg.device == events[d].result.device
  {
    hide Run, Alone, DeviceStep, StoreTags, Delivered, StatusReflects;
    var key := KeyOf(msg.device);
    i := SentAt(c, events, msg);
    d := 0;
    var m := Alone(c, events[..i], key).memory;
    StepNamesDevice(m, c, events[i], key, msg);
    if events[i].Ticked? {
      MemoryReflectsHistory(c, events[..i], key);
      d :| LastData(events[..i], d, key);
    }
  }
}
