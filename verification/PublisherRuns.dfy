/** The status and the cached data of a device as functions of its history. */
module PublisherRuns {
  import opened Models
  import opened Dict
  import opened PublisherModel
  import opened PublisherDevices

  // ----- The declarative reading of a history -----

  predicate IsResultOf(e: Event, key: DeviceKey) {
    e.Received? && KeyOf(e.result.device) == key
  }

  predicate IsDataOf(e: Event, key: DeviceKey) {
    IsResultOf(e, key) && !Present(e.result.error)
  }

  /** The n-th event is the device's latest result. */
  ghost predicate LastResult(events: seq<Event>, n: nat, key: DeviceKey) {
    n < |events| && IsResultOf(events[n], key) && forall m :: n < m < |events| ==> !IsResultOf(events[m], key)
  }

  ghost predicate NoResult(events: seq<Event>, key: DeviceKey) {
    forall m :: 0 <= m < |events| ==> !IsResultOf(events[m], key)
  }

  /** The n-th event is the device's latest result that carries data. */
  ghost predicate LastData(events: seq<Event>, n: nat, key: DeviceKey) {
    n < |events| && IsDataOf(events[n], key) && forall m :: n < m < |events| ==> !IsDataOf(events[m], key)
  }

  /** Some tick since the n-th event came a timeout or more after it. */
  ghost predicate TimedOut(c: Config, events: seq<Event>, n: nat)
    requires n < |events|
  {
    c.staleTimeout > 0.0 &&
    exists m :: n < m < |events| && events[m].Ticked? && events[m].at - events[n].at >= c.staleTimeout
  }

  /** There are tags, and none of them may be published. */
  ghost predicate AllFaulty(tags: seq<TagResult>) {
    tags != [] && forall tag :: tag in tags ==> !Usable(tag)
  }

  lemma StatusOfTags(tags: seq<TagResult>)
    ensures ResultStatus(tags) == if AllFaulty(tags) then BadStatus else GoodStatus
  {
    if tags != [] && !AllFaulty(tags) {
      var tag :| tag in tags && Usable(tag);
      var i :| 0 <= i < |tags| && tags[i] == tag;
      assert !Faulty(tags[i]);
    }
    if SomeUsable(tags) {
      var i :| 0 <= i < |tags| && !Faulty(tags[i]);
      assert tags[i] in tags && Usable(tags[i]);
    }
  }

  /** The status that a device's latest result, and the ticks since, give it. */
  ghost function ExpectedFrom(c: Config, events: seq<Event>, n: nat): Status
    requires n < |events| && events[n].Received?
  {
    var result := events[n].result;
    if Present(result.error) then Disconnected
    else if AllFaulty(result.tags) then BadStatus
    else if TimedOut(c, events, n) then Stale
    else GoodStatus
  }

  /** All tags that a device's results have brought, in order. */
  function Delivered(events: seq<Event>, key: DeviceKey): seq<TagResult>
    decreases events
  {
    if events == [] then []
    else
      var e := events[|events| - 1];
      Delivered(events[..|events| - 1], key) + if IsDataOf(e, key) then e.result.tags else []
  }

  ghost predicate StatusReflects(m: Memory, c: Config, events: seq<Event>, key: DeviceKey) {
    && (NoResult(events, key) ==> StatusOf(m) == None)
    && (forall n: nat :: LastResult(events, n, key) ==> StatusOf(m) == Some(ExpectedFrom(c, events, n)))
  }

  ghost predicate SnapshotReflects(m: Memory, events: seq<Event>, key: DeviceKey) {
    && (m.snapshot.Some? ==> exists n: nat :: LastData(events, n, key))
    && (forall n: nat :: LastData(events, n, key) ==>
      m.snapshot.Some? && m.snapshot.value.device == events[n].result.device &&
        m.snapshot.value.lastReceived == events[n].at)
    && CachedTags(m) == StoreTags([], Delivered(events, key))
  }

  // ----- Extending a history by one event -----

  lemma LastResultLonger(events: seq<Event>, e: Event, key: DeviceKey, n: nat)
    ensures LastResult(events + [e], n, key) <==>
      if IsResultOf(e, key) then n == |events| else LastResult(events, n, key)
    ensures NoResult(events + [e], key) <==> NoResult(events, key) && !IsResultOf(e, key)
  {
    var longer := events + [e];
    assert longer[|events|] == e;
    assert forall m :: 0 <= m < |events| ==> longer[m] == events[m];
  }

  lemma LastDataLonger(events: seq<Event>, e: Event, key: DeviceKey, n: nat)
    ensures LastData(events + [e], n, key) <==> if IsDataOf(e, key) then n == |events| else LastData(events, n, key)
  {
    var longer := events + [e];
    assert longer[|events|] == e;
    assert forall m :: 0 <= m < |events| ==> longer[m] == events[m];
  }

  lemma TimedOutLonger(c: Config, events: seq<Event>, e: Event, n: nat)
    requires n < |events|
    ensures TimedOut(c, events + [e], n)
       <==> TimedOut(c, events, n) || (c.staleTimeout > 0.0 && e.Ticked? && e.at - events[n].at >= c.staleTimeout)
  {
    var longer := events + [e];
    assert longer[|events|] == e;
    assert forall m :: 0 <= m < |events| ==> longer[m] == events[m];
    if TimedOut(c, events, n) {
      var m :| n < m < |events| && events[m].Ticked? && events[m].at - events[n].at >= c.staleTimeout;
      assert longer[m].Ticked?;
    }
  }

  lemma {:induction false} StoreTagsJoined(d: seq<Entry<string, TagResult>>, a: seq<TagResult>, b: seq<TagResult>)
    ensures StoreTags(d, a + b) == StoreTags(StoreTags(d, a), b)
    decreases b
  {
    if b == [] {
      assert a + b == a;
    } else {
      var n := |b| - 1;
      assert (a + b)[..|a + b| - 1] == a + b[..n];
      StoreTagsJoined(d, a, b[..n]);
    }
  }

  /** A result that carries data is a device's latest result only if it is its latest data. */
  lemma LatestDataIsLatestResult(events: seq<Event>, n: nat, key: DeviceKey)
    requires LastResult(events, n, key) && !Present(events[n].result.error)
    ensures LastData(events, n, key)
  {}

  // ----- The view of one step -----

  lemma ReceiveView(m: Memory, c: Config, result: ReadResult, now: real)
    ensures var after := Receive(m, c, result, now).memory;
      StatusOf(after) == Some(if Present(result.error) then Disconnected else ResultStatus(result.tags)) &&
      after.snapshot ==
        if Present(result.error) then m.snapshot
        else Some(Snapshot(result.device, StoreTags(CachedTags(m), result.tags), now, result.timestamp))
  {
    hide SetStatus;
    if Present(result.error) {
      SetStatusRemembers(m, c, result.device, Disconnected, result.error.value, now, None, None);
    } else {
      var snapshot := Snapshot(result.device, StoreTags(CachedTags(m), result.tags), now, result.timestamp);
      var status := ResultStatus(result.tags);
      SetStatusRemembers(m.(snapshot := Some(snapshot)), c, result.device, status, ReasonOf(status), now, Some(now),
        Some(result.timestamp));
    }
  }

  lemma TickView(m: Memory, c: Config, now: real)
    ensures var after := CheckAndSend(m, c, now).memory;
      after.snapshot == m.snapshot &&
      StatusOf(after) ==
        if c.staleTimeout > 0.0 && m.snapshot.Some? && Expired(c, m.snapshot.value, now) &&
          StatusOf(m) == Some(GoodStatus)
        then Some(Stale) else StatusOf(m)
  {
    hide SetStatus;
    if m.snapshot.Some? {
      var s := m.snapshot.value;
      SetStatusRemembers(m, c, s.device, Stale, "message timeout", now, Some(s.lastReceived), Some(s.lastSource));
    }
  }

  // ----- The status reflects the history -----

  lemma OtherResultKeepsStatus(m: Memory, c: Config, events: seq<Event>, e: Event, key: DeviceKey)
    requires StatusReflects(m, c, events, key)
    requires e.Received? && !IsResultOf(e, key)
    ensures StatusReflects(m, c, events + [e], key)
  {
    hide TimedOut, AllFaulty, NoResult;
    LastResultLonger(events, e, key, 0);
    forall n: nat | LastResult(events + [e], n, key)
      ensures n < |events| && StatusOf(m) == Some(ExpectedFrom(c, events + [e], n))
    {
      LastResultLonger(events, e, key, n);
      TimedOutLonger(c, events, e, n);
    }
  }

  lemma OwnResultSetsStatus(m: Memory, c: Config, events: seq<Event>, result: ReadResult, at: real)
    ensures StatusReflects(Receive(m, c, result, at).memory, c, events + [Received(result, at)], KeyOf(result.device))
  {
    hide Receive, ResultStatus, AllFaulty;
    StatusOfTags(result.tags);
    var longer, key := events + [Received(result, at)], KeyOf(result.device);
    ReceiveView(m, c, result, at);
    assert !TimedOut(c, longer, |events|);
    assert longer[|events|] == Received(result, at);
    forall n: nat | LastResult(longer, n, key)
      ensures n == |events|
    {
      LastResultLonger(events, Received(result, at), key, n);
    }
  }

  lemma TickSetsStatus(m: Memory, c: Config, events: seq<Event>, at: real, key: DeviceKey)
    requires StatusReflects(m, c, events, key) && SnapshotReflects(m, events, key)
    ensures StatusReflects(CheckAndSend(m, c, at).memory, c, events + [Ticked(at)], key)
  {
    hide CheckAndSend, TimedOut, AllFaulty, NoResult, Delivered;
    var after, e := CheckAndSend(m, c, at).memory, Ticked(at);
    TickView(m, c, at);
    LastResultLonger(events, e, key, 0);
    forall n: nat | LastResult(events + [e], n, key)
      ensures n < |events| && StatusOf(after) == Some(ExpectedFrom(c, events + [e], n))
    {
      LastResultLonger(events, e, key, n);
      TimedOutLonger(c, events, e, n);
      if !Present(events[n].result.error) { LatestDataIsLatestResult(events, n, key); }
    }
  }

  // ----- So does the snapshot -----

  lemma OwnResultSetsSnapshot(m: Memory, c: Config, events: seq<Event>, result: ReadResult, at: real)
    requires SnapshotReflects(m, events, KeyOf(result.device)) && !Present(result.error)
    ensures SnapshotReflects(Receive(m, c, result, at).memory, events + [Received(result, at)], KeyOf(result.device))
  {
    hide Receive, StoreTags, ResultStatus;
    var e, key := Received(result, at), KeyOf(result.device);
    ReceiveView(m, c, result, at);
    LastDataLonger(events, e, key, |events|);
    forall n: nat | LastData(events + [e], n, key)
      ensures n == |events|
    {
      LastDataLonger(events, e, key, n);
    }
    assert (events + [e])[..|events|] == events;
    StoreTagsJoined([], Delivered(events, key), result.tags);
  }

  lemma EventKeepsSnapshot(m: Memory, after: Memory, events: seq<Event>, e: Event, key: DeviceKey)
    requires SnapshotReflects(m, events, key) && !IsDataOf(e, key) && after.snapshot == m.snapshot
    ensures SnapshotReflects(after, events + [e], key)
  {
    hide StoreTags;
    if m.snapshot.Some? {
      var n: nat :| LastData(events, n, key);
      LastDataLonger(events, e, key, n);
    }
    forall n: nat | LastData(events + [e], n, key)
      ensures LastData(events, n, key)
    {
      LastDataLonger(events, e, key, n);
    }
    assert (events + [e])[..|events|] == events;
    assert Delivered(events, key) + [] == Delivered(events, key);
  }

  /** After every run, a device's status and cached data are what its latest results and the ticks since say. */
  lemma {:induction false} MemoryReflectsHistory(c: Config, events: seq<Event>, key: DeviceKey)
    ensures StatusReflects(Alone(c, events, key).memory, c, events, key)
    ensures SnapshotReflects(Alone(c, events, key).memory, events, key)
    decreases events
  {
    if events != [] {
      hide StatusReflects, SnapshotReflects, Receive, CheckAndSend;
      var front, e := events[..|events| - 1], events[|events| - 1];
      assert events == front + [e];
      MemoryReflectsHistory(c, front, key);
      var m := Alone(c, front, key).memory;
      match e
      case Received(result, at) =>
        if KeyOf(result.device) == key {
          OwnResultSetsStatus(m, c, front, result, at);
          if Present(result.error) {
            ReceiveView(m, c, result, at);
            EventKeepsSnapshot(m, Receive(m, c, result, at).memory, front, e, key);
          } else {
            OwnResultSetsSnapshot(m, c, front, result, at);
          }
        } else {
          OtherResultKeepsStatus(m, c, front, e, key);
          EventKeepsSnapshot(m, m, front, e, key);
        }
      case Ticked(at) =>
        TickSetsStatus(m, c, front, at, key);
        TickView(m, c, at);
        EventKeepsSnapshot(m, CheckAndSend(m, c, at).memory, front, e, key);
    }
  }

  /** The label that the publisher holds for a device, for every run. */
  lemma StatusMeetsHistory(c: Config, events: seq<Event>, key: DeviceKey)
    ensures StatusOf(MemoryOf(Run(c, events), key)).None? <==> NoResult(events, key)
    ensures forall n: nat :: LastResult(events, n, key) ==>
      StatusOf(MemoryOf(Run(c, events), key)) == Some(ExpectedFrom(c, events, n))
    ensures CachedTags(MemoryOf(Run(c, events), key)) == StoreTags([], Delivered(events, key))
  {
    hide Alone, Run, StoreTags, Delivered, MessagesOf, PublicationsOf, MemoryOf, ExpectedFrom;
    DevicesAreIndependent(c, events, key);
    MemoryReflectsHistory(c, events, key);
    if !NoResult(events, key) { LastResultExists(events, key); }
  }

  lemma {:induction false} LastResultExists(events: seq<Event>, key: DeviceKey)
    requires !NoResult(events, key)
    ensures exists n: nat :: LastResult(events, n, key)
    decreases events
  {
    var front, e := events[..|events| - 1], events[|events| - 1];
    assert events == front + [e];
    LastResultLonger(front, e, key, |front|);
    if !IsResultOf(e, key) {
      LastResultExists(front, key);
      var n: nat :| LastResult(front, n, key);
      LastResultLonger(front, e, key, n);
    }
  }
}
