/** The queue between drivers and publisher, and what its conflation leaves of the publisher's state. */
module ResultQueue {
  import opened Models
  import opened Dict
  import opened PublisherModel
  import opened PublisherRuns
  import C = Conflation
  import Lists

  datatype QueueKey =
    | WholeResult(id: Option<int>, deviceGroup: string, name: string)
    | SingleTag(id: Option<int>, deviceGroup: string, name: string, tagGroup: string, tag: string)

  type Item = Entry<QueueKey, ReadResult>

  function TagLabel(tag: TagResult): string {
    if Present(tag.nodeId) then tag.nodeId.value else tag.name
  }

  function SplitTag(item: ReadResult, tag: TagResult): Item {
    Entry(SingleTag(item.device.id, item.device.deviceGroup, item.device.name, tag.tagGroup, TagLabel(tag)),
          ReadResult(item.device, item.timestamp, [tag], item.error))
  }

  function SplitTags(item: ReadResult, tags: seq<TagResult>): seq<Item>
    decreases tags
  {
    if tags == [] then [] else SplitTags(item, tags[..|tags| - 1]) + [SplitTag(item, tags[|tags| - 1])]
  }

  /** An error or an empty result goes through whole, any other tag by tag. */
  function Split(item: ReadResult): seq<Item> {
    if Present(item.error) || item.tags == [] then
      [Entry(WholeResult(item.device.id, item.device.deviceGroup, item.device.name), item)]
    else SplitTags(item, item.tags)
  }

  function PutOps(entries: seq<Item>): seq<C.Op<QueueKey, ReadResult>>
    decreases entries
  {
    if entries == [] then [] else PutOps(entries[..|entries| - 1]) + [C.Put(entries[|entries| - 1])]
  }

  lemma {:induction false} RunPuts(ops: seq<C.Op<QueueKey, ReadResult>>, entries: seq<Item>)
    ensures C.Run(ops + PutOps(entries)) == C.Run(ops).(waiting := C.PutAll(C.Run(ops).waiting, entries))
    decreases entries
  {
    if entries == [] {
      assert ops + [] == ops;
    } else {
      hide C.Run, C.PutEntry;
      var n := |entries| - 1;
      RunPuts(ops, entries[..n]);
      C.RunLonger(ops + PutOps(entries[..n]), C.Put(entries[n]));
      assert ops + PutOps(entries) == (ops + PutOps(entries[..n])) + [C.Put(entries[n])];
    }
  }

  /** The gateway's queue object; each method runs under its lock. */
  class LatestReadResultQueue {
    var items: seq<Item>
    ghost var ops: seq<C.Op<QueueKey, ReadResult>>

    /** The waiting items are those of the abstract queue after everything done so far. */
    ghost predicate Valid()
      reads this
    {
      items == C.Run(ops).waiting && UniqueKeys(items)
    }

    constructor ()
      ensures Valid() && items == [] && ops == []
    {
      items, ops := [], [];
    }

    method Put(item: ReadResult)
      requires Valid()
      modifies this
      ensures Valid()
      ensures items == C.PutAll(old(items), Split(item))
      ensures ops == old(ops) + PutOps(Split(item))
    {
      var parts := Split(item);
      for i := 0 to |parts|
        invariant items == C.PutAll(old(items), parts[..i]) && ops == old(ops)
      {
        assert parts[..i + 1][..i] == parts[..i];
        items := Delete(items, parts[i].key) + [parts[i]];
      }
      assert parts[..|parts|] == parts;
      RunPuts(ops, parts);
      ops := ops + PutOps(parts);
      C.RunFromPuts(ops);
    }

    method Get() returns (item: Option<ReadResult>)
      requires Valid()
      modifies this
      ensures Valid() && ops == old(ops) + [C.Get]
      ensures item == if old(items) == [] then None else Some(old(items)[0].value)
      ensures items == if old(items) == [] then [] else old(items)[1..]
    {
      ops := ops + [C.Get];
      assert ops[..|ops| - 1] == old(ops);
      C.RunFromPuts(ops);
      if items == [] { return None; }
      item := Some(items[0].value);
      items := items[1..];
    }

    method Empty() returns (empty: bool)
      ensures empty <==> items == []
    {
      empty := |items| == 0;
    }
  }

  // ----- Runs of the publisher on what a queue delivers -----

  /** The results of a history, without the ticks between them. */
  function Arrivals(events: seq<Event>): seq<Event>
    decreases events
  {
    if events == [] then []
    else
      var e := events[|events| - 1];
      Arrivals(events[..|events| - 1]) + if e.Received? then [e] else []
  }

  ghost predicate InStep(events: seq<Event>, entries: seq<Item>) {
    |events| == |entries| &&
    forall i :: 0 <= i < |events| ==> events[i].Received? && events[i].result == entries[i].value
  }

  /** The publisher receives the entries in order, at any times and with any ticks between them. */
  ghost predicate Delivers(events: seq<Event>, entries: seq<Item>) {
    InStep(Arrivals(events), entries)
  }

  predicate NoTicks(events: seq<Event>) {
    forall i :: 0 <= i < |events| ==> events[i].Received?
  }

  lemma {:induction false} TicksDeliverNothing(events: seq<Event>, key: DeviceKey)
    ensures Delivered(Arrivals(events), key) == Delivered(events, key)
    decreases events
  {
    if events != [] {
      var n := |events| - 1;
      var front, e := Arrivals(events[..n]), events[n];
      TicksDeliverNothing(events[..n], key);
      assert (front + [e])[..|front|] == front && front + [] == front;
      assert Delivered(events[..n], key) + [] == Delivered(events[..n], key);
    }
  }

  lemma {:induction false} ArrivalsOfResults(events: seq<Event>)
    requires NoTicks(events)
    ensures Arrivals(events) == events
    decreases events
  {
    if events != [] {
      var n := |events| - 1;
      ArrivalsOfResults(events[..n]);
      assert events == events[..n] + [events[n]];
    }
  }

  function OfDevice(key: DeviceKey): Item -> bool {
    (e: Item) => KeyOf(e.value.device) == key
  }

  predicate CarriesTag(e: Item, key: DeviceKey, tagKey: string) {
    KeyOf(e.value.device) == key && !Present(e.value.error) && |e.value.tags| == 1 && TagKey(e.value.tags[0]) == tagKey
  }

  function OfTag(key: DeviceKey, tagKey: string): Item -> bool {
    (e: Item) => CarriesTag(e, key, tagKey)
  }

  /** The shape of what splitting puts into the queue. */
  predicate WellSplit(e: Item) {
    var r := e.value;
    if Present(r.error) || r.tags == [] then
      e.key == WholeResult(r.device.id, r.device.deviceGroup, r.device.name)
    else
      && |r.tags| == 1
      && e.key == SingleTag(r.device.id, r.device.deviceGroup, r.device.name, r.tags[0].tagGroup, TagLabel(r.tags[0]))
  }

  lemma {:induction false} SplitTagsWell(item: ReadResult, tags: seq<TagResult>)
    requires !Present(item.error)
    ensures |SplitTags(item, tags)| == |tags|
    ensures forall i :: 0 <= i < |tags| ==> SplitTags(item, tags)[i] == SplitTag(item, tags[i])
    decreases tags
  {
    if tags != [] { SplitTagsWell(item, tags[..|tags| - 1]); }
  }

  lemma SplitWell(item: ReadResult)
    ensures forall e :: e in Split(item) ==> WellSplit(e) && e.value.device == item.device
  {
    if !Present(item.error) { SplitTagsWell(item, item.tags); }
  }

  /** An error or an empty result stays as it is; another is split into one result for each of its tags, in order, of
      the same device and time, under the tag's group and its node id or, without one, its name. */
  lemma SplitParts(item: ReadResult)
    ensures var parts, d := Split(item), item.device;
      if (item.error.Some? && item.error.value != "") || item.tags == [] then
        parts == [Entry(WholeResult(d.id, d.deviceGroup, d.name), item)]
      else
        |parts| == |item.tags| &&
        forall i :: 0 <= i < |parts| ==>
          var tag := item.tags[i];
          var name := if tag.nodeId.Some? && tag.nodeId.value != "" then tag.nodeId.value else tag.name;
          parts[i].key == SingleTag(d.id, d.deviceGroup, d.name, tag.tagGroup, name) &&
            parts[i].value == ReadResult(d, item.timestamp, [tag], item.error)
  {
    if !Present(item.error) { SplitTagsWell(item, item.tags); }
  }

  ghost predicate AllWellSplit(entries: seq<Item>) {
    forall e :: e in entries ==> WellSplit(e)
  }

  /** Entries under one single-tag key are for one tag of the publisher's cache. */
  ghost predicate Consistent(puts: seq<Item>) {
    && AllWellSplit(puts)
    && (forall e, f :: e in puts && f in puts && e.key == f.key && e.key.SingleTag? ==>
      TagKey(e.value.tags[0]) == TagKey(f.value.tags[0]))
  }

  lemma DeviceIsStable(puts: seq<Item>, key: DeviceKey)
    requires AllWellSplit(puts)
    ensures C.Stable(puts, OfDevice(key))
  {
    forall i, j | 0 <= i < j < |puts| && puts[i].key == puts[j].key
      ensures KeyOf(puts[i].value.device) == KeyOf(puts[j].value.device)
    {
      assert WellSplit(puts[i]) && WellSplit(puts[j]);
    }
  }

  /** Consistency spares the last put of every cached tag. */
  lemma ConsistentIsSpared(puts: seq<Item>, key: DeviceKey, tagKey: string)
    requires Consistent(puts)
    ensures C.Spared(puts, OfTag(key, tagKey))
  {
    forall i, j | 0 <= i < j < |puts| && puts[i].key == puts[j].key && CarriesTag(puts[i], key, tagKey)
      ensures CarriesTag(puts[j], key, tagKey)
    {
      assert WellSplit(puts[i]) && WellSplit(puts[j]);
    }
  }

  // ----- The cache is the last tag of each key -----

  lemma CacheOne(before: seq<TagResult>, tag: TagResult, tagKey: string)
    ensures Lookup(StoreTags([], before + [tag]), tagKey)
         == if TagKey(tag) == tagKey then Some(tag) else Lookup(StoreTags([], before), tagKey)
  {
    hide TagKey, Lookup, Store;
    assert (before + [tag])[..|before|] == before;
    LookupStore(StoreTags([], before), TagKey(tag), tag, tagKey);
  }

  lemma SplitHasOneTag(e: Item)
    requires WellSplit(e)
    ensures Present(e.value.error) || |e.value.tags| <= 1
  {}

  lemma CacheNothing(tagKey: string)
    ensures Lookup(StoreTags([], []), tagKey) == None
  {}

  lemma {:induction false} CacheInStep(events: seq<Event>, entries: seq<Item>, key: DeviceKey, tagKey: string)
    requires InStep(events, entries) && AllWellSplit(entries)
    ensures var last := Lists.Last(entries, OfTag(key, tagKey));
      (last.Some? ==> |last.value.value.tags| == 1) &&
      Lookup(StoreTags([], Delivered(events, key)), tagKey) ==
        if last.Some? then Some(last.value.value.tags[0]) else None
    decreases entries
  {
    hide Lookup, StoreTags, TagKey, WellSplit;
    if entries == [] {
      CacheNothing(tagKey);
    } else {
      var n := |entries| - 1;
      var before, e := Delivered(events[..n], key), entries[n];
      assert entries == entries[..n] + [e];
      SplitHasOneTag(e);
      CacheInStep(events[..n], entries[..n], key, tagKey);
      if IsDataOf(events[n], key) && e.value.tags != [] {
        var tag := e.value.tags[0];
        assert e.value.tags == [tag];
        CacheOne(before, tag, tagKey);
      } else {
        assert before + [] == before;
      }
    }
  }

  function CachedTag(c: Config, events: seq<Event>, key: DeviceKey, tagKey: string): Option<TagResult> {
    Lookup(CachedTags(MemoryOf(Run(c, events), key)), tagKey)
  }

  lemma CacheIsLast(c: Config, events: seq<Event>, entries: seq<Item>, key: DeviceKey, tagKey: string)
    requires Delivers(events, entries) && AllWellSplit(entries)
    ensures var last := Lists.Last(entries, OfTag(key, tagKey));
      (last.Some? ==> |last.value.value.tags| == 1) &&
      CachedTag(c, events, key, tagKey) == if last.Some? then Some(last.value.value.tags[0]) else None
  {
    hide Run, StoreTags, Delivered, MemoryOf, StatusOf, CachedTags, Lookup, Arrivals, InStep, OfTag;
    StatusMeetsHistory(c, events, key);
    TicksDeliverNothing(events, key);
    CacheInStep(Arrivals(events), entries, key, tagKey);
  }

  // ----- The status is that of the last result, as the ticks since have aged it -----

  lemma DeliversFront(events: seq<Event>, entries: seq<Item>)
    requires Delivers(events, entries) && events != [] && events[|events| - 1].Received?
    ensures entries != [] && events[|events| - 1].result == entries[|entries| - 1].value
    ensures Delivers(events[..|events| - 1], entries[..|entries| - 1])
  {
    var front, all := Arrivals(events[..|events| - 1]), Arrivals(events);
    assert all == front + [events[|events| - 1]];
    assert forall i :: 0 <= i < |front| ==> all[i] == front[i];
    assert all[|front|] == events[|events| - 1];
  }

  lemma {:induction false} LastEntryIsLastResult(events: seq<Event>, entries: seq<Item>,
                                                 key: DeviceKey) returns (n: nat)
    requires Delivers(events, entries)
    ensures var last := Lists.Last(entries, OfDevice(key));
      if last.None? then NoResult(events, key)
      else LastResult(events, n, key) && events[n].result == last.value.value
    decreases events
  {
    n := 0;
    if events != [] {
      var k := |events| - 1;
      var front := events[..k];
      assert events == front + [events[k]];
      if events[k].Received? {
        var m := |entries| - 1;
        DeliversFront(events, entries);
        n := LastEntryIsLastResult(front, entries[..m], key);
        LastResultLonger(front, events[k], key, n);
        LastResultLonger(front, events[k], key, k);
        if OfDevice(key)(entries[m]) { n := k; }
      } else {
        assert Arrivals(events) == Arrivals(front) + [] == Arrivals(front);
        n := LastEntryIsLastResult(front, entries, key);
        LastResultLonger(front, events[k], key, n);
      }
    }
  }

  function Label(result: ReadResult): Status {
    if Present(result.error) then Disconnected else ResultStatus(result.tags)
  }

  function Aged(status: Status, timedOut: bool): Status {
    if status == GoodStatus && timedOut then Stale else status
  }

  function StatusAfter(c: Config, events: seq<Event>, key: DeviceKey): Option<Status> {
    StatusOf(MemoryOf(Run(c, events), key))
  }

  lemma LastResultDecides(c: Config, events: seq<Event>, key: DeviceKey, n: nat)
    requires LastResult(events, n, key)
    ensures StatusAfter(c, events, key) == Some(Aged(Label(events[n].result), TimedOut(c, events, n)))
  {
    hide Run, StoreTags, Delivered, MemoryOf, StatusOf, TimedOut, ResultStatus, AllFaulty;
    StatusMeetsHistory(c, events, key);
    StatusOfTags(events[n].result.tags);
  }

  lemma LastResultIsUnique(events: seq<Event>, key: DeviceKey, m: nat, n: nat)
    requires LastResult(events, m, key) && LastResult(events, n, key)
    ensures m == n
  {}

  lemma DrainedWell(ops: seq<C.Op<QueueKey, ReadResult>>)
    requires AllWellSplit(C.Puts(ops))
    ensures AllWellSplit(C.Drained(ops))
  {
    hide WellSplit, C.Represents;
    var at := C.DrainIsInOrder(ops);
    forall e | e in C.Drained(ops)
      ensures e in C.Puts(ops)
    {
      var i :| 0 <= i < |C.Drained(ops)| && C.Drained(ops)[i] == e;
      assert C.Puts(ops)[at[i]] == e;
    }
  }

  // ----- The queue against a plain one -----

  /** However puts and gets interleave and wherever the publisher ticks, after a full drain it caches under every key
      the tag that it would cache had it been handed every single put. */
  lemma ConflationKeepsCache(c: Config, ops: seq<C.Op<QueueKey, ReadResult>>, seen: seq<Event>, every: seq<Event>,
                             key: DeviceKey, tagKey: string)
    requires AllWellSplit(C.Puts(ops)) && C.Spared(C.Puts(ops), OfTag(key, tagKey))
    requires Delivers(seen, C.Drained(ops)) && Delivers(every, C.Puts(ops))
    ensures CachedTag(c, seen, key, tagKey) == CachedTag(c, every, key, tagKey)
  {
    hide CachedTag, C.Drained, C.Puts, Lists.Last, C.Spared, OfTag, Delivers;
    DrainedWell(ops);
    C.SparedEndsAlike(ops, OfTag(key, tagKey));
    CacheIsLast(c, seen, C.Drained(ops), key, tagKey);
    CacheIsLast(c, every, C.Puts(ops), key, tagKey);
  }

  /** Both runs end with the same last result of every device. */
  lemma ConflationKeepsLastResult(ops: seq<C.Op<QueueKey, ReadResult>>, seen: seq<Event>, every: seq<Event>,
                                  key: DeviceKey)
    requires AllWellSplit(C.Puts(ops)) && Delivers(seen, C.Drained(ops)) && Delivers(every, C.Puts(ops))
    ensures NoResult(seen, key) <==> NoResult(every, key)
    ensures forall m: nat, n: nat :: LastResult(seen, m, key) && LastResult(every, n, key) ==>
      seen[m].result == every[n].result
  {
    hide C.Drained, C.Puts, Lists.Last, C.Stable, OfDevice, Delivers;
    DeviceIsStable(C.Puts(ops), key);
    C.DrainEndsAlike(ops, OfDevice(key));
    var m := LastEntryIsLastResult(seen, C.Drained(ops), key);
    var n := LastEntryIsLastResult(every, C.Puts(ops), key);
    forall m': nat, n': nat | LastResult(seen, m', key) && LastResult(every, n', key)
      ensures seen[m'].result == every[n'].result
    {
      if LastResult(seen, m, key) { LastResultIsUnique(seen, key, m, m'); }
      if LastResult(every, n, key) { LastResultIsUnique(every, key, n, n'); }
    }
  }

  /** The statuses agree too, exactly unless a good last result has timed out at a tick of one run and not of the
      other. */
  lemma ConflationKeepsStatusExactly(c: Config, ops: seq<C.Op<QueueKey, ReadResult>>, seen: seq<Event>,
                                     every: seq<Event>, key: DeviceKey, m: nat, n: nat)
    requires AllWellSplit(C.Puts(ops)) && Delivers(seen, C.Drained(ops)) && Delivers(every, C.Puts(ops))
    requires LastResult(seen, m, key) && LastResult(every, n, key)
    ensures StatusAfter(c, seen, key) == StatusAfter(c, every, key)
       <==> (Label(seen[m].result) == GoodStatus ==> (TimedOut(c, seen, m) <==> TimedOut(c, every, n)))
  {
    hide StatusAfter, C.Drained, C.Puts, Delivers, TimedOut, Label;
    ConflationKeepsLastResult(ops, seen, every, key);
    LastResultDecides(c, seen, key, m);
    LastResultDecides(c, every, key, n);
  }

  /** So without ticks every device has the status that it would have had it been handed every single put. */
  lemma ConflationKeepsStatus(c: Config, ops: seq<C.Op<QueueKey, ReadResult>>, seen: seq<Event>, every: seq<Event>,
                              key: DeviceKey)
    requires AllWellSplit(C.Puts(ops)) && Delivers(seen, C.Drained(ops)) && Delivers(every, C.Puts(ops))
    requires NoTicks(seen) && NoTicks(every)
    ensures StatusAfter(c, seen, key) == StatusAfter(c, every, key)
  {
    hide Run, MemoryOf, C.Drained, C.Puts, Delivers, Label, StoreTags, Delivered;
    ConflationKeepsLastResult(ops, seen, every, key);
    if NoResult(seen, key) {
      StatusMeetsHistory(c, seen, key);
      StatusMeetsHistory(c, every, key);
    } else {
      LastResultExists(seen, key);
      LastResultExists(every, key);
      var m: nat :| LastResult(seen, m, key);
      var n: nat :| LastResult(every, n, key);
      assert !TimedOut(c, seen, m) && !TimedOut(c, every, n);
      ConflationKeepsStatusExactly(c, ops, seen, every, key, m, n);
    }
  }

  // ----- When a cached tag is lost -----

  function Events(entries: seq<Item>): (events: seq<Event>)
    ensures |events| == |entries|
    ensures forall i :: 0 <= i < |entries| ==> events[i] == Received(entries[i].value, 0.0)
  {
    seq(|entries|, i requires 0 <= i < |entries| => Received(entries[i].value, 0.0))
  }

  lemma EventsDeliver(entries: seq<Item>)
    ensures Delivers(Events(entries), entries)
  {
    ArrivalsOfResults(Events(entries));
  }

  /** The results of a device all describe it alike. */
  ghost predicate SameDescriptions(puts: seq<Item>) {
    forall e, f :: e in puts && f in puts && KeyOf(e.value.device) == KeyOf(f.value.device) ==>
      e.value.device == f.value.device
  }

  lemma SameTagSameKey(e: Item, f: Item, key: DeviceKey, tagKey: string)
    requires WellSplit(e) && WellSplit(f) && e.value.device == f.value.device
    requires CarriesTag(e, key, tagKey) && CarriesTag(f, key, tagKey) && e.value.tags[0] == f.value.tags[0]
    ensures e.key == f.key
  {}

  /** Some interleaving loses the last put of a tag if that put can be replaced by one that is not of the tag. */
  lemma ReplacedTagIsLost(c: Config, puts: seq<Item>, key: DeviceKey, tagKey: string)
    requires AllWellSplit(puts) && SameDescriptions(puts) && !C.Spared(puts, OfTag(key, tagKey))
    ensures var ops := C.PutsOnly(puts);
      CachedTag(c, Events(C.Drained(ops)), key, tagKey) != CachedTag(c, Events(puts), key, tagKey)
  {
    hide CachedTag, Lists.Last, Delivers, WellSplit, C.Run, C.PutsOnly, C.Puts;
    var p, ops := OfTag(key, tagKey), C.PutsOnly(puts);
    var i, j :| 0 <= i < j < |puts| && puts[i].key == puts[j].key && p(puts[i]) &&
      forall m :: i < m < |puts| ==> !p(puts[m]);
    C.PutsOnlyRun(puts);
    DrainedWell(ops);
    EventsDeliver(C.Drained(ops));
    EventsDeliver(puts);
    CacheIsLast(c, Events(C.Drained(ops)), C.Drained(ops), key, tagKey);
    CacheIsLast(c, Events(puts), puts, key, tagKey);
    Lists.LastAt(puts, p, i);
    var last := Lists.Last(C.Drained(ops), p);
    if last.Some? && last.value.value.tags[0] == puts[i].value.tags[0] {
      Lists.LastIsMember(C.Drained(ops), p);
      C.OthersWait(puts, p, i, j, last.value);
      SameTagSameKey(last.value, puts[i], key, tagKey);
    }
  }

  /** The puts are drained through the queue in one run, and delivered one by one in the other. */
  ghost predicate BothDeliver(ops: seq<C.Op<QueueKey, ReadResult>>, puts: seq<Item>, seen: seq<Event>,
                              every: seq<Event>) {
    C.Puts(ops) == puts && Delivers(seen, C.Drained(ops)) && Delivers(every, puts)
  }

  /** All interleavings of some puts keep a cached tag, exactly if every put of it that can be replaced is followed by
      another. */
  lemma CachedTagSurvivesExactly(c: Config, puts: seq<Item>, key: DeviceKey, tagKey: string)
    requires AllWellSplit(puts) && SameDescriptions(puts)
    ensures C.Spared(puts, OfTag(key, tagKey))
       <==> forall ops, seen, every :: BothDeliver(ops, puts, seen, every) ==>
              CachedTag(c, seen, key, tagKey) == CachedTag(c, every, key, tagKey)
  {
    hide CachedTag, Delivers, C.Spared, C.Puts, C.Drained, C.PutsOnly;
    if C.Spared(puts, OfTag(key, tagKey)) {
      forall ops, seen, every | BothDeliver(ops, puts, seen, every)
        ensures CachedTag(c, seen, key, tagKey) == CachedTag(c, every, key, tagKey)
      {
        ConflationKeepsCache(c, ops, seen, every, key, tagKey);
      }
    } else {
      C.PutsOnlyRun(puts);
      ReplacedTagIsLost(c, puts, key, tagKey);
      EventsDeliver(C.Drained(C.PutsOnly(puts)));
      EventsDeliver(puts);
      assert BothDeliver(C.PutsOnly(puts), puts, Events(C.Drained(C.PutsOnly(puts))), Events(puts));
    }
  }

  // ----- Splitting against whole results -----

  lemma {:induction false} DeliveredJoined(a: seq<Event>, b: seq<Event>, key: DeviceKey)
    ensures Delivered(a + b, key) == Delivered(a, key) + Delivered(b, key)
    decreases b
  {
    if b == [] {
      assert a + b == a;
    } else {
      var n := |b| - 1;
      assert (a + b)[..|a + b| - 1] == a + b[..n];
      DeliveredJoined(a, b[..n], key);
    }
  }

  lemma {:induction false} PartsDeliverAll(item: ReadResult, tags: seq<TagResult>, parts: seq<Event>, key: DeviceKey)
    requires !Present(item.error) && InStep(parts, SplitTags(item, tags))
    ensures Delivered(parts, key) == if KeyOf(item.device) == key then tags else []
    decreases tags
  {
    if tags != [] {
      hide SplitTag, Delivered;
      var n := |tags| - 1;
      SplitTagsWell(item, tags);
      SplitTagsWell(item, tags[..n]);
      PartsDeliverAll(item, tags[..n], parts[..n], key);
      assert tags == tags[..n] + [tags[n]];
      LastPartDelivers(item, tags[n], parts, key);
    }
  }

  lemma LastPartDelivers(item: ReadResult, tag: TagResult, parts: seq<Event>, key: DeviceKey)
    requires parts != [] && !Present(item.error)
    requires parts[|parts| - 1].Received? && parts[|parts| - 1].result == SplitTag(item, tag).value
    ensures Delivered(parts, key) == Delivered(parts[..|parts| - 1], key) + if KeyOf(item.device) == key then [tag]
      else []
  {}

  /** The publisher's cache does not notice that a result was split. */
  lemma SplitKeepsCache(c: Config, before: seq<Event>, whole: Event, parts: seq<Event>, key: DeviceKey)
    requires whole.Received? && InStep(parts, Split(whole.result))
    ensures CachedTags(MemoryOf(Run(c, before + [whole]), key)) == CachedTags(MemoryOf(Run(c, before + parts), key))
  {
    hide Run, StoreTags, MemoryOf, CachedTags, StatusOf, Delivered, InStep;
    StatusMeetsHistory(c, before + [whole], key);
    StatusMeetsHistory(c, before + parts, key);
    DeliveredJoined(before, [whole], key);
    DeliveredJoined(before, parts, key);
    PartsDeliverWhole(whole, parts, key);
  }

  lemma PartsDeliverWhole(whole: Event, parts: seq<Event>, key: DeviceKey)
    requires whole.Received? && InStep(parts, Split(whole.result))
    ensures Delivered(parts, key) == Delivered([whole], key)
  {
    hide SplitTags;
    var item := whole.result;
    assert [whole][..0] == [];
    if Present(item.error) || item.tags == [] {
      assert parts[..0] == [];
    } else {
      PartsDeliverAll(item, item.tags, parts, key);
    }
  }

  /** Nor does its status, exactly unless a result with some good tag ends with a faulty one. */
  lemma SplitKeepsStatusExactly(c: Config, before: seq<Event>, whole: Event, parts: seq<Event>)
    requires whole.Received? && InStep(parts, Split(whole.result))
    ensures var item, key := whole.result, KeyOf(whole.result.device);
      var same := StatusOf(MemoryOf(Run(c, before + [whole]), key)) == StatusOf(MemoryOf(Run(c, before + parts), key));
      same <==> (Present(item.error) || item.tags == [] || !SomeUsable(item.tags) ||
        !Faulty(item.tags[|item.tags| - 1]))
  {
    hide Run, StoreTags, Delivered, MemoryOf, StatusOf, SplitTags, Faulty, AllFaulty;
    var item, key := whole.result, KeyOf(whole.result.device);
    if !Present(item.error) { SplitTagsWell(item, item.tags); }
    StatusMeetsHistory(c, before + [whole], key);
    StatusMeetsHistory(c, before + parts, key);
    var one, many := before + [whole], before + parts;
    var n, k := |one| - 1, |many| - 1;
    assert one[n] == whole && many[k] == parts[|parts| - 1];
    assert LastResult(one, n, key) && LastResult(many, k, key);
    assert !TimedOut(c, one, n) && !TimedOut(c, many, k);
    StatusOfTags(item.tags);
    StatusOfTags(many[k].result.tags);
    if !Present(item.error) && item.tags != [] {
      var tag := item.tags[|item.tags| - 1];
      assert many[k].result.tags == [tag];
      assert [tag][0] == tag;
      assert SomeUsable([tag]) <==> !Faulty(tag);
    }
  }
}
