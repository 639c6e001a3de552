/** Which configurations the queue of results leaves intact. */
module ConfiguredQueue {
  import opened Models
  import opened Planner
  import opened Reader
  import opened ReaderProperties
  import PublisherModel
  import C = Conflation
  import Q = ResultQueue

  /** What a result carries of its configured tag. */
  datatype TagId = TagId(name: string, nodeId: Option<string>, address: int, tagGroup: string)

  function IdOf(r: TagResult): TagId {
    TagId(r.name, r.nodeId, r.address, r.tagGroup)
  }

  /** The result of a tag that could not be read. */
  function Unread(id: TagId): TagResult {
    TagResult(id.name, id.address, None, Bad, None, 0.0, id.nodeId, id.tagGroup)
  }

  function LabelOf(id: TagId): string {
    Q.TagLabel(Unread(id))
  }

  function CacheKeyOf(id: TagId): string {
    PublisherModel.TagKey(Unread(id))
  }

  /** Tags that share a queue key share a cache key. */
  ghost predicate Unmistakable(ids: seq<TagId>) {
    forall a, b :: a in ids && b in ids && a.tagGroup == b.tagGroup && LabelOf(a) == LabelOf(b) ==>
      CacheKeyOf(a) == CacheKeyOf(b)
  }

  /** What the configuration store enforces: names are unique within each tag group. */
  ghost predicate UniqueNames(ids: seq<TagId>) {
    forall a, b :: a in ids && b in ids && a.name == b.name && a.tagGroup == b.tagGroup ==> a == b
  }

  /** A tag without node id has the node id of another tag of its group for a name. */
  predicate MixedUp(a: TagId, b: TagId) {
    !Present(a.nodeId) && Present(b.nodeId) && a.tagGroup == b.tagGroup && a.name == b.nodeId.value
  }

  /** Among tags with unique names, mistakes are possible exactly if a name is another tag's node id.  So none are for a
      driver whose tags all have node ids, or for one whose tags have none. */
  lemma UnmistakableExactly(ids: seq<TagId>)
    requires UniqueNames(ids)
    ensures Unmistakable(ids) <==> forall a, b :: a in ids && b in ids ==> !MixedUp(a, b)
  {
    forall a, b | MixedUp(a, b)
      ensures LabelOf(a) == LabelOf(b) && CacheKeyOf(a) != CacheKeyOf(b)
    {
      assert |CacheKeyOf(a)| > |a.name|;
    }
  }

  // ----- What is put of configured devices -----

  type Configuration = DeviceSpec -> seq<TagId>

  /** The entry is part of what one read of its device, or the failure of one, puts into the queue. */
  ghost predicate IsRead(config: Configuration, e: Q.Item) {
    exists r: ReadResult :: r.device == e.value.device && e in Q.Split(r) &&
      (Present(r.error) || Describes(r.tags, config(r.device)))
  }

  ghost predicate Describes(tags: seq<TagResult>, ids: seq<TagId>) {
    forall tag :: tag in tags ==> IdOf(tag) in ids
  }

  ghost predicate AllRead(config: Configuration, puts: seq<Q.Item>) {
    forall e :: e in puts ==> IsRead(config, e)
  }

  lemma SplitTagIsOfResult(r: ReadResult, e: Q.Item)
    requires e in Q.Split(r) && e.key.SingleTag?
    ensures !Present(r.error) && |e.value.tags| == 1 && e.value.tags[0] in r.tags && Q.WellSplit(e)
  {
    Q.SplitWell(r);
    if !Present(r.error) { Q.SplitTagsWell(r, r.tags); }
  }

  lemma ReadEntryDescribes(config: Configuration, e: Q.Item)
    requires IsRead(config, e) && e.key.SingleTag?
    ensures Q.WellSplit(e) && |e.value.tags| == 1 && IdOf(e.value.tags[0]) in config(e.value.device)
  {
    hide Q.Split, Q.WellSplit;
    var r: ReadResult :| r.device == e.value.device && e in Q.Split(r) &&
      (Present(r.error) || Describes(r.tags, config(r.device)));
    SplitTagIsOfResult(r, e);
  }

  lemma EqualKeysEqualTags(config: Configuration, e: Q.Item, f: Q.Item)
    requires (forall d :: Unmistakable(config(d))) && IsRead(config, e) && IsRead(config, f)
    requires e.key == f.key && e.key.SingleTag?
    ensures |e.value.tags| == |f.value.tags| == 1
    ensures PublisherModel.TagKey(e.value.tags[0]) == PublisherModel.TagKey(f.value.tags[0])
  {
    hide IsRead;
    ReadEntryDescribes(config, e);
    ReadEntryDescribes(config, f);
    assert e.value.device == f.value.device;
    assert Unmistakable(config(e.value.device));
    var a, b := IdOf(e.value.tags[0]), IdOf(f.value.tags[0]);
    assert CacheKeyOf(a) == CacheKeyOf(b);
  }

  /** Reads of such devices never put two tags under one key, however often they are read. */
  lemma ConfiguredPutsAreConsistent(config: Configuration, puts: seq<Q.Item>)
    requires (forall d :: Unmistakable(config(d))) && AllRead(config, puts)
    ensures Q.Consistent(puts)
  {
    hide Unmistakable, Describes, Q.WellSplit, PublisherModel.TagKey;
    forall e | e in puts
      ensures Q.WellSplit(e)
    {
      var r: ReadResult :| r.device == e.value.device && e in Q.Split(r);
      Q.SplitWell(r);
    }
    forall e, f | e in puts && f in puts && e.key == f.key && e.key.SingleTag?
      ensures |e.value.tags| == |f.value.tags| == 1
      ensures PublisherModel.TagKey(e.value.tags[0]) == PublisherModel.TagKey(f.value.tags[0])
    {
      EqualKeysEqualTags(config, e, f);
    }
  }

  // ----- What the queue costs the publisher -----

  /** Reads of the configured devices go through the queue in one run, and one by one in the other. */
  ghost predicate BothRead(config: Configuration, ops: seq<C.Op<Q.QueueKey, ReadResult>>,
                           seen: seq<PublisherModel.Event>, every: seq<PublisherModel.Event>) {
    AllRead(config, C.Puts(ops)) && Q.Delivers(seen, C.Drained(ops)) && Q.Delivers(every, C.Puts(ops))
  }

  /** A result of two tags of one device. */
  function PairRead(device: DeviceSpec, a: TagId, b: TagId): ReadResult {
    ReadResult(device, 0.0, [Unread(a), Unread(b)], None)
  }

  lemma PairSplits(device: DeviceSpec, a: TagId, b: TagId)
    ensures var r := PairRead(device, a, b);
      Q.Split(r) == [Q.SplitTag(r, Unread(a)), Q.SplitTag(r, Unread(b))]
  {
    var r := PairRead(device, a, b);
    Q.SplitTagsWell(r, r.tags);
  }

  lemma PairIsRead(config: Configuration, device: DeviceSpec, a: TagId, b: TagId)
    requires a in config(device) && b in config(device)
    ensures AllRead(config, Q.Split(PairRead(device, a, b)))
  {
    var r := PairRead(device, a, b);
    PairSplits(device, a, b);
    assert IdOf(Unread(a)) == a && IdOf(Unread(b)) == b;
    assert Describes(r.tags, config(r.device));
  }

  /** One read of two tags that can be mistaken for each other costs the first of them. */
  lemma MistakenTagIsLost(c: PublisherModel.Config, config: Configuration, device: DeviceSpec, a: TagId, b: TagId)
    requires a in config(device) && b in config(device) && a.tagGroup == b.tagGroup && LabelOf(a) == LabelOf(b)
    requires CacheKeyOf(a) != CacheKeyOf(b)
    ensures var puts := Q.Split(PairRead(device, a, b));
      var ops := C.PutsOnly(puts);
      var key := PublisherModel.KeyOf(device);
      BothRead(config, ops, Q.Events(C.Drained(ops)), Q.Events(puts)) &&
      Q.CachedTag(c, Q.Events(C.Drained(ops)), key, CacheKeyOf(a)) != Q.CachedTag(c, Q.Events(puts), key, CacheKeyOf(a))
  {
    hide Q.CachedTag, Q.Split, C.Run, C.Puts, C.PutsOnly, PublisherModel.TagKey, Q.TagLabel, AllRead, Q.Delivers;
    var puts, p := Q.Split(PairRead(device, a, b)), Q.OfTag(PublisherModel.KeyOf(device), CacheKeyOf(a));
    PairSplits(device, a, b);
    PairIsRead(config, device, a, b);
    Q.SplitWell(PairRead(device, a, b));
    C.PutsOnlyRun(puts);
    Q.EventsDeliver(puts);
    Q.EventsDeliver(C.Drained(C.PutsOnly(puts)));
    assert puts[0].key == puts[1].key && p(puts[0]) && !p(puts[1]);
    assert !C.Spared(puts, p);
    Q.ReplacedTagIsLost(c, puts, PublisherModel.KeyOf(device), CacheKeyOf(a));
  }

  /** The queue costs the publisher no cached tag of the configured devices, whatever it delays and wherever the
      publisher ticks, exactly if no two tags of a device can be mistaken for each other. */
  lemma ConfiguredTagsSurviveExactly(c: PublisherModel.Config, config: Configuration)
    ensures (forall d :: Unmistakable(config(d)))
       <==> forall ops, seen, every, key, tagKey :: BothRead(config, ops, seen, every) ==>
              Q.CachedTag(c, seen, key, tagKey) == Q.CachedTag(c, every, key, tagKey)
  {
    hide C.Puts, C.Drained, C.PutsOnly, AllRead, Q.Delivers, Q.CachedTag, Q.Split, LabelOf, CacheKeyOf;
    if forall d :: Unmistakable(config(d)) {
      forall ops, seen, every, key, tagKey | BothRead(config, ops, seen, every)
        ensures Q.CachedTag(c, seen, key, tagKey) == Q.CachedTag(c, every, key, tagKey)
      {
        ConfiguredPutsAreConsistent(config, C.Puts(ops));
        Q.ConsistentIsSpared(C.Puts(ops), key, tagKey);
        Q.ConflationKeepsCache(c, ops, seen, every, key, tagKey);
      }
    } else {
      var d :| !Unmistakable(config(d));
      var a, b :| a in config(d) && b in config(d) && a.tagGroup == b.tagGroup && LabelOf(a) == LabelOf(b) &&
        CacheKeyOf(a) != CacheKeyOf(b);
      MistakenTagIsLost(c, config, d, a, b);
    }
  }

  // ----- Modbus reads -----

  function IdsOf(tags: seq<TagSpec>): (ids: seq<TagId>)
    ensures |ids| == |tags|
    ensures forall i :: 0 <= i < |tags| ==> ids[i] == TagId(tags[i].name, None, tags[i].address, tags[i].tagGroup)
  {
    seq(|tags|, i requires 0 <= i < |tags| => TagId(tags[i].name, None, tags[i].address, tags[i].tagGroup))
  }

  lemma ModbusIsUnmistakable(tags: seq<TagSpec>)
    requires NamesUniquePerGroup(tags)
    ensures Unmistakable(IdsOf(tags))
  {
    hide LabelOf, CacheKeyOf;
    UnmistakableExactly(IdsOf(tags));
  }

  lemma SpecIsListed(tags: seq<TagSpec>, t: TagSpec)
    requires t in tags
    ensures TagId(t.name, None, t.address, t.tagGroup) in IdsOf(tags)
  {
    var i :| 0 <= i < |tags| && tags[i] == t;
    assert IdsOf(tags)[i] == TagId(t.name, None, t.address, t.tagGroup);
  }

  lemma ResultDescribes(response: Response, start: int, t: TagSpec, now: real, tags: seq<TagSpec>)
    requires ValidTag(t) && start <= t.address && t in tags
    ensures IdOf(TagFromResponse(response, start, t, now)) in IdsOf(tags)
  {
    SpecIsListed(tags, t);
  }

  lemma {:induction false} BlockDescribes(response: Response, block: ReadBlock, n: nat, now: real, tags: seq<TagSpec>,
                                          name: string)
    requires Served(block) && n <= |block.tags| && (forall t :: t in block.tags ==> t in tags)
    requires name in BlockResults(response, block, n, now)
    ensures IdOf(BlockResults(response, block, n, now)[name]) in IdsOf(tags)
    decreases n
  {
    hide TagFromResponse, Served, IdsOf, IdOf;
    var t := block.tags[n - 1];
    ServedTag(block, n - 1);
    if t.name == name {
      assert t in block.tags;
      ResultDescribes(response, block.start, t, now, tags);
    } else {
      BlockDescribes(response, block, n - 1, now, tags, name);
    }
  }

  lemma {:induction false} BlocksDescribe(client: Client, blocks: seq<ReadBlock>, n: nat, now: real, tags: seq<TagSpec>,
                                          name: string)
    requires AllServed(blocks) && n <= |blocks|
    requires forall k, t :: 0 <= k < |blocks| && t in blocks[k].tags ==> t in tags
    requires name in ResultsByName(client, blocks, n, now)
    ensures IdOf(ResultsByName(client, blocks, n, now)[name]) in IdsOf(tags)
    decreases n
  {
    hide BlockResults, IdsOf, IdOf;
    var block := blocks[n - 1];
    if name in BlockResults(client(n - 1, RequestOf(block)), block, |block.tags|, now) {
      BlockDescribes(client(n - 1, RequestOf(block)), block, |block.tags|, now, tags, name);
    } else {
      BlocksDescribe(client, blocks, n - 1, now, tags, name);
    }
  }

  lemma BadDescribes(t: TagSpec, now: real, error: string, tags: seq<TagSpec>)
    requires t in tags
    ensures IdOf(BadResult(t, now, error)) in IdsOf(tags)
  {
    SpecIsListed(tags, t);
  }

  /** Whatever the calls end in, each grouped result carries the name, address and group of one configured tag. */
  lemma GroupedResultsDescribe(client: Option<Client>, tags: seq<TagSpec>, s: Settings, now: real, i: nat)
    requires AllValid(tags) && i < |tags|
    ensures IdOf(ReadGrouped(client, tags, s, now)[i]) in IdsOf(tags)
  {
    hide Plan, IdsOf, IdOf, ResultsByName;
    assert tags[i] in tags;
    match client
    case None => BadDescribes(tags[i], now, "Modbus client is not connected", tags);
    case Some(call) =>
      var blocks := PlanFor(tags, s);
      PlanIsServed(tags, s);
      forall k, t | 0 <= k < |blocks| && t in blocks[k].tags
        ensures t in tags
      {
        PlanBlockIsGood(tags, s, k);
      }
      BadDescribes(tags[i], now, "tag was not read", tags);
      if tags[i].name in ResultsByName(call, blocks, |blocks|, now) {
        BlocksDescribe(call, blocks, |blocks|, now, tags, tags[i].name);
      }
  }

  /** So a grouped read of a device is a read of its configuration. */
  lemma ReadsAreReads(config: Configuration, device: DeviceSpec, tags: seq<TagSpec>, client: Option<Client>,
                      s: Settings, now: real, made: real)
    requires AllValid(tags) && config(device) == IdsOf(tags)
    ensures AllRead(config, Q.Split(ReadResult(device, made, ReadGrouped(client, tags, s, now), None)))
  {
    hide ReadGrouped, IdsOf, IdOf, Q.Split;
    var r := ReadResult(device, made, ReadGrouped(client, tags, s, now), None);
    Q.SplitWell(r);
    forall tag | tag in r.tags
      ensures IdOf(tag) in IdsOf(tags)
    {
      var i :| 0 <= i < |r.tags| && r.tags[i] == tag;
      GroupedResultsDescribe(client, tags, s, now, i);
    }
    assert Describes(r.tags, config(r.device));
  }
}
