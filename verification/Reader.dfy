/** Reading tags block by block. */
module Reader {
  import opened Models
  import opened Decode
  import opened Planner
  import opened PlanProperties

  datatype Request = Request(key: GroupKey, start: int, count: int)

  /** What a client call ends in: an exception, or a response that may itself be an error. */
  datatype Response =
    | Raised(message: string)
    | Answer(isError: bool, message: string, registers: seq<u16>, bits: seq<bool>)

  /** The k-th call of a read; calls need not answer alike. */
  type Client = (nat, Request) -> Response

  function RequestOf(block: ReadBlock): Request {
    Request(block.key, block.start, block.count)
  }

  predicate Served(block: ReadBlock) {
    forall t :: t in block.tags ==> ValidTag(t) && block.start <= t.address && t.area == block.key.area
  }

  function BitValues(bits: seq<bool>): seq<Value> {
    if bits == [] then [] else [BoolValue(bits[0])] + BitValues(bits[1..])
  }

  function TagFromBits(bits: seq<bool>, from: nat, tag: TagSpec, now: real): TagResult
    requires ValidTag(tag)
  {
    var values := Slice(bits, from, ValueCount(tag));
    if |values| < ValueCount(tag) then BadResult(tag, now, "not enough bits for " + tag.name)
    else if ValueCount(tag) == 1 then GoodResult(tag, now, BoolValue(values[0]))
    else GoodResult(tag, now, ListValue(BitValues(values)))
  }

  /** What one response says about one tag: bad, or decoded from the tag's own slice. */
  function TagFromResponse(response: Response, start: int, tag: TagSpec, now: real): TagResult
    requires ValidTag(tag) && start <= tag.address
  {
    match response
    case Raised(message) => BadResult(tag, now, message)
    case Answer(isError, message, registers, bits) =>
      if isError then BadResult(tag, now, message)
      else if IsRegisterArea(tag.area) then TagFromRegisters(registers, tag.address - start, tag, now)
      else TagFromBits(bits, tag.address - start, tag, now)
  }

  /** The results of the first n tags of a block, by name. */
  function BlockResults(response: Response, block: ReadBlock, n: nat, now: real): map<string, TagResult>
    requires Served(block) && n <= |block.tags|
    decreases n
  {
    if n == 0 then map[]
    else
      var tag := block.tags[n - 1];
      BlockResults(response, block, n - 1, now)[tag.name := TagFromResponse(response, block.start, tag, now)]
  }

  predicate AllServed(blocks: seq<ReadBlock>) {
    forall k :: 0 <= k < |blocks| ==> Served(blocks[k])
  }

  /** The results of the first n blocks, by name. */
  function ResultsByName(client: Client, blocks: seq<ReadBlock>, n: nat, now: real): map<string, TagResult>
    requires AllServed(blocks) && n <= |blocks|
    decreases n
  {
    if n == 0 then map[]
    else
      var block := blocks[n - 1];
      ResultsByName(client, blocks, n - 1, now)
      + BlockResults(client(n - 1, RequestOf(block)), block, |block.tags|, now)
  }

  function Listed(results: map<string, TagResult>, tags: seq<TagSpec>, now: real): (r: seq<TagResult>)
    ensures |r| == |tags|
    ensures forall i :: 0 <= i < |tags| ==>
      r[i] == if tags[i].name in results then results[tags[i].name] else BadResult(tags[i], now, "tag was not read")
  {
    seq(|tags|, i requires 0 <= i < |tags| =>
      if tags[i].name in results then results[tags[i].name] else BadResult(tags[i], now, "tag was not read"))
  }

  function AllBad(tags: seq<TagSpec>, now: real, error: string): (r: seq<TagResult>)
    ensures |r| == |tags|
  {
    seq(|tags|, i requires 0 <= i < |tags| => BadResult(tags[i], now, error))
  }

  /** How a device is read: which unit answers by default, the largest gap, the limits. */
  datatype Settings = Settings(defaultUnit: int, gap: int, limits: Limits)

  function PlanFor(tags: seq<TagSpec>, s: Settings): seq<ReadBlock>
    requires AllValid(tags)
  {
    Plan(tags, s.defaultUnit, s.gap, s.limits)
  }

  function ReadGrouped(client: Option<Client>, tags: seq<TagSpec>, s: Settings, now: real): (r: seq<TagResult>)
    requires AllValid(tags)
    ensures |r| == |tags|
  {
    match client
    case None => AllBad(tags, now, "Modbus client is not connected")
    case Some(call) =>
      PlanIsServed(tags, s);
      var blocks := PlanFor(tags, s);
      Listed(ResultsByName(call, blocks, |blocks|, now), tags, now)
  }

  // ----- The plan as a whole -----

  lemma {:induction false} PlannedBlock(blocks: seq<ReadBlock>, tags: seq<TagSpec>, key: GroupKey, b: Bounds, k: nat)
    requires AllValid(tags) && IsPlan(blocks, tags, key, b) && k < |blocks|
    ensures GoodBlock(blocks[k], b) && blocks[k].key == key
    ensures forall t :: t in blocks[k].tags ==> t in tags
    decreases k
  {
    var n := |blocks[0].tags|;
    if k > 0 { PlannedBlock(blocks[1..], tags[n..], key, b, k - 1); }
  }

  /** Every block of a plan is well formed and belongs to the group of its tags. */
  lemma GroupBlockIsGood(tags: seq<TagSpec>, key: GroupKey, s: Settings, k: nat)
    requires AllValid(tags) && k < |GroupBlocks(tags, key, s.defaultUnit, s.gap, s.limits)|
    ensures var block := GroupBlocks(tags, key, s.defaultUnit, s.gap, s.limits)[k];
      GoodBlock(block, Bounds(s.gap, LimitOf(s.limits, key.area))) && block.key == key &&
      forall t :: t in block.tags ==> t in tags && KeyOf(t, s.defaultUnit) == key
  {
    var group := TagsOf(tags, key, s.defaultUnit);
    GroupIsValid(tags, key, s.defaultUnit);
    SortKeepsMembers(group);
    SortIsSorted(group);
    TagsOfMembers(tags, key, s.defaultUnit);
    var b := Bounds(s.gap, LimitOf(s.limits, key.area));
    PlanGroupIsPlan(SortByAddress(group), key, b);
    PlannedBlock(PlanGroup(SortByAddress(group), key, b), SortByAddress(group), key, b, k);
  }

  ghost predicate GoodPlanBlock(block: ReadBlock, tags: seq<TagSpec>, s: Settings) {
    GoodBlock(block, Bounds(s.gap, LimitOf(s.limits, block.key.area))) &&
    forall t :: t in block.tags ==> t in tags && KeyOf(t, s.defaultUnit) == block.key
  }

  lemma {:induction false} PlanGroupsAreGood(tags: seq<TagSpec>, keys: seq<GroupKey>, s: Settings, k: nat)
    requires AllValid(tags) && k < |PlanGroups(tags, keys, s.defaultUnit, s.gap, s.limits)|
    ensures GoodPlanBlock(PlanGroups(tags, keys, s.defaultUnit, s.gap, s.limits)[k], tags, s)
    decreases keys
  {
    var n := |keys| - 1;
    var front := PlanGroups(tags, keys[..n], s.defaultUnit, s.gap, s.limits);
    if k < |front| {
      PlanGroupsAreGood(tags, keys[..n], s, k);
    } else {
      GroupBlockIsGood(tags, keys[n], s, k - |front|);
    }
  }

  lemma GoodBlockIsServed(block: ReadBlock, tags: seq<TagSpec>, s: Settings)
    requires GoodPlanBlock(block, tags, s)
    ensures Served(block)
  {
    forall t | t in block.tags
      ensures ValidTag(t) && block.start <= t.address
    {
      var i :| 0 <= i < |block.tags| && block.tags[i] == t;
      TagsLieInside(block, Bounds(s.gap, LimitOf(s.limits, block.key.area)), i);
    }
  }

  lemma PlanIsServed(tags: seq<TagSpec>, s: Settings)
    requires AllValid(tags)
    ensures AllServed(PlanFor(tags, s))
  {
    var blocks := PlanFor(tags, s);
    forall k | 0 <= k < |blocks|
      ensures Served(blocks[k])
    {
      PlanGroupsAreGood(tags, GroupKeys(tags, s.defaultUnit), s, k);
      GoodBlockIsServed(blocks[k], tags, s);
    }
  }

  // ----- The loops -----

  method ReadBlockTags(response: Response, block: ReadBlock, now: real) returns (results: map<string, TagResult>)
    requires Served(block)
    ensures results == BlockResults(response, block, |block.tags|, now)
  {
    hide TagFromResponse;
    results := map[];
    for n := 0 to |block.tags|
      invariant results == BlockResults(response, block, n, now)
    {
      var tag := block.tags[n];
      assert tag in block.tags;
      results := results[tag.name := TagFromResponse(response, block.start, tag, now)];
    }
  }

  method ReadTagsGrouped(client: Option<Client>, tags: seq<TagSpec>, s: Settings, now: real) returns (r: seq<TagResult>)
    requires AllValid(tags)
    ensures r == ReadGrouped(client, tags, s, now)
  {
    if client.None? {
      return AllBad(tags, now, "Modbus client is not connected");
    }
    var results: map<string, TagResult> := map[];
    var blocks := PlanBlocks(tags, s.defaultUnit, s.gap, s.limits);
    PlanIsServed(tags, s);
    hide Plan, BlockResults;
    for k := 0 to |blocks|
      invariant results == ResultsByName(client.value, blocks, k, now)
    {
      var response := client.value(k, RequestOf(blocks[k]));
      var more := ReadBlockTags(response, blocks[k], now);
      results := results + more;
    }
    r := Listed(results, tags, now);
  }
}
