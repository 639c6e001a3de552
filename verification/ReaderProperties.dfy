/** Grouped reads mean what reading each tag alone means. */
module ReaderProperties {
  import opened Models
  import opened Decode
  import opened Planner
  import opened PlanProperties
  import opened Reader

  // ----- The plan holds every tag exactly once -----

  function AllTags(blocks: seq<ReadBlock>): seq<TagSpec> {
    if blocks == [] then [] else AllTags(blocks[..|blocks| - 1]) + blocks[|blocks| - 1].tags
  }

  lemma {:induction false} AllTagsJoined(a: seq<ReadBlock>, b: seq<ReadBlock>)
    ensures AllTags(a + b) == AllTags(a) + AllTags(b)
    decreases b
  {
    if b == [] {
      assert a + b == a;
    } else {
      var n := |b| - 1;
      assert (a + b)[..|a + b| - 1] == a + b[..n];
      AllTagsJoined(a, b[..n]);
    }
  }

  lemma {:induction false} GroupPlanHoldsGroup(blocks: seq<ReadBlock>, tags: seq<TagSpec>, key: GroupKey, b: Bounds)
    requires AllValid(tags) && IsPlan(blocks, tags, key, b)
    ensures AllTags(blocks) == tags
    decreases blocks
  {
    hide GoodBlock, Joins;
    if blocks != [] {
      var n := |blocks[0].tags|;
      GroupPlanHoldsGroup(blocks[1..], tags[n..], key, b);
      assert [blocks[0]] + blocks[1..] == blocks;
      AllTagsJoined([blocks[0]], blocks[1..]);
      OneBlockTags(blocks[0]);
      assert tags == tags[..n] + tags[n..];
    }
  }

  lemma OneBlockTags(block: ReadBlock)
    ensures AllTags([block]) == block.tags
  {
    assert [block][..0] == [];
    assert AllTags([]) + block.tags == block.tags;
  }

  lemma GroupBlocksHoldGroup(tags: seq<TagSpec>, key: GroupKey, s: Settings)
    requires AllValid(tags)
    ensures multiset(AllTags(GroupBlocks(tags, key, s.defaultUnit, s.gap, s.limits)))
      == multiset(TagsOf(tags, key, s.defaultUnit))
  {
    var group := TagsOf(tags, key, s.defaultUnit);
    GroupIsValid(tags, key, s.defaultUnit);
    SortKeepsMembers(group);
    SortIsSorted(group);
    var b := Bounds(s.gap, LimitOf(s.limits, key.area));
    PlanGroupIsPlan(SortByAddress(group), key, b);
    GroupPlanHoldsGroup(PlanGroup(SortByAddress(group), key, b), SortByAddress(group), key, b);
  }

  lemma {:induction false} TagsOfMultiplicity(tags: seq<TagSpec>, key: GroupKey, defaultUnit: int, t: TagSpec)
    ensures multiset(TagsOf(tags, key, defaultUnit))[t] == if KeyOf(t, defaultUnit) == key then multiset(tags)[t] else 0
    decreases tags
  {
    if tags != [] {
      var n := |tags| - 1;
      assert tags == tags[..n] + [tags[n]];
      TagsOfMultiplicity(tags[..n], key, defaultUnit, t);
    }
  }

  lemma {:induction false} GroupsMultiplicity(tags: seq<TagSpec>, keys: seq<GroupKey>, s: Settings, t: TagSpec)
    requires AllValid(tags) && Distinct(keys)
    ensures multiset(AllTags(PlanGroups(tags, keys, s.defaultUnit, s.gap, s.limits)))[t]
         == if KeyOf(t, s.defaultUnit) in keys then multiset(tags)[t] else 0
    decreases keys
  {
    if keys != [] {
      hide AllTags, TagsOf, GroupBlocks, KeyOf, AllValid;
      var n := |keys| - 1;
      var last := GroupBlocks(tags, keys[n], s.defaultUnit, s.gap, s.limits);
      GroupsMultiplicity(tags, keys[..n], s, t);
      AllTagsJoined(PlanGroups(tags, keys[..n], s.defaultUnit, s.gap, s.limits), last);
      GroupBlocksHoldGroup(tags, keys[n], s);
      TagsOfMultiplicity(tags, keys[n], s.defaultUnit, t);
      assert keys == keys[..n] + [keys[n]];
    }
  }

  /** The blocks partition the tags: each tag is in the plan as often as it is configured. */
  lemma PlanIsPartition(tags: seq<TagSpec>, s: Settings)
    requires AllValid(tags)
    ensures multiset(AllTags(PlanFor(tags, s))) == multiset(tags)
  {
    var keys := GroupKeys(tags, s.defaultUnit);
    GroupKeysMembers(tags, s.defaultUnit);
    forall t: TagSpec
      ensures multiset(AllTags(PlanFor(tags, s)))[t] == multiset(tags)[t]
    {
      GroupsMultiplicity(tags, keys, s, t);
      if KeyOf(t, s.defaultUnit) !in keys {
        TagsOfMultiplicity(tags, KeyOf(t, s.defaultUnit), s.defaultUnit, t);
        assert TagsOf(tags, KeyOf(t, s.defaultUnit), s.defaultUnit) == [];
      }
    }
  }

  // ----- Distinct names -----

  predicate DistinctNames(tags: seq<TagSpec>) {
    forall i, j :: 0 <= i < j < |tags| ==> tags[i].name != tags[j].name
  }

  lemma TwiceInList<T>(s: seq<T>, i: nat, j: nat)
    requires i < j < |s| && s[i] == s[j]
    ensures multiset(s)[s[i]] >= 2
  {
    assert s == s[..j] + s[j..];
    assert s[..j][i] == s[i] && s[j..][0] == s[i];
    assert s[i] in multiset(s[..j]) && s[i] in multiset(s[j..]);
  }

  lemma {:induction false} OnceInDistinct(tags: seq<TagSpec>, t: TagSpec)
    requires DistinctNames(tags)
    ensures multiset(tags)[t] <= 1
    decreases tags
  {
    if tags != [] {
      var n := |tags| - 1;
      assert tags == tags[..n] + [tags[n]];
      OnceInDistinct(tags[..n], t);
      if tags[n] == t {
        assert t !in tags[..n];
        assert t !in multiset(tags[..n]);
      }
    }
  }

  lemma NamesStayDistinct(tags: seq<TagSpec>, planned: seq<TagSpec>)
    requires DistinctNames(tags) && multiset(planned) == multiset(tags)
    ensures DistinctNames(planned)
  {
    forall i, j | 0 <= i < j < |planned|
      ensures planned[i].name != planned[j].name
    {
      if planned[i] == planned[j] {
        TwiceInList(planned, i, j);
        OnceInDistinct(tags, planned[i]);
      } else {
        assert planned[i] in multiset(planned) && planned[j] in multiset(planned);
        assert planned[i] in tags && planned[j] in tags;
      }
    }
  }

  // ----- Each result comes from the tag's own block -----

  ghost predicate InBlock(blocks: seq<ReadBlock>, k: nat, t: TagSpec) {
    k < |blocks| && t in blocks[k].tags
  }

  lemma {:induction false} BlockOf(blocks: seq<ReadBlock>, t: TagSpec) returns (k: nat)
    requires t in AllTags(blocks)
    ensures InBlock(blocks, k, t)
    decreases blocks
  {
    var n := |blocks| - 1;
    if t in blocks[n].tags {
      k := n;
    } else {
      k := BlockOf(blocks[..n], t);
    }
  }

  lemma ServedTag(block: ReadBlock, n: nat)
    requires Served(block) && n < |block.tags|
    ensures ValidTag(block.tags[n]) && block.start <= block.tags[n].address
  {
    assert block.tags[n] in block.tags;
  }

  /** Within a block whose names are distinct, each name maps to its own tag's result. */
  lemma {:induction false} ResultInBlock(response: Response, block: ReadBlock, n: nat, now: real, t: TagSpec)
    requires Served(block) && n <= |block.tags| && DistinctNames(block.tags[..n]) && t in block.tags[..n]
    ensures ValidTag(t) && block.start <= t.address
    ensures t.name in BlockResults(response, block, n, now)
    ensures BlockResults(response, block, n, now)[t.name] == TagFromResponse(response, block.start, t, now)
    decreases n
  {
    hide TagFromResponse, Served, DistinctNames;
    var front, last := block.tags[..n - 1], block.tags[n - 1];
    ServedTag(block, n - 1);
    assert block.tags[..n] == front + [last];
    DistinctParts(front, [last]);
    if t in front { ResultInBlock(response, block, n - 1, now, t); }
  }

  lemma {:induction false} BlockResultNames(response: Response, block: ReadBlock, n: nat, now: real, name: string)
    requires Served(block) && n <= |block.tags|
    requires name in BlockResults(response, block, n, now)
    ensures exists t :: t in block.tags[..n] && t.name == name
    decreases n
  {
    hide TagFromResponse, Served;
    var tag := block.tags[n - 1];
    ServedTag(block, n - 1);
    if tag.name == name {
      assert tag in block.tags[..n];
    } else {
      BlockResultNames(response, block, n - 1, now, name);
      var t :| t in block.tags[..n - 1] && t.name == name;
      assert t in block.tags[..n];
    }
  }

  lemma DistinctParts(a: seq<TagSpec>, b: seq<TagSpec>)
    requires DistinctNames(a + b)
    ensures DistinctNames(a) && DistinctNames(b)
    ensures forall t, u :: t in a && u in b ==> t.name != u.name
  {
    forall t, u | t in a && u in b
      ensures t.name != u.name
    {
      var i :| 0 <= i < |a| && a[i] == t;
      var j :| 0 <= j < |b| && b[j] == u;
      assert (a + b)[i] == t && (a + b)[|a| + j] == u;
    }
    forall i, j | 0 <= i < j < |b|
      ensures b[i].name != b[j].name
    {
      assert (a + b)[|a| + i] == b[i] && (a + b)[|a| + j] == b[j];
    }
    forall i, j | 0 <= i < j < |a|
      ensures a[i].name != a[j].name
    {
      assert (a + b)[i] == a[i] && (a + b)[j] == a[j];
    }
  }

  lemma {:induction false} ResultByOwnBlock(client: Client, blocks: seq<ReadBlock>, n: nat, now: real, t: TagSpec,
                                            k: nat)
    requires AllServed(blocks) && k < n <= |blocks| && t in blocks[k].tags
    requires DistinctNames(AllTags(blocks[..n]))
    ensures t.name in ResultsByName(client, blocks, n, now)
    ensures ResultsByName(client, blocks, n, now)[t.name]
         == TagFromResponse(client(k, RequestOf(blocks[k])), blocks[k].start, t, now)
    decreases n
  {
    var block := blocks[n - 1];
    var front := AllTags(blocks[..n - 1]);
    assert blocks[..n][..n - 1] == blocks[..n - 1];
    assert AllTags(blocks[..n]) == front + block.tags;
    DistinctParts(front, block.tags);
    var response := client(n - 1, RequestOf(block));
    if k == n - 1 {
      assert block.tags[..|block.tags|] == block.tags;
      ResultInBlock(response, block, |block.tags|, now, t);
    } else {
      InAllTags(blocks[..n - 1], k, t);
      ResultByOwnBlock(client, blocks, n - 1, now, t, k);
      OtherNames(response, block, now, t);
    }
  }

  lemma {:induction false} InAllTags(blocks: seq<ReadBlock>, k: nat, t: TagSpec)
    requires InBlock(blocks, k, t)
    ensures t in AllTags(blocks)
    decreases blocks
  {
    var n := |blocks| - 1;
    if k < n { InAllTags(blocks[..n], k, t); }
  }

  lemma OtherNames(response: Response, block: ReadBlock, now: real, t: TagSpec)
    requires Served(block) && forall u :: u in block.tags ==> u.name != t.name
    ensures t.name !in BlockResults(response, block, |block.tags|, now)
  {
    if t.name in BlockResults(response, block, |block.tags|, now) {
      BlockResultNames(response, block, |block.tags|, now, t.name);
    }
  }

  /** With distinct names, whatever the calls end in, the result of a tag is what the response to
      its own block says about it: bad, or decoded from its own slice. */
  lemma OwnBlockDecides(client: Client, tags: seq<TagSpec>, s: Settings, now: real, i: nat) returns (k: nat)
    requires AllValid(tags) && DistinctNames(tags) && i < |tags|
    ensures InBlock(PlanFor(tags, s), k, tags[i]) && AllServed(PlanFor(tags, s))
    ensures var block := PlanFor(tags, s)[k];
      ReadGrouped(Some(client), tags, s, now)[i] == TagFromResponse(client(k, RequestOf(block)), block.start, tags[i],
        now)
  {
    var blocks := PlanFor(tags, s);
    PlanIsServed(tags, s);
    PlanIsPartition(tags, s);
    NamesStayDistinct(tags, AllTags(blocks));
    assert tags[i] in multiset(tags);
    assert tags[i] in AllTags(blocks);
    k := BlockOf(blocks, tags[i]);
    assert blocks[..|blocks|] == blocks;
    ResultByOwnBlock(client, blocks, |blocks|, now, tags[i], k);
  }

  /** A tag is in no other block than the one that decides it. */
  lemma {:induction false} OneBlockOnly(blocks: seq<ReadBlock>, t: TagSpec, k: nat, m: nat)
    requires DistinctNames(AllTags(blocks)) && InBlock(blocks, k, t) && InBlock(blocks, m, t)
    ensures k == m
    decreases blocks
  {
    var n := |blocks| - 1;
    DistinctParts(AllTags(blocks[..n]), blocks[n].tags);
    if k < n { InAllTags(blocks[..n], k, t); }
    if m < n { InAllTags(blocks[..n], m, t); }
    if k < n && m < n { OneBlockOnly(blocks[..n], t, k, m); }
  }

  /** A failure of one call changes nothing for the tags of other blocks. */
  lemma FaultsStayInTheirBlock(client: Client, faulty: Client, tags: seq<TagSpec>, s: Settings, now: real, failed: nat,
                               i: nat)
    requires AllValid(tags) && DistinctNames(tags) && i < |tags|
    requires forall k: nat, r :: k != failed ==> faulty(k, r) == client(k, r)
    requires !InBlock(PlanFor(tags, s), failed, tags[i])
    ensures ReadGrouped(Some(faulty), tags, s, now)[i] == ReadGrouped(Some(client), tags, s, now)[i]
  {
    var k := OwnBlockDecides(client, tags, s, now, i);
    var m := OwnBlockDecides(faulty, tags, s, now, i);
    PlanIsPartition(tags, s);
    NamesStayDistinct(tags, AllTags(PlanFor(tags, s)));
    OneBlockOnly(PlanFor(tags, s), tags[i], k, m);
  }

  // ----- Reading a tag alone -----

  lemma GroupOfOne(t: TagSpec, defaultUnit: int)
    ensures GroupKeys([t], defaultUnit) == [KeyOf(t, defaultUnit)]
    ensures TagsOf([t], KeyOf(t, defaultUnit), defaultUnit) == [t]
    ensures SortByAddress([t]) == [t]
  {
    assert [t][..0] == [];
  }

  lemma BlocksOfOne(t: TagSpec, s: Settings)
    requires ValidTag(t)
    ensures var key := KeyOf(t, s.defaultUnit);
      GroupBlocks([t], key, s.defaultUnit, s.gap, s.limits) == [ReadBlock(key, t.address, ItemCount(t), [t])]
  {
    hide TagsOf, SortByAddress, KeyOf;
    GroupOfOne(t, s.defaultUnit);
    assert [t][1..] == [];
  }

  lemma PlanOfOne(t: TagSpec, s: Settings)
    requires ValidTag(t)
    ensures PlanFor([t], s) == [ReadBlock(KeyOf(t, s.defaultUnit), t.address, ItemCount(t), [t])]
  {
    hide GroupBlocks, GroupKeys, KeyOf;
    var key := KeyOf(t, s.defaultUnit);
    GroupOfOne(t, s.defaultUnit);
    BlocksOfOne(t, s);
    assert [key][..0] == [];
    assert PlanGroups([t], [], s.defaultUnit, s.gap, s.limits) == [];
  }

  function ReadAlone(client: Client, t: TagSpec, s: Settings, now: real): TagResult
    requires ValidTag(t)
  {
    ReadGrouped(Some(client), [t], s, now)[0]
  }

  lemma AloneIsOwnRequest(client: Client, t: TagSpec, s: Settings, now: real)
    requires ValidTag(t)
    ensures ReadAlone(client, t, s, now)
         == TagFromResponse(client(0, Request(KeyOf(t, s.defaultUnit), t.address, ItemCount(t))), t.address, t, now)
  {
    PlanOfOne(t, s);
    var k := OwnBlockDecides(client, [t], s, now, 0);
  }

  // ----- A device with memory -----

  /** What the cells hold, and which addresses there are. */
  datatype Memory = Memory(register: (GroupKey, int) -> u16, bit: (GroupKey, int) -> bool,
    mapped: (GroupKey, int) -> bool)

  function Registers(mem: Memory, key: GroupKey, start: int, count: nat): (r: seq<u16>)
    ensures |r| == count
    ensures forall i :: 0 <= i < count ==> r[i] == mem.register(key, start + i)
  {
    if count == 0 then [] else Registers(mem, key, start, count - 1) + [mem.register(key, start + count - 1)]
  }

  function BitsAt(mem: Memory, key: GroupKey, start: int, count: nat): (r: seq<bool>)
    ensures |r| == count
    ensures forall i :: 0 <= i < count ==> r[i] == mem.bit(key, start + i)
  {
    seq(count, i => mem.bit(key, start + i))
  }

  function FromMemory(mem: Memory, r: Request): Response {
    var count: nat := if r.count >= 0 then r.count else 0;
    Answer(false, "", Registers(mem, r.key, r.start, count), BitsAt(mem, r.key, r.start, count))
  }

  /** All addresses of the request exist. */
  predicate Mapped(mem: Memory, r: Request) {
    forall a :: r.start <= a < r.start + r.count ==> mem.mapped(r.key, a)
  }

  predicate Refused(response: Response) {
    response.Raised? || response.isError
  }

  /** The device does the same with the same request.  Within the limits it answers exactly the requests whose addresses
      all exist, and these from its memory; with larger ones it may do as it pleases. */
  ghost predicate Steady(client: Client, device: Request -> Response, mem: Memory, limits: Limits) {
    && (forall k: nat, r :: client(k, r) == device(r))
    && (forall r: Request :: r.count <= LimitOf(limits, r.key.area) ==>
      if Mapped(mem, r) then device(r) == FromMemory(mem, r) else Refused(device(r)))
  }

  /** What the tag's own cells hold. */
  function TagFromMemory(mem: Memory, t: TagSpec, s: Settings, now: real): TagResult
    requires ValidTag(t)
  {
    TagFromResponse(FromMemory(mem, OwnRequest(t, s)), t.address, t, now)
  }

  function OwnRequest(t: TagSpec, s: Settings): Request
    requires ValidTag(t)
  {
    Request(KeyOf(t, s.defaultUnit), t.address, ItemCount(t))
  }

  lemma RegistersInside(mem: Memory, key: GroupKey, start: int, count: nat, address: int, n: nat)
    requires start <= address && address + n <= start + count
    ensures Slice(Registers(mem, key, start, count), address - start, n) == Registers(mem, key, address, n)
    ensures Slice(Registers(mem, key, address, n), 0, n) == Registers(mem, key, address, n)
  {}

  lemma BitsInside(mem: Memory, key: GroupKey, start: int, count: nat, address: int, n: nat)
    requires start <= address && address + n <= start + count
    ensures Slice(BitsAt(mem, key, start, count), address - start, n) == BitsAt(mem, key, address, n)
    ensures Slice(BitsAt(mem, key, address, n), 0, n) == BitsAt(mem, key, address, n)
  {}

  lemma SliceOfMemory(mem: Memory, t: TagSpec, start: int, count: nat, key: GroupKey, now: real)
    requires ValidTag(t) && start <= t.address && EndOf(t) <= start + count
    ensures TagFromResponse(FromMemory(mem, Request(key, start, count)), start, t, now)
         == TagFromResponse(FromMemory(mem, Request(key, t.address, ItemCount(t))), t.address, t, now)
  {
    hide Registers, BitsAt, Slice, DecodeRegisters, BitValues;
    if IsRegisterArea(t.area) {
      RegistersInside(mem, key, start, count, t.address, ItemCount(t));
    } else {
      BitsInside(mem, key, start, count, t.address, ItemCount(t));
    }
  }

  /** Results that differ at most in the text of an error. */
  predicate SameUpToError(a: TagResult, b: TagResult) {
    a.(error := None) == b.(error := None)
  }

  /** A block does a tag no harm: its addresses all exist, or the tag's own do not, or the tag's cells do not decode
      anyway. */
  predicate Harmless(mem: Memory, block: ReadBlock, t: TagSpec, s: Settings, now: real)
    requires ValidTag(t)
  {
    Mapped(mem, RequestOf(block)) || !Mapped(mem, OwnRequest(t, s)) || TagFromMemory(mem, t, s, now).quality == Bad
  }

  /** The result reports some error for the tag. */
  predicate IsBad(r: TagResult, t: TagSpec, now: real) {
    SameUpToError(r, BadResult(t, now, ""))
  }

  lemma BadIsLikeBad(r: TagResult, t: TagSpec, now: real, error: string)
    requires IsBad(r, t, now)
    ensures SameUpToError(BadResult(t, now, error), r)
  {}

  lemma BadAgainst(a: TagResult, r: TagResult, t: TagSpec, now: real)
    requires IsBad(r, t, now)
    ensures SameUpToError(a, r) <==> SameUpToError(BadResult(t, now, ""), a)
  {}

  lemma MemoryResultsAreAlike(mem: Memory, t: TagSpec, s: Settings, now: real, error: string)
    requires ValidTag(t)
    ensures SameUpToError(BadResult(t, now, error), TagFromMemory(mem, t, s, now)) <==>
      TagFromMemory(mem, t, s, now).quality == Bad
  {
    hide TagFromResponse, FromMemory, SameUpToError;
    BadResultsAreAlike(FromMemory(mem, OwnRequest(t, s)), t.address, t, now, error);
  }

  lemma RefusedIsBad(response: Response, start: int, t: TagSpec, now: real)
    requires ValidTag(t) && start <= t.address && Refused(response)
    ensures TagFromResponse(response, start, t, now) == BadResult(t, now, response.message)
    ensures IsBad(TagFromResponse(response, start, t, now), t, now)
  {}

  lemma BadResultsAreAlike(response: Response, start: int, t: TagSpec, now: real, error: string)
    requires ValidTag(t) && start <= t.address
    ensures var r := TagFromResponse(response, start, t, now);
      if r.quality == Bad then SameUpToError(BadResult(t, now, error), r)
        else !SameUpToError(BadResult(t, now, error), r)
  {}

  lemma BlockAgainstOwn(client: Client, device: Request -> Response, mem: Memory, block: ReadBlock, tags: seq<TagSpec>,
                        s: Settings, t: TagSpec, now: real, k: nat)
    requires GoodPlanBlock(block, tags, s) && t in block.tags && Steady(client, device, mem, s.limits)
    ensures ValidTag(t) && block.start <= t.address && t.area == block.key.area
    ensures var grouped := TagFromResponse(client(k, RequestOf(block)), block.start, t, now);
      var alone := TagFromResponse(client(0, OwnRequest(t, s)), t.address, t, now);
      (Mapped(mem, RequestOf(block)) ==> grouped == alone) &&
      (SameUpToError(grouped, alone) <==> Harmless(mem, block, t, s, now)) &&
      (ItemCount(t) <= LimitOf(s.limits, t.area) ==>
        if Mapped(mem, RequestOf(block)) then grouped == TagFromMemory(mem, t, s, now) else IsBad(grouped, t, now))
  {
    hide TagFromResponse, FromMemory, SameUpToError, Mapped, IsBad;
    var b, own := Bounds(s.gap, LimitOf(s.limits, block.key.area)), OwnRequest(t, s);
    var m :| 0 <= m < |block.tags| && block.tags[m] == t;
    TagsLieInside(block, b, m);
    PartIsMapped(mem, RequestOf(block), own);
    if block.count > b.limit {
      assert RequestOf(block) == own;
      SameAsItself(TagFromResponse(client(0, own), t.address, t, now));
    } else if Mapped(mem, RequestOf(block)) {
      SliceOfMemory(mem, t, block.start, block.count, block.key, now);
      SameAsItself(TagFromResponse(client(0, own), t.address, t, now));
    } else {
      RefusedIsBad(client(k, RequestOf(block)), block.start, t, now);
      BadResultsAreAlike(client(0, own), t.address, t, now, client(k, RequestOf(block)).message);
      if !Mapped(mem, own) { RefusedIsBad(client(0, own), t.address, t, now); }
    }
  }

  lemma SameAsItself(r: TagResult)
    ensures SameUpToError(r, r)
  {}

  lemma PartIsMapped(mem: Memory, whole: Request, part: Request)
    requires whole.key == part.key && whole.start <= part.start && part.start + part.count <= whole.start + whole.count
    ensures Mapped(mem, whole) ==> Mapped(mem, part)
  {}

  /** Against an unchanging device, the grouped result of a tag is, up to error texts, what reading it alone returns,
      exactly if its block is harmless; and if the block's addresses all exist, the results are the same. */
  lemma GroupedReadsRefineSingleReads(client: Client, device: Request -> Response, mem: Memory, tags: seq<TagSpec>,
                                      s: Settings, now: real, i: nat)
    returns (k: nat)
    requires AllValid(tags) && DistinctNames(tags) && i < |tags|
    requires Steady(client, device, mem, s.limits)
    ensures InBlock(PlanFor(tags, s), k, tags[i])
    ensures var block := PlanFor(tags, s)[k];
      var grouped, alone := ReadGrouped(Some(client), tags, s, now)[i], ReadAlone(client, tags[i], s, now);
      (SameUpToError(grouped, alone) <==> Harmless(mem, block, tags[i], s, now)) &&
      (Mapped(mem, RequestOf(block)) ==> grouped == alone) &&
      (ItemCount(tags[i]) <= LimitOf(s.limits, tags[i].area) ==>
        if Mapped(mem, RequestOf(block)) then grouped == TagFromMemory(mem, tags[i], s, now)
          else IsBad(grouped, tags[i], now))
  {
    hide ReadGrouped, ReadAlone, Steady, Harmless, TagFromMemory, TagFromResponse, SameUpToError, Mapped, IsBad;
    var t := tags[i];
    k := OwnBlockDecides(client, tags, s, now, i);
    var block := PlanFor(tags, s)[k];
    PlanGroupsAreGood(tags, GroupKeys(tags, s.defaultUnit), s, k);
    AloneIsOwnRequest(client, t, s, now);
    BlockAgainstOwn(client, device, mem, block, tags, s, t, now, k);
  }

  /** All addresses of the block that holds the tag exist. */
  ghost predicate OwnBlockMapped(mem: Memory, tags: seq<TagSpec>, s: Settings, t: TagSpec)
    requires AllValid(tags)
  {
    forall k: nat :: InBlock(PlanFor(tags, s), k, t) ==> Mapped(mem, RequestOf(PlanFor(tags, s)[k]))
  }

  // ----- Without gaps nothing is read that no tag asks for -----

  ghost predicate Asked(tags: seq<TagSpec>, a: int)
    requires AllValid(tags)
  {
    exists i :: 0 <= i < |tags| && tags[i].address <= a < EndOf(tags[i])
  }

  lemma {:induction false} GaplessChain(tags: seq<TagSpec>, gap: int, a: int)
    requires AllValid(tags) && tags != [] && Chain(tags, gap) && gap <= 0
    requires tags[0].address <= a < MaxEnd(tags)
    ensures Asked(tags, a)
    decreases tags
  {
    var n := |tags| - 1;
    if n > 0 {
      var front := tags[..n];
      assert forall i :: 1 <= i < n ==> front[..i] == tags[..i];
      if a < MaxEnd(front) {
        GaplessChain(front, gap, a);
        var i :| 0 <= i < |front| && front[i].address <= a < EndOf(front[i]);
        assert tags[i] == front[i];
      } else {
        assert tags[n].address <= MaxEnd(tags[..n]) + gap;
      }
    }
  }

  /** A device that has the addresses of all tags does blocks without gaps no harm. */
  lemma GaplessBlocksAreMapped(mem: Memory, tags: seq<TagSpec>, s: Settings, k: nat)
    requires AllValid(tags) && s.gap <= 0 && k < |PlanFor(tags, s)|
    requires forall t :: t in tags ==> ValidTag(t) && Mapped(mem, OwnRequest(t, s))
    ensures Mapped(mem, RequestOf(PlanFor(tags, s)[k]))
  {
    hide Plan;
    PlanBlockIsGood(tags, s, k);
    var block := PlanFor(tags, s)[k];
    forall a | block.start <= a < block.start + block.count
      ensures mem.mapped(block.key, a)
    {
      GaplessChain(block.tags, s.gap, a);
      var i :| 0 <= i < |block.tags| && block.tags[i].address <= a < EndOf(block.tags[i]);
      assert block.tags[i] in block.tags && Mapped(mem, OwnRequest(block.tags[i], s));
    }
  }

  lemma PlanBlockIsGood(tags: seq<TagSpec>, s: Settings, k: nat)
    requires AllValid(tags) && k < |PlanFor(tags, s)|
    ensures GoodPlanBlock(PlanFor(tags, s)[k], tags, s)
  {
    PlanGroupsAreGood(tags, GroupKeys(tags, s.defaultUnit), s, k);
  }

  // ----- Names must be distinct across groups -----

  lemma {:induction false} NameInBlock(response: Response, block: ReadBlock, n: nat, now: real, t: TagSpec)
    requires Served(block) && n <= |block.tags| && t in block.tags[..n]
    ensures t.name in BlockResults(response, block, n, now)
    decreases n
  {
    hide TagFromResponse, Served;
    ServedTag(block, n - 1);
    assert block.tags[..n] == block.tags[..n - 1] + [block.tags[n - 1]];
    if t in block.tags[..n - 1] { NameInBlock(response, block, n - 1, now, t); }
  }

  lemma {:induction false} NameIsRead(client: Client, blocks: seq<ReadBlock>, n: nat, now: real, t: TagSpec, k: nat)
    requires AllServed(blocks) && k < n <= |blocks| && t in blocks[k].tags
    ensures t.name in ResultsByName(client, blocks, n, now)
    decreases n
  {
    var block := blocks[n - 1];
    if k == n - 1 {
      assert block.tags[..|block.tags|] == block.tags;
      NameInBlock(client(k, RequestOf(block)), block, |block.tags|, now, t);
    } else {
      NameIsRead(client, blocks, n - 1, now, t, k);
    }
  }

  /** Tags of one name share one result. */
  lemma SameNameSameResult(client: Client, tags: seq<TagSpec>, s: Settings, now: real, i: nat, j: nat)
    requires AllValid(tags) && i < |tags| && j < |tags| && tags[i].name == tags[j].name
    ensures ReadGrouped(Some(client), tags, s, now)[i] == ReadGrouped(Some(client), tags, s, now)[j]
  {
    hide Plan, ResultsByName;
    var blocks := PlanFor(tags, s);
    PlanIsServed(tags, s);
    PlanIsPartition(tags, s);
    assert tags[i] in multiset(tags);
    assert tags[i] in AllTags(blocks);
    var k := BlockOf(blocks, tags[i]);
    NameIsRead(client, blocks, |blocks|, now, tags[i], k);
  }

  lemma ResultsNameTheirTag(response: Response, start: int, t: TagSpec, now: real)
    requires ValidTag(t) && start <= t.address
    ensures var r := TagFromResponse(response, start, t, now);
      r.name == t.name && r.address == t.address && r.tagGroup == t.tagGroup
  {}

  lemma AloneNamesItsTag(client: Client, t: TagSpec, s: Settings, now: real)
    requires ValidTag(t)
    ensures ReadAlone(client, t, s, now).tagGroup == t.tagGroup
  {
    hide ReadAlone, TagFromResponse;
    AloneIsOwnRequest(client, t, s, now);
    ResultsNameTheirTag(client(0, Request(KeyOf(t, s.defaultUnit), t.address, ItemCount(t))), t.address, t, now);
  }

  /** What the configuration store enforces: names are unique within each tag group. */
  predicate NamesUniquePerGroup(tags: seq<TagSpec>) {
    forall i, j :: 0 <= i < j < |tags| ==> tags[i].name != tags[j].name || tags[i].tagGroup != tags[j].tagGroup
  }

  /** Every block that holds a tag does it no harm. */
  ghost predicate NoHarm(mem: Memory, tags: seq<TagSpec>, s: Settings, now: real)
    requires AllValid(tags)
  {
    forall i: nat, k: nat :: i < |tags| && InBlock(PlanFor(tags, s), k, tags[i]) ==>
      Harmless(mem, PlanFor(tags, s)[k], tags[i], s, now)
  }

  /** For tags that the store accepts, all grouped results are the single ones, up to error texts, exactly if no name
      occurs in two groups and no block does a tag harm. */
  lemma GroupedReadsAgreeExactly(client: Client, device: Request -> Response, mem: Memory, tags: seq<TagSpec>,
                                 s: Settings, now: real)
    requires AllValid(tags) && NamesUniquePerGroup(tags) && Steady(client, device, mem, s.limits)
    ensures (forall i :: 0 <= i < |tags| ==>
              SameUpToError(ReadGrouped(Some(client), tags, s, now)[i], ReadAlone(client, tags[i], s, now)))
       <==> DistinctNames(tags) && NoHarm(mem, tags, s, now)
  {
    hide ReadGrouped, ReadAlone, Steady, PlanFor, Harmless;
    if DistinctNames(tags) {
      forall i | 0 <= i < |tags|
        ensures SameUpToError(ReadGrouped(Some(client), tags, s, now)[i], ReadAlone(client, tags[i], s, now))
           <==> forall k: nat :: InBlock(PlanFor(tags, s), k, tags[i]) ==>
             Harmless(mem, PlanFor(tags, s)[k], tags[i], s, now)
      {
        var k := GroupedReadsRefineSingleReads(client, device, mem, tags, s, now, i);
        forall m: nat | InBlock(PlanFor(tags, s), m, tags[i])
          ensures m == k
        {
          OwnBlockOnly(tags, s, i, m, k);
        }
      }
    } else {
      var i, j :| 0 <= i < j < |tags| && tags[i].name == tags[j].name;
      SameNameSameResult(client, tags, s, now, i, j);
      AloneNamesItsTag(client, tags[i], s, now);
      AloneNamesItsTag(client, tags[j], s, now);
    }
  }

  lemma OwnBlockOnly(tags: seq<TagSpec>, s: Settings, i: nat, k: nat, m: nat)
    requires AllValid(tags) && DistinctNames(tags) && i < |tags|
    requires InBlock(PlanFor(tags, s), k, tags[i]) && InBlock(PlanFor(tags, s), m, tags[i])
    ensures k == m
  {
    hide Plan;
    PlanIsPartition(tags, s);
    NamesStayDistinct(tags, AllTags(PlanFor(tags, s)));
    OneBlockOnly(PlanFor(tags, s), tags[i], k, m);
  }
}
