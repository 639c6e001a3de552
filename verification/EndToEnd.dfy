/** From the bytes of a poller's own traffic to the poller's own results. */
module EndToEnd {
  import opened Words
  import opened Models
  import opened Decode
  import opened Scanner
  import opened Chunking
  import opened Pairing
  import opened Capture
  import opened Traffic
  import opened Dict
  import opened Monitor
  import opened Agreement
  import Lists
  import Pl = Planner
  import PlanProperties
  import PlanOptimal
  import R = Reader
  import P = ReaderProperties

  // ----- A tag's result depends on the pairs of its own unit and area only -----

  /** The slave and functions that read the tag's unit and area. */
  predicate ReadsTag(key: Key, tag: TagSpec, unit: int) {
    Count(key.0) == unit && AreaOf(key.1) == Some(tag.area)
  }

  function KeysOfTag(tag: TagSpec, unit: int): Key -> bool {
    (key: Key) => ReadsTag(key, tag, unit)
  }

  function InArea(tag: TagSpec, unit: int): Entry<RangeKey, Pair> -> bool {
    (e: Entry<RangeKey, Pair>) => e.key.unit == unit && e.key.area == tag.area
  }

  lemma FilterNothing<T>(p: T -> bool)
    ensures Lists.Filter([], p) == []
  {}

  lemma {:induction false} StoreInArea(d: Ranges, range: RangeKey, x: Pair, tag: TagSpec, unit: int)
    ensures Lists.Filter(Store(d, range, x), InArea(tag, unit)) ==
      if range.unit == unit && range.area == tag.area then Store(Lists.Filter(d, InArea(tag, unit)), range, x)
      else Lists.Filter(d, InArea(tag, unit))
    decreases d
  {
    hide Lists.Filter;
    var p := InArea(tag, unit);
    FilterNothing(p);
    if d == [] {
      assert [Entry(range, x)][1..] == [];
      Lists.FilterFirst([Entry(range, x)], p);
    } else {
      var head := if d[0].key == range then Entry(range, x) else d[0];
      var tail := if d[0].key == range then d[1..] else Store(d[1..], range, x);
      assert Store(d, range, x) == [head] + tail && ([head] + tail)[1..] == tail;
      Lists.FilterFirst(d, p);
      Lists.FilterFirst([head] + tail, p);
      StoreInArea(d[1..], range, x, tag, unit);
      var rest := Lists.Filter(d[1..], p);
      assert ([d[0]] + rest)[1..] == rest && [] + rest == rest;
    }
  }

  lemma RememberNext(xs: seq<Pair>, x: Pair)
    requires Requests(xs) && x.request.ReadRequest?
    ensures Requests(xs + [x]) && LatestPairs(xs + [x]) == Remember(LatestPairs(xs), x)
  {
    assert (xs + [x])[..|xs|] == xs;
  }

  lemma FilterNext<T>(s: seq<T>, x: T, p: T -> bool)
    ensures Lists.Filter(s + [x], p) == Lists.Filter(s, p) + if p(x) then [x] else []
  {
    assert (s + [x])[..|s|] == s;
  }

  predicate InAreaOf(x: Pair, tag: TagSpec, unit: int)
    requires x.request.ReadRequest?
  {
    RangeOf(x).Some? && RangeOf(x).value.unit == unit && RangeOf(x).value.area == tag.area
  }

  lemma RangeByKeys(x: Pair, tag: TagSpec, unit: int)
    requires x.request.ReadRequest?
    ensures About(KeysOfTag(tag, unit))(x) <==> InAreaOf(x, tag, unit)
  {
    var key := KeyOf(x.request);
    assert key.0 == x.request.slave && key.1 == x.request.fn;
    assert ReadsTag(key, tag, unit) <==> InAreaOf(x, tag, unit);
  }

  lemma RememberedNext(ranges: Ranges, x: Pair, tag: TagSpec, unit: int)
    requires x.request.ReadRequest?
    ensures Lists.Filter(Remember(ranges, x), InArea(tag, unit)) ==
      if InAreaOf(x, tag, unit) then Remember(Lists.Filter(ranges, InArea(tag, unit)), x)
      else Lists.Filter(ranges, InArea(tag, unit))
  {
    hide Lists.Filter, Store, InArea;
    if RangeOf(x).Some? { StoreInArea(ranges, RangeOf(x).value, x, tag, unit); }
  }

  /** The ranges remembered of the pairs about the tag's unit and area are those in the area. */
  ghost predicate InAreaAlike(xs: seq<Pair>, tag: TagSpec, unit: int)
    requires Requests(xs)
  {
    var own := Lists.Filter(xs, About(KeysOfTag(tag, unit)));
    Requests(own) && LatestPairs(own) == Lists.Filter(LatestPairs(xs), InArea(tag, unit))
  }

  lemma InAreaAlikeNext(front: seq<Pair>, x: Pair, tag: TagSpec, unit: int)
    requires Requests(front) && x.request.ReadRequest? && InAreaAlike(front, tag, unit)
    ensures Requests(front + [x]) && InAreaAlike(front + [x], tag, unit)
  {
    hide Lists.Filter, LatestPairs, InArea, InAreaOf, Remember, About, KeysOfTag;
    var p := About(KeysOfTag(tag, unit));
    RememberNext(front, x);
    FilterNext(front, x, p);
    RangeByKeys(x, tag, unit);
    RememberedNext(LatestPairs(front), x, tag, unit);
    if p(x) { RememberNext(Lists.Filter(front, p), x); } else { NothingMore(Lists.Filter(front, p)); }
  }

  lemma NothingMore<T>(s: seq<T>)
    ensures s + [] == s
  {}

  lemma {:induction false} RememberedInArea(xs: seq<Pair>, tag: TagSpec, unit: int)
    requires Requests(xs)
    ensures InAreaAlike(xs, tag, unit)
    decreases xs
  {
    if xs == [] {
      FilterNothing(About(KeysOfTag(tag, unit)));
      FilterNothing(InArea(tag, unit));
    } else {
      hide InAreaAlike;
      var front, x := xs[..|xs| - 1], xs[|xs| - 1];
      RememberedInArea(front, tag, unit);
      InAreaAlikeNext(front, x, tag, unit);
      assert xs == front + [x];
    }
  }

  lemma {:induction false} FirstInArea(ranges: Ranges, tag: TagSpec, unit: int)
    ensures FirstRange(Lists.Filter(ranges, InArea(tag, unit)), tag, unit) == FirstRange(ranges, tag, unit)
    decreases ranges
  {
    hide Lists.Filter;
    var p := InArea(tag, unit);
    FilterNothing(p);
    if ranges != [] {
      Lists.FilterFirst(ranges, p);
      FirstInArea(ranges[1..], tag, unit);
      var rest := Lists.Filter(ranges[1..], p);
      assert ([ranges[0]] + rest)[1..] == rest && [] + rest == rest;
    }
  }

  /** Captures with the same pairs of a tag's unit and area give the same result for it. */
  lemma OtherPairsDoNotMatter(xs: seq<Pair>, ys: seq<Pair>, tag: TagSpec, defaultUnit: int, now: real)
    requires Requests(xs) && Requests(ys) && ValidTag(tag)
    requires var about := About(KeysOfTag(tag, Pl.UnitOf(tag, defaultUnit)));
      Lists.Filter(xs, about) == Lists.Filter(ys, about)
    ensures MonitorResult(LatestPairs(xs), tag, defaultUnit, now)
         == MonitorResult(LatestPairs(ys), tag, defaultUnit, now)
  {
    hide LatestPairs, FirstRange, Lists.Filter;
    var unit := Pl.UnitOf(tag, defaultUnit);
    RememberedInArea(xs, tag, unit);
    RememberedInArea(ys, tag, unit);
    FirstInArea(LatestPairs(xs), tag, unit);
    FirstInArea(LatestPairs(ys), tag, unit);
  }

  // ----- The traffic heard against the poller -----

  lemma {:induction false} FormedAreRequests(turns: seq<Turn>)
    requires AreTurns(turns)
    ensures Requests(AllFormed(turns)) && Requests(PairsOf(turns))
    decreases turns
  {
    if turns != [] {
      hide Seen;
      var n := |turns| - 1;
      FormedAreRequests(turns[..n]);
      if Stray(turns[n]) { OpenRequestHasKey(turns[..n], KeyOf(turns[n].frame)); }
    }
  }

  /** The bytes of some turns, with noise around the frames and cut in any way; no stray answer about the tag's unit and
      area comes while a request of its key is open. */
  ghost predicate Overheard(chunks: seq<seq<byte>>, spans: seq<Span>, turns: seq<Turn>, tag: TagSpec, unit: int) {
    && AreTurns(turns)
    && FramesAt(AnyFrame, Joined(chunks), 0, spans) && OnTheWire(Joined(chunks), spans, Sent(turns))
    && NoneMistaken(turns, KeysOfTag(tag, unit))
  }

  function Captured(chunks: seq<seq<byte>>): seq<Pair> {
    PairsIn(RunUntrimmed(AnyFrame, [], chunks).frames)
  }

  lemma OverheardAsExchanged(chunks: seq<seq<byte>>, spans: seq<Span>, turns: seq<Turn>, tag: TagSpec,
                             defaultUnit: int, now: real)
    requires ValidTag(tag) && Overheard(chunks, spans, turns, tag, Pl.UnitOf(tag, defaultUnit))
    ensures Requests(Captured(chunks)) && Requests(PairsOf(turns))
    ensures MonitorResult(LatestPairs(Captured(chunks)), tag, defaultUnit, now)
         == MonitorResult(LatestPairs(PairsOf(turns)), tag, defaultUnit, now)
  {
    hide PairsIn, OnTheWire, FramesAt, RunUntrimmed, NoneMistaken, MonitorResult, LatestPairs, AllFormed, PairsOf,
      Lists.Filter, About, KeysOfTag;
    CaptureRecoversTurns(chunks, spans, turns);
    FormedAreRequests(turns);
    OtherPairsDoNotMatter(Captured(chunks), PairsOf(turns), tag, defaultUnit, now);
  }

  /** A monitor that overhears some masters' traffic with an unchanging device, and a poller of that device, agree on a
      register tag up to error texts, exactly if the tag's cells do not decode, or the tag was heard if and only if the
      addresses of its block exist.  This assumes that every understood exchange with the tag's first address holds all
      of it.  The bytes may begin anywhere, be cut anywhere and have noise between frames; requests may stay unanswered,
      and answers may come whose requests were lost, unless one is mistaken for the answer to an open request about the
      tag's unit and area. */
  lemma OverhearingAgrees(chunks: seq<seq<byte>>, spans: seq<Span>, turns: seq<Turn>, tags: seq<TagSpec>,
                          s: R.Settings, client: R.Client, device: R.Request -> R.Response, mem: P.Memory, now: real,
                          i: nat) returns (k: nat)
    requires Pl.AllValid(tags) && P.DistinctNames(tags) && i < |tags| && P.Steady(client, device, mem, s.limits)
    requires Pl.IsRegisterTag(tags[i]) && ItemCount(tags[i]) <= Pl.LimitOf(s.limits, tags[i].area)
    requires Overheard(chunks, spans, turns, tags[i], Pl.UnitOf(tags[i], s.defaultUnit))
    requires WholeOrMissed(PairsOf(turns), tags[i], Pl.UnitOf(tags[i], s.defaultUnit), mem)
    ensures Requests(Captured(chunks)) && Requests(PairsOf(turns)) && P.InBlock(R.PlanFor(tags, s), k, tags[i])
    ensures var monitor, poller := MonitorResults(Captured(chunks), tags, s.defaultUnit, now)[i],
        R.ReadGrouped(Some(client), tags, s, now)[i];
      var heard := Heard(PairsOf(turns), tags[i], Pl.UnitOf(tags[i], s.defaultUnit));
      var mapped := P.Mapped(mem, R.RequestOf(R.PlanFor(tags, s)[k]));
      var useless := P.TagFromMemory(mem, tags[i], s, now).quality == Bad;
      (heard && mapped ==> monitor == poller) &&
      (P.SameUpToError(monitor, poller) <==> (useless || (heard <==> mapped)))
  {
    hide R.PlanFor, R.ReadGrouped, Captured, Overheard, WholeOrMissed, LatestPairs, MonitorResult, Heard, P.Mapped,
      P.TagFromMemory, P.SameUpToError, P.Steady, PairsOf;
    OverheardAsExchanged(chunks, spans, turns, tags[i], s.defaultUnit, now);
    k := MonitorAgreesWithReader(PairsOf(turns), client, device, mem, tags, s, now, i);
  }

  // ----- Only a tag's own block holds it -----

  ghost predicate NoOverlap(tags: seq<TagSpec>, defaultUnit: int) {
    forall t, u :: t in tags && u in tags && t != u && Pl.KeyOf(t, defaultUnit) == Pl.KeyOf(u, defaultUnit) ==>
      ValidTag(t) && ValidTag(u) && (Pl.EndOf(t) <= u.address || Pl.EndOf(u) <= t.address)
  }

  predicate AllUpTo(block: Pl.ReadBlock, address: int) {
    forall u :: u in block.tags ==> u.address <= address
  }

  predicate AllFrom(block: Pl.ReadBlock, address: int) {
    forall u :: u in block.tags ==> address <= u.address
  }

  /** Blocks are runs of the sorted tags: a tag outside a block is on one side of all its tags. */
  lemma {:induction false} TagBesideBlock(blocks: seq<Pl.ReadBlock>, tags: seq<TagSpec>, key: Pl.GroupKey, b: Pl.Bounds,
                                          k: nat, t: TagSpec)
    requires Pl.AllValid(tags) && Pl.Sorted(tags) && PlanProperties.IsPlan(blocks, tags, key, b)
    requires k < |blocks| && t in tags
    ensures t in blocks[k].tags || AllUpTo(blocks[k], t.address) || AllFrom(blocks[k], t.address)
    decreases k
  {
    var rest := PlanOptimal.PlanHead(blocks, tags, key, b);
    PlanProperties.SortedParts(blocks[0].tags, rest);
    if t in rest {
      if k == 0 {
        InOrder(blocks[0].tags, rest, t);
      } else {
        TagBesideBlock(blocks[1..], rest, key, b, k - 1, t);
      }
    } else if k > 0 {
      R.PlannedBlock(blocks[1..], rest, key, b, k - 1);
      forall u | u in blocks[k].tags
        ensures t.address <= u.address
      {
        InOrder(blocks[0].tags, rest, u);
      }
    }
  }

  lemma InOrder(a: seq<TagSpec>, b: seq<TagSpec>, u: TagSpec)
    requires Pl.Sorted(a + b) && u in b
    ensures forall t :: t in a ==> t.address <= u.address
  {
    var j :| 0 <= j < |b| && b[j] == u;
    forall t | t in a
      ensures t.address <= u.address
    {
      var i :| 0 <= i < |a| && a[i] == t;
      assert (a + b)[i] == t && (a + b)[|a| + j] == u;
    }
  }

  predicate HoldsAddress(block: Pl.ReadBlock, address: int) {
    block.start <= address < block.start + block.count
  }

  lemma HoldsOnlyOwn(block: Pl.ReadBlock, b: Pl.Bounds, tags: seq<TagSpec>, defaultUnit: int, t: TagSpec)
    requires PlanProperties.GoodBlock(block, b) && NoOverlap(tags, defaultUnit)
    requires forall u :: u in block.tags ==> u in tags && Pl.KeyOf(u, defaultUnit) == block.key
    requires t in tags && ValidTag(t) && Pl.KeyOf(t, defaultUnit) == block.key && HoldsAddress(block, t.address)
    requires t in block.tags || AllUpTo(block, t.address) || AllFrom(block, t.address)
    ensures t in block.tags && Pl.EndOf(t) <= block.start + block.count
  {
    if t in block.tags {
      var m :| 0 <= m < |block.tags| && block.tags[m] == t;
      PlanProperties.TagsLieInside(block, b, m);
    } else {
      NotHeldBeside(block, b, tags, defaultUnit, t);
    }
  }

  lemma NotHeldBeside(block: Pl.ReadBlock, b: Pl.Bounds, tags: seq<TagSpec>, defaultUnit: int, t: TagSpec)
    requires PlanProperties.GoodBlock(block, b) && NoOverlap(tags, defaultUnit)
    requires forall u :: u in block.tags ==> u in tags && Pl.KeyOf(u, defaultUnit) == block.key
    requires t in tags && t !in block.tags && ValidTag(t) && Pl.KeyOf(t, defaultUnit) == block.key
    requires AllUpTo(block, t.address) || AllFrom(block, t.address)
    ensures !HoldsAddress(block, t.address)
  {
    var m := PlanOptimal.ReachesMaxEnd(block.tags);
    assert block.tags[m] in block.tags && block.tags[0] in block.tags;
  }

  lemma GroupHoldsOnlyOwn(tags: seq<TagSpec>, key: Pl.GroupKey, s: R.Settings, k: nat, t: TagSpec)
    requires Pl.AllValid(tags) && NoOverlap(tags, s.defaultUnit) && t in tags && ValidTag(t)
    requires k < |Pl.GroupBlocks(tags, key, s.defaultUnit, s.gap, s.limits)| && Pl.KeyOf(t, s.defaultUnit) == key
    ensures var block := Pl.GroupBlocks(tags, key, s.defaultUnit, s.gap, s.limits)[k];
      HoldsAddress(block, t.address) ==> t in block.tags && Pl.EndOf(t) <= block.start + block.count
  {
    var group := Pl.TagsOf(tags, key, s.defaultUnit);
    var sorted := Pl.SortByAddress(group);
    var b := Pl.Bounds(s.gap, Pl.LimitOf(s.limits, key.area));
    Pl.GroupIsValid(tags, key, s.defaultUnit);
    Pl.TagsOfMembers(tags, key, s.defaultUnit);
    Pl.SortKeepsMembers(group);
    Pl.SortIsSorted(group);
    PlanProperties.PlanGroupIsPlan(sorted, key, b);
    R.GroupBlockIsGood(tags, key, s, k);
    var block := Pl.PlanGroup(sorted, key, b)[k];
    TagBesideBlock(Pl.PlanGroup(sorted, key, b), sorted, key, b, k, t);
    if HoldsAddress(block, t.address) { HoldsOnlyOwn(block, b, tags, s.defaultUnit, t); }
  }

  lemma {:induction false} PlanHoldsOnlyOwn(tags: seq<TagSpec>, keys: seq<Pl.GroupKey>, s: R.Settings, k: nat,
                                            t: TagSpec)
    requires Pl.AllValid(tags) && NoOverlap(tags, s.defaultUnit) && t in tags && ValidTag(t)
    requires k < |Pl.PlanGroups(tags, keys, s.defaultUnit, s.gap, s.limits)|
    ensures var block := Pl.PlanGroups(tags, keys, s.defaultUnit, s.gap, s.limits)[k];
      block.key == Pl.KeyOf(t, s.defaultUnit) && HoldsAddress(block, t.address) ==>
        t in block.tags && Pl.EndOf(t) <= block.start + block.count
    decreases keys
  {
    hide Pl.KeyOf, HoldsAddress, NoOverlap, Pl.EndOf;
    var n := |keys| - 1;
    var front := Pl.PlanGroups(tags, keys[..n], s.defaultUnit, s.gap, s.limits);
    if k < |front| {
      PlanHoldsOnlyOwn(tags, keys[..n], s, k, t);
    } else {
      R.GroupBlockIsGood(tags, keys[n], s, k - |front|);
      if keys[n] == Pl.KeyOf(t, s.defaultUnit) { GroupHoldsOnlyOwn(tags, keys[n], s, k - |front|, t); }
    }
  }

  /** If the configured tags of a group do not overlap, a block whose range holds a tag's first address is the tag's
      own, and holds it whole. */
  lemma SeparateTagsAreNotCut(tags: seq<TagSpec>, s: R.Settings, t: TagSpec, k: nat)
    requires Pl.AllValid(tags) && NoOverlap(tags, s.defaultUnit) && t in tags && ValidTag(t) && k < |R.PlanFor(tags, s)|
    ensures var block := R.PlanFor(tags, s)[k];
      block.key == Pl.KeyOf(t, s.defaultUnit) && HoldsAddress(block, t.address) ==>
        P.InBlock(R.PlanFor(tags, s), k, t) && Pl.EndOf(t) <= block.start + block.count
  {
    PlanHoldsOnlyOwn(tags, Pl.GroupKeys(tags, s.defaultUnit), s, k, t);
  }

  lemma TagStartsInBlock(block: Pl.ReadBlock, tags: seq<TagSpec>, s: R.Settings, tag: TagSpec)
    requires R.GoodPlanBlock(block, tags, s) && tag in block.tags
    ensures ValidTag(tag) && Pl.KeyOf(tag, s.defaultUnit) == block.key
    ensures block.start <= tag.address < Pl.EndOf(tag) <= block.start + block.count
  {
    var m :| 0 <= m < |block.tags| && block.tags[m] == tag;
    PlanProperties.TagsLieInside(block, Pl.Bounds(s.gap, Pl.LimitOf(s.limits, block.key.area)), m);
  }

  lemma FirstTagStarts(block: Pl.ReadBlock, tags: seq<TagSpec>, s: R.Settings) returns (j: nat)
    requires R.GoodPlanBlock(block, tags, s)
    ensures j < |tags| && tags[j] in block.tags && ValidTag(tags[j]) && tags[j].address == block.start &&
      block.count > 0
    ensures Pl.KeyOf(tags[j], s.defaultUnit) == block.key
  {
    var first := block.tags[0];
    assert first in block.tags;
    TagStartsInBlock(block, tags, s, first);
    j :| 0 <= j < |tags| && tags[j] == first;
  }

  /** Blocks that start at the same place are the same block. */
  lemma StartsApart(tags: seq<TagSpec>, s: R.Settings, k: nat, n: nat)
    requires Pl.AllValid(tags) && P.DistinctNames(tags) && NoOverlap(tags, s.defaultUnit)
    requires k < |R.PlanFor(tags, s)| && n < |R.PlanFor(tags, s)|
    requires R.PlanFor(tags, s)[k].key == R.PlanFor(tags, s)[n].key &&
      R.PlanFor(tags, s)[k].start == R.PlanFor(tags, s)[n].start
    ensures k == n
  {
    hide R.PlanFor, R.GoodPlanBlock, NoOverlap, P.DistinctNames;
    P.PlanBlockIsGood(tags, s, k);
    P.PlanBlockIsGood(tags, s, n);
    var j := FirstTagStarts(R.PlanFor(tags, s)[k], tags, s);
    var m := FirstTagStarts(R.PlanFor(tags, s)[n], tags, s);
    assert tags[j] in tags;
    SeparateTagsAreNotCut(tags, s, tags[j], n);
    P.OwnBlockOnly(tags, s, j, k, n);
  }

  // ----- A poller of a device that changes -----

  /** The exchange reads the block. */
  predicate Polls(x: Pair, block: Pl.ReadBlock)
    requires x.request.ReadRequest?
  {
    && RangeOf(x) == Some(RangeKey(block.key.unit, block.key.area, block.start))
    && Number(x.request.quantity) == block.count
    && (if IsRegisterArea(block.key.area) then x.response.RegisterResponse? else x.response.DataResponse?)
  }

  /** Exchanges about the tag's unit and area read blocks of the plan, in any order and any number. */
  ghost predicate PollsOf(xs: seq<Pair>, tags: seq<TagSpec>, s: R.Settings, tag: TagSpec)
    requires Pl.AllValid(tags)
  {
    forall i :: 0 <= i < |xs| ==>
      xs[i].request.ReadRequest? &&
        (InAreaOf(xs[i], tag, Pl.UnitOf(tag, s.defaultUnit)) ==>
          exists k :: 0 <= k < |R.PlanFor(tags, s)| && Polls(xs[i], R.PlanFor(tags, s)[k]))
  }

  /** Of a poller's exchanges, those that read the tag's own block hold the tag, and no others do. */
  lemma OwnPollsHold(xs: seq<Pair>, tags: seq<TagSpec>, s: R.Settings, i: nat, k: nat, m: nat)
    requires Pl.AllValid(tags) && P.DistinctNames(tags) && NoOverlap(tags, s.defaultUnit)
    requires i < |tags| && Pl.IsRegisterTag(tags[i]) && P.InBlock(R.PlanFor(tags, s), k, tags[i]) && m < |xs|
    requires PollsOf(xs, tags, s, tags[i])
    ensures Holds(xs[m], tags[i], Pl.UnitOf(tags[i], s.defaultUnit)) <==> Polls(xs[m], R.PlanFor(tags, s)[k])
  {
    hide R.PlanFor, NoOverlap, Pl.EndOf, P.DistinctNames, R.GoodPlanBlock;
    var block, tag := R.PlanFor(tags, s)[k], tags[i];
    P.PlanBlockIsGood(tags, s, k);
    TagStartsInBlock(block, tags, s, tag);
    if Holds(xs[m], tag, Pl.UnitOf(tag, s.defaultUnit)) {
      assert tag in tags && InAreaOf(xs[m], tag, Pl.UnitOf(tag, s.defaultUnit));
      var n :| 0 <= n < |R.PlanFor(tags, s)| && Polls(xs[m], R.PlanFor(tags, s)[n]);
      SeparateTagsAreNotCut(tags, s, tag, n);
      P.OwnBlockOnly(tags, s, i, n, k);
    }
  }

  /** So if they are from one memory, they meet what `OverhearingAgrees` asks of them. */
  lemma PollsAreWhole(xs: seq<Pair>, tags: seq<TagSpec>, s: R.Settings, mem: P.Memory, i: nat, k: nat)
    requires Pl.AllValid(tags) && P.DistinctNames(tags) && NoOverlap(tags, s.defaultUnit)
    requires i < |tags| && Pl.IsRegisterTag(tags[i]) && P.InBlock(R.PlanFor(tags, s), k, tags[i])
    requires PollsOf(xs, tags, s, tags[i]) && forall x :: x in xs ==> FromMemory(x, mem)
    ensures WholeOrMissed(xs, tags[i], Pl.UnitOf(tags[i], s.defaultUnit), mem)
  {
    hide R.PlanFor, NoOverlap, P.DistinctNames, R.GoodPlanBlock, HoldsFirst, FromMemory, PollsOf, Pl.EndOf;
    P.PlanBlockIsGood(tags, s, k);
    TagStartsInBlock(R.PlanFor(tags, s)[k], tags, s, tags[i]);
    forall x | x in xs && Holds(x, tags[i], Pl.UnitOf(tags[i], s.defaultUnit))
      ensures Whole(x, tags[i])
    {
      var m :| 0 <= m < |xs| && xs[m] == x;
      OwnPollsHold(xs, tags, s, i, k, m);
    }
  }

  /** Exchange m is the latest that reads the block. */
  ghost predicate LatestPoll(xs: seq<Pair>, block: Pl.ReadBlock, m: nat) {
    m < |xs| && Requests(xs) && Polls(xs[m], block) && forall j :: m < j < |xs| ==> !Polls(xs[j], block)
  }

  ghost predicate NeverPolled(xs: seq<Pair>, block: Pl.ReadBlock) {
    forall j :: 0 <= j < |xs| && xs[j].request.ReadRequest? ==> !Polls(xs[j], block)
  }

  /** A later exchange of a block's range reads that block: no other begins there. */
  lemma SameRangeSameBlock(xs: seq<Pair>, tags: seq<TagSpec>, s: R.Settings, i: nat, k: nat, m: nat, j: nat)
    requires Pl.AllValid(tags) && P.DistinctNames(tags) && NoOverlap(tags, s.defaultUnit)
    requires i < |tags| && P.InBlock(R.PlanFor(tags, s), k, tags[i]) && m < |xs| && j < |xs|
    requires PollsOf(xs, tags, s, tags[i])
    requires Polls(xs[m], R.PlanFor(tags, s)[k]) && RangeOf(xs[j]) == RangeOf(xs[m])
    ensures Polls(xs[j], R.PlanFor(tags, s)[k])
  {
    hide R.PlanFor, NoOverlap, P.DistinctNames, R.GoodPlanBlock;
    P.PlanBlockIsGood(tags, s, k);
    TagStartsInBlock(R.PlanFor(tags, s)[k], tags, s, tags[i]);
    assert tags[i] in tags && InAreaOf(xs[j], tags[i], Pl.UnitOf(tags[i], s.defaultUnit));
    var n :| 0 <= n < |R.PlanFor(tags, s)| && Polls(xs[j], R.PlanFor(tags, s)[n]);
    StartsApart(tags, s, k, n);
  }

  /** The exchange that the monitor reports from is the latest that read the tag's block. */
  lemma LatestPollIsReported(xs: seq<Pair>, tags: seq<TagSpec>, s: R.Settings, i: nat, k: nat)
    requires Pl.AllValid(tags) && P.DistinctNames(tags) && NoOverlap(tags, s.defaultUnit)
    requires i < |tags| && Pl.IsRegisterTag(tags[i]) && P.InBlock(R.PlanFor(tags, s), k, tags[i])
    requires PollsOf(xs, tags, s, tags[i])
    ensures Requests(xs)
    ensures forall m: nat :: m < |xs| && Reported(xs, tags[i], Pl.UnitOf(tags[i], s.defaultUnit), m) ==>
      LatestPoll(xs, R.PlanFor(tags, s)[k], m)
    ensures Heard(xs, tags[i], Pl.UnitOf(tags[i], s.defaultUnit)) <==>
      exists m: nat :: LatestPoll(xs, R.PlanFor(tags, s)[k], m)
  {
    hide R.PlanFor, NoOverlap, P.DistinctNames, Polls, HoldsFirst, Holds, SeenNoLater, PollsOf, RangeOf;
    PollsAreRequests(xs, tags, s, tags[i]);
    var block, unit := R.PlanFor(tags, s)[k], Pl.UnitOf(tags[i], s.defaultUnit);
    forall m: nat | m < |xs| && Settled(xs, m) && Holds(xs[m], tags[i], unit)
      ensures LatestPoll(xs, block, m)
    {
      OwnPollsHold(xs, tags, s, i, k, m);
      forall j | m < j < |xs|
        ensures !Polls(xs[j], block)
      {
        if Polls(xs[j], block) { PollsShareRange(xs[m], xs[j], block); }
      }
    }
    forall m: nat | LatestPoll(xs, block, m)
      ensures Settled(xs, m) && Holds(xs[m], tags[i], unit)
    {
      OwnPollsHold(xs, tags, s, i, k, m);
      PollsShareRange(xs[m], xs[m], block);
      forall j | m < j < |xs|
        ensures RangeOf(xs[j]) != RangeOf(xs[m])
      {
        if RangeOf(xs[j]) == RangeOf(xs[m]) { SameRangeSameBlock(xs, tags, s, i, k, m, j); }
      }
    }
  }

  lemma PollsAreRequests(xs: seq<Pair>, tags: seq<TagSpec>, s: R.Settings, tag: TagSpec)
    requires Pl.AllValid(tags) && PollsOf(xs, tags, s, tag)
    ensures Requests(xs)
  {}

  lemma PollsShareRange(x: Pair, y: Pair, block: Pl.ReadBlock)
    requires x.request.ReadRequest? && y.request.ReadRequest? && Polls(x, block) && Polls(y, block)
    ensures RangeOf(x).Some? && RangeOf(x) == RangeOf(y)
  {}

  /** A read gets from the device what the exchange shows. */
  predicate AnswersAs(response: R.Response, x: Pair) {
    response.Answer? && !response.isError && x.response.RegisterResponse? &&
    response.registers == Values(x.response.registers)
  }

  /** Exchange m is the latest that reads the block, and the response is what it shows. */
  ghost predicate LatestAnswer(xs: seq<Pair>, block: Pl.ReadBlock, m: nat, response: R.Response) {
    LatestPoll(xs, block, m) && AnswersAs(response, xs[m])
  }

  lemma PollHolds(x: Pair, block: Pl.ReadBlock, tags: seq<TagSpec>, s: R.Settings, tag: TagSpec)
    requires R.GoodPlanBlock(block, tags, s) && tag in block.tags && Pl.IsRegisterTag(tag)
    requires x.request.ReadRequest? && Polls(x, block)
    ensures Holds(x, tag, Pl.UnitOf(tag, s.defaultUnit)) && RangeOf(x).value.start == block.start
    ensures ValidTag(tag) && block.start <= tag.address
  {
    hide R.GoodPlanBlock, RangeOf, Pl.EndOf;
    TagStartsInBlock(block, tags, s, tag);
  }

  lemma AnswerTells(response: R.Response, x: Pair, start: int, tag: TagSpec, now: real)
    requires AnswersAs(response, x) && ValidTag(tag) && Pl.IsRegisterTag(tag) && start <= tag.address
    ensures R.TagFromResponse(response, start, tag, now)
         == TagFromRegisters(Values(x.response.registers), tag.address - start, tag, now)
  {}

  lemma PollTells(x: Pair, tags: seq<TagSpec>, s: R.Settings, client: R.Client, now: real, i: nat, k: nat)
    requires Pl.AllValid(tags) && P.DistinctNames(tags) && i < |tags| && Pl.IsRegisterTag(tags[i])
    requires P.InBlock(R.PlanFor(tags, s), k, tags[i]) && x.request.ReadRequest?
    requires Polls(x, R.PlanFor(tags, s)[k]) && AnswersAs(client(k, R.RequestOf(R.PlanFor(tags, s)[k])), x)
    ensures Holds(x, tags[i], Pl.UnitOf(tags[i], s.defaultUnit))
    ensures Told(x, tags[i], now) == R.ReadGrouped(Some(client), tags, s, now)[i]
  {
    hide R.PlanFor, R.ReadGrouped, P.DistinctNames, TagFromRegisters, Values, R.TagFromResponse, R.GoodPlanBlock, Polls,
      HoldsFirst, RangeOf, AnswersAs;
    var block := R.PlanFor(tags, s)[k];
    P.PlanBlockIsGood(tags, s, k);
    PollHolds(x, block, tags, s, tags[i]);
    var m := P.OwnBlockDecides(client, tags, s, now, i);
    P.OwnBlockOnly(tags, s, i, m, k);
    AnswerTells(client(k, R.RequestOf(block)), x, block.start, tags[i], now);
  }

  /** The monitor says of a tag what the poller itself said at the latest poll whose exchange of the tag's block was
      understood, whatever the device holds before and after. */
  lemma MonitorTellsLatestPoll(xs: seq<Pair>, tags: seq<TagSpec>, s: R.Settings, client: R.Client, now: real, i: nat,
                               k: nat, m: nat)
    requires Pl.AllValid(tags) && P.DistinctNames(tags) && NoOverlap(tags, s.defaultUnit)
    requires i < |tags| && Pl.IsRegisterTag(tags[i]) && P.InBlock(R.PlanFor(tags, s), k, tags[i])
    requires PollsOf(xs, tags, s, tags[i])
    ensures Requests(xs)
    ensures LatestAnswer(xs, R.PlanFor(tags, s)[k], m, client(k, R.RequestOf(R.PlanFor(tags, s)[k]))) ==>
      MonitorResults(xs, tags, s.defaultUnit, now)[i] == R.ReadGrouped(Some(client), tags, s, now)[i]
    ensures NeverPolled(xs, R.PlanFor(tags, s)[k]) ==>
      MonitorResults(xs, tags, s.defaultUnit, now)[i] == BadResult(tags[i], now, NOT_OBSERVED)
  {
    hide R.PlanFor, R.ReadGrouped, P.DistinctNames, NoOverlap, PollsOf, Polls, Holds, AnswersAs, Told, LatestPairs,
      MonitorResult, Heard, Settled, SeenNoLater;
    var unit := Pl.UnitOf(tags[i], s.defaultUnit);
    LatestPollIsReported(xs, tags, s, i, k);
    var n := MonitorTellsReported(xs, tags[i], s.defaultUnit, now);
    if LatestAnswer(xs, R.PlanFor(tags, s)[k], m, client(k, R.RequestOf(R.PlanFor(tags, s)[k]))) {
      assert n == m;
      PollTells(xs[m], tags, s, client, now, i, k);
    }
  }

  /** The same from the bytes. */
  lemma OverhearingTellsLatestPoll(chunks: seq<seq<byte>>, spans: seq<Span>, turns: seq<Turn>, tags: seq<TagSpec>,
                                   s: R.Settings, client: R.Client, now: real, i: nat, k: nat, m: nat)
    requires Pl.AllValid(tags) && P.DistinctNames(tags) && NoOverlap(tags, s.defaultUnit)
    requires i < |tags| && Pl.IsRegisterTag(tags[i]) && P.InBlock(R.PlanFor(tags, s), k, tags[i])
    requires PollsOf(PairsOf(turns), tags, s, tags[i])
    requires Overheard(chunks, spans, turns, tags[i], Pl.UnitOf(tags[i], s.defaultUnit))
    ensures Requests(Captured(chunks))
    ensures LatestAnswer(PairsOf(turns), R.PlanFor(tags, s)[k], m, client(k, R.RequestOf(R.PlanFor(tags, s)[k]))) ==>
      MonitorResults(Captured(chunks), tags, s.defaultUnit, now)[i] == R.ReadGrouped(Some(client), tags, s, now)[i]
    ensures NeverPolled(PairsOf(turns), R.PlanFor(tags, s)[k]) ==>
      MonitorResults(Captured(chunks), tags, s.defaultUnit, now)[i] == BadResult(tags[i], now, NOT_OBSERVED)
  {
    hide R.PlanFor, R.ReadGrouped, Captured, Overheard, LatestPairs, MonitorResult, PairsOf, NeverPolled, LatestAnswer,
      NoOverlap, P.DistinctNames, PollsOf;
    OverheardAsExchanged(chunks, spans, turns, tags[i], s.defaultUnit, now);
    MonitorTellsLatestPoll(PairsOf(turns), tags, s, client, now, i, k, m);
  }
}
