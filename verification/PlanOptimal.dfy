/** No cover of a group's tags by readable sets uses fewer sets than the plan has blocks. */
module PlanOptimal {
  import opened Models
  import opened Decode
  import opened Planner
  import opened PlanProperties

  /** What one read may fetch, whatever the order in which the tags are considered: the tags span
      at most the limit, and every tag but the first starts at most a gap behind the end of some
      tag that starts earlier. */
  ghost predicate Readable(tags: set<TagSpec>, b: Bounds)
    requires forall t :: t in tags ==> ValidTag(t)
  {
    && (forall t, u :: t in tags && u in tags ==> EndOf(u) - t.address <= b.limit)
    && (forall u :: u in tags ==> StartsSet(tags, u) || Follows(tags, u, b.gap))
  }

  ghost predicate StartsSet(tags: set<TagSpec>, u: TagSpec) {
    forall t :: t in tags ==> u.address <= t.address
  }

  ghost predicate Follows(tags: set<TagSpec>, u: TagSpec, gap: int)
    requires forall t :: t in tags ==> ValidTag(t)
  {
    exists t :: t in tags && t.address < u.address && u.address <= EndOf(t) + gap
  }

  /** Every tag can be read on its own. */
  predicate Fit(tags: seq<TagSpec>, b: Bounds) {
    forall t :: t in tags ==> ValidTag(t) && ItemCount(t) <= b.limit
  }

  function BlockEnd(block: ReadBlock): int {
    block.start + block.count
  }

  // ----- The plan, one block at a time -----

  lemma PlanHead(blocks: seq<ReadBlock>, tags: seq<TagSpec>, key: GroupKey, b: Bounds) returns (rest: seq<TagSpec>)
    requires AllValid(tags) && IsPlan(blocks, tags, key, b) && blocks != []
    ensures GoodBlock(blocks[0], b) && tags == blocks[0].tags + rest
    ensures AllValid(rest) && IsPlan(blocks[1..], rest, key, b)
    ensures rest != [] ==> !Joins(rest[0], blocks[0].start, BlockEnd(blocks[0]), b)
    ensures |blocks| > 1 ==> rest != []
  {
    rest := tags[|blocks[0].tags|..];
    if |blocks| > 1 { assert blocks[1..][0].tags != []; }
  }

  lemma FitParts(front: seq<TagSpec>, rest: seq<TagSpec>, b: Bounds)
    requires Fit(front + rest, b)
    ensures Fit(front, b) && Fit(rest, b)
  {
    assert forall t :: t in front ==> t in front + rest;
    assert forall t :: t in rest ==> t in front + rest;
  }

  /** A tag that could not join a block ends behind it. */
  lemma RefusedEndsLater(block: ReadBlock, next: TagSpec, b: Bounds)
    requires GoodBlock(block, b) && Fit(block.tags, b) && b.gap >= 0
    requires ValidTag(next) && !Joins(next, block.start, BlockEnd(block), b)
    ensures EndOf(next) > BlockEnd(block)
  {
    assert block.tags[0] in block.tags;
  }

  /** The refused tag ends behind the block, so also behind the block's first tag. */
  lemma RefusedEndsAfterFirst(block: ReadBlock, rest: seq<TagSpec>, b: Bounds)
    requires GoodBlock(block, b) && Fit(block.tags, b) && b.gap >= 0 && rest != []
    requires ValidTag(rest[0]) && !Joins(rest[0], block.start, BlockEnd(block), b)
    ensures EndOf(block.tags[0]) <= BlockEnd(block) < EndOf(rest[0])
  {
    RefusedEndsLater(block, rest[0], b);
    TagsLieInside(block, b, 0);
  }

  /** The tag that opens a block of a plan. */
  ghost predicate Opens(blocks: seq<ReadBlock>, i: nat, t: TagSpec) {
    i < |blocks| && blocks[i].tags != [] && blocks[i].tags[0] == t
  }

  lemma OpensTail(blocks: seq<ReadBlock>, i: nat, t: TagSpec)
    requires i > 0 && Opens(blocks, i, t)
    ensures |blocks| > 1 && Opens(blocks[1..], i - 1, t)
  {}

  lemma FirstOfJoined(block: ReadBlock, rest: seq<TagSpec>, t: TagSpec)
    requires block.tags != []
    ensures (block.tags + rest)[0] == block.tags[0]
    ensures t in rest ==> t in block.tags + rest
    ensures block.tags[0] in block.tags + rest
  {}

  lemma {:induction false} OpeningTagIsListed(blocks: seq<ReadBlock>, tags: seq<TagSpec>, key: GroupKey, b: Bounds,
                                              j: nat, t: TagSpec)
    requires AllValid(tags) && IsPlan(blocks, tags, key, b) && Opens(blocks, j, t)
    ensures t in tags && tags != []
    decreases j
  {
    hide IsPlan;
    var rest := PlanHead(blocks, tags, key, b);
    if j > 0 { OpeningTagIsListed(blocks[1..], rest, key, b, j - 1, t); }
    FirstOfJoined(blocks[0], rest, t);
  }

  lemma {:induction false} FirstTagsEndLater(blocks: seq<ReadBlock>, tags: seq<TagSpec>, key: GroupKey, b: Bounds,
                                             j: nat, t: TagSpec)
    requires AllValid(tags) && IsPlan(blocks, tags, key, b) && Opens(blocks, j, t) && Fit(tags, b) && b.gap >= 0
    ensures ValidTag(t) && tags != [] && EndOf(tags[0]) <= EndOf(t)
    decreases j
  {
    hide IsPlan;
    var rest := PlanHead(blocks, tags, key, b);
    var block := blocks[0];
    FitParts(block.tags, rest, b);
    if j > 0 {
      RefusedEndsAfterFirst(block, rest, b);
      FirstTagsEndLater(blocks[1..], rest, key, b, j - 1, t);
    }
  }

  // ----- First tags of different blocks cannot share a read -----

  lemma LowestOf(tags: set<TagSpec>) returns (low: TagSpec)
    requires tags != {}
    ensures low in tags && StartsSet(tags, low)
    decreases |tags|
  {
    var t :| t in tags;
    if tags == {t} {
      low := t;
    } else {
      var rest := tags - {t};
      assert tags == rest + {t};
      assert rest != {};
      var other := LowestOf(rest);
      low := if t.address <= other.address then t else other;
    }
  }

  /** A gap that no tag reaches across separates the tags on its two sides. */
  lemma GapSeparates(tags: set<TagSpec>, low: TagSpec, high: TagSpec, end: int, b: Bounds)
    requires forall t :: t in tags ==> ValidTag(t)
    requires forall t :: t in tags ==> EndOf(t) <= end || t.address > end + b.gap
    requires low in tags && high in tags && low.address <= end && high.address > end + b.gap && b.gap >= 0
    ensures !Readable(tags, b)
  {
    var beyond := set t | t in tags && t.address > end + b.gap;
    assert high in beyond;
    var u := LowestOf(beyond);
    assert !StartsSet(tags, u);
    forall t | t in tags && t.address < u.address
      ensures u.address > EndOf(t) + b.gap
    {
      assert t !in beyond;
    }
    assert !Follows(tags, u, b.gap);
  }

  /** Tags outside a block and those it holds all end with it; those behind it start no earlier
      than the one that was refused. */
  lemma SidesOfBoundary(block: ReadBlock, rest: seq<TagSpec>, past: set<TagSpec>, pastEnd: int, t: TagSpec, b: Bounds)
    requires GoodBlock(block, b) && rest != [] && Sorted(rest)
    requires forall p :: p in past ==> ValidTag(p) && EndOf(p) <= pastEnd
    requires pastEnd <= BlockEnd(block)
    requires t in past || t in block.tags || t in rest
    ensures (ValidTag(t) && EndOf(t) <= BlockEnd(block)) || t.address >= rest[0].address
  {
    if t in block.tags {
      var i :| 0 <= i < |block.tags| && block.tags[i] == t;
      TagsLieInside(block, b, i);
    } else if t in rest {
      var i :| 0 <= i < |rest| && rest[i] == t;
      assert i > 0 ==> rest[0].address <= rest[i].address;
    }
  }

  lemma BoundarySeparates(block: ReadBlock, rest: seq<TagSpec>, past: set<TagSpec>, pastEnd: int, high: TagSpec,
                          tags: set<TagSpec>, b: Bounds)
    requires GoodBlock(block, b) && Sorted(rest) && rest != [] && b.gap >= 0
    requires ValidTag(rest[0]) && !Joins(rest[0], block.start, BlockEnd(block), b)
    requires forall p :: p in past ==> ValidTag(p) && EndOf(p) <= pastEnd
    requires pastEnd <= BlockEnd(block)
    requires forall t :: t in tags ==> ValidTag(t) && (t in past || t in block.tags || t in rest)
    requires block.tags[0] in tags && high in tags && high in rest && EndOf(rest[0]) <= EndOf(high)
    requires BlockEnd(block) < EndOf(rest[0])
    ensures !Readable(tags, b)
  {
    var low, end := block.tags[0], BlockEnd(block);
    if rest[0].address > end + b.gap {
      forall t | t in tags
        ensures EndOf(t) <= end || t.address > end + b.gap
      {
        SidesOfBoundary(block, rest, past, pastEnd, t, b);
      }
      SidesOfBoundary(block, rest, past, pastEnd, high, b);
      TagsLieInside(block, b, 0);
      assert high.address >= rest[0].address by {
        var i :| 0 <= i < |rest| && rest[i] == high;
        assert i > 0 ==> rest[0].address <= rest[i].address;
      }
      GapSeparates(tags, low, high, end, b);
    } else {
      assert EndOf(high) - low.address > b.limit;
    }
  }

  function Members(tags: seq<TagSpec>): (r: set<TagSpec>)
    ensures forall t :: t in r <==> t in tags
  {
    set t | t in tags
  }

  /** The tags of earlier blocks all end before the first tag here does. */
  ghost predicate Past(past: set<TagSpec>, pastEnd: int, tags: seq<TagSpec>) {
    (forall p :: p in past ==> ValidTag(p) && EndOf(p) <= pastEnd) &&
    (tags != [] ==> ValidTag(tags[0]) && pastEnd < EndOf(tags[0]))
  }

  ghost predicate ReadFrom(read: set<TagSpec>, past: set<TagSpec>, tags: seq<TagSpec>) {
    forall t :: t in read ==> ValidTag(t) && (t in past || t in tags)
  }

  /** The first block of a plan against any later one. */
  lemma HeadIncompatible(blocks: seq<ReadBlock>, tags: seq<TagSpec>, past: set<TagSpec>, pastEnd: int, key: GroupKey,
                         b: Bounds, low: TagSpec, j: nat, high: TagSpec, read: set<TagSpec>)
    requires AllValid(tags) && IsPlan(blocks, tags, key, b) && Fit(tags, b) && b.gap >= 0 && Sorted(tags)
    requires Past(past, pastEnd, tags) && ReadFrom(read, past, tags)
    requires Opens(blocks, 0, low) && 0 < j && Opens(blocks, j, high) && low in read && high in read
    ensures !Readable(read, b)
  {
    hide IsPlan;
    var rest := PlanHead(blocks, tags, key, b);
    var block := blocks[0];
    FitParts(block.tags, rest, b);
    SortedParts(block.tags, rest);
    OpeningTagIsListed(blocks[1..], rest, key, b, j - 1, high);
    FirstTagsEndLater(blocks[1..], rest, key, b, j - 1, high);
    RefusedEndsAfterFirst(block, rest, b);
    FirstOfJoined(block, rest, low);
    BoundarySeparates(block, rest, past, pastEnd, high, read, b);
  }

  /** What precedes the second block: the first block's tags join those already past. */
  lemma PastGrows(block: ReadBlock, rest: seq<TagSpec>, past: set<TagSpec>, pastEnd: int, read: set<TagSpec>, b: Bounds)
    requires GoodBlock(block, b) && rest != [] && ValidTag(rest[0]) && BlockEnd(block) < EndOf(rest[0])
    requires Past(past, pastEnd, block.tags + rest) && ReadFrom(read, past, block.tags + rest)
    ensures Past(past + Members(block.tags), BlockEnd(block), rest)
    ensures ReadFrom(read, past + Members(block.tags), rest)
  {
    TagsLieInside(block, b, 0);
    FirstOfJoined(block, rest, rest[0]);
    forall p | p in block.tags
      ensures ValidTag(p) && EndOf(p) <= BlockEnd(block)
    {
      var i :| 0 <= i < |block.tags| && block.tags[i] == p;
      TagsLieInside(block, b, i);
    }
  }

  lemma {:induction false} FirstTagsIncompatible(blocks: seq<ReadBlock>, tags: seq<TagSpec>, past: set<TagSpec>,
                                                 pastEnd: int, key: GroupKey, b: Bounds, i: nat, low: TagSpec, j: nat,
                                                 high: TagSpec, read: set<TagSpec>)
    requires AllValid(tags) && IsPlan(blocks, tags, key, b) && Fit(tags, b) && b.gap >= 0 && Sorted(tags)
    requires Past(past, pastEnd, tags) && ReadFrom(read, past, tags)
    requires Opens(blocks, i, low) && i < j && Opens(blocks, j, high) && low in read && high in read
    ensures !Readable(read, b)
    decreases i, 1
  {
    if i == 0 {
      HeadIncompatible(blocks, tags, past, pastEnd, key, b, low, j, high, read);
    } else {
      TailIncompatible(blocks, tags, past, pastEnd, key, b, i, low, j, high, read);
    }
  }

  lemma {:induction false} TailIncompatible(blocks: seq<ReadBlock>, tags: seq<TagSpec>, past: set<TagSpec>,
                                            pastEnd: int, key: GroupKey, b: Bounds, i: nat, low: TagSpec, j: nat,
                                            high: TagSpec, read: set<TagSpec>)
    requires AllValid(tags) && IsPlan(blocks, tags, key, b) && Fit(tags, b) && b.gap >= 0 && Sorted(tags)
    requires Past(past, pastEnd, tags) && ReadFrom(read, past, tags)
    requires Opens(blocks, i, low) && 0 < i < j && Opens(blocks, j, high) && low in read && high in read
    ensures !Readable(read, b)
    decreases i, 0
  {
    hide *;
    OpensTail(blocks, i, low);
    OpensTail(blocks, j, high);
    var rest := PlanHead(blocks, tags, key, b);
    FitParts(blocks[0].tags, rest, b);
    SortedParts(blocks[0].tags, rest);
    RefusedEndsAfterFirst(blocks[0], rest, b);
    PastGrows(blocks[0], rest, past, pastEnd, read, b);
    FirstTagsIncompatible(blocks[1..], rest, past + Members(blocks[0].tags), BlockEnd(blocks[0]), key, b, i - 1, low,
      j - 1, high, read);
  }

  // ----- Counting -----

  /** A family of reads that together fetch every tag, and nothing but these tags. */
  ghost predicate Covers(family: seq<set<TagSpec>>, tags: seq<TagSpec>, b: Bounds)
    requires AllValid(tags)
  {
    && (forall k :: 0 <= k < |family| ==> ReadFrom(family[k], {}, tags) && Readable(family[k], b))
    && (forall t :: t in tags ==> exists k :: 0 <= k < |family| && t in family[k])
  }

  /** Distinct numbers below k are at most k many. */
  lemma Pigeonhole(chosen: seq<nat>, k: nat)
    requires forall i :: 0 <= i < |chosen| ==> chosen[i] < k
    requires forall i, j :: 0 <= i < j < |chosen| ==> chosen[i] != chosen[j]
    ensures |chosen| <= k
    decreases k
  {
    assert |chosen| > 0 ==> chosen[0] < k;
    if k > 0 {
      if i :| 0 <= i < |chosen| && chosen[i] == k - 1 {
        var others := chosen[..i] + chosen[i + 1..];
        assert forall m :: 0 <= m < |others| ==> others[m] == chosen[(if m < i then m else m + 1)];
        Pigeonhole(others, k - 1);
      } else {
        Pigeonhole(chosen, k - 1);
      }
    }
  }

  lemma OpeningTag(blocks: seq<ReadBlock>, tags: seq<TagSpec>, key: GroupKey, b: Bounds, i: nat) returns (t: TagSpec)
    requires AllValid(tags) && IsPlan(blocks, tags, key, b) && i < |blocks|
    ensures Opens(blocks, i, t) && t in tags
    decreases i
  {
    var rest := PlanHead(blocks, tags, key, b);
    if i == 0 {
      t := blocks[0].tags[0];
    } else {
      t := OpeningTag(blocks[1..], rest, key, b, i - 1);
    }
    FirstOfJoined(blocks[0], rest, t);
  }

  /** Which read of a cover fetches the first tag of each block. */
  lemma {:induction false} ReadsOfFirstTags(blocks: seq<ReadBlock>, tags: seq<TagSpec>, key: GroupKey, b: Bounds,
                                            family: seq<set<TagSpec>>, n: nat)
    returns (chosen: seq<nat>)
    requires AllValid(tags) && IsPlan(blocks, tags, key, b) && n <= |blocks| && Covers(family, tags, b)
    ensures |chosen| == n
    ensures forall i :: 0 <= i < n ==>
      chosen[i] < |family| && blocks[i].tags != [] && blocks[i].tags[0] in family[chosen[i]]
    decreases n
  {
    hide IsPlan;
    if n == 0 {
      chosen := [];
    } else {
      chosen := ReadsOfFirstTags(blocks, tags, key, b, family, n - 1);
      var t := OpeningTag(blocks, tags, key, b, n - 1);
      var k :| 0 <= k < |family| && t in family[k];
      chosen := chosen + [k];
    }
  }

  /** The greedy plan is minimal: no cover of the tags by readable sets has fewer members. */
  lemma PlanIsMinimal(tags: seq<TagSpec>, key: GroupKey, b: Bounds, family: seq<set<TagSpec>>)
    requires AllValid(tags) && Sorted(tags) && Fit(tags, b) && b.gap >= 0
    requires Covers(family, tags, b)
    ensures |PlanGroup(tags, key, b)| <= |family|
  {
    var blocks := PlanGroup(tags, key, b);
    PlanGroupIsPlan(tags, key, b);
    var chosen := ReadsOfFirstTags(blocks, tags, key, b, family, |blocks|);
    forall i, j | 0 <= i < j < |chosen|
      ensures chosen[i] != chosen[j]
    {
      if chosen[i] == chosen[j] {
        FirstTagsIncompatible(blocks, tags, {}, tags[0].address, key, b, i, blocks[i].tags[0], j, blocks[j].tags[0],
          family[chosen[i]]);
        assert false;
      }
    }
    Pigeonhole(chosen, |family|);
  }

  /** The plan's own blocks are such a cover, so that its number is the least possible. */
  lemma BlockIsReadable(block: ReadBlock, b: Bounds)
    requires GoodBlock(block, b) && Fit(block.tags, b) && b.gap >= 0
    ensures Readable(Members(block.tags), b)
  {
    var tags := block.tags;
    assert tags[0] in tags;
    forall t, u | t in tags && u in tags
      ensures EndOf(u) - t.address <= b.limit
    {
      var i :| 0 <= i < |tags| && tags[i] == t;
      var j :| 0 <= j < |tags| && tags[j] == u;
      TagsLieInside(block, b, i);
      TagsLieInside(block, b, j);
    }
    forall u | u in tags
      ensures StartsSet(Members(tags), u) || Follows(Members(tags), u, b.gap)
    {
      var i :| 0 <= i < |tags| && tags[i] == u;
      FirstOrFollows(block, b, i);
    }
  }

  lemma OpensBlock(block: ReadBlock, b: Bounds)
    requires GoodBlock(block, b)
    ensures StartsSet(Members(block.tags), block.tags[0])
  {
    forall t | t in block.tags
      ensures block.tags[0].address <= t.address
    {
      var k :| 0 <= k < |block.tags| && block.tags[k] == t;
      TagsLieInside(block, b, k);
    }
  }

  /** A tag that starts later than the one before it follows some earlier tag. */
  lemma FollowsEarlier(block: ReadBlock, b: Bounds, i: nat)
    requires GoodBlock(block, b) && 0 < i < |block.tags| && block.tags[i - 1].address < block.tags[i].address
    ensures Follows(Members(block.tags), block.tags[i], b.gap)
  {
    hide MaxEnd, EndOf;
    var tags := block.tags;
    var m := ReachesMaxEnd(tags[..i]);
    assert tags[..i][m] == tags[m] && tags[m] in tags;
    assert m < i - 1 ==> tags[m].address <= tags[i - 1].address;
  }

  lemma SameAddress(tags: set<TagSpec>, t: TagSpec, u: TagSpec, gap: int)
    requires forall v :: v in tags ==> ValidTag(v)
    requires t.address == u.address && (StartsSet(tags, t) || Follows(tags, t, gap))
    ensures StartsSet(tags, u) || Follows(tags, u, gap)
  {}

  lemma {:induction false} FirstOrFollows(block: ReadBlock, b: Bounds, i: nat)
    requires GoodBlock(block, b) && b.gap >= 0 && i < |block.tags|
    ensures StartsSet(Members(block.tags), block.tags[i]) || Follows(Members(block.tags), block.tags[i], b.gap)
    decreases i
  {
    hide StartsSet, Follows, Chain;
    if i == 0 {
      OpensBlock(block, b);
    } else if block.tags[i - 1].address == block.tags[i].address {
      FirstOrFollows(block, b, i - 1);
      SameAddress(Members(block.tags), block.tags[i - 1], block.tags[i], b.gap);
    } else {
      FollowsEarlier(block, b, i);
    }
  }

  lemma {:induction false} ReachesMaxEnd(tags: seq<TagSpec>) returns (m: nat)
    requires AllValid(tags) && tags != []
    ensures m < |tags| && EndOf(tags[m]) == MaxEnd(tags)
    decreases tags
  {
    var n := |tags| - 1;
    if n == 0 {
      m := 0;
    } else {
      m := ReachesMaxEnd(tags[..n]);
      if EndOf(tags[m]) < EndOf(tags[n]) { m := n; }
    }
  }
}
