/** The plan of a group is sound: its blocks hold the tags, and read little more. */
module PlanProperties {
  import opened Models
  import opened Decode
  import opened Planner

  /** The largest end among the tags. */
  function MaxEnd(tags: seq<TagSpec>): int
    requires AllValid(tags) && tags != []
    decreases tags
  {
    if |tags| == 1 then EndOf(tags[0]) else Max(MaxEnd(tags[..|tags| - 1]), EndOf(tags[|tags| - 1]))
  }

  /** Each tag starts at most a gap behind everything before it. */
  ghost predicate Chain(tags: seq<TagSpec>, gap: int)
    requires AllValid(tags)
  {
    forall i :: 1 <= i < |tags| ==> tags[i].address <= MaxEnd(tags[..i]) + gap
  }

  ghost predicate GoodBlock(block: ReadBlock, b: Bounds) {
    && block.tags != [] && AllValid(block.tags) && Sorted(block.tags) && Chain(block.tags, b.gap)
    && block.start == block.tags[0].address && block.start + block.count == MaxEnd(block.tags)
    && (block.count > b.limit ==> |block.tags| == 1)
  }

  /** The blocks hold exactly the given tags in that order; each is well formed; and each was
      closed only because the next tag could not join it. */
  ghost predicate IsPlan(blocks: seq<ReadBlock>, tags: seq<TagSpec>, key: GroupKey, b: Bounds)
    requires AllValid(tags)
    decreases blocks
  {
    if blocks == [] then tags == []
    else
      var first, n := blocks[0], |blocks[0].tags|;
      && GoodBlock(first, b) && first.key == key
      && n <= |tags| && first.tags == tags[..n]
      && (n < |tags| ==> !Joins(tags[n], first.start, first.start + first.count, b))
      && IsPlan(blocks[1..], tags[n..], key, b)
  }

  lemma OneTagBlock(tag: TagSpec, key: GroupKey, b: Bounds)
    requires ValidTag(tag)
    ensures GoodBlock(ReadBlock(key, tag.address, EndOf(tag) - tag.address, [tag]), b)
  {}

  lemma LongerBlock(block: ReadBlock, tag: TagSpec, b: Bounds)
    requires GoodBlock(block, b) && ValidTag(tag) && Sorted(block.tags + [tag])
    requires Joins(tag, block.start, block.start + block.count, b)
    ensures var end := Max(block.start + block.count, EndOf(tag));
      GoodBlock(ReadBlock(block.key, block.start, end - block.start, block.tags + [tag]), b)
  {
    var longer := block.tags + [tag];
    assert longer[..|block.tags|] == block.tags;
    forall i | 1 <= i < |longer|
      ensures AllValid(longer) && longer[i].address <= MaxEnd(longer[..i]) + b.gap
    {
      assert i < |block.tags| ==> longer[..i] == block.tags[..i];
    }
  }

  lemma OneBlockPlan(block: ReadBlock, b: Bounds)
    requires GoodBlock(block, b)
    ensures IsPlan([block], block.tags, block.key, b)
  {
    assert [block][1..] == [];
    assert block.tags[|block.tags|..] == [];
  }

  lemma ClosedBlock(block: ReadBlock, more: seq<ReadBlock>, rest: seq<TagSpec>, b: Bounds)
    requires GoodBlock(block, b) && AllValid(rest) && rest != [] && IsPlan(more, rest, block.key, b)
    requires !Joins(rest[0], block.start, block.start + block.count, b)
    ensures AllValid(block.tags + rest) && IsPlan([block] + more, block.tags + rest, block.key, b)
  {
    var all, tags, n := [block] + more, block.tags + rest, |block.tags|;
    assert all[1..] == more && tags[n..] == rest && tags[..n] == block.tags;
  }

  lemma HeadMoves(current: seq<TagSpec>, tag: TagSpec, tail: seq<TagSpec>)
    ensures current + ([tag] + tail) == (current + [tag]) + tail
  {}

  lemma {:induction false} GreedyIsPlan(rest: seq<TagSpec>, current: seq<TagSpec>, start: int, end: int, key: GroupKey,
                                        b: Bounds)
    requires AllValid(rest) && AllValid(current + rest) && Sorted(current + rest)
    requires GoodBlock(ReadBlock(key, start, end - start, current), b)
    ensures IsPlan(Greedy(rest, current, start, end, key, b), current + rest, key, b)
    decreases rest
  {
    var block := ReadBlock(key, start, end - start, current);
    if rest == [] {
      assert current + rest == current;
      OneBlockPlan(block, b);
    } else {
      var tag, tail := rest[0], rest[1..];
      assert rest == [tag] + tail;
      if Joins(tag, start, end, b) {
        HeadMoves(current, tag, tail);
        SortedParts(current + [tag], tail);
        LongerBlock(block, tag, b);
        GreedyIsPlan(tail, current + [tag], start, Max(end, EndOf(tag)), key, b);
      } else {
        SortedParts(current, rest);
        OneTagBlock(tag, key, b);
        GreedyIsPlan(tail, [tag], tag.address, EndOf(tag), key, b);
        ClosedBlock(block, Greedy(tail, [tag], tag.address, EndOf(tag), key, b), rest, b);
      }
    }
  }

  lemma SortedParts(a: seq<TagSpec>, b: seq<TagSpec>)
    requires Sorted(a + b)
    ensures Sorted(a) && Sorted(b)
  {
    forall i, j | 0 <= i < j < |a| ensures a[i].address <= a[j].address {
      assert (a + b)[i] == a[i] && (a + b)[j] == a[j];
    }
    forall i, j | 0 <= i < j < |b| ensures b[i].address <= b[j].address {
      assert (a + b)[|a| + i] == b[i] && (a + b)[|a| + j] == b[j];
    }
  }

  /** The plan of a group holds the group's tags, in order of address, in well formed blocks. */
  lemma PlanGroupIsPlan(sorted: seq<TagSpec>, key: GroupKey, b: Bounds)
    requires AllValid(sorted) && Sorted(sorted)
    ensures IsPlan(PlanGroup(sorted, key, b), sorted, key, b)
  {
    if sorted != [] {
      assert [sorted[0]] + sorted[1..] == sorted;
      OneTagBlock(sorted[0], key, b);
      GreedyIsPlan(sorted[1..], [sorted[0]], sorted[0].address, EndOf(sorted[0]), key, b);
    }
  }

  // ----- What a block reads -----

  lemma {:induction false} MaxEndCovers(tags: seq<TagSpec>, i: nat)
    requires AllValid(tags) && i < |tags|
    ensures EndOf(tags[i]) <= MaxEnd(tags)
    decreases tags
  {
    if i < |tags| - 1 { MaxEndCovers(tags[..|tags| - 1], i); }
  }

  /** Every tag lies wholly inside its block. */
  lemma TagsLieInside(block: ReadBlock, b: Bounds, i: nat)
    requires GoodBlock(block, b) && i < |block.tags|
    ensures block.start <= block.tags[i].address && EndOf(block.tags[i]) <= block.start + block.count
  {
    MaxEndCovers(block.tags, i);
    assert i > 0 ==> block.tags[0].address <= block.tags[i].address;
  }

  function TotalItems(tags: seq<TagSpec>): nat
    requires AllValid(tags)
    decreases tags
  {
    if tags == [] then 0 else TotalItems(tags[..|tags| - 1]) + ItemCount(tags[|tags| - 1])
  }

  lemma {:induction false} ChainIsTight(tags: seq<TagSpec>, gap: nat)
    requires AllValid(tags) && tags != [] && Chain(tags, gap)
    ensures MaxEnd(tags) - tags[0].address <= TotalItems(tags) + (|tags| - 1) * gap
    decreases tags
  {
    if |tags| > 1 {
      var n := |tags| - 1;
      var front := tags[..n];
      forall i | 1 <= i < n
        ensures AllValid(front) && front[i].address <= MaxEnd(front[..i]) + gap
      {
        assert front[..i] == tags[..i];
      }
      ChainIsTight(front, gap);
      assert (n - 1) * gap + gap == n * gap;
    }
  }

  /** What a block reads beyond its tags is at most one gap per boundary between tags. */
  lemma BlockReadsLittle(block: ReadBlock, b: Bounds)
    requires GoodBlock(block, b) && b.gap >= 0
    ensures block.count <= TotalItems(block.tags) + (|block.tags| - 1) * b.gap
  {
    ChainIsTight(block.tags, b.gap);
  }
}
