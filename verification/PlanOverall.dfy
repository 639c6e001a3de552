/** The whole plan, over all groups, needs the fewest reads. */
module PlanOverall {
  import opened Models
  import opened Decode
  import opened Planner
  import opened PlanProperties
  import opened PlanOptimal
  import Reader
  import ReaderProperties

  function BoundsOf(key: GroupKey, gap: int, limits: Limits): Bounds {
    Bounds(gap, LimitOf(limits, key.area))
  }

  /** One request asks one unit for one area. */
  ghost predicate OneGroup(tags: set<TagSpec>, key: GroupKey, defaultUnit: int) {
    forall t :: t in tags ==> KeyOf(t, defaultUnit) == key
  }

  /** A family of requests, each within one group and its limits, that together fetch every tag. */
  ghost predicate ReadsAll(family: seq<set<TagSpec>>, keys: seq<GroupKey>, tags: seq<TagSpec>, defaultUnit: int,
                           gap: int, limits: Limits)
    requires AllValid(tags)
  {
    && |keys| == |family|
    && (forall k :: 0 <= k < |family| ==>
      ReadFrom(family[k], {}, tags) && OneGroup(family[k], keys[k], defaultUnit) &&
      Readable(family[k], BoundsOf(keys[k], gap, limits)))
    && (forall t :: t in tags ==> exists k :: 0 <= k < |family| && t in family[k])
  }

  /** Every tag fits into a request of its own. */
  predicate AllFit(tags: seq<TagSpec>, limits: Limits) {
    forall t :: t in tags ==> ValidTag(t) && ItemCount(t) <= LimitOf(limits, t.area)
  }

  /** The requests of one group. */
  function Restrict(family: seq<set<TagSpec>>, keys: seq<GroupKey>, key: GroupKey): seq<set<TagSpec>>
    requires |keys| == |family|
    decreases family
  {
    if family == [] then []
    else (if keys[0] == key then [family[0]] else []) + Restrict(family[1..], keys[1..], key)
  }

  lemma {:induction false} RestrictMembers(family: seq<set<TagSpec>>, keys: seq<GroupKey>, key: GroupKey, k: nat)
    requires |keys| == |family| && k < |family| && keys[k] == key
    ensures family[k] in Restrict(family, keys, key)
    decreases family
  {
    if k > 0 { RestrictMembers(family[1..], keys[1..], key, k - 1); }
  }

  lemma {:induction false} RestrictOrigin(family: seq<set<TagSpec>>, keys: seq<GroupKey>, key: GroupKey,
                                          m: nat) returns (k: nat)
    requires |keys| == |family| && m < |Restrict(family, keys, key)|
    ensures k < |family| && keys[k] == key && family[k] == Restrict(family, keys, key)[m]
    decreases family
  {
    if keys[0] == key && m == 0 {
      k := 0;
    } else {
      k := RestrictOrigin(family[1..], keys[1..], key, if keys[0] == key then m - 1 else m);
      k := k + 1;
    }
  }

  /** How many requests belong to one of the groups. */
  function Within(keys: seq<GroupKey>, groups: seq<GroupKey>): nat
    decreases keys
  {
    if keys == [] then 0 else (if keys[0] in groups then 1 else 0) + Within(keys[1..], groups)
  }

  lemma {:induction false} WithinAdds(family: seq<set<TagSpec>>, keys: seq<GroupKey>, groups: seq<GroupKey>,
                                      key: GroupKey)
    requires |keys| == |family| && key !in groups
    ensures Within(keys, groups + [key]) == Within(keys, groups) + |Restrict(family, keys, key)|
    decreases keys
  {
    if keys != [] { WithinAdds(family[1..], keys[1..], groups, key); }
  }

  lemma {:induction false} WithinAll(keys: seq<GroupKey>, groups: seq<GroupKey>)
    ensures Within(keys, groups) <= |keys|
    decreases keys
  {
    if keys != [] { WithinAll(keys[1..], groups); }
  }

  lemma GroupReads(family: seq<set<TagSpec>>, keys: seq<GroupKey>, tags: seq<TagSpec>, defaultUnit: int, gap: int,
                   limits: Limits, key: GroupKey)
    requires AllValid(tags) && AllFit(tags, limits) && gap >= 0
    requires ReadsAll(family, keys, tags, defaultUnit, gap, limits)
    ensures |GroupBlocks(tags, key, defaultUnit, gap, limits)| <= |Restrict(family, keys, key)|
  {
    var group := TagsOf(tags, key, defaultUnit);
    var sorted := SortByAddress(group);
    var b := BoundsOf(key, gap, limits);
    var own := Restrict(family, keys, key);
    GroupIsValid(tags, key, defaultUnit);
    TagsOfMembers(tags, key, defaultUnit);
    SortKeepsMembers(group);
    SortIsSorted(group);
    forall m | 0 <= m < |own|
      ensures ReadFrom(own[m], {}, sorted) && Readable(own[m], b)
    {
      var k := RestrictOrigin(family, keys, key, m);
    }
    forall t | t in sorted
      ensures exists m :: 0 <= m < |own| && t in own[m]
    {
      var k :| 0 <= k < |family| && t in family[k];
      assert KeyOf(t, defaultUnit) == keys[k];
      RestrictMembers(family, keys, key, k);
    }
    PlanIsMinimal(sorted, key, b, own);
  }

  lemma {:induction false} GroupsReads(family: seq<set<TagSpec>>, keys: seq<GroupKey>, tags: seq<TagSpec>,
                                       defaultUnit: int, gap: int, limits: Limits, groups: seq<GroupKey>)
    requires AllValid(tags) && AllFit(tags, limits) && gap >= 0 && Distinct(groups)
    requires ReadsAll(family, keys, tags, defaultUnit, gap, limits)
    ensures |PlanGroups(tags, groups, defaultUnit, gap, limits)| <= Within(keys, groups)
    decreases groups
  {
    if groups != [] {
      var n := |groups| - 1;
      GroupsReads(family, keys, tags, defaultUnit, gap, limits, groups[..n]);
      GroupReads(family, keys, tags, defaultUnit, gap, limits, groups[n]);
      WithinAdds(family, keys, groups[..n], groups[n]);
      assert groups == groups[..n] + [groups[n]];
    }
  }

  /** If every tag fits on its own and the gap is not negative, no family of requests that fetches
      all tags within the same gap and limits is smaller than the plan. */
  lemma PlanIsMinimalOverall(family: seq<set<TagSpec>>, keys: seq<GroupKey>, tags: seq<TagSpec>, defaultUnit: int,
                             gap: int, limits: Limits)
    requires AllValid(tags) && AllFit(tags, limits) && gap >= 0
    requires ReadsAll(family, keys, tags, defaultUnit, gap, limits)
    ensures |Plan(tags, defaultUnit, gap, limits)| <= |family|
  {
    GroupKeysMembers(tags, defaultUnit);
    GroupsReads(family, keys, tags, defaultUnit, gap, limits, GroupKeys(tags, defaultUnit));
    WithinAll(keys, GroupKeys(tags, defaultUnit));
  }

  function TagSets(blocks: seq<ReadBlock>): (family: seq<set<TagSpec>>)
    ensures |family| == |blocks|
    ensures forall k :: 0 <= k < |blocks| ==> family[k] == Members(blocks[k].tags)
  {
    if blocks == [] then [] else TagSets(blocks[..|blocks| - 1]) + [Members(blocks[|blocks| - 1].tags)]
  }

  function BlockKeys(blocks: seq<ReadBlock>): (keys: seq<GroupKey>)
    ensures |keys| == |blocks|
    ensures forall k :: 0 <= k < |blocks| ==> keys[k] == blocks[k].key
  {
    if blocks == [] then [] else BlockKeys(blocks[..|blocks| - 1]) + [blocks[|blocks| - 1].key]
  }

  /** The plan is itself such a family, so that its size is the minimum. */
  lemma PlanAttainsMinimum(tags: seq<TagSpec>, defaultUnit: int, gap: int, limits: Limits)
    requires AllValid(tags) && AllFit(tags, limits) && gap >= 0
    ensures var blocks := Plan(tags, defaultUnit, gap, limits);
      ReadsAll(TagSets(blocks), BlockKeys(blocks), tags, defaultUnit, gap, limits)
  {
    var s := Reader.Settings(defaultUnit, gap, limits);
    var blocks := Plan(tags, defaultUnit, gap, limits);
    forall k | 0 <= k < |blocks|
      ensures ReadFrom(Members(blocks[k].tags), {}, tags) &&
        OneGroup(Members(blocks[k].tags), blocks[k].key, defaultUnit)
      ensures Readable(Members(blocks[k].tags), BoundsOf(blocks[k].key, gap, limits))
    {
      Reader.PlanGroupsAreGood(tags, GroupKeys(tags, defaultUnit), s, k);
      BlockIsReadable(blocks[k], BoundsOf(blocks[k].key, gap, limits));
    }
    ReaderProperties.PlanIsPartition(tags, s);
    forall t | t in tags
      ensures exists k :: 0 <= k < |blocks| && t in TagSets(blocks)[k]
    {
      assert t in multiset(tags);
      assert t in ReaderProperties.AllTags(blocks);
      var k := ReaderProperties.BlockOf(blocks, t);
      assert t in TagSets(blocks)[k];
    }
  }

  ghost predicate WithinLimits(blocks: seq<ReadBlock>, limits: Limits) {
    forall k :: 0 <= k < |blocks| ==> blocks[k].count <= LimitOf(limits, blocks[k].key.area)
  }

  lemma BlockCoversTag(block: ReadBlock, tags: seq<TagSpec>, s: Reader.Settings, t: TagSpec)
    requires Reader.GoodPlanBlock(block, tags, s) && t in block.tags
    ensures ValidTag(t) && t.area == block.key.area && ItemCount(t) <= block.count
  {
    var i :| 0 <= i < |block.tags| && block.tags[i] == t;
    TagsLieInside(block, BoundsOf(block.key, s.gap, s.limits), i);
  }

  lemma OversizedBlockIsOneTag(block: ReadBlock, tags: seq<TagSpec>, s: Reader.Settings)
    requires Reader.GoodPlanBlock(block, tags, s) && block.count > LimitOf(s.limits, block.key.area)
    ensures |block.tags| == 1 && block.tags[0] in tags && ValidTag(block.tags[0])
    ensures block.count == ItemCount(block.tags[0]) && block.tags[0].area == block.key.area
  {
    assert block.tags[0] in block.tags;
  }

  /** The limits of the protocol and of the configuration hold for every read exactly if every tag fits into a read of
      its own. */
  lemma LimitsHoldExactly(tags: seq<TagSpec>, defaultUnit: int, gap: int, limits: Limits)
    requires AllValid(tags)
    ensures WithinLimits(Plan(tags, defaultUnit, gap, limits), limits) <==> AllFit(tags, limits)
  {
    hide Plan, Reader.GoodPlanBlock;
    var s := Reader.Settings(defaultUnit, gap, limits);
    var blocks := Plan(tags, defaultUnit, gap, limits);
    assert blocks == Reader.PlanFor(tags, s);
    forall k | 0 <= k < |blocks|
      ensures Reader.GoodPlanBlock(blocks[k], tags, s)
    {
      ReaderProperties.PlanBlockIsGood(tags, s, k);
    }
    if AllFit(tags, limits) {
      forall k | 0 <= k < |blocks|
        ensures blocks[k].count <= LimitOf(limits, blocks[k].key.area)
      {
        if blocks[k].count > LimitOf(limits, blocks[k].key.area) { OversizedBlockIsOneTag(blocks[k], tags, s); }
      }
    }
    if WithinLimits(blocks, limits) {
      ReaderProperties.PlanIsPartition(tags, s);
      forall t | t in tags
        ensures ValidTag(t) && ItemCount(t) <= LimitOf(limits, t.area)
      {
        assert t in multiset(tags);
        assert t in ReaderProperties.AllTags(blocks);
        var k := ReaderProperties.BlockOf(blocks, t);
        BlockCoversTag(blocks[k], tags, s, t);
      }
    }
  }
}
