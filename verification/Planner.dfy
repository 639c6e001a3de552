/** Packing tags into bounded read blocks. */
module Planner {
  import opened Models
  import opened Decode

  const MAX_REGISTERS := 125
  const MAX_BITS := 2000

  datatype Limits = Limits(registers: int, bits: int)

  /** What a tag is grouped by: the area it lives in and the unit that is asked. */
  datatype GroupKey = GroupKey(area: Area, unit: int)

  datatype ReadBlock = ReadBlock(key: GroupKey, start: int, count: int, tags: seq<TagSpec>)

  /** How far the planner may go: the largest gap read through and the most items of one read. */
  datatype Bounds = Bounds(gap: int, limit: int)

  function PositiveOr(value: Option<int>, default: int): Result<int, string> {
    match value
    case None => Ok(default)
    case Some(n) => if n < 1 then Err("Modbus read limit must be at least 1") else Ok(n)
  }

  function Min(a: int, b: int): int { if a < b then a else b }

  function Max(a: int, b: int): int { if a < b then b else a }

  /** The limit is the protocol's, or the configured one where that is smaller. */
  predicate IsLowered(limit: int, configured: Option<int>, protocol: int) {
    && 1 <= limit <= protocol
    && (configured.None? ==> limit == protocol)
    && (configured.Some? ==> limit <= configured.value && (limit == protocol || limit == configured.value))
  }

  /** Configured limits only ever lower the protocol's. */
  function LimitsFrom(registers: Option<int>, bits: Option<int>): (r: Result<Limits, string>)
    ensures r.Ok? ==> IsLowered(r.value.registers, registers, 125) && IsLowered(r.value.bits, bits, 2000)
    ensures r.Err? <==> (registers.Some? && registers.value < 1) || (bits.Some? && bits.value < 1)
  {
    match PositiveOr(registers, MAX_REGISTERS)
    case Err(e) => Err(e)
    case Ok(n) =>
      match PositiveOr(bits, MAX_BITS)
      case Err(e) => Err(e)
      case Ok(m) => Ok(Limits(Min(n, MAX_REGISTERS), Min(m, MAX_BITS)))
  }

  function LimitOf(limits: Limits, area: Area): int {
    if IsRegisterArea(area) then limits.registers else limits.bits
  }

  function UnitOf(tag: TagSpec, defaultUnit: int): int {
    if tag.unitId.Some? && tag.unitId.value != 0 then tag.unitId.value else defaultUnit
  }

  function KeyOf(tag: TagSpec, defaultUnit: int): GroupKey {
    GroupKey(tag.area, UnitOf(tag, defaultUnit))
  }

  predicate IsRegisterTag(tag: TagSpec) {
    IsRegisterArea(tag.area)
  }

  predicate AllValid(tags: seq<TagSpec>) {
    forall i :: 0 <= i < |tags| ==> ValidTag(tags[i])
  }

  function EndOf(tag: TagSpec): (end: int)
    requires ValidTag(tag)
    ensures end > tag.address
  {
    tag.address + ItemCount(tag)
  }

  // ----- Grouping -----

  /** The tags of one group, in their given order. */
  function TagsOf(tags: seq<TagSpec>, key: GroupKey, defaultUnit: int): seq<TagSpec> {
    if tags == [] then []
    else
      var n := |tags| - 1;
      TagsOf(tags[..n], key, defaultUnit) + if KeyOf(tags[n], defaultUnit) == key then [tags[n]] else []
  }

  /** The groups in the order in which they are first met. */
  function GroupKeys(tags: seq<TagSpec>, defaultUnit: int): seq<GroupKey> {
    if tags == [] then []
    else WithKey(GroupKeys(tags[..|tags| - 1], defaultUnit), KeyOf(tags[|tags| - 1], defaultUnit))
  }

  function WithKey(keys: seq<GroupKey>, key: GroupKey): seq<GroupKey> {
    if key in keys then keys else keys + [key]
  }

  lemma {:induction false} TagsOfMembers(tags: seq<TagSpec>, key: GroupKey, defaultUnit: int)
    ensures forall t :: t in TagsOf(tags, key, defaultUnit) <==> t in tags && KeyOf(t, defaultUnit) == key
    decreases tags
  {
    if tags != [] {
      var n := |tags| - 1;
      assert tags == tags[..n] + [tags[n]];
      TagsOfMembers(tags[..n], key, defaultUnit);
    }
  }

  lemma GroupIsValid(tags: seq<TagSpec>, key: GroupKey, defaultUnit: int)
    requires AllValid(tags)
    ensures AllValid(TagsOf(tags, key, defaultUnit))
  {
    TagsOfMembers(tags, key, defaultUnit);
    var r := TagsOf(tags, key, defaultUnit);
    forall i | 0 <= i < |r|
      ensures ValidTag(r[i])
    {
      assert r[i] in tags;
    }
  }

  predicate Distinct(keys: seq<GroupKey>) {
    forall i, j :: 0 <= i < j < |keys| ==> keys[i] != keys[j]
  }

  lemma {:induction false} GroupKeysMembers(tags: seq<TagSpec>, defaultUnit: int)
    ensures Distinct(GroupKeys(tags, defaultUnit))
    ensures forall key :: key in GroupKeys(tags, defaultUnit) <==> TagsOf(tags, key, defaultUnit) != []
    decreases tags
  {
    if tags != [] {
      hide KeyOf;
      GroupKeysMembers(tags[..|tags| - 1], defaultUnit);
    }
  }

  /** Groups are in the order in which they were met: some tag of the earlier one precedes every tag of the later. */
  lemma {:induction false} GroupsInFirstMetOrder(tags: seq<TagSpec>, defaultUnit: int, i: nat, j: nat) returns (m: nat)
    requires i < j < |GroupKeys(tags, defaultUnit)|
    ensures m < |tags| && KeyOf(tags[m], defaultUnit) == GroupKeys(tags, defaultUnit)[i]
    ensures forall n :: 0 <= n <= m ==> KeyOf(tags[n], defaultUnit) != GroupKeys(tags, defaultUnit)[j]
    decreases tags
  {
    hide KeyOf;
    var n := |tags| - 1;
    var front := GroupKeys(tags[..n], defaultUnit);
    if j < |front| {
      m := GroupsInFirstMetOrder(tags[..n], defaultUnit, i, j);
    } else {
      m := FirstOfGroup(tags[..n], front[i], defaultUnit);
      NoneOfGroup(tags[..n], KeyOf(tags[n], defaultUnit), defaultUnit);
    }
  }

  lemma {:induction false} FirstOfGroup(tags: seq<TagSpec>, key: GroupKey, defaultUnit: int) returns (m: nat)
    requires key in GroupKeys(tags, defaultUnit)
    ensures m < |tags| && KeyOf(tags[m], defaultUnit) == key
    decreases tags
  {
    hide KeyOf;
    var n := |tags| - 1;
    if KeyOf(tags[n], defaultUnit) == key { m := n; } else { m := FirstOfGroup(tags[..n], key, defaultUnit); }
  }

  lemma {:induction false} NoneOfGroup(tags: seq<TagSpec>, key: GroupKey, defaultUnit: int)
    requires key !in GroupKeys(tags, defaultUnit)
    ensures forall n :: 0 <= n < |tags| ==> KeyOf(tags[n], defaultUnit) != key
    decreases tags
  {
    hide KeyOf;
    if tags != [] {
      var n := |tags| - 1;
      NoneOfGroup(tags[..n], key, defaultUnit);
      assert forall k :: 0 <= k < n ==> tags[..n][k] == tags[k];
    }
  }

  // ----- Sorting -----

  predicate Sorted(tags: seq<TagSpec>) {
    forall i, j :: 0 <= i < j < |tags| ==> tags[i].address <= tags[j].address
  }

  /** Behind every tag whose address is not larger, so that equal addresses keep their order. */
  function Insert(sorted: seq<TagSpec>, tag: TagSpec): seq<TagSpec> {
    if sorted == [] then [tag]
    else
      var n := |sorted| - 1;
      if sorted[n].address <= tag.address then sorted + [tag] else Insert(sorted[..n], tag) + [sorted[n]]
  }

  function SortByAddress(tags: seq<TagSpec>): seq<TagSpec> {
    if tags == [] then [] else Insert(SortByAddress(tags[..|tags| - 1]), tags[|tags| - 1])
  }

  lemma {:induction false} InsertMembers(sorted: seq<TagSpec>, tag: TagSpec)
    ensures multiset(Insert(sorted, tag)) == multiset(sorted) + multiset{tag}
    decreases sorted
  {
    if sorted != [] {
      var n := |sorted| - 1;
      assert sorted == sorted[..n] + [sorted[n]];
      if sorted[n].address > tag.address { InsertMembers(sorted[..n], tag); }
    }
  }

  lemma {:induction false} InsertSorted(sorted: seq<TagSpec>, tag: TagSpec)
    requires Sorted(sorted)
    ensures Sorted(Insert(sorted, tag))
    decreases sorted
  {
    if sorted != [] {
      var n := |sorted| - 1;
      var front := Insert(sorted[..n], tag);
      if sorted[n].address > tag.address {
        InsertSorted(sorted[..n], tag);
        InsertMembers(sorted[..n], tag);
        forall i | 0 <= i < |front|
          ensures front[i].address <= sorted[n].address
        {
          assert front[i] in multiset(front);
          assert front[i] in multiset(sorted[..n]) || front[i] == tag;
        }
      }
    }
  }

  /** The sort is a permutation in order of address. */
  lemma {:induction false} SortIsSorted(tags: seq<TagSpec>)
    ensures Sorted(SortByAddress(tags)) && multiset(SortByAddress(tags)) == multiset(tags)
    decreases tags
  {
    if tags != [] {
      var n := |tags| - 1;
      assert tags == tags[..n] + [tags[n]];
      SortIsSorted(tags[..n]);
      InsertSorted(SortByAddress(tags[..n]), tags[n]);
      InsertMembers(SortByAddress(tags[..n]), tags[n]);
    }
  }

  /** The tags at one address, in their given order. */
  function At(tags: seq<TagSpec>, address: int): seq<TagSpec> {
    if tags == [] then []
    else
      var n := |tags| - 1;
      At(tags[..n], address) + if tags[n].address == address then [tags[n]] else []
  }

  lemma AtLonger(tags: seq<TagSpec>, tag: TagSpec, address: int)
    ensures At(tags + [tag], address) == At(tags, address) + if tag.address == address then [tag] else []
  {
    assert (tags + [tag])[..|tags|] == tags;
  }

  lemma {:induction false} InsertAt(sorted: seq<TagSpec>, tag: TagSpec, address: int)
    ensures At(Insert(sorted, tag), address) == At(sorted, address) + if tag.address == address then [tag] else []
    decreases sorted
  {
    hide At;
    if sorted == [] || sorted[|sorted| - 1].address <= tag.address {
      AtLonger(sorted, tag, address);
      assert sorted == [] ==> sorted + [tag] == [tag];
    } else {
      var n := |sorted| - 1;
      InsertAt(sorted[..n], tag, address);
      AtLonger(Insert(sorted[..n], tag), sorted[n], address);
      assert sorted == sorted[..n] + [sorted[n]];
      AtLonger(sorted[..n], sorted[n], address);
    }
  }

  /** Tags at the same address keep their order. */
  lemma {:induction false} SortIsStable(tags: seq<TagSpec>, address: int)
    ensures At(SortByAddress(tags), address) == At(tags, address)
    decreases tags
  {
    if tags != [] {
      var n := |tags| - 1;
      SortIsStable(tags[..n], address);
      InsertAt(SortByAddress(tags[..n]), tags[n], address);
    }
  }

  lemma SortKeepsMembers(tags: seq<TagSpec>)
    ensures forall t :: t in SortByAddress(tags) <==> t in tags
    ensures AllValid(tags) ==> AllValid(SortByAddress(tags))
    ensures |SortByAddress(tags)| == |tags|
  {
    var r := SortByAddress(tags);
    SortIsSorted(tags);
    assert forall t :: t in r <==> t in multiset(r);
    assert forall t :: t in tags <==> t in multiset(tags);
    assert |r| == |multiset(r)| && |tags| == |multiset(tags)|;
    if AllValid(tags) {
      forall i | 0 <= i < |r| ensures ValidTag(r[i]) { assert r[i] in r; }
    }
  }

  // ----- The greedy plan of one group -----

  predicate Joins(tag: TagSpec, start: int, end: int, b: Bounds)
    requires ValidTag(tag)
  {
    tag.address <= end + b.gap && Max(end, EndOf(tag)) - start <= b.limit
  }

  function Greedy(rest: seq<TagSpec>, current: seq<TagSpec>, start: int, end: int, key: GroupKey,
                  b: Bounds): seq<ReadBlock>
    requires AllValid(rest)
    decreases rest
  {
    if rest == [] then [ReadBlock(key, start, end - start, current)]
    else
      var tag := rest[0];
      if Joins(tag, start, end, b) then
        Greedy(rest[1..], current + [tag], start, Max(end, EndOf(tag)), key, b)
      else
        [ReadBlock(key, start, end - start, current)] + Greedy(rest[1..], [tag], tag.address, EndOf(tag), key, b)
  }

  function PlanGroup(sorted: seq<TagSpec>, key: GroupKey, b: Bounds): seq<ReadBlock>
    requires AllValid(sorted)
  {
    if sorted == [] then []
    else Greedy(sorted[1..], [sorted[0]], sorted[0].address, EndOf(sorted[0]), key, b)
  }

  /** The blocks of the groups, one group after the other. */
  function PlanGroups(tags: seq<TagSpec>, keys: seq<GroupKey>, defaultUnit: int, gap: int,
                      limits: Limits): seq<ReadBlock>
    requires AllValid(tags)
  {
    if keys == [] then []
    else
      var n := |keys| - 1;
      PlanGroups(tags, keys[..n], defaultUnit, gap, limits) + GroupBlocks(tags, keys[n], defaultUnit, gap, limits)
  }

  function GroupBlocks(tags: seq<TagSpec>, key: GroupKey, defaultUnit: int, gap: int, limits: Limits): seq<ReadBlock>
    requires AllValid(tags)
  {
    var group := TagsOf(tags, key, defaultUnit);
    GroupIsValid(tags, key, defaultUnit);
    SortKeepsMembers(group);
    PlanGroup(SortByAddress(group), key, Bounds(gap, LimitOf(limits, key.area)))
  }

  function Plan(tags: seq<TagSpec>, defaultUnit: int, gap: int, limits: Limits): seq<ReadBlock>
    requires AllValid(tags)
  {
    PlanGroups(tags, GroupKeys(tags, defaultUnit), defaultUnit, gap, limits)
  }

  // ----- The loops -----

  method PlanSorted(sorted: seq<TagSpec>, key: GroupKey, b: Bounds) returns (blocks: seq<ReadBlock>)
    requires AllValid(sorted)
    ensures blocks == PlanGroup(sorted, key, b)
  {
    hide ItemCount;
    blocks := [];
    var current: seq<TagSpec> := [];
    var start, end := 0, 0;
    for i := 0 to |sorted|
      invariant current == [] <==> i == 0
      invariant current == [] ==> blocks == []
      invariant current != [] ==>
        blocks + Greedy(sorted[i..], current, start, end, key, b) == PlanGroup(sorted, key, b)
    {
      var tag := sorted[i];
      var tagEnd := tag.address + ItemCount(tag);
      if current == [] {
        current, start, end := [tag], tag.address, tagEnd;
      } else {
        var nextEnd := Max(end, tagEnd);
        ghost var rest := sorted[i..];
        assert rest[0] == tag && rest[1..] == sorted[i + 1..];
        if tag.address <= end + b.gap && nextEnd - start <= b.limit {
          current, end := current + [tag], nextEnd;
        } else {
          ghost var more := Greedy(sorted[i + 1..], [tag], tag.address, tagEnd, key, b);
          var block := ReadBlock(key, start, end - start, current);
          assert blocks + ([block] + more) == (blocks + [block]) + more;
          blocks := blocks + [block];
          current, start, end := [tag], tag.address, tagEnd;
        }
      }
    }
    if current != [] {
      blocks := blocks + [ReadBlock(key, start, end - start, current)];
    }
  }

  /** The dictionary of groups agrees with the tags seen so far. */
  ghost predicate Groups(order: seq<GroupKey>, grouped: map<GroupKey, seq<TagSpec>>, tags: seq<TagSpec>,
                         defaultUnit: int) {
    order == GroupKeys(tags, defaultUnit) &&
    (forall key :: key in grouped <==> key in order) &&
    forall key :: key in grouped ==> grouped[key] == TagsOf(tags, key, defaultUnit)
  }

  lemma OneMoreTag(seen: seq<TagSpec>, tag: TagSpec, defaultUnit: int)
    ensures GroupKeys(seen + [tag], defaultUnit) == WithKey(GroupKeys(seen, defaultUnit), KeyOf(tag, defaultUnit))
    ensures forall key :: TagsOf(seen + [tag], key, defaultUnit)
                       == TagsOf(seen, key, defaultUnit) + if KeyOf(tag, defaultUnit) == key then [tag] else []
  {
    assert (seen + [tag])[..|seen|] == seen;
  }

  /** One tag into the dictionary; a missing key starts with an empty list. */
  method AddToGroup(order: seq<GroupKey>, grouped: map<GroupKey, seq<TagSpec>>, ghost seen: seq<TagSpec>, tag: TagSpec,
                    defaultUnit: int)
    returns (order': seq<GroupKey>, grouped': map<GroupKey, seq<TagSpec>>)
    requires Groups(order, grouped, seen, defaultUnit)
    ensures Groups(order', grouped', seen + [tag], defaultUnit)
  {
    OneMoreTag(seen, tag, defaultUnit);
    GroupKeysMembers(seen, defaultUnit);
    var key := KeyOf(tag, defaultUnit);
    if key in grouped {
      order', grouped' := order, grouped[key := grouped[key] + [tag]];
    } else {
      assert [] + [tag] == [tag];
      order', grouped' := order + [key], grouped[key := [tag]];
    }
  }

  method GroupTags(tags: seq<TagSpec>, defaultUnit: int)
    returns (order: seq<GroupKey>, grouped: map<GroupKey, seq<TagSpec>>)
    ensures Groups(order, grouped, tags, defaultUnit)
  {
    order := [];
    grouped := map[];
    for i := 0 to |tags|
      invariant Groups(order, grouped, tags[..i], defaultUnit)
    {
      assert tags[..i + 1] == tags[..i] + [tags[i]];
      order, grouped := AddToGroup(order, grouped, tags[..i], tags[i], defaultUnit);
    }
    assert tags[..|tags|] == tags;
  }

  method PlanBlocks(tags: seq<TagSpec>, defaultUnit: int, gap: int, limits: Limits) returns (blocks: seq<ReadBlock>)
    requires AllValid(tags)
    ensures blocks == Plan(tags, defaultUnit, gap, limits)
  {
    hide TagsOf, SortByAddress, PlanGroup, LimitOf, WithKey;
    var order, grouped := GroupTags(tags, defaultUnit);
    blocks := [];
    for k := 0 to |order|
      invariant blocks == PlanGroups(tags, order[..k], defaultUnit, gap, limits)
    {
      assert order[..k + 1][..k] == order[..k];
      var key := order[k];
      assert key in order;
      GroupIsValid(tags, key, defaultUnit);
      SortKeepsMembers(grouped[key]);
      var more := PlanSorted(SortByAddress(grouped[key]), key, Bounds(gap, LimitOf(limits, key.area)));
      assert more == GroupBlocks(tags, key, defaultUnit, gap, limits);
      blocks := blocks + more;
    }
    assert order[..|order|] == order;
  }
}
