/** What is written into a device's memory is what the gateway reports, read actively or overheard. */
module ReadBack {
  import opened Models
  import opened Decode
  import opened DecodeRoundTrip
  import opened Planner
  import opened Reader
  import opened ReaderProperties
  import Pairing
  import Monitor
  import Agreement

  /** The tag's registers hold a value. */
  ghost predicate Holds(mem: Memory, tag: TagSpec, s: Settings, value: Value)
    requires ValidTag(tag) && TagValue(value, tag)
  {
    IsRegisterTag(tag) &&
    Registers(mem, KeyOf(tag, s.defaultUnit), tag.address, RegisterCount(tag)) == EncodeTag(value, tag)
  }

  lemma HeldValueIsDecoded(mem: Memory, tag: TagSpec, s: Settings, value: Value, now: real)
    requires ValidTag(tag) && TagValue(value, tag) && Holds(mem, tag, s, value)
    ensures TagFromMemory(mem, tag, s, now) == GoodResult(tag, now, ApplyScale(value, tag.scale, tag.offset))
  {
    hide DecodeRegisters, EncodeTag, Registers, BitsAt;
    var registers := EncodeTag(value, tag);
    assert Slice(registers, 0, RegisterCount(tag)) == registers;
    TagRoundTrip(value, tag);
  }

  /** A value in the registers of one tag comes out of the grouped read as that value, scaled. */
  lemma WrittenValuesAreRead(client: Client, device: Request -> Response, mem: Memory, tags: seq<TagSpec>, s: Settings,
                             now: real, i: nat, value: Value)
    requires AllValid(tags) && DistinctNames(tags) && i < |tags| && Steady(client, device, mem, s.limits)
    requires OwnBlockMapped(mem, tags, s, tags[i])
    requires ItemCount(tags[i]) <= LimitOf(s.limits, tags[i].area)
    requires TagValue(value, tags[i]) && Holds(mem, tags[i], s, value)
    ensures ReadGrouped(Some(client), tags, s, now)[i]
         == GoodResult(tags[i], now, ApplyScale(value, tags[i].scale, tags[i].offset))
  {
    hide ReadGrouped, TagFromMemory, Holds;
    var k := GroupedReadsRefineSingleReads(client, device, mem, tags, s, now, i);
    HeldValueIsDecoded(mem, tags[i], s, value, now);
  }

  /** Overheard traffic yields the same value, if some observed range holds the tag's first address and all such hold it
      all. */
  lemma WrittenValuesAreOverheard(pairs: seq<Pairing.Pair>, mem: Memory, tag: TagSpec, s: Settings, now: real,
                                  value: Value)
    requires Monitor.Requests(pairs) && ValidTag(tag)
    requires Agreement.WholeOrMissed(pairs, tag, UnitOf(tag, s.defaultUnit), mem)
    requires Agreement.Heard(pairs, tag, UnitOf(tag, s.defaultUnit))
    requires TagValue(value, tag) && Holds(mem, tag, s, value)
    ensures Monitor.MonitorResult(Monitor.LatestPairs(pairs), tag, s.defaultUnit, now)
         == GoodResult(tag, now, ApplyScale(value, tag.scale, tag.offset))
  {
    hide Monitor.LatestPairs, TagFromMemory;
    HeldValueIsDecoded(mem, tag, s, value, now);
    Agreement.MonitorTellsMemory(pairs, mem, tag, s, now);
  }

  lemma {:induction false} BitValueAt(bits: seq<bool>, k: nat)
    requires k < |bits|
    ensures |BitValues(bits)| == |bits| && BitValues(bits)[k] == BoolValue(bits[k])
    decreases bits
  {
    if k > 0 { BitValueAt(bits[1..], k - 1); } else { BitValuesLength(bits[1..]); }
  }

  lemma {:induction false} BitValuesLength(bits: seq<bool>)
    ensures |BitValues(bits)| == |bits|
    decreases bits
  {
    if bits != [] { BitValuesLength(bits[1..]); }
  }

  /** A bit tag reports the bits from its address on: a single one as such, several as a list. */
  predicate ShowsBits(r: TagResult, mem: Memory, tag: TagSpec, s: Settings)
    requires ValidTag(tag)
  {
    var key, n := KeyOf(tag, s.defaultUnit), ValueCount(tag);
    && r.quality == Good && r.error == None && r.value.Some?
    && if n == 1 then r.value.value == BoolValue(mem.bit(key, tag.address))
       else
         && r.value.value.ListValue?
         && |r.value.value.items| == n
         && forall k :: 0 <= k < n ==> r.value.value.items[k] == BoolValue(mem.bit(key, tag.address + k))
  }

  lemma OwnBits(mem: Memory, tag: TagSpec, s: Settings, now: real)
    requires ValidTag(tag) && !IsRegisterTag(tag)
    ensures TagFromMemory(mem, tag, s, now)
         == TagFromBits(BitsAt(mem, KeyOf(tag, s.defaultUnit), tag.address, ValueCount(tag)), 0, tag, now)
  {
    hide Registers, TagFromRegisters, TagFromBits, BitsAt;
  }

  lemma BitsFromMemory(mem: Memory, tag: TagSpec, s: Settings, now: real)
    requires ValidTag(tag) && !IsRegisterTag(tag)
    ensures ShowsBits(TagFromMemory(mem, tag, s, now), mem, tag, s)
  {
    hide TagFromMemory, BitValues;
    OwnBits(mem, tag, s, now);
    var key, n := KeyOf(tag, s.defaultUnit), ValueCount(tag);
    var bits := BitsAt(mem, key, tag.address, n);
    assert Slice(bits, 0, n) == bits;
    BitValuesLength(bits);
    forall k | 0 <= k < n
      ensures BitValues(bits)[k] == BoolValue(mem.bit(key, tag.address + k))
    {
      BitValueAt(bits, k);
    }
  }

  lemma BitsAreRead(client: Client, device: Request -> Response, mem: Memory, tags: seq<TagSpec>, s: Settings,
                    now: real, i: nat)
    requires AllValid(tags) && DistinctNames(tags) && i < |tags| && Steady(client, device, mem, s.limits)
    requires OwnBlockMapped(mem, tags, s, tags[i])
    requires ItemCount(tags[i]) <= LimitOf(s.limits, tags[i].area) && !IsRegisterTag(tags[i])
    ensures ShowsBits(ReadGrouped(Some(client), tags, s, now)[i], mem, tags[i], s)
  {
    hide ReadGrouped, TagFromMemory, ShowsBits;
    var k := GroupedReadsRefineSingleReads(client, device, mem, tags, s, now, i);
    BitsFromMemory(mem, tags[i], s, now);
  }

  /** Scaling is affine on every number of a value, and leaves flags and texts alone. */
  lemma {:induction false} ScaledList(items: seq<Value>, scale: real, offset: real, k: nat)
    requires k < |items|
    ensures |ScaleAll(items, scale, offset)| == |items|
    ensures ScaleAll(items, scale, offset)[k] == ApplyScale(items[k], scale, offset)
    decreases items
  {
    if k > 0 {
      ScaledList(items[1..], scale, offset, k - 1);
    } else {
      ScaledLength(items[1..], scale, offset);
    }
  }

  lemma {:induction false} ScaledLength(items: seq<Value>, scale: real, offset: real)
    ensures |ScaleAll(items, scale, offset)| == |items|
    decreases items
  {
    if items != [] { ScaledLength(items[1..], scale, offset); }
  }
}
