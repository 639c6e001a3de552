/** What is reported for a tag, in terms of the tag's own fields and the numbers in its registers. */
module Readings {
  import opened Words
  import opened Models
  import opened Decode
  import opened Frames
  import opened Pairing
  import opened Monitor
  import DecodeRoundTrip
  import FrameCodes
  import Agreement
  import opened Capture
  import Pl = Planner
  import PlanProperties
  import R = Reader
  import P = ReaderProperties
  import ReadBack

  // ----- The registers of a tag -----

  /** How many registers one item takes. */
  function Width(tag: TagSpec): (n: nat)
    ensures n >= 1
  {
    if tag.dataType == Float64 then 4
    else if tag.dataType == Int32 || tag.dataType == Uint32 || tag.dataType == Float32 then 2
    else 1
  }

  /** How many items the tag has, or registers if it is a text. */
  function Items(tag: TagSpec): (n: nat)
    requires ValidTag(tag)
    ensures n >= 1
  {
    if tag.wordCount.Some? then tag.wordCount.value else 1
  }

  /** Two registers as a number, the first more significant, or the last. */
  function Number32(words: seq<int>, order: Order): int
    requires |words| == 2
  {
    if order == Big then words[0] * 0x1_0000 + words[1] else words[1] * 0x1_0000 + words[0]
  }

  function Number64(words: seq<int>, order: Order): int
    requires |words| == 4
  {
    if order == Big then
      words[0] * 0x1_0000_0000_0000 + words[1] * 0x1_0000_0000 + words[2] * 0x1_0000 + words[3]
    else words[3] * 0x1_0000_0000_0000 + words[2] * 0x1_0000_0000 + words[1] * 0x1_0000 + words[0]
  }

  /** The j-th byte of a text: two bytes a register, in the tag's byte order, registers in the tag's word order. */
  function ByteOf(words: seq<int>, tag: TagSpec, j: nat): int
    requires j < 2 * |words|
  {
    var w := if tag.wordOrder == Big then words[j / 2] else words[|words| - 1 - j / 2];
    if (j % 2 == 0) == (tag.byteOrder == Big) then w / 256 else w % 256
  }

  /** The text runs up to the first zero byte, or to the end; bytes outside ASCII show as a replacement character. */
  predicate IsText(text: string, words: seq<int>, tag: TagSpec) {
    && |text| <= 2 * |words|
    && (|text| < 2 * |words| ==> ByteOf(words, tag, |text|) == 0)
    && forall j :: 0 <= j < |text| ==>
      var b := ByteOf(words, tag, j);
      b != 0 && text[j] == if 0 < b < 128 then b as char else '\U{FFFD}'
  }

  /** One item of a tag, scaled: a number becomes number * scale + offset, a float keeps its bits beside its scale and
      its offset, and flags and texts stay as they are. */
  predicate Shows(v: Value, words: seq<int>, tag: TagSpec) {
    match tag.dataType
    case Boolean => |words| == 1 && v == BoolValue(words[0] != 0)
    case Uint16 => |words| == 1 && v == RealValue(words[0] as real * tag.scale + tag.offset)
    case Int16 =>
      |words| == 1 &&
      var n := if words[0] < 0x8000 then words[0] else words[0] - 0x1_0000;
      v == RealValue(n as real * tag.scale + tag.offset)
    case Uint32 => |words| == 2 && v == RealValue(Number32(words, tag.wordOrder) as real * tag.scale + tag.offset)
    case Int32 =>
      |words| == 2 &&
      var raw := Number32(words, tag.wordOrder);
      var n := if raw < 0x8000_0000 then raw else raw - 0x1_0000_0000;
      v == RealValue(n as real * tag.scale + tag.offset)
    case Float32 =>
      |words| == 2 && v.ScaledFloat? && v.words == 2 && v.bits == Number32(words, tag.wordOrder) &&
      v.scale == tag.scale && v.offset == tag.offset
    case Float64 =>
      |words| == 4 && v.ScaledFloat? && v.words == 4 && v.bits == Number64(words, tag.wordOrder) &&
      v.scale == tag.scale && v.offset == tag.offset
    case Text => v.TextValue? && IsText(v.text, words, tag)
    case Auto => false
  }

  // ----- Decoding one item -----

  lemma TwoWordsJoined(words: seq<u16>)
    requires |words| == 2
    ensures RegistersToInt(words) == Number32(words, Big)
  {
    var hi: int := words[0];
    DecodeRoundTrip.JoinOne(words[0]);
    assert words[..1] == [words[0]];
  }

  lemma FourWordsJoined(words: seq<u16>)
    requires |words| == 4
    ensures RegistersToInt(words) == Number64(words, Big)
  {
    TwoWordsJoined(words[..2]);
    assert words[..3][..2] == words[..2];
  }

  lemma OrderedNumbers(words: seq<u16>, tag: TagSpec)
    ensures |words| == 1 ==> WordOrdered(words, tag) == words
    ensures |words| == 2 ==> RegistersToInt(WordOrdered(words, tag)) == Number32(words, tag.wordOrder)
    ensures |words| == 4 ==> RegistersToInt(WordOrdered(words, tag)) == Number64(words, tag.wordOrder)
  {
    var ordered := WordOrdered(words, tag);
    if |words| == 2 { TwoWordsJoined(ordered); }
    if |words| == 4 { FourWordsJoined(ordered); }
  }

  lemma {:induction false} OctetAt(words: seq<u16>, order: Order, j: nat)
    requires j < 2 * |words|
    ensures Octets(words, order)[j] == if (j % 2 == 0) == (order == Big) then words[j / 2] / 256 else words[j / 2] % 256
    decreases words
  {
    var n := |words| - 1;
    if j < 2 * n { OctetAt(words[..n], order, j); }
  }

  lemma {:induction false} TextUpToZero(data: seq<octet>)
    ensures var text := AsciiText(data);
      |text| <= |data| && (|text| < |data| ==> data[|text|] == 0) &&
      forall j :: 0 <= j < |text| ==>
        data[j] != 0 && text[j] == if 0 < data[j] < 128 then data[j] as char else '\U{FFFD}'
    decreases data
  {
    if data != [] && data[0] != 0 {
      TextUpToZero(data[1..]);
      var text := AsciiText(data);
      assert text[1..] == AsciiText(data[1..]);
      forall j | 0 <= j < |text|
        ensures data[j] != 0 && text[j] == if 0 < data[j] < 128 then data[j] as char else '\U{FFFD}'
      {
        if j > 0 { assert text[j] == text[1..][j - 1] && data[j] == data[1..][j - 1]; }
      }
    }
  }

  lemma TextIsDecoded(words: seq<u16>, tag: TagSpec)
    ensures IsText(DecodeString(WordOrdered(words, tag), tag), words, tag)
  {
    hide AsciiText, Octets;
    var ordered := WordOrdered(words, tag);
    TextUpToZero(Octets(ordered, tag.byteOrder));
    forall j | 0 <= j < 2 * |words|
      ensures Octets(ordered, tag.byteOrder)[j] == ByteOf(words, tag, j)
    {
      OctetAt(ordered, tag.byteOrder, j);
    }
  }

  /** One item, decoded and scaled, is what its registers show. */
  lemma ItemIsShown(words: seq<u16>, tag: TagSpec)
    requires tag.dataType != Auto && words != []
    requires tag.dataType != Text ==> |words| == Width(tag)
    ensures DecodeSingle(words, tag).Ok?
    ensures Shows(ApplyScale(DecodeSingle(words, tag).value, tag.scale, tag.offset), words, tag)
  {
    hide DecodeString, RegistersToInt, WordOrdered, IsText, Number32, Number64;
    if tag.dataType == Text {
      TextIsDecoded(words, tag);
    } else {
      OrderedNumbers(words, tag);
    }
  }

  // ----- Decoding a tag -----

  /** The registers of item k: as many as its type takes, one item after the other. */
  function ItemWords(registers: seq<u16>, tag: TagSpec, k: nat): (words: seq<u16>)
    requires (k + 1) * Width(tag) <= |registers|
    ensures |words| == Width(tag)
    ensures forall j :: 0 <= j < Width(tag) ==> words[j] == registers[k * Width(tag) + j]
  {
    ItemFits(k, Width(tag));
    registers[k * Width(tag)..(k + 1) * Width(tag)]
  }

  lemma ItemFits(k: nat, w: nat)
    ensures (k + 1) * w == k * w + w
  {}

  /** The whole value of a tag: a text, one item, or a list of items, from the registers that hold it. */
  ghost predicate ShowsTag(v: Value, registers: seq<u16>, tag: TagSpec)
    requires ValidTag(tag)
  {
    if tag.dataType == Text then |registers| == Items(tag) && Shows(v, registers, tag)
    else
      && |registers| == Items(tag) * Width(tag)
      && if Items(tag) == 1 then Shows(v, registers, tag)
         else
           && v.ListValue?
           && |v.items| == Items(tag)
           && forall k :: 0 <= k < Items(tag) ==>
             (k + 1) * Width(tag) <= |registers| && Shows(v.items[k], ItemWords(registers, tag, k), tag)
  }

  lemma RestOfItems(registers: seq<u16>, tag: TagSpec, k: nat)
    requires Width(tag) <= |registers| && (k + 1) * Width(tag) <= |registers| - Width(tag)
    ensures (k + 2) * Width(tag) <= |registers|
    ensures ItemWords(Drop(registers, Width(tag)), tag, k) == ItemWords(registers, tag, k + 1)
  {
    ItemFits(k, Width(tag));
    ItemFits(k + 1, Width(tag));
  }

  lemma FirstOfItems(registers: seq<u16>, tag: TagSpec)
    requires Width(tag) <= |registers|
    ensures Slice(registers, 0, WordsPerValue(tag)) == ItemWords(registers, tag, 0)
    ensures WordsPerValue(tag) == Width(tag)
  {}

  /** Unscaled items that, scaled, show their registers. */
  ghost predicate Showing(items: seq<Value>, registers: seq<u16>, tag: TagSpec) {
    forall k :: 0 <= k < |items| ==> ShowsAt(items[k], registers, tag, k)
  }

  ghost predicate ShowsAt(item: Value, registers: seq<u16>, tag: TagSpec, k: nat) {
    (k + 1) * Width(tag) <= |registers| &&
    Shows(ApplyScale(item, tag.scale, tag.offset), ItemWords(registers, tag, k), tag)
  }

  lemma OneMoreShown(first: Value, rest: seq<Value>, registers: seq<u16>, tag: TagSpec)
    requires Width(tag) <= |registers| && ShowsAt(first, registers, tag, 0)
    requires Showing(rest, Drop(registers, Width(tag)), tag)
    ensures Showing([first] + rest, registers, tag)
  {
    hide Shows, ApplyScale, ItemWords, Width;
    DropLength(registers, Width(tag));
    forall k | 0 <= k < |rest| + 1
      ensures ShowsAt(([first] + rest)[k], registers, tag, k)
    {
      if k > 0 {
        assert ShowsAt(rest[k - 1], Drop(registers, Width(tag)), tag, k - 1);
        RestOfItems(registers, tag, k - 1);
      }
    }
  }

  lemma {:induction false} ItemsAreDecoded(registers: seq<u16>, tag: TagSpec, n: nat)
    requires tag.dataType != Auto && tag.dataType != Text && n * Width(tag) <= |registers|
    ensures var r := DecodeItems(registers, tag, n);
      r.Ok? && |r.value| == n && Showing(r.value, registers, tag)
    decreases n
  {
    hide DecodeSingle, Shows, ApplyScale, ItemWords, Slice, Drop, WordsPerValue, Width, Showing;
    if n == 0 {
      NothingShown(registers, tag);
    } else {
      ItemFits(n - 1, Width(tag));
      FirstOfItems(registers, tag);
      ItemIsShown(ItemWords(registers, tag, 0), tag);
      DropLength(registers, Width(tag));
      ItemsAreDecoded(Drop(registers, Width(tag)), tag, n - 1);
      var first := DecodeSingle(ItemWords(registers, tag, 0), tag).value;
      OneMoreShown(first, DecodeItems(Drop(registers, Width(tag)), tag, n - 1).value, registers, tag);
    }
  }

  lemma NothingShown(registers: seq<u16>, tag: TagSpec)
    ensures Showing([], registers, tag)
  {}

  lemma DropLength(registers: seq<u16>, n: nat)
    requires n <= |registers|
    ensures |Drop(registers, n)| == |registers| - n
  {}

  /** A tag takes as many registers as its items do; a text as many as configured. */
  function Registers(tag: TagSpec): nat
    requires ValidTag(tag)
  {
    if tag.dataType == Text then Items(tag) else Items(tag) * Width(tag)
  }

  lemma CountsAgree(tag: TagSpec)
    requires ValidTag(tag)
    ensures RegisterCount(tag) == Registers(tag) && ValueCount(tag) == Items(tag)
  {}

  lemma WholeTagIsShown(registers: seq<u16>, tag: TagSpec)
    requires ValidTag(tag) && tag.dataType != Auto && |registers| == Registers(tag)
    ensures DecodeRegisters(registers, tag).Ok?
    ensures ShowsTag(ApplyScale(DecodeRegisters(registers, tag).value, tag.scale, tag.offset), registers, tag)
  {
    hide DecodeSingle, Shows, ItemWords, DecodeItems, RegisterCount, ValueCount;
    CountsAgree(tag);
    if tag.dataType != Text && Items(tag) > 1 {
      ItemsAreDecoded(registers, tag, Items(tag));
      var items := DecodeItems(registers, tag, Items(tag)).value;
      ReadBack.ScaledLength(items, tag.scale, tag.offset);
      forall k | 0 <= k < Items(tag)
        ensures (k + 1) * Width(tag) <= |registers|
        ensures Shows(ScaleAll(items, tag.scale, tag.offset)[k], ItemWords(registers, tag, k), tag)
      {
        ReadBack.ScaledList(items, tag.scale, tag.offset, k);
        assert ShowsAt(items[k], registers, tag, k);
      }
    } else {
      ItemIsShown(registers, tag);
    }
  }

  /** The result of a tag whose registers begin at a position of a response: good, and showing them, if they are all
      there; bad otherwise. */
  ghost predicate Reports(r: TagResult, registers: seq<u16>, from: nat, tag: TagSpec, now: real)
    requires ValidTag(tag)
  {
    && r.name == tag.name && r.address == tag.address && r.tagGroup == tag.tagGroup
    && r.nodeId == None && r.timestamp == now
    && if from + Registers(tag) <= |registers| && tag.dataType != Auto then
         && r.quality == Good && r.error == None && r.value.Some?
         && ShowsTag(r.value.value, registers[from..from + Registers(tag)], tag)
       else r.quality == Bad && r.value == None && Present(r.error)
  }

  lemma RegistersAreReported(registers: seq<u16>, from: nat, tag: TagSpec, now: real)
    requires ValidTag(tag)
    ensures Reports(TagFromRegisters(registers, from, tag, now), registers, from, tag, now)
  {
    hide ShowsTag, ApplyScale, DecodeItems, Registers, RegisterCount;
    CountsAgree(tag);
    var own := Slice(registers, from, RegisterCount(tag));
    if from + Registers(tag) <= |registers| {
      assert own == registers[from..from + Registers(tag)];
      if tag.dataType != Auto { WholeTagIsShown(own, tag); } else { NoAutomaticType(own, tag); }
    }
  }

  lemma NoAutomaticType(registers: seq<u16>, tag: TagSpec)
    requires ValidTag(tag) && tag.dataType == Auto && |registers| == Registers(tag)
    ensures DecodeRegisters(registers, tag).Err? && DecodeRegisters(registers, tag).error != ""
  {}

  // ----- Which unit is asked -----

  /** The unit configured for the tag, or else that of the device. */
  function OwnUnit(tag: TagSpec, defaultUnit: int): int {
    if tag.unitId.Some? then tag.unitId.value else defaultUnit
  }

  lemma UnitIsOwn(tag: TagSpec, defaultUnit: int)
    requires ValidTag(tag)
    ensures Pl.UnitOf(tag, defaultUnit) == OwnUnit(tag, defaultUnit)
    ensures Pl.KeyOf(tag, defaultUnit) == Pl.GroupKey(tag.area, OwnUnit(tag, defaultUnit))
  {}

  predicate IsRegisterTag(tag: TagSpec) {
    tag.area == HoldingRegister || tag.area == InputRegister
  }

  /** How many addresses a tag takes in its area. */
  function Extent(tag: TagSpec): (n: nat)
    requires ValidTag(tag)
  {
    if IsRegisterTag(tag) then Registers(tag) else Items(tag)
  }

  /** Every block asks the tag's own unit for the tag's own area, and for all addresses of the tag; and it asks for no
      more than the limit of that area, unless one tag alone needs more. */
  lemma BlocksAskForTheirTags(tags: seq<TagSpec>, s: R.Settings, k: nat, tag: TagSpec)
    requires Pl.AllValid(tags) && P.InBlock(R.PlanFor(tags, s), k, tag)
    ensures ValidTag(tag)
    ensures var r := R.RequestOf(R.PlanFor(tags, s)[k]);
      r.key.unit == OwnUnit(tag, s.defaultUnit) && r.key.area == tag.area &&
      r.start <= tag.address && tag.address + Extent(tag) <= r.start + r.count &&
      (r.count <= (if IsRegisterTag(tag) then s.limits.registers else s.limits.bits) ||
        (R.PlanFor(tags, s)[k].tags == [tag] && r.start == tag.address && r.count == Extent(tag)))
  {
    hide R.PlanFor, Registers, RegisterCount;
    P.PlanBlockIsGood(tags, s, k);
    TagInGoodBlock(R.PlanFor(tags, s)[k], tags, s, tag);
  }

  lemma TagInGoodBlock(block: Pl.ReadBlock, tags: seq<TagSpec>, s: R.Settings, tag: TagSpec)
    requires R.GoodPlanBlock(block, tags, s) && tag in block.tags
    ensures ValidTag(tag)
    ensures block.key.unit == OwnUnit(tag, s.defaultUnit) && block.key.area == tag.area
    ensures block.start <= tag.address && tag.address + Extent(tag) <= block.start + block.count
    ensures block.count <= (if IsRegisterTag(tag) then s.limits.registers else s.limits.bits) ||
      (block.tags == [tag] && block.start == tag.address && block.count == Extent(tag))
  {
    hide Registers, RegisterCount, ValueCount;
    var b := Pl.Bounds(s.gap, Pl.LimitOf(s.limits, block.key.area));
    var m :| 0 <= m < |block.tags| && block.tags[m] == tag;
    PlanProperties.TagsLieInside(block, b, m);
    UnitIsOwn(tag, s.defaultUnit);
    CountsAgree(tag);
    if block.count > b.limit { assert block.tags == [tag]; }
  }

  // ----- What the reader reports -----

  /** The result of a bit tag whose bits begin at a position of a response. */
  ghost predicate ReportsBits(r: TagResult, bits: seq<bool>, from: nat, tag: TagSpec, now: real)
    requires ValidTag(tag)
  {
    && r.name == tag.name && r.address == tag.address && r.tagGroup == tag.tagGroup
    && r.nodeId == None && r.timestamp == now
    && if from + Items(tag) <= |bits| then
         && r.quality == Good && r.error == None && r.value.Some?
         && if Items(tag) == 1 then r.value.value == BoolValue(bits[from])
            else
              && r.value.value.ListValue?
              && |r.value.value.items| == Items(tag)
              && forall k :: 0 <= k < Items(tag) ==> r.value.value.items[k] == BoolValue(bits[from + k])
       else r.quality == Bad && r.value == None && Present(r.error)
  }

  lemma BitsAreReported(bits: seq<bool>, from: nat, tag: TagSpec, now: real)
    requires ValidTag(tag)
    ensures ReportsBits(R.TagFromBits(bits, from, tag, now), bits, from, tag, now)
  {
    hide R.BitValues;
    CountsAgree(tag);
    var own := Slice(bits, from, ValueCount(tag));
    ReadBack.BitValuesLength(own);
    if from + Items(tag) <= |bits| {
      assert own == bits[from..from + Items(tag)];
      forall k | 0 <= k < Items(tag)
        ensures R.BitValues(own)[k] == BoolValue(bits[from + k])
      {
        ReadBack.BitValueAt(own, k);
      }
    }
  }

  /** What a grouped read says of a tag, by how the call for its block ended: bad with the message of an exception or an
      error response; otherwise what the response shows at the tag's place. */
  ghost predicate ReportsAnswer(r: TagResult, response: R.Response, start: int, tag: TagSpec, now: real)
    requires ValidTag(tag) && start <= tag.address
  {
    match response
    case Raised(message) =>
      r == TagResult(tag.name, tag.address, None, Bad, Some(message), now, None, tag.tagGroup)
    case Answer(isError, message, registers, bits) =>
      if isError then r == TagResult(tag.name, tag.address, None, Bad, Some(message), now, None, tag.tagGroup)
      else if IsRegisterTag(tag) then Reports(r, registers, tag.address - start, tag, now)
      else ReportsBits(r, bits, tag.address - start, tag, now)
  }

  lemma AnswerIsReported(response: R.Response, start: int, tag: TagSpec, now: real)
    requires ValidTag(tag) && start <= tag.address
    ensures ReportsAnswer(R.TagFromResponse(response, start, tag, now), response, start, tag, now)
  {
    hide Reports, ReportsBits, TagFromRegisters, R.TagFromBits;
    if response.Answer? && !response.isError {
      if IsRegisterTag(tag) {
        RegistersAreReported(response.registers, tag.address - start, tag, now);
      } else {
        BitsAreReported(response.bits, tag.address - start, tag, now);
      }
    }
  }

  /** Whatever the calls end in, with distinct names each tag's result is what the call that asked for it says. */
  lemma ReadsReportAnswers(client: R.Client, tags: seq<TagSpec>, s: R.Settings, now: real, i: nat) returns (k: nat)
    requires Pl.AllValid(tags) && P.DistinctNames(tags) && i < |tags|
    ensures P.InBlock(R.PlanFor(tags, s), k, tags[i]) && R.PlanFor(tags, s)[k].start <= tags[i].address
    ensures var r := R.RequestOf(R.PlanFor(tags, s)[k]);
      ReportsAnswer(R.ReadGrouped(Some(client), tags, s, now)[i], client(k, r), r.start, tags[i], now)
  {
    hide R.PlanFor, R.ReadGrouped, ReportsAnswer, R.TagFromResponse, P.DistinctNames;
    k := P.OwnBlockDecides(client, tags, s, now, i);
    BlocksAskForTheirTags(tags, s, k, tags[i]);
    AnswerIsReported(client(k, R.RequestOf(R.PlanFor(tags, s)[k])), R.PlanFor(tags, s)[k].start, tags[i], now);
  }

  /** Without a client every tag is bad. */
  lemma NothingIsReadUnconnected(tags: seq<TagSpec>, s: R.Settings, now: real, i: nat)
    requires Pl.AllValid(tags) && i < |tags|
    ensures R.ReadGrouped(None, tags, s, now)[i] == TagResult(tags[i].name, tags[i].address, None, Bad,
      Some("Modbus client is not connected"), now, None, tags[i].tagGroup)
  {}

  /** Against a steady device that has the block's addresses, a register tag that fits shows what the registers hold at
      its address, in its own unit and area. */
  lemma ReadsReportMemory(client: R.Client, device: R.Request -> R.Response, mem: P.Memory, tags: seq<TagSpec>,
                          s: R.Settings, now: real, i: nat)
    requires Pl.AllValid(tags) && P.DistinctNames(tags) && i < |tags| && P.Steady(client, device, mem, s.limits)
    requires P.OwnBlockMapped(mem, tags, s, tags[i]) && IsRegisterTag(tags[i])
    requires Registers(tags[i]) <= s.limits.registers && tags[i].dataType != Auto
    ensures var tag, r := tags[i], R.ReadGrouped(Some(client), tags, s, now)[i];
      var cells := seq(Registers(tag), j => mem.register(Pl.GroupKey(tag.area, OwnUnit(tag, s.defaultUnit)),
        tag.address + j));
      r.quality == Good && r.error == None && r.value.Some? && ShowsTag(r.value.value, cells, tag)
  {
    hide R.PlanFor, R.ReadGrouped, P.DistinctNames, P.Steady, P.OwnBlockMapped, TagFromRegisters, Registers,
      RegisterCount, ShowsTag, P.Harmless, P.SameUpToError, P.IsBad;
    var tag := tags[i];
    CountsAgree(tag);
    UnitIsOwn(tag, s.defaultUnit);
    var k := P.GroupedReadsRefineSingleReads(client, device, mem, tags, s, now, i);
    MappedBlock(mem, tags, s, k, tag);
    var key := Pl.GroupKey(tag.area, OwnUnit(tag, s.defaultUnit));
    var cells := P.Registers(mem, key, tag.address, Registers(tag));
    RegistersAreReported(cells, 0, tag, now);
    assert cells[0..Registers(tag)] == cells == seq(Registers(tag), j => mem.register(key, tag.address + j));
  }

  lemma MappedBlock(mem: P.Memory, tags: seq<TagSpec>, s: R.Settings, k: nat, tag: TagSpec)
    requires Pl.AllValid(tags) && P.OwnBlockMapped(mem, tags, s, tag) && P.InBlock(R.PlanFor(tags, s), k, tag)
    ensures P.Mapped(mem, R.RequestOf(R.PlanFor(tags, s)[k]))
  {}

  // ----- What the monitor reports -----

  /** The exchange read the area with the function for it: 1 coils, 2 discrete inputs, 3 holding registers, 4 input
      registers. */
  predicate ReadsArea(fn: byte, area: Area) {
    match area
    case Coil => fn == 1
    case DiscreteInput => fn == 2
    case HoldingRegister => fn == 3
    case InputRegister => fn == 4
  }

  /** The exchange is with the tag's own unit, about the tag's own area, was answered with registers, and asked for the
      tag's first address. */
  predicate Tells(x: Pair, tag: TagSpec, defaultUnit: int) {
    && x.request.ReadRequest? && x.response.RegisterResponse?
    && Count(x.request.slave) == OwnUnit(tag, defaultUnit) && ReadsArea(x.request.fn, tag.area)
    && Number(x.request.start) <= tag.address < Number(x.request.start) + Number(x.request.quantity)
  }

  lemma HoldsMeansTells(x: Pair, tag: TagSpec, defaultUnit: int)
    requires ValidTag(tag)
    ensures Agreement.Holds(x, tag, Pl.UnitOf(tag, defaultUnit)) <==> Tells(x, tag, defaultUnit)
  {
    hide Pl.UnitOf;
    UnitIsOwn(tag, defaultUnit);
    if x.request.ReadRequest? { AreaByFunction(x.request.fn); }
  }

  lemma AreaByFunction(fn: byte)
    ensures forall area :: AreaOf(fn) == Some(area) <==> ReadsArea(fn, area)
  {}

  predicate SameRange(x: Pair, y: Pair) {
    x.request.ReadRequest? && y.request.ReadRequest? &&
    x.request.slave == y.request.slave && x.request.fn == y.request.fn &&
    Number(x.request.start) == Number(y.request.start)
  }

  /** The monitor's result for a tag comes from an exchange that tells of it, the latest with its slave, function and
      start; without one the tag is bad.  It shows the registers of the answer at the tag's place. */
  lemma MonitorReportsExchange(xs: seq<Pair>, tag: TagSpec, defaultUnit: int, now: real) returns (i: nat)
    requires Requests(xs) && ValidTag(tag)
    ensures var r := MonitorResult(LatestPairs(xs), tag, defaultUnit, now);
      if exists j :: 0 <= j < |xs| && Tells(xs[j], tag, defaultUnit) &&
                     forall m :: j < m < |xs| ==> !SameRange(xs[m], xs[j])
      then
        && i < |xs| && Tells(xs[i], tag, defaultUnit) && (forall m :: i < m < |xs| ==> !SameRange(xs[m], xs[i]))
        && Reports(r, Values(xs[i].response.registers), tag.address - Number(xs[i].request.start), tag, now)
      else
        r == TagResult(tag.name, tag.address, None, Bad, 
          Some("tag was not observed in captured Modbus RTU traffic"), now, None, tag.tagGroup)
  {
    hide Agreement.Holds, Tells, MonitorResult, LatestPairs, Reports, TagFromRegisters, Agreement.SeenNoLater, Values,
      SameRange, RangeOf;
    var unit := Pl.UnitOf(tag, defaultUnit);
    i := Agreement.MonitorTellsReported(xs, tag, defaultUnit, now);
    forall j | 0 <= j < |xs|
      ensures Agreement.Holds(xs[j], tag, unit) <==> Tells(xs[j], tag, defaultUnit)
      ensures Tells(xs[j], tag, defaultUnit) ==>
        (Agreement.Settled(xs, j) <==> forall m :: j < m < |xs| ==> !SameRange(xs[m], xs[j]))
    {
      HoldsMeansTells(xs[j], tag, defaultUnit);
      if Tells(xs[j], tag, defaultUnit) { SettledByRange(xs, j, tag, defaultUnit); }
    }
    if Agreement.Heard(xs, tag, unit) {
      ToldAsReported(xs[i], tag, defaultUnit, now);
    }
  }

  lemma SettledByRange(xs: seq<Pair>, j: nat, tag: TagSpec, defaultUnit: int)
    requires Requests(xs) && j < |xs| && Tells(xs[j], tag, defaultUnit)
    ensures Agreement.Settled(xs, j) <==> forall m :: j < m < |xs| ==> !SameRange(xs[m], xs[j])
  {
    hide RangeOf;
    AreaByFunction(xs[j].request.fn);
    forall m | j < m < |xs|
      ensures RangeOf(xs[m]) == RangeOf(xs[j]) <==> SameRange(xs[m], xs[j])
    {
      RangeBySlaveFunctionStart(xs[m], xs[j]);
    }
    RangeBySlaveFunctionStart(xs[j], xs[j]);
  }

  lemma RangeBySlaveFunctionStart(x: Pair, y: Pair)
    requires x.request.ReadRequest? && y.request.ReadRequest? && AreaOf(y.request.fn).Some?
    ensures RangeOf(y).Some?
    ensures RangeOf(x) == RangeOf(y) <==> SameRange(x, y)
  {
    FrameCodes.CountIsInjective(x.request.slave, y.request.slave);
  }

  lemma ToldAsReported(x: Pair, tag: TagSpec, defaultUnit: int, now: real)
    requires ValidTag(tag) && Agreement.Holds(x, tag, Pl.UnitOf(tag, defaultUnit)) && Tells(x, tag, defaultUnit)
    ensures Reports(Agreement.Told(x, tag, now), Values(x.response.registers),
      tag.address - Number(x.request.start), tag, now)
  {
    hide Reports, TagFromRegisters, Values;
    RegistersAreReported(Values(x.response.registers), tag.address - Number(x.request.start), tag, now);
  }

  lemma {:induction false} ValuesAreNumbers(registers: seq<word>, k: nat)
    requires k < |registers|
    ensures Values(registers)[k] == registers[k] as int
  {
    if k > 0 { ValuesAreNumbers(registers[1..], k - 1); }
  }

  /** So an overheard read of input registers, answered with as many registers as asked for, resolves every input
      register tag of its slave that lies inside; and likewise for holding registers. */
  lemma OverheardRegistersAreReported(slave: byte, fn: byte, start: word, quantity: word, byteCount: byte,
                                      registers: seq<word>, tag: TagSpec, defaultUnit: int, now: real)
    requires (fn == 3 && tag.area == HoldingRegister) || (fn == 4 && tag.area == InputRegister)
    requires ValidTag(tag) && tag.dataType != Auto && Count(slave) == OwnUnit(tag, defaultUnit)
    requires |registers| == Number(quantity)
    requires Number(start) <= tag.address && tag.address + Registers(tag) <= Number(start) + Number(quantity)
    ensures var x := Pair(ReadRequest(slave, fn, start, quantity), RegisterResponse(slave, fn, byteCount, registers));
      var r := MonitorResult(LatestPairs([x]), tag, defaultUnit, now);
      PairsIn([x.request, x.response]) == [x] && Requests([x]) && r.quality == Good &&
      Reports(r, Values(registers), tag.address - Number(start), tag, now)
  {
    hide ShowsTag, MonitorResult, LatestPairs, Registers, RegisterCount, Values, PairsIn;
    var request, response := ReadRequest(slave, fn, start, quantity), RegisterResponse(slave, fn, byteCount, registers);
    var x := Pair(request, response);
    OneExchange(request, response);
    TakesRegisters(tag);
    assert Tells(x, tag, defaultUnit);
    hide Tells;
    var i := MonitorReportsExchange([x], tag, defaultUnit, now);
    assert [x][0] == x;
  }

  lemma TakesRegisters(tag: TagSpec)
    requires ValidTag(tag)
    ensures Registers(tag) > 0
  {
    CountsAgree(tag);
  }

  lemma OneExchange(request: Frame, response: Frame)
    requires request.ReadRequest? && IsReadResponse(response) && KeyOf(request) == KeyOf(response)
    ensures PairsIn([request, response]) == [Pair(request, response)]
  {
    var frames := [request, response];
    PartnerIsAnswered(frames, 0, 1);
    assert Answers(frames, 0, 1);
    assert PairsIn(frames) == AnsweredPairs(frames, 2);
    assert AnsweredPairs(frames, 1) == [];
  }
}
