/** Register words to tag values. */
module Decode {
  import opened Models

  function WordsPerValue(tag: TagSpec): (n: nat)
    ensures n >= 1
  {
    match tag.dataType
    case Float64 => 4
    case Int32 | Uint32 | Float32 => 2
    case _ => 1
  }

  function ValueCount(tag: TagSpec): (n: nat)
    requires ValidTag(tag)
    ensures n >= 1
  {
    if tag.wordCount.Some? then tag.wordCount.value else 1
  }

  function RegisterCount(tag: TagSpec): (n: nat)
    requires ValidTag(tag)
    ensures n >= 1
  {
    if tag.dataType == Text then ValueCount(tag) else WordsPerValue(tag) * ValueCount(tag)
  }

  function ItemCount(tag: TagSpec): (n: nat)
    requires ValidTag(tag)
    ensures n >= 1
  {
    if IsRegisterArea(tag.area) then RegisterCount(tag) else ValueCount(tag)
  }

  // ----- Integers -----

  /** Big-endian concatenation of words. */
  function RegistersToInt(registers: seq<u16>): (raw: nat)
    ensures raw < Power(|registers|)
  {
    if registers == [] then 0
    else RegistersToInt(registers[..|registers| - 1]) * 0x1_0000 + registers[|registers| - 1]
  }

  /** How many values n words can hold. */
  function Power(n: nat): (p: nat)
    ensures p >= 1
  {
    if n == 0 then 1 else Power(n - 1) * 0x1_0000
  }

  function SplitInt(raw: nat, n: nat): (registers: seq<u16>)
    ensures |registers| == n
  {
    if n == 0 then [] else SplitInt(raw / 0x1_0000, n - 1) + [raw % 0x1_0000]
  }

  method ComputeRegistersToInt(registers: seq<u16>) returns (raw: nat)
    ensures raw == RegistersToInt(registers)
  {
    raw := 0;
    for i := 0 to |registers|
      invariant raw == RegistersToInt(registers[..i])
    {
      assert registers[..i + 1][..i] == registers[..i];
      raw := raw * 0x1_0000 + registers[i];
    }
    assert registers[..|registers|] == registers;
  }

  lemma {:induction false} SplitJoin(raw: nat, n: nat)
    requires raw < Power(n)
    ensures RegistersToInt(SplitInt(raw, n)) == raw
  {
    if n > 0 {
      var s := SplitInt(raw, n);
      assert s[..n - 1] == SplitInt(raw / 0x1_0000, n - 1);
      SplitJoin(raw / 0x1_0000, n - 1);
    }
  }

  lemma LowWord(high: nat, low: u16)
    ensures (high * 0x1_0000 + low) / 0x1_0000 == high && (high * 0x1_0000 + low) % 0x1_0000 == low
  {}

  lemma {:induction false} JoinSplit(registers: seq<u16>)
    ensures SplitInt(RegistersToInt(registers), |registers|) == registers
  {
    if registers != [] {
      var n := |registers| - 1;
      LowWord(RegistersToInt(registers[..n]), registers[n]);
      JoinSplit(registers[..n]);
      assert registers == registers[..n] + [registers[n]];
    }
  }

  /** The words of a negative number are those of its two's complement. */
  function Unsigned(value: int, n: nat): int {
    if value < 0 then value + Power(n) else value
  }

  // ----- Word order -----

  function Reversed<T>(s: seq<T>): (r: seq<T>)
    ensures |r| == |s|
    ensures forall i :: 0 <= i < |s| ==> r[i] == s[|s| - 1 - i]
  {
    if s == [] then [] else Reversed(s[1..]) + [s[0]]
  }

  lemma ReversedTwice<T>(s: seq<T>)
    ensures Reversed(Reversed(s)) == s
  {}

  function WordOrdered(registers: seq<u16>, tag: TagSpec): (r: seq<u16>)
    ensures |r| == |registers|
  {
    if tag.wordOrder == Little && |registers| > 1 then Reversed(registers) else registers
  }

  // ----- Text -----

  type octet = x: int | 0 <= x < 256

  function RegisterOctets(register: u16, order: Order): seq<octet> {
    if order == Little then [register % 256, register / 256] else [register / 256, register % 256]
  }

  function Octets(registers: seq<u16>, order: Order): (data: seq<octet>)
    ensures |data| == 2 * |registers|
  {
    if registers == [] then []
    else Octets(registers[..|registers| - 1], order) + RegisterOctets(registers[|registers| - 1], order)
  }

  /** ASCII, with a replacement character for every other byte. */
  function AsciiChar(b: octet): char {
    if b < 128 then b as char else '\U{FFFD}'
  }

  /** The text before the first NUL. */
  function AsciiText(data: seq<octet>): string {
    if data == [] || data[0] == 0 then "" else [AsciiChar(data[0])] + AsciiText(data[1..])
  }

  function DecodeString(registers: seq<u16>, tag: TagSpec): string {
    AsciiText(Octets(registers, tag.byteOrder))
  }

  method ComputeDecodeString(registers: seq<u16>, tag: TagSpec) returns (text: string)
    ensures text == DecodeString(registers, tag)
  {
    var data: seq<octet> := [];
    for i := 0 to |registers|
      invariant data == Octets(registers[..i], tag.byteOrder)
    {
      assert registers[..i + 1][..i] == registers[..i];
      var high, low := registers[i] / 256, registers[i] % 256;
      if tag.byteOrder == Little {
        data := data + [low, high];
      } else {
        data := data + [high, low];
      }
    }
    assert registers[..|registers|] == registers;
    text := AsciiText(data);
  }

  predicate PlainAscii(text: string) {
    forall i :: 0 <= i < |text| ==> 0 < text[i] as int < 128
  }

  /** A text as bytes, filled up with NULs. */
  function TextOctets(text: string, n: nat): (data: seq<octet>)
    requires PlainAscii(text) && |text| <= n
    ensures |data| == n
  {
    if n == 0 then []
    else if text == "" then [0] + TextOctets(text, n - 1)
    else [text[0] as int] + TextOctets(text[1..], n - 1)
  }

  lemma {:induction false} TextSurvives(text: string, n: nat)
    requires PlainAscii(text) && |text| <= n
    ensures AsciiText(TextOctets(text, n)) == text
  {
    if text != "" { TextSurvives(text[1..], n - 1); }
  }

  function OctetPair(first: octet, second: octet, order: Order): u16 {
    if order == Little then second * 256 + first else first * 256 + second
  }

  lemma OctetPairSurvives(first: octet, second: octet, order: Order)
    ensures RegisterOctets(OctetPair(first, second, order), order) == [first, second]
  {}

  function PackOctets(data: seq<octet>, order: Order, n: nat): (registers: seq<u16>)
    requires |data| == 2 * n
    ensures |registers| == n
  {
    if n == 0 then []
    else PackOctets(data[..2 * n - 2], order, n - 1) + [OctetPair(data[2 * n - 2], data[2 * n - 1], order)]
  }

  lemma {:induction false} OctetsSurvive(data: seq<octet>, order: Order, n: nat)
    requires |data| == 2 * n
    ensures Octets(PackOctets(data, order, n), order) == data
  {
    if n > 0 {
      var front, pair := data[..2 * n - 2], OctetPair(data[2 * n - 2], data[2 * n - 1], order);
      OctetsSurvive(front, order, n - 1);
      OctetPairSurvives(data[2 * n - 2], data[2 * n - 1], order);
      OctetsOfLonger(PackOctets(front, order, n - 1), pair, order);
      assert data == front + [data[2 * n - 2], data[2 * n - 1]];
    }
  }

  lemma OctetsOfLonger(front: seq<u16>, last: u16, order: Order)
    ensures Octets(front + [last], order) == Octets(front, order) + RegisterOctets(last, order)
  {
    assert (front + [last])[..|front|] == front;
  }

  // ----- Tags -----

  function DataTypeName(dataType: DataType): string {
    match dataType
    case Auto => "auto" case Boolean => "bool" case Int16 => "int16" case Uint16 => "uint16"
    case Int32 => "int32" case Uint32 => "uint32" case Float32 => "float32" case Float64 => "float64"
    case Text => "string"
  }

  function DecodeSingle(registers: seq<u16>, tag: TagSpec): Result<Value, string> {
    var ordered := WordOrdered(registers, tag);
    if registers == [] then Err("list index out of range")
    else
      match tag.dataType
      case Boolean => Ok(BoolValue(registers[0] != 0))
      case Int16 =>
        var value: int := ordered[0];
        Ok(IntValue(if value >= 0x8000 then value - 0x1_0000 else value))
      case Uint16 => Ok(IntValue(ordered[0]))
      case Text => Ok(TextValue(DecodeString(ordered, tag)))
      case Int32 =>
        var raw := RegistersToInt(ordered);
        Ok(IntValue(if raw >= 0x8000_0000 then raw - 0x1_0000_0000 else raw))
      case Uint32 => Ok(IntValue(RegistersToInt(ordered)))
      case Float32 => Ok(FloatBits(2, RegistersToInt(ordered)))
      case Float64 => Ok(FloatBits(4, RegistersToInt(ordered)))
      case Auto => Err("unsupported data type " + DataTypeName(tag.dataType))
  }

  /** Consecutive values, each from its own group of registers. */
  function DecodeItems(registers: seq<u16>, tag: TagSpec, n: nat): Result<seq<Value>, string>
    decreases n
  {
    if n == 0 then Ok([])
    else
      match DecodeSingle(Slice(registers, 0, WordsPerValue(tag)), tag)
      case Err(e) => Err(e)
      case Ok(item) =>
        match DecodeItems(Drop(registers, WordsPerValue(tag)), tag, n - 1)
        case Err(e) => Err(e)
        case Ok(items) => Ok([item] + items)
  }

  /** Values found before those of the rest. */
  function Followed(values: seq<Value>, rest: Result<seq<Value>, string>): Result<seq<Value>, string> {
    match rest
    case Err(e) => Err(e)
    case Ok(items) => Ok(values + items)
  }

  lemma NextGroup(registers: seq<u16>, start: nat, count: nat)
    ensures Slice(Drop(registers, start), 0, count) == Slice(registers, start, count)
    ensures Drop(Drop(registers, start), count) == Drop(registers, start + count)
  {}

  lemma OneMoreItem(values: seq<Value>, registers: seq<u16>, tag: TagSpec, n: nat)
    requires n > 0
    ensures var first := DecodeSingle(Slice(registers, 0, WordsPerValue(tag)), tag);
      Followed(values, DecodeItems(registers, tag, n)) ==
        if first.Err? then Err(first.error)
        else Followed(values + [first.value], DecodeItems(Drop(registers, WordsPerValue(tag)), tag, n - 1))
  {
    hide DecodeSingle;
    var first := DecodeSingle(Slice(registers, 0, WordsPerValue(tag)), tag);
    var more := DecodeItems(Drop(registers, WordsPerValue(tag)), tag, n - 1);
    if first.Ok? && more.Ok? {
      assert values + ([first.value] + more.value) == (values + [first.value]) + more.value;
    }
  }

  /** The loop over consecutive groups of registers. */
  method ComputeDecodeItems(registers: seq<u16>, tag: TagSpec, n: nat) returns (r: Result<seq<Value>, string>)
    ensures r == DecodeItems(registers, tag, n)
  {
    hide DecodeSingle, DecodeItems, Slice, Drop, Followed;
    var values: seq<Value>, start: nat := [], 0;
    NoItemsYet(registers, tag, n);
    for i := 0 to n
      invariant Followed(values, DecodeItems(Drop(registers, start), tag, n - i)) == DecodeItems(registers, tag, n)
    {
      NextGroup(registers, start, WordsPerValue(tag));
      OneMoreItem(values, Drop(registers, start), tag, n - i);
      var item := DecodeSingle(Slice(registers, start, WordsPerValue(tag)), tag);
      if item.Err? { return Err(item.error); }
      values := values + [item.value];
      start := start + WordsPerValue(tag);
    }
    NoItemsLeft(values, Drop(registers, start), tag);
    r := Ok(values);
  }

  lemma NoItemsYet(registers: seq<u16>, tag: TagSpec, n: nat)
    ensures Followed([], DecodeItems(Drop(registers, 0), tag, n)) == DecodeItems(registers, tag, n)
  {
    assert Drop(registers, 0) == registers;
    var r := DecodeItems(registers, tag, n);
    assert r.Ok? ==> [] + r.value == r.value;
  }

  lemma NoItemsLeft(values: seq<Value>, registers: seq<u16>, tag: TagSpec)
    ensures Followed(values, DecodeItems(registers, tag, 0)) == Ok(values)
  {
    assert values + [] == values;
  }

  function DecodeRegisters(registers: seq<u16>, tag: TagSpec): Result<Value, string>
    requires ValidTag(tag)
  {
    if |registers| < RegisterCount(tag) then Err("not enough registers for " + tag.name)
    else if tag.dataType != Text && ValueCount(tag) > 1 then
      match DecodeItems(registers, tag, ValueCount(tag))
      case Err(e) => Err(e)
      case Ok(items) => Ok(ListValue(items))
    else DecodeSingle(registers, tag)
  }

  function ApplyScale(value: Value, scale: real, offset: real): Value
    decreases value
  {
    match value
    case IntValue(i) => RealValue(i as real * scale + offset)
    case RealValue(r) => RealValue(r * scale + offset)
    case FloatBits(words, bits) => ScaledFloat(words, bits, scale, offset)
    case ListValue(items) => ListValue(ScaleAll(items, scale, offset))
    case _ => value
  }

  function ScaleAll(items: seq<Value>, scale: real, offset: real): seq<Value>
    decreases items
  {
    if items == [] then [] else [ApplyScale(items[0], scale, offset)] + ScaleAll(items[1..], scale, offset)
  }

  /** The result for a tag whose registers start at a given offset of a response. */
  function TagFromRegisters(registers: seq<u16>, from: nat, tag: TagSpec, now: real): TagResult
    requires ValidTag(tag)
  {
    match DecodeRegisters(Slice(registers, from, RegisterCount(tag)), tag)
    case Ok(value) => GoodResult(tag, now, ApplyScale(value, tag.scale, tag.offset))
    case Err(e) => BadResult(tag, now, e)
  }
}
