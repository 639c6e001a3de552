/** Values written into registers and decoded again. */
module DecodeRoundTrip {
  import opened Models
  import opened Decode

  /** The values that one item of a tag's type can take. */
  predicate InRange(value: Value, tag: TagSpec)
    requires ValidTag(tag)
  {
    match tag.dataType
    case Boolean => value.BoolValue?
    case Int16 => value.IntValue? && -0x8000 <= value.number < 0x8000
    case Uint16 => value.IntValue? && 0 <= value.number < 0x1_0000
    case Int32 => value.IntValue? && -0x8000_0000 <= value.number < 0x8000_0000
    case Uint32 => value.IntValue? && 0 <= value.number < 0x1_0000_0000
    case Float32 => value.FloatBits? && value.words == 2 && value.bits < Power(2)
    case Float64 => value.FloatBits? && value.words == 4 && value.bits < Power(4)
    case Text => value.TextValue? && PlainAscii(value.text) && |value.text| <= 2 * ValueCount(tag)
    case Auto => false
  }

  predicate AllInRange(items: seq<Value>, tag: TagSpec)
    requires ValidTag(tag)
  {
    forall i :: 0 <= i < |items| ==> InRange(items[i], tag)
  }

  lemma Powers()
    ensures Power(1) == 0x1_0000 && Power(2) == 0x1_0000_0000
  {
    assert Power(1) == Power(0) * 0x1_0000;
  }

  function NumberOf(value: Value, tag: TagSpec): (raw: nat)
    requires ValidTag(tag) && InRange(value, tag) && (value.IntValue? || value.FloatBits?)
    ensures raw < Power(WordsPerValue(tag))
  {
    Powers();
    if value.FloatBits? then value.bits else Unsigned(value.number, WordsPerValue(tag))
  }

  /** Most significant word first or last, as the tag says. */
  function PlaceWords(words: seq<u16>, order: Order): (registers: seq<u16>)
    ensures |registers| == |words|
  {
    match order
    case Big => words
    case Little => Reversed(words)
  }

  lemma PlacedWordsOrdered(words: seq<u16>, tag: TagSpec)
    ensures WordOrdered(PlaceWords(words, tag.wordOrder), tag) == words
  {
    ReversedTwice(words);
  }

  lemma OrderedWordsPlaced(registers: seq<u16>, tag: TagSpec)
    ensures PlaceWords(WordOrdered(registers, tag), tag.wordOrder) == registers
  {
    ReversedTwice(registers);
  }

  /** The registers of one item, in the tag's word order. */
  function EncodeSingle(value: Value, tag: TagSpec): (registers: seq<u16>)
    requires ValidTag(tag) && InRange(value, tag)
    ensures |registers| == if tag.dataType == Text then ValueCount(tag) else WordsPerValue(tag)
  {
    if value.BoolValue? then [if value.flag then 1 else 0]
    else if value.TextValue? then
      var n := ValueCount(tag);
      PlaceWords(PackOctets(TextOctets(value.text, 2 * n), tag.byteOrder, n), tag.wordOrder)
    else PlaceWords(SplitInt(NumberOf(value, tag), WordsPerValue(tag)), tag.wordOrder)
  }

  lemma JoinOne(register: u16)
    ensures RegistersToInt([register]) == register
  {
    assert [register][..0] == [];
  }

  lemma NumberSurvives(value: Value, tag: TagSpec)
    requires ValidTag(tag) && InRange(value, tag) && (value.IntValue? || value.FloatBits?)
    ensures DecodeSingle(EncodeSingle(value, tag), tag) == Ok(value)
  {
    Powers();
    var w, raw := WordsPerValue(tag), NumberOf(value, tag);
    PlacedWordsOrdered(SplitInt(raw, w), tag);
    SplitJoin(raw, w);
    if w == 1 { JoinOne(SplitInt(raw, 1)[0]); }
  }

  lemma TextComesBack(text: string, tag: TagSpec)
    requires ValidTag(tag) && tag.dataType == Text && InRange(TextValue(text), tag)
    ensures DecodeSingle(EncodeSingle(TextValue(text), tag), tag) == Ok(TextValue(text))
  {
    var n := ValueCount(tag);
    var data := TextOctets(text, 2 * n);
    var registers := PackOctets(data, tag.byteOrder, n);
    assert EncodeSingle(TextValue(text), tag) == PlaceWords(registers, tag.wordOrder);
    PlacedWordsOrdered(registers, tag);
    OctetsSurvive(data, tag.byteOrder, n);
    TextSurvives(text, 2 * n);
  }

  lemma SingleRoundTrip(value: Value, tag: TagSpec)
    requires ValidTag(tag) && InRange(value, tag)
    ensures DecodeSingle(EncodeSingle(value, tag), tag) == Ok(value)
  {
    if value.TextValue? {
      TextComesBack(value.text, tag);
    } else if !value.BoolValue? {
      NumberSurvives(value, tag);
    }
  }

  /** A decoded number is always in its type's range, and no two register contents decode to the
      same number. */
  lemma NumbersAreFaithful(registers: seq<u16>, tag: TagSpec)
    requires ValidTag(tag) && |registers| == WordsPerValue(tag)
    requires tag.dataType in {Int16, Uint16, Int32, Uint32, Float32, Float64}
    ensures var r := DecodeSingle(registers, tag);
      r.Ok? && InRange(r.value, tag) && EncodeSingle(r.value, tag) == registers
  {
    Powers();
    var ordered := WordOrdered(registers, tag);
    var value := DecodeSingle(registers, tag).value;
    if |registers| == 1 { JoinOne(ordered[0]); }
    OrderedWordsPlaced(registers, tag);
    JoinSplit(ordered);
    assert NumberOf(value, tag) == RegistersToInt(ordered);
  }

  // ----- Lists -----

  function EncodeItems(items: seq<Value>, tag: TagSpec): seq<u16>
    requires ValidTag(tag) && tag.dataType != Text && AllInRange(items, tag)
  {
    if items == [] then [] else EncodeSingle(items[0], tag) + EncodeItems(items[1..], tag)
  }

  lemma {:induction false} EncodedLength(items: seq<Value>, tag: TagSpec)
    requires ValidTag(tag) && tag.dataType != Text && AllInRange(items, tag)
    ensures |EncodeItems(items, tag)| == WordsPerValue(tag) * |items|
  {
    if items != [] { EncodedLength(items[1..], tag); }
  }

  lemma FirstGroup(first: seq<u16>, rest: seq<u16>)
    ensures Slice(first + rest, 0, |first|) == first
    ensures Drop(first + rest, |first|) == rest
  {}

  lemma ItemRoundTrip(item: Value, tag: TagSpec)
    requires ValidTag(tag) && tag.dataType != Text && InRange(item, tag)
    ensures DecodeSingle(EncodeSingle(item, tag), tag) == Ok(item)
    ensures |EncodeSingle(item, tag)| == WordsPerValue(tag)
  {
    SingleRoundTrip(item, tag);
  }

  lemma {:induction false} ItemsRoundTrip(items: seq<Value>, tag: TagSpec)
    requires ValidTag(tag) && tag.dataType != Text && AllInRange(items, tag)
    ensures DecodeItems(EncodeItems(items, tag), tag, |items|) == Ok(items)
  {
    if items != [] {
      ItemsRoundTrip(items[1..], tag);
      ItemRoundTrip(items[0], tag);
      FirstGroup(EncodeSingle(items[0], tag), EncodeItems(items[1..], tag));
      assert items == [items[0]] + items[1..];
    }
  }

  /** The registers that hold a whole tag value, single or list. */
  predicate TagValue(value: Value, tag: TagSpec)
    requires ValidTag(tag)
  {
    if tag.dataType != Text && ValueCount(tag) > 1 then
      value.ListValue? && |value.items| == ValueCount(tag) &&
      AllInRange(value.items, tag)
    else InRange(value, tag)
  }

  function EncodeTag(value: Value, tag: TagSpec): (registers: seq<u16>)
    requires ValidTag(tag) && TagValue(value, tag)
    ensures |registers| == RegisterCount(tag)
  {
    if value.ListValue? then EncodedLength(value.items, tag); EncodeItems(value.items, tag)
    else EncodeSingle(value, tag)
  }

  /** Under either word order and either byte order, what is written is what is read. */
  lemma TagRoundTrip(value: Value, tag: TagSpec)
    requires ValidTag(tag) && TagValue(value, tag)
    ensures DecodeRegisters(EncodeTag(value, tag), tag) == Ok(value)
  {
    if tag.dataType != Text && ValueCount(tag) > 1 {
      EncodedLength(value.items, tag);
      ItemsRoundTrip(value.items, tag);
    } else {
      SingleRoundTrip(value, tag);
    }
  }
}
