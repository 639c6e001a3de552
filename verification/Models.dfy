/** The records that pass between drivers, queues and publisher. */
module Models {

  datatype Option<+T> = None | Some(value: T)

  datatype Result<+T, +E> = Ok(value: T) | Err(error: E)

  /** A register value. */
  type u16 = x: int | 0 <= x < 0x1_0000

  datatype Area = HoldingRegister | InputRegister | Coil | DiscreteInput

  datatype DataType = Auto | Boolean | Int16 | Uint16 | Int32 | Uint32 | Float32 | Float64 | Text

  datatype Order = Big | Little

  datatype TagSpec = TagSpec(
    name: string,
    address: int,
    area: Area,
    dataType: DataType,
    tagGroup: string,
    scale: real,
    offset: real,
    unitId: Option<int>,
    wordCount: Option<int>,
    byteOrder: Order,
    wordOrder: Order)

  /** What validation guarantees of a stored Modbus tag, as far as reading depends on it. */
  predicate ValidTag(tag: TagSpec) {
    && tag.address >= 0
    && (tag.unitId.Some? ==> 1 <= tag.unitId.value <= 247)
    && (tag.wordCount.Some? ==> tag.wordCount.value >= 1)
    && (tag.dataType == Text ==> tag.wordCount.Some?)
  }

  predicate IsRegisterArea(area: Area) {
    area == HoldingRegister || area == InputRegister
  }

  /** A decoded value.  Floating-point values keep their bit pattern, and the scaling asked for. */
  datatype Value =
    | BoolValue(flag: bool)
    | IntValue(number: int)
    | RealValue(amount: real)
    | FloatBits(words: nat, bits: nat)
    | ScaledFloat(words: nat, bits: nat, scale: real, offset: real)
    | TextValue(text: string)
    | ListValue(items: seq<Value>)

  datatype Quality = Good | Bad

  datatype TagResult = TagResult(
    name: string,
    address: int,
    value: Option<Value>,
    quality: Quality,
    error: Option<string>,
    timestamp: real,
    nodeId: Option<string>,
    tagGroup: string)

  function BadResult(tag: TagSpec, now: real, error: string): TagResult {
    TagResult(tag.name, tag.address, None, Bad, Some(error), now, None, tag.tagGroup)
  }

  function GoodResult(tag: TagSpec, now: real, value: Value): TagResult {
    TagResult(tag.name, tag.address, Some(value), Good, None, now, None, tag.tagGroup)
  }

  datatype DeviceSpec = DeviceSpec(id: Option<int>, name: string, deviceGroup: string)

  datatype ReadResult = ReadResult(device: DeviceSpec, timestamp: real, tags: seq<TagResult>, error: Option<string>)

  /** An empty text counts as absent wherever the gateway tests for one. */
  predicate Present(text: Option<string>) {
    text.Some? && text.value != ""
  }

  /** A slice past the end of a list is cut short, as Python does. */
  function Slice<T>(s: seq<T>, from: nat, count: nat): (r: seq<T>)
    ensures |r| <= count
  {
    if from >= |s| then []
    else if from + count >= |s| then s[from..]
    else s[from..from + count]
  }

  function Drop<T>(s: seq<T>, count: nat): seq<T> {
    if count >= |s| then [] else s[count..]
  }
}
