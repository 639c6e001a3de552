/** The RTU frame grammar of the passive monitor ("MODBUS Application Protocol Specification V1.1b3",
    sections 6.1 to 6.6, 6.11, 6.12 and 7), and the encoder that it inverts. */
module Frames {
  import opened Words
  import opened Crc
  import opened Models

  datatype Frame =
    | ExceptionResponse(slave: byte, fn: byte, code: byte)
    | ReadRequest(slave: byte, fn: byte, start: word, quantity: word)
    | RegisterResponse(slave: byte, fn: byte, byteCount: byte, registers: seq<word>)
    | DataResponse(slave: byte, fn: byte, byteCount: byte, data: seq<byte>)
    | WriteAck(slave: byte, fn: byte, start: word, value: word)
    | Bare(slave: byte, fn: byte)

  datatype FrameError =
    | TooShort
    | CrcMismatch(expected: word, actual: word)
    | BadExceptionLength
    | ByteCountMismatch
    | BadAckLength
    | UnsupportedFunction(fn: byte)

  predicate IsRead(fn: byte) {
    1 <= fn <= 4
  }

  predicate IsRegisterRead(fn: byte) {
    fn == 3 || fn == 4
  }

  predicate IsWrite(fn: byte) {
    fn == 5 || fn == 6 || fn == 15 || fn == 16
  }

  /** Big-endian register values. */
  function Registers(data: seq<byte>): (r: seq<word>)
    requires |data| % 2 == 0
    ensures 2 * |r| == |data|
  {
    if data == [] then [] else [Word(data[1], data[0])] + Registers(data[2..])
  }

  predicate IsException(fn: byte) {
    fn & 0x80 != 0
  }

  function Parse(frame: seq<byte>): Result<Frame, FrameError> {
    if |frame| < 4 then Err(TooShort)
    else if !CrcAccepts(frame) then
      Err(CrcMismatch(Crc16(frame[..|frame| - 2]), Word(frame[|frame| - 2], frame[|frame| - 1])))
    else ParseChecked(frame[0], frame[1], frame)
  }

  /** The grammar, once the length and the checksum have been checked. */
  function ParseChecked(slave: byte, fn: byte, frame: seq<byte>): Result<Frame, FrameError>
    requires |frame| >= 4
  {
    if IsException(fn) then
      if |frame| != 5 then Err(BadExceptionLength) else Ok(ExceptionResponse(slave, fn, frame[2]))
    else if IsRead(fn) && |frame| >= 5 then
      if |frame| == 8 then
        Ok(ReadRequest(slave, fn, Word(frame[3], frame[2]), Word(frame[5], frame[4])))
      else ParseReadResponse(slave, fn, frame[2], frame[3..|frame| - 2])
    else if IsWrite(fn) && |frame| >= 8 then
      if |frame| != 8 then Err(BadAckLength)
      else Ok(WriteAck(slave, fn, Word(frame[3], frame[2]), Word(frame[5], frame[4])))
    else if !IsRead(fn) then Err(UnsupportedFunction(fn))
    else Ok(Bare(slave, fn))
  }

  function ParseReadResponse(slave: byte, fn: byte, byteCount: byte, data: seq<byte>): Result<Frame, FrameError> {
    if |data| != Count(byteCount) then Err(ByteCountMismatch)
    else if IsRegisterRead(fn) && |data| % 2 == 0 then
      Ok(RegisterResponse(slave, fn, byteCount, Registers(data)))
    else
      Ok(DataResponse(slave, fn, byteCount, data))
  }

  predicate IsReadRequest(frame: Frame) {
    frame.ReadRequest?
  }

  predicate IsReadResponse(frame: Frame) {
    frame.RegisterResponse? || frame.DataResponse?
  }

  // ----- The reference encoder -----

  function RegisterBytes(registers: seq<word>): (data: seq<byte>)
    ensures |data| == 2 * |registers|
  {
    if registers == [] then []
    else [HighByte(registers[0]), LowByte(registers[0])] + RegisterBytes(registers[1..])
  }

  function Payload(frame: Frame): seq<byte> {
    [frame.slave, frame.fn] +
    match frame
    case ExceptionResponse(_, _, code) => [code]
    case ReadRequest(_, _, start, quantity) => [HighByte(start), LowByte(start), HighByte(quantity), LowByte(quantity)]
    case RegisterResponse(_, _, byteCount, registers) => [byteCount] + RegisterBytes(registers)
    case DataResponse(_, _, byteCount, data) => [byteCount] + data
    case WriteAck(_, _, start, value) => [HighByte(start), LowByte(start), HighByte(value), LowByte(value)]
    case Bare(_, _) => []
  }

  function Encode(frame: Frame): seq<byte> {
    Seal(Payload(frame))
  }

  /** What a frame must satisfy to be read back.  Three data bytes are excluded: such a response is
      eight bytes long, and eight bytes are always taken for a request. */
  predicate WellFormed(frame: Frame) {
    match frame
    case ExceptionResponse(_, fn, _) => IsException(fn)
    case ReadRequest(_, fn, _, _) => IsRead(fn)
    case RegisterResponse(_, fn, byteCount, registers) =>
      IsRegisterRead(fn) && |RegisterBytes(registers)| == Count(byteCount)
    case DataResponse(_, fn, byteCount, data) =>
      IsRead(fn) && |data| == Count(byteCount) && |data| != 3 &&
      (IsRegisterRead(fn) ==> |data| % 2 == 1)
    case WriteAck(_, fn, _, _) => IsWrite(fn)
    case Bare(_, fn) => IsRead(fn)
  }

  // ----- The parser inverts the encoder, and nothing else is accepted -----

  lemma {:induction false} RegistersOfBytes(registers: seq<word>)
    ensures Registers(RegisterBytes(registers)) == registers
  {
    if registers != [] {
      WordBytes(registers[0]);
      var d := RegisterBytes(registers);
      assert d[2..] == RegisterBytes(registers[1..]);
      RegistersOfBytes(registers[1..]);
    }
  }

  lemma {:induction false} BytesOfRegisters(data: seq<byte>)
    requires |data| % 2 == 0
    ensures RegisterBytes(Registers(data)) == data
  {
    if data != [] {
      WordOfBytes(data[1], data[0]);
      BytesOfRegisters(data[2..]);
      assert Registers(data)[1..] == Registers(data[2..]);
      assert data == [data[0], data[1]] + data[2..];
    }
  }

  lemma FunctionCodes(fn: byte)
    ensures IsRead(fn) || IsWrite(fn) ==> !IsException(fn)
    ensures !(IsRead(fn) && IsWrite(fn))
    ensures IsRegisterRead(fn) ==> IsRead(fn)
  {}

  lemma Sealed(payload: seq<byte>)
    ensures CrcAccepts(Seal(payload))
  {
    SealIsTheOnlyTrailer(payload, LowByte(Crc16(payload)), HighByte(Crc16(payload)));
  }

  lemma TwoWordsRead(frame: Frame, e: seq<byte>)
    requires frame.ReadRequest? || frame.WriteAck?
    requires WellFormed(frame) && |e| == 8 && e[..6] == Payload(frame)
    ensures ParseChecked(frame.slave, frame.fn, e) == Ok(frame)
  {
    FunctionCodes(frame.fn);
    WordBytes(frame.start);
    WordBytes(if frame.ReadRequest? then frame.quantity else frame.value);
    assert e[2] == e[..6][2] && e[3] == e[..6][3] && e[4] == e[..6][4] && e[5] == e[..6][5];
  }

  /** The data part of a read response. */
  function ResponseData(frame: Frame): seq<byte>
    requires IsReadResponse(frame)
  {
    if frame.RegisterResponse? then RegisterBytes(frame.registers) else frame.data
  }

  lemma ResponsePayload(frame: Frame)
    requires IsReadResponse(frame)
    ensures Payload(frame) == [frame.slave, frame.fn, frame.byteCount] + ResponseData(frame)
  {
    assert [frame.slave, frame.fn] + ([frame.byteCount] + ResponseData(frame))
        == [frame.slave, frame.fn, frame.byteCount] + ResponseData(frame);
  }

  lemma EvenBytes(registers: seq<word>)
    ensures |RegisterBytes(registers)| % 2 == 0
  {}

  lemma RegisterBody(slave: byte, fn: byte, byteCount: byte, registers: seq<word>)
    requires IsRegisterRead(fn) && |RegisterBytes(registers)| == Count(byteCount)
    ensures ParseReadResponse(slave, fn, byteCount, RegisterBytes(registers))
         == Ok(RegisterResponse(slave, fn, byteCount, registers))
  {
    EvenBytes(registers);
    RegistersOfBytes(registers);
  }

  lemma DataBody(slave: byte, fn: byte, byteCount: byte, data: seq<byte>)
    requires |data| == Count(byteCount) && (IsRegisterRead(fn) ==> |data| % 2 == 1)
    ensures ParseReadResponse(slave, fn, byteCount, data) == Ok(DataResponse(slave, fn, byteCount, data))
  {}

  lemma ResponseBody(frame: Frame)
    requires IsReadResponse(frame) && WellFormed(frame)
    ensures ParseReadResponse(frame.slave, frame.fn, frame.byteCount, ResponseData(frame)) == Ok(frame)
    ensures |ResponseData(frame)| != 3
  {
    match frame
    case RegisterResponse(slave, fn, byteCount, registers) =>
      EvenBytes(registers);
      RegisterBody(slave, fn, byteCount, registers);
    case DataResponse(slave, fn, byteCount, data) => DataBody(slave, fn, byteCount, data);
  }

  lemma ResponseRead(frame: Frame, e: seq<byte>)
    requires IsReadResponse(frame)
    requires WellFormed(frame) && |e| >= 5 && e[..|e| - 2] == Payload(frame)
    ensures ParseChecked(frame.slave, frame.fn, e) == Ok(frame)
  {
    FunctionCodes(frame.fn);
    ResponseBody(frame);
    ResponsePayload(frame);
    var p := e[..|e| - 2];
    assert e[2] == p[2] == frame.byteCount;
    assert e[3..|e| - 2] == p[3..] == ResponseData(frame);
  }

  lemma ShortRead(frame: Frame, e: seq<byte>)
    requires frame.ExceptionResponse? || frame.Bare?
    requires WellFormed(frame) && |e| >= 4 && e[..|e| - 2] == Payload(frame)
    ensures ParseChecked(frame.slave, frame.fn, e) == Ok(frame)
  {
    FunctionCodes(frame.fn);
    assert |e| - 2 == |Payload(frame)|;
    if frame.ExceptionResponse? { assert e[2] == e[..|e| - 2][2]; }
  }

  /** Every well-formed frame survives encoding and parsing. */
  lemma ParseEncode(frame: Frame)
    requires WellFormed(frame)
    ensures Parse(Encode(frame)) == Ok(frame)
  {
    var p, e := Payload(frame), Encode(frame);
    Sealed(p);
    assert e[..|e| - 2] == p && e[0] == p[0] == frame.slave && e[1] == p[1] == frame.fn;
    if frame.ReadRequest? || frame.WriteAck? {
      TwoWordsRead(frame, e);
    } else if frame.ExceptionResponse? || frame.Bare? {
      ShortRead(frame, e);
    } else {
      ResponseRead(frame, e);
    }
  }

  lemma BodyOfResponse(slave: byte, fn: byte, byteCount: byte, data: seq<byte>)
    requires IsRead(fn) && |data| != 3
    requires ParseReadResponse(slave, fn, byteCount, data).Ok?
    ensures var frame := ParseReadResponse(slave, fn, byteCount, data).value;
      WellFormed(frame) && Payload(frame) == [slave, fn, byteCount] + data
  {
    if IsRegisterRead(fn) && |data| % 2 == 0 { BytesOfRegisters(data); }
  }

  lemma BodyOfTwoWords(frame: Frame, e: seq<byte>)
    requires frame.ReadRequest? || frame.WriteAck?
    requires |e| == 8 && ParseChecked(e[0], e[1], e) == Ok(frame)
    ensures Payload(frame) == e[..6]
  {
    WordOfBytes(e[3], e[2]);
    WordOfBytes(e[5], e[4]);
    assert e[..6] == [e[0], e[1], e[2], e[3], e[4], e[5]];
  }

  lemma LongReadIsResponse(e: seq<byte>)
    requires |e| >= 5 && |e| != 8 && IsRead(e[1])
    ensures ParseChecked(e[0], e[1], e) == ParseReadResponse(e[0], e[1], e[2], e[3..|e| - 2])
  {
    FunctionCodes(e[1]);
  }

  lemma PayloadOfResponse(e: seq<byte>, frame: Frame)
    requires |e| >= 5 && |e| != 8 && IsRead(e[1])
    requires ParseReadResponse(e[0], e[1], e[2], e[3..|e| - 2]) == Ok(frame)
    ensures WellFormed(frame) && Payload(frame) == e[..|e| - 2]
  {
    var data := e[3..|e| - 2];
    BodyOfResponse(e[0], e[1], e[2], data);
    assert e[..|e| - 2] == [e[0], e[1], e[2]] + data;
  }

  lemma PayloadOfParsed(e: seq<byte>)
    requires |e| >= 4 && ParseChecked(e[0], e[1], e).Ok?
    ensures WellFormed(ParseChecked(e[0], e[1], e).value)
    ensures Payload(ParseChecked(e[0], e[1], e).value) == e[..|e| - 2]
  {
    FunctionCodes(e[1]);
    if IsException(e[1]) {
      assert e[..3] == [e[0], e[1], e[2]];
    } else if |e| == 8 {
      BodyOfTwoWords(ParseChecked(e[0], e[1], e).value, e);
    } else if |e| == 4 {
      assert e[..2] == [e[0], e[1]];
    } else {
      LongReadIsResponse(e);
      PayloadOfResponse(e, ParseChecked(e[0], e[1], e).value);
    }
  }

  /** Whatever the parser accepts is the encoding of the well-formed frame it returns. */
  lemma EncodeParse(bytes: seq<byte>)
    requires Parse(bytes).Ok?
    ensures WellFormed(Parse(bytes).value) && Encode(Parse(bytes).value) == bytes
  {
    PayloadOfParsed(bytes);
    var p, lo, hi := bytes[..|bytes| - 2], bytes[|bytes| - 2], bytes[|bytes| - 1];
    assert bytes == p + [lo, hi];
    SealIsTheOnlyTrailer(p, lo, hi);
  }

  /** The accepted byte strings are exactly the encodings of well-formed frames. */
  lemma AcceptedExactly(bytes: seq<byte>)
    ensures Parse(bytes).Ok? <==> exists frame :: WellFormed(frame) && Encode(frame) == bytes
  {
    if Parse(bytes).Ok? {
      EncodeParse(bytes);
    } else if frame :| WellFormed(frame) && Encode(frame) == bytes {
      ParseEncode(frame);
    }
  }

  /** No accepted frame is shorter than four bytes or longer than 260. */
  lemma FrameLength(bytes: seq<byte>)
    requires Parse(bytes).Ok?
    ensures 4 <= |bytes| <= 260
  {
    EncodeParse(bytes);
  }

  /** The one shape of read response that cannot be read back: three data bytes make a frame of
      eight bytes, which is taken for a request whose fields are the byte count and the data. */
  lemma ThreeByteResponseIsARequest(slave: byte, fn: byte, data: seq<byte>)
    requires IsRead(fn) && |data| == 3
    ensures Parse(Encode(DataResponse(slave, fn, 3, data)))
         == Ok(ReadRequest(slave, fn, Word(data[0], 3), Word(data[2], data[1])))
  {
    var p := Payload(DataResponse(slave, fn, 3, data));
    FunctionCodes(fn);
    Sealed(p);
    var e := Seal(p);
    assert e[..|e| - 2] == p == [slave, fn, 3, data[0], data[1], data[2]];
    assert e[0] == p[0] && e[1] == p[1] && e[2] == p[2] && e[3] == p[3] && e[4] == p[4] && e[5] == p[5];
  }
}
