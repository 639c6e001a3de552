/** What the monitor's parser accepts and returns, by function code and byte ("MODBUS Application Protocol Specification
    V1.1b3", sections 5 to 7). */
module FrameCodes {
  import opened Words
  import opened Crc
  import opened Models
  import opened Frames
  import opened Pairing
  import opened Capture

  // ----- Which bytes are accepted, and as what -----

  lemma HighBit(fn: byte)
    ensures fn & 0x80 != 0 <==> fn >= 0x80
  {}

  /** Four bytes at least that pass the checksum are accepted by function code and length: exceptions, the codes from
      0x80, have five bytes; reads, the codes 1 to 4, have four, eight, or as many as their byte count says; write
      acknowledgements, the codes 5, 6, 15 and 16, have eight; and no other code is accepted. */
  lemma AcceptedByCode(bytes: seq<byte>)
    ensures var n := |bytes|;
      Parse(bytes).Ok? <==>
        (n >= 4 && CrcAccepts(bytes) &&
         var fn := bytes[1];
         if fn >= 0x80 then n == 5
         else if fn == 1 || fn == 2 || fn == 3 || fn == 4 then n == 4 || n == 8 || n == 5 + Count(bytes[2])
         else (fn == 5 || fn == 6 || fn == 15 || fn == 16) && n == 8)
  {
    if |bytes| >= 4 { HighBit(bytes[1]); }
  }

  /** The same decides what an accepted frame is taken for.  Codes 1 and 2 never yield registers; codes 3 and 4 do
      unless the byte count is odd. */
  lemma KindByCode(bytes: seq<byte>)
    requires Parse(bytes).Ok?
    ensures |bytes| >= 4 && CrcAccepts(bytes)
    ensures var frame, fn, n := Parse(bytes).value, bytes[1], |bytes|;
      && (frame.ExceptionResponse? <==> fn >= 0x80)
      && (frame.ReadRequest? <==> fn <= 4 && n == 8)
      && (frame.Bare? <==> fn <= 4 && n == 4)
      && (frame.WriteAck? <==> fn == 5 || fn == 6 || fn == 15 || fn == 16)
      && (frame.RegisterResponse? <==> (fn == 3 || fn == 4) && n != 4 && n != 8 && n % 2 == 1)
      && (frame.DataResponse? <==> fn <= 4 && n != 4 && n != 8 && (fn == 1 || fn == 2 || n % 2 == 0))
  {
    HighBit(bytes[1]);
    AcceptedByCode(bytes);
    if |bytes| >= 5 { LengthIsOdd(bytes); }
  }

  lemma LengthIsOdd(bytes: seq<byte>)
    requires |bytes| >= 5
    ensures |bytes[3..|bytes| - 2]| % 2 == 0 <==> |bytes| % 2 == 1
  {}

  // ----- What the fields are -----

  /** Two bytes, the more significant first. */
  predicate IsWord(w: word, high: byte, low: byte) {
    w == 256 * (high as word) + (low as word)
  }

  lemma WordOfPair(high: byte, low: byte)
    ensures IsWord(Word(low, high), high, low)
  {}

  lemma {:induction false} RegisterAt(data: seq<byte>, i: nat)
    requires |data| % 2 == 0 && 2 * i < |data|
    ensures IsWord(Registers(data)[i], data[2 * i], data[2 * i + 1])
    decreases i
  {
    WordOfPair(data[0], data[1]);
    if i > 0 {
      RegisterAt(data[2..], i - 1);
      assert data[2..][2 * (i - 1)] == data[2 * i] && data[2..][2 * (i - 1) + 1] == data[2 * i + 1];
    }
  }

  lemma RegistersByByte(bytes: seq<byte>)
    requires Parse(bytes).Ok? && Parse(bytes).value.RegisterResponse?
    ensures |bytes| >= 5
    ensures var registers := Parse(bytes).value.registers;
      2 * |registers| == |bytes| - 5 &&
      forall i :: 0 <= i < |registers| ==> IsWord(registers[i], bytes[2 * i + 3], bytes[2 * i + 4])
  {
    hide Registers, IsWord, Word, CrcAccepts;
    var data, registers := bytes[3..|bytes| - 2], Parse(bytes).value.registers;
    assert registers == Registers(data);
    forall i | 0 <= i < |registers|
      ensures IsWord(registers[i], bytes[2 * i + 3], bytes[2 * i + 4])
    {
      RegisterAt(data, i);
      assert data[2 * i] == bytes[2 * i + 3] && data[2 * i + 1] == bytes[2 * i + 4];
    }
  }

  /** Every field, from the bytes of the frame. */
  lemma FieldsByByte(bytes: seq<byte>)
    requires Parse(bytes).Ok?
    ensures |bytes| >= 4
    ensures var n := |bytes|;
      match Parse(bytes).value
      case ExceptionResponse(slave, fn, code) => n == 5 && slave == bytes[0] && fn == bytes[1] && code == bytes[2]
      case ReadRequest(slave, fn, start, quantity) =>
        n == 8 && slave == bytes[0] && fn == bytes[1] &&
        IsWord(start, bytes[2], bytes[3]) && IsWord(quantity, bytes[4], bytes[5])
      case RegisterResponse(slave, fn, byteCount, registers) =>
        n >= 5 && slave == bytes[0] && fn == bytes[1] && byteCount == bytes[2] && 2 * |registers| == n - 5 &&
        forall i :: 0 <= i < |registers| ==> IsWord(registers[i], bytes[2 * i + 3], bytes[2 * i + 4])
      case DataResponse(slave, fn, byteCount, data) =>
        n >= 5 && slave == bytes[0] && fn == bytes[1] && byteCount == bytes[2] && data == bytes[3..n - 2]
      case WriteAck(slave, fn, start, value) =>
        n == 8 && slave == bytes[0] && fn == bytes[1] &&
        IsWord(start, bytes[2], bytes[3]) && IsWord(value, bytes[4], bytes[5])
      case Bare(slave, fn) => n == 4 && slave == bytes[0] && fn == bytes[1]
  {
    hide Registers, IsWord, Word, CrcAccepts;
    KindByCode(bytes);
    AcceptedByCode(bytes);
    match Parse(bytes).value
    case ReadRequest(_, _, _, _) =>
      WordOfPair(bytes[2], bytes[3]);
      WordOfPair(bytes[4], bytes[5]);
    case WriteAck(_, _, _, _) =>
      WordOfPair(bytes[2], bytes[3]);
      WordOfPair(bytes[4], bytes[5]);
    case RegisterResponse(_, _, _, registers) => RegistersByByte(bytes);
    case _ =>
  }

  // ----- Responses of functions 3 and 4 come back as registers -----

  /** Any registers that fit into a response, read with function 3 or 4, are recovered from the response. */
  lemma RegistersComeBack(slave: byte, fn: byte, byteCount: byte, registers: seq<word>)
    requires fn == 3 || fn == 4
    requires |registers| <= 127 && Count(byteCount) == 2 * |registers|
    ensures var frame := RegisterResponse(slave, fn, byteCount, registers);
      Parse(Encode(frame)) == Ok(frame)
  {
    ParseEncode(RegisterResponse(slave, fn, byteCount, registers));
  }

  /** Bits that fit, read with function 1 or 2, come back as the bytes they are, unless these are three. */
  lemma BitsComeBack(slave: byte, fn: byte, byteCount: byte, data: seq<byte>)
    requires fn == 1 || fn == 2
    requires Count(byteCount) == |data| != 3
    ensures var frame := DataResponse(slave, fn, byteCount, data);
      Parse(Encode(frame)) == Ok(frame)
  {
    ParseEncode(DataResponse(slave, fn, byteCount, data));
  }

  lemma RequestsComeBack(slave: byte, fn: byte, start: word, quantity: word)
    requires fn == 1 || fn == 2 || fn == 3 || fn == 4
    ensures Parse(Encode(ReadRequest(slave, fn, start, quantity))) == Ok(ReadRequest(slave, fn, start, quantity))
  {
    ParseEncode(ReadRequest(slave, fn, start, quantity));
  }

  // ----- What makes a response the answer to a request -----

  /** The same slave and the same function, and no other read request or read response of both in between. */
  lemma AnswersBySlaveAndFunction(frames: seq<Frame>, i: nat, j: nat)
    requires j < |frames|
    ensures Answers(frames, i, j) <==>
      (i < j && frames[i].ReadRequest? && (frames[j].RegisterResponse? || frames[j].DataResponse?) &&
       frames[i].slave == frames[j].slave && frames[i].fn == frames[j].fn &&
       forall k :: i < k < j && frames[k].slave == frames[j].slave && frames[k].fn == frames[j].fn ==>
         !frames[k].ReadRequest? && !frames[k].RegisterResponse? && !frames[k].DataResponse?)
  {
    if i < j {
      forall k | i < k < j
        ensures IsReadEvent(frames[k], KeyOf(frames[j])) <==>
          (frames[k].slave == frames[j].slave && frames[k].fn == frames[j].fn &&
           (frames[k].ReadRequest? || frames[k].RegisterResponse? || frames[k].DataResponse?))
      {
      }
    }
  }

  // ----- What the probe keeps -----

  /** The probe takes read responses only: codes 1 to 4, with a byte count. */
  lemma ProbeTakesResponses(bytes: seq<byte>)
    ensures ResponseFrame(bytes).Some? <==> Parse(bytes).Ok? && bytes[1] <= 4 && |bytes| != 4 && |bytes| != 8
    ensures ResponseFrame(bytes).Some? ==> Parse(bytes) == Ok(ResponseFrame(bytes).value)
  {
    if Parse(bytes).Ok? {
      KindByCode(bytes);
      AcceptedByCode(bytes);
    }
  }

  /** It keeps the last response of each slave. */
  lemma LastResponseOfSlave(frames: seq<Frame>, last: nat)
    requires last < |frames|
    requires forall k :: last < k < |frames| ==> frames[k].slave != frames[last].slave
    ensures var responses := LastBySlave(map[], frames);
      Count(frames[last].slave) in responses && responses[Count(frames[last].slave)] == frames[last]
  {
    forall k | last < k < |frames|
      ensures Count(frames[k].slave) != Count(frames[last].slave)
    {
      CountIsInjective(frames[k].slave, frames[last].slave);
    }
    LastBySlaveIsLast(map[], frames, Count(frames[last].slave), last);
  }

  lemma CountIsInjective(a: byte, b: byte)
    ensures Count(a) == Count(b) <==> a == b
  {}
}
