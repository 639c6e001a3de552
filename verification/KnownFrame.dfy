/** A frame known from the repository's own test, as a check on polynomial, start value and byte order. */
module KnownFrame {
  import opened Words
  import opened Crc
  import opened Models
  import opened Frames

  function EightFrom(x: word): word {
    Step(Step(Step(Step(Step(Step(Step(Step(x))))))))
  }

  lemma Absorb(crc: word, b: byte, rest: seq<byte>, next: word)
    requires EightFrom(Xor(crc, FromByte(b))) == next
    ensures CrcFrom(crc, [b] + rest) == CrcFrom(next, rest)
  {
    EightSteps(Xor(crc, FromByte(b)));
    assert ([b] + rest)[1..] == rest;
  }

  lemma HeadChecksum(rest: seq<byte>)
    ensures CrcFrom(0xFFFF, [0x01] + ([0x03] + ([0x04] + rest))) == CrcFrom(0x3321, rest)
  {
    Absorb(0xFFFF, 0x01, [0x03] + ([0x04] + rest), 0x807E);
    Absorb(0x807E, 0x03, [0x04] + rest, 0x2140);
    Absorb(0x2140, 0x04, rest, 0x3321);
  }

  lemma TailChecksum()
    ensures CrcFrom(0x3321, [0x00] + ([0x7B] + ([0x00] + ([0x2D] + [])))) == 0x374A
  {
    Absorb(0x3321, 0x00, [0x7B] + ([0x00] + ([0x2D] + [])), 0x18F3);
    Absorb(0x18F3, 0x7B, [0x00] + ([0x2D] + []), 0x6618);
    Absorb(0x6618, 0x00, [0x2D] + [], 0x0A66);
    Absorb(0x0A66, 0x2D, [], 0x374A);
  }

  lemma KnownChecksum()
    ensures Crc16([0x01, 0x03, 0x04, 0x00, 0x7B, 0x00, 0x2D]) == 0x374A
  {
    var tail: seq<byte> := [0x00] + ([0x7B] + ([0x00] + ([0x2D] + [])));
    HeadChecksum(tail);
    TailChecksum();
    assert [0x01, 0x03, 0x04, 0x00, 0x7B, 0x00, 0x2D] == [0x01] + ([0x03] + ([0x04] + tail));
  }

  lemma KnownPayload()
    ensures RegisterBytes([123, 45]) == [0x00, 0x7B, 0x00, 0x2D]
    ensures Payload(RegisterResponse(1, 3, 4, [123, 45])) == [0x01, 0x03, 0x04, 0x00, 0x7B, 0x00, 0x2D]
  {
    assert [123, 45][1..] == [45] && [45][1..] == [];
    assert RegisterBytes([45]) == [0x00, 0x2D];
  }

  lemma KnownTrailer()
    ensures LowByte(0x374A) == 0x4A && HighByte(0x374A) == 0x37
  {}

  /** Slave 1 answers a read of two holding registers with 123 and 45. */
  lemma KnownFrameIsRead()
    ensures Parse([0x01, 0x03, 0x04, 0x00, 0x7B, 0x00, 0x2D, 0x4A, 0x37]) == Ok(RegisterResponse(1, 3, 4, [123, 45]))
  {
    hide Payload, RegisterBytes, Parse, Crc16, LowByte, HighByte;
    var frame := RegisterResponse(1, 3, 4, [123, 45]);
    KnownPayload();
    KnownChecksum();
    KnownTrailer();
    assert Encode(frame) == [0x01, 0x03, 0x04, 0x00, 0x7B, 0x00, 0x2D, 0x4A, 0x37];
    ParseEncode(frame);
  }
}
