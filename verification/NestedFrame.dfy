/** A stream on which the way the reads cut it shows: a response whose data are themselves an accepted frame. */
module NestedFrame {
  import opened Words
  import opened Crc
  import opened Models
  import opened Frames
  import opened Scanner
  import opened Chunking
  import opened Capture
  import opened KnownFrame

  /** Slave 1 answers a read of coils with four data bytes. */
  const STREAM: seq<byte> := [0x01, 0x01, 0x04, 0x01, 0x01, 0xC1, 0xE0, 0xFB, 0xF5]

  const OUTER := DataResponse(0x01, 0x01, 0x04, [0x01, 0x01, 0xC1, 0xE0])
  const INNER := Bare(0x01, 0x01)

  lemma PrefixChecksum(rest: seq<byte>)
    ensures CrcFrom(0xFFFF, [0x01] + ([0x01] + rest)) == CrcFrom(0xE0C1, rest)
  {
    Absorb(0xFFFF, 0x01, [0x01] + rest, 0x807E);
    Absorb(0x807E, 0x01, rest, 0xE0C1);
  }

  lemma MiddleChecksum(rest: seq<byte>)
    ensures CrcFrom(0xE0C1, [0x04] + ([0x01] + ([0x01] + ([0xC1] + rest)))) == CrcFrom(0xFAAC, rest)
  {
    Absorb(0xE0C1, 0x04, [0x01] + ([0x01] + ([0xC1] + rest)), 0x5320);
    Absorb(0x5320, 0x01, [0x01] + ([0xC1] + rest), 0x1893);
    Absorb(0x1893, 0x01, [0xC1] + rest, 0xAD99);
    Absorb(0xAD99, 0xC1, rest, 0xFAAC);
  }

  lemma Checksums()
    ensures Crc16(STREAM[..2]) == 0xE0C1
    ensures Crc16(STREAM[..6]) == 0xFAAC
    ensures Crc16(STREAM[..7]) == 0xF5FB
  {
    PrefixChecksum([]);
    assert STREAM[..2] == [0x01] + ([0x01] + []);
    var six := [0x04] + ([0x01] + ([0x01] + ([0xC1] + [])));
    PrefixChecksum(six);
    MiddleChecksum([]);
    assert STREAM[..6] == [0x01] + ([0x01] + six);
    var seven := [0x04] + ([0x01] + ([0x01] + ([0xC1] + ([0xE0] + []))));
    PrefixChecksum(seven);
    MiddleChecksum([0xE0] + []);
    Absorb(0xFAAC, 0xE0, [], 0xF5FB);
    assert STREAM[..7] == [0x01] + ([0x01] + seven);
  }

  lemma Trailers()
    ensures LowByte(0xE0C1) == 0xC1 && HighByte(0xE0C1) == 0xE0
    ensures LowByte(0xF5FB) == 0xFB && HighByte(0xF5FB) == 0xF5
    ensures Word(0x04, 0x01) != 0xE0C1 && Word(0xE0, 0xFB) != 0xFAAC
  {}

  lemma OuterParses()
    ensures AnyFrame(STREAM[0..9]) == Some(OUTER)
  {
    hide Crc16, Parse, LowByte, HighByte;
    Checksums();
    Trailers();
    assert Payload(OUTER) == STREAM[..7];
    assert Encode(OUTER) == STREAM[0..9];
    ParseEncode(OUTER);
  }

  lemma InnerParses()
    ensures AnyFrame(STREAM[3..7]) == Some(INNER)
  {
    hide Crc16, Parse, LowByte, HighByte;
    Checksums();
    Trailers();
    assert Payload(INNER) == STREAM[..2];
    assert Encode(INNER) == STREAM[3..7];
    ParseEncode(INNER);
  }

  /** No shorter frame starts with the stream. */
  lemma NothingEarlier(end: nat)
    requires 4 <= end <= 8
    ensures AnyFrame(STREAM[0..end]) == None
  {
    hide Crc16;
    Checksums();
    Trailers();
    var frame := STREAM[0..end];
    assert frame[..|frame| - 2] == STREAM[..end - 2];
    if end == 4 || end == 8 {
      assert !CrcAccepts(frame);
    } else if CrcAccepts(frame) {
      FunctionCodes(frame[1]);
      LongReadIsResponse(frame);
    }
  }

  lemma OuterIsFirst()
    ensures FirstSpan(AnyFrame, STREAM) == Some(Span(0, 9))
  {
    hide AnyFrame;
    OuterParses();
    forall other | Before(other, Span(0, 9))
      ensures !Parseable(AnyFrame, STREAM, other)
    {
      if 4 <= other.end { NothingEarlier(other.end); }
    }
    FirstIsUnique(AnyFrame, STREAM, Span(0, 9));
  }

  /** Read at once, the stream yields the response; cut in some other way, it yields something else. */
  lemma CutsCanMatter()
    ensures !Clean(AnyFrame, STREAM)
    ensures Drain(AnyFrame, STREAM).frames == [OUTER]
    ensures exists chunks :: Joined(chunks) == STREAM && RunTrimmed(AnyFrame, [], chunks).frames != [OUTER]
  {
    hide AnyFrame, RunTrimmed;
    OuterParses();
    InnerParses();
    OuterIsFirst();
    assert Parseable(AnyFrame, STREAM, Span(3, 7)) && Inside(Span(3, 7), Span(0, 9));
    DrainStep(AnyFrame, STREAM, Span(0, 9), STREAM[0..9], []);
    DrainNothing<byte, Frame>(AnyFrame);
    MonitorCutsMatterExactly(STREAM);
  }
}
