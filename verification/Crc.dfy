/** CRC-16 of MODBUS frames ("MODBUS over Serial Line Specification and Implementation Guide V1.02",
    sections 2.5.1.2 and 6.2.2): a sixteen-bit register fed least significant bit first. */
module Crc {
  import opened Words

  function StepN(crc: word, n: nat): word
    decreases n
  {
    if n == 0 then crc else StepN(Step(crc), n - 1)
  }

  function CrcFrom(crc: word, data: seq<byte>): word
    decreases data
  {
    if data == [] then crc else CrcFrom(StepN(Xor(crc, FromByte(data[0])), 8), data[1..])
  }

  function Crc16(data: seq<byte>): word {
    CrcFrom(0xFFFF, data)
  }

  /** The check made on a received frame: the checksum of all but the last two bytes is the one
      that those two bytes carry, low byte first. */
  predicate CrcAccepts(frame: seq<byte>)
    requires |frame| >= 2
  {
    Crc16(frame[..|frame| - 2]) == Word(frame[|frame| - 2], frame[|frame| - 1])
  }

  /** A payload with its checksum appended. */
  function Seal(payload: seq<byte>): seq<byte> {
    payload + [LowByte(Crc16(payload)), HighByte(Crc16(payload))]
  }

  // ----- The loop -----

  lemma StepNTail(crc: word, n: nat)
    ensures StepN(crc, n + 1) == Step(StepN(crc, n))
    decreases n
  {
    if n > 0 { StepNTail(Step(crc), n - 1); }
  }

  lemma CrcFromAppend(crc: word, a: seq<byte>, b: seq<byte>)
    ensures CrcFrom(crc, a + b) == CrcFrom(CrcFrom(crc, a), b)
    decreases a
  {
    if a == [] {
      assert a + b == b;
    } else {
      assert (a + b)[0] == a[0] && (a + b)[1..] == a[1..] + b;
      CrcFromAppend(StepN(Xor(crc, FromByte(a[0])), 8), a[1..], b);
    }
  }

  /** One turn of the inner loop. */
  method ShiftOnce(crc: word) returns (r: word)
    ensures r == Step(crc)
  {
    StepBranches(crc);
    if crc & 0x0001 != 0 {
      r := (crc >> 1) ^ 0xA001;
    } else {
      r := crc >> 1;
    }
  }

  /** The inner loop: one byte. */
  method AbsorbByte(crc: word, b: byte) returns (r: word)
    ensures r == StepN(Xor(crc, FromByte(b)), 8)
  {
    r := crc ^ (b as bv16);
    for k := 0 to 8
      invariant r == StepN(Xor(crc, FromByte(b)), k)
    {
      StepNTail(Xor(crc, FromByte(b)), k);
      r := ShiftOnce(r);
    }
  }

  method Crc16Modbus(data: seq<byte>) returns (crc: word)
    ensures crc == Crc16(data)
  {
    crc := 0xFFFF;
    for i := 0 to |data|
      invariant crc == Crc16(data[..i])
    {
      ghost var before := crc;
      crc := AbsorbByte(crc, data[i]);
      assert data[..i + 1] == data[..i] + [data[i]];
      CrcFromAppend(0xFFFF, data[..i], [data[i]]);
      assert CrcFrom(before, [data[i]]) == crc;
    }
    assert data[..|data|] == data;
  }

  // ----- The residue: a frame passes exactly when its own checksum is zero -----

  lemma {:induction false} StepNLinear(x: word, y: word, n: nat)
    ensures StepN(Xor(x, y), n) == Xor(StepN(x, n), StepN(y, n))
    decreases n
  {
    if n > 0 {
      StepLinear(x, y);
      StepNLinear(Step(x), Step(y), n - 1);
    }
  }

  lemma {:induction false} StepNZero(x: word, n: nat)
    ensures StepN(x, n) == 0 <==> x == 0
    decreases n
  {
    if n > 0 {
      StepZero(x);
      StepNZero(Step(x), n - 1);
    }
  }

  lemma {:induction false} StepNAdd(x: word, m: nat, n: nat)
    ensures StepN(x, m + n) == StepN(StepN(x, m), n)
    decreases m
  {
    if m > 0 { StepNAdd(Step(x), m - 1, n); }
  }

  lemma EightSteps(x: word)
    ensures StepN(x, 8) == Step(Step(Step(Step(Step(Step(Step(Step(x))))))))
  {
    assert StepN(x, 8) == StepN(Step(Step(Step(Step(x)))), 4);
  }

  /** The two bytes that bring a register to zero are the register itself, low byte first. */
  lemma TwoBytesToZero(c: word, lo: byte, hi: byte)
    ensures CrcFrom(c, [lo, hi]) == 0 <==> c == Word(lo, hi)
  {
    var x := Xor(c, FromByte(lo));
    assert CrcFrom(c, [lo, hi]) == CrcFrom(StepN(x, 8), [hi]) == StepN(Xor(StepN(x, 8), FromByte(hi)), 8);
    EightSteps(High(hi));
    HighByteSteps(hi);
    StepNLinear(x, High(hi), 8);
    StepNAdd(Xor(x, High(hi)), 8, 8);
    StepNZero(Xor(x, High(hi)), 16);
    XorWord(c, lo, hi);
    XorCancels(c, Word(lo, hi));
  }

  /** The check made on a frame holds exactly when the checksum of the whole frame, trailer
      included, is zero. */
  lemma Residue(frame: seq<byte>)
    requires |frame| >= 2
    ensures CrcAccepts(frame) <==> Crc16(frame) == 0
  {
    var n := |frame| - 2;
    assert frame == frame[..n] + [frame[n], frame[n + 1]];
    CrcFromAppend(0xFFFF, frame[..n], [frame[n], frame[n + 1]]);
    TwoBytesToZero(Crc16(frame[..n]), frame[n], frame[n + 1]);
  }

  /** Of all ways to extend a payload by two bytes, exactly one passes the check. */
  lemma SealIsTheOnlyTrailer(payload: seq<byte>, lo: byte, hi: byte)
    ensures CrcAccepts(payload + [lo, hi]) <==> payload + [lo, hi] == Seal(payload)
  {
    var f, g := payload + [lo, hi], Seal(payload);
    var crc := Crc16(payload);
    assert f[..|f| - 2] == payload;
    WordBytes(crc);
    assert g[|payload|] == LowByte(crc) && g[|payload| + 1] == HighByte(crc);
    if crc == Word(lo, hi) {
      WordInjective(lo, hi, LowByte(crc), HighByte(crc));
    }
    if f == g {
      assert lo == f[|payload|] && hi == f[|payload| + 1];
    }
  }

  // ----- The serial form: one bit at a time -----

  function BitCrc(crc: word, bits: seq<bit>): word
    decreases bits
  {
    if bits == [] then crc else BitCrc(Feed(crc, bits[0]), bits[1..])
  }

  /** The n lowest bits of a word, lowest first. */
  function Bits(v: word, n: nat): (bits: seq<bit>)
    ensures |bits| == n
    decreases n
  {
    if n == 0 then [] else [LowBit(v)] + Bits(Half(v), n - 1)
  }

  function Shifted(v: word, n: nat): word
    decreases n
  {
    if n == 0 then v else Shifted(Half(v), n - 1)
  }

  /** The bits of a byte string in the order in which they are sent. */
  function BitsOf(data: seq<byte>): (bits: seq<bit>)
    ensures |bits| == 8 * |data|
  {
    if data == [] then [] else Bits(FromByte(data[0]), 8) + BitsOf(data[1..])
  }

  lemma {:induction false} BitCrcAppend(crc: word, a: seq<bit>, b: seq<bit>)
    ensures BitCrc(crc, a + b) == BitCrc(BitCrc(crc, a), b)
    decreases a
  {
    if a == [] {
      assert a + b == b;
    } else {
      assert (a + b)[0] == a[0] && (a + b)[1..] == a[1..] + b;
      BitCrcAppend(Feed(crc, a[0]), a[1..], b);
    }
  }

  /** Xoring a word in at once and shifting, or feeding its bits one by one, differ only by the
      bits that are not fed yet. */
  lemma {:induction false} WordIsSerial(c: word, v: word, n: nat)
    ensures StepN(Xor(c, v), n) == Xor(BitCrc(c, Bits(v, n)), Shifted(v, n))
    decreases n
  {
    if n > 0 {
      FeedLowest(c, v);
      WordIsSerial(Feed(c, LowBit(v)), Half(v), n - 1);
      assert Bits(v, n)[1..] == Bits(Half(v), n - 1);
    }
  }

  lemma ByteIsSerial(c: word, b: byte)
    ensures Shifted(FromByte(b), 8) == 0
    ensures BitCrc(c, Bits(FromByte(b), 8)) == StepN(Xor(c, FromByte(b)), 8)
  {
    var v := FromByte(b);
    WordIsSerial(c, v, 8);
    ByteHasEightBits(b);
    assert Shifted(v, 8) == Shifted(Half(Half(Half(Half(v)))), 4);
    XorIdentity(BitCrc(c, Bits(v, 8)));
  }

  lemma {:induction false} BytesAreSerial(c: word, data: seq<byte>)
    ensures CrcFrom(c, data) == BitCrc(c, BitsOf(data))
    decreases data
  {
    if data != [] {
      ByteIsSerial(c, data[0]);
      BytesAreSerial(StepN(Xor(c, FromByte(data[0])), 8), data[1..]);
      BitCrcAppend(c, Bits(FromByte(data[0]), 8), BitsOf(data[1..]));
    }
  }

  lemma {:induction false} BitsInjective(v: word, w: word, n: nat)
    requires Bits(v, n) == Bits(w, n) && Shifted(v, n) == Shifted(w, n)
    ensures v == w
    decreases n
  {
    if n > 0 {
      assert Bits(v, n)[0] == Bits(w, n)[0] && Bits(v, n)[1..] == Bits(w, n)[1..];
      BitsInjective(Half(v), Half(w), n - 1);
      HalvesAndLowBits(v, w);
    }
  }

  lemma {:induction false} BitsOfInjective(f: seq<byte>, g: seq<byte>)
    requires |f| == |g| && BitsOf(f) == BitsOf(g)
    ensures f == g
    decreases f
  {
    if f != [] {
      assert BitsOf(f)[..8] == Bits(FromByte(f[0]), 8) && BitsOf(f)[8..] == BitsOf(f[1..]);
      assert BitsOf(g)[..8] == Bits(FromByte(g[0]), 8) && BitsOf(g)[8..] == BitsOf(g[1..]);
      ByteIsSerial(0, f[0]);
      ByteIsSerial(0, g[0]);
      BitsInjective(FromByte(f[0]), FromByte(g[0]), 8);
      FromByteInjective(f[0], g[0]);
      BitsOfInjective(f[1..], g[1..]);
    }
  }
}
