/** Which transmission errors the CRC check is certain to catch ("MODBUS over Serial Line
    Specification and Implementation Guide V1.02", section 2.5.1.2). */
module ErrorDetection {
  import opened Words
  import opened Crc

  /** Where two bit strings of equal length differ. */
  function Difference(a: seq<bit>, b: seq<bit>): (d: seq<bit>)
    requires |a| == |b|
    ensures |d| == |a|
    ensures forall i :: 0 <= i < |d| ==> (d[i] == 0 <==> a[i] == b[i])
    decreases a
  {
    if a == [] then [] else [a[0] ^ b[0]] + Difference(a[1..], b[1..])
  }

  lemma {:induction false} DifferenceOfRegisters(x: word, y: word, a: seq<bit>, b: seq<bit>)
    requires |a| == |b|
    ensures BitCrc(Xor(x, y), Difference(a, b)) == Xor(BitCrc(x, a), BitCrc(y, b))
    decreases a
  {
    if a != [] {
      FeedLinear(x, y, a[0], b[0]);
      DifferenceOfRegisters(Feed(x, a[0]), Feed(y, b[0]), a[1..], b[1..]);
      assert Difference(a, b)[1..] == Difference(a[1..], b[1..]);
    }
  }

  predicate Quiet(bits: seq<bit>) {
    forall i :: 0 <= i < |bits| ==> bits[i] == 0
  }

  lemma {:induction false} QuietKeepsZero(x: word, bits: seq<bit>)
    requires Quiet(bits)
    ensures BitCrc(x, bits) == 0 <==> x == 0
    decreases bits
  {
    if bits != [] {
      FeedNothing(x);
      QuietKeepsZero(Feed(x, 0), bits[1..]);
    }
  }

  /** A run of bits as a word, first bit lowest. */
  function Pack(bits: seq<bit>): word
    decreases bits
  {
    if bits == [] then 0 else Push(bits[0], Pack(bits[1..]))
  }

  /** The word whose n lowest bits are clear and whose others are set. */
  function Above(n: nat): word
    decreases n
  {
    if n == 0 then 0xFFFF else Double(Above(n - 1))
  }

  lemma {:induction false} PackBelow(bits: seq<bit>)
    ensures Disjoint(Pack(bits), Above(|bits|))
    decreases bits
  {
    if bits != [] {
      PackBelow(bits[1..]);
      PushDisjoint(bits[0], Pack(bits[1..]), Above(|bits| - 1));
    }
  }

  lemma PackSpare(bits: seq<bit>)
    requires |bits| <= 15
    ensures Spare(Pack(bits))
  {
    PackBelow(bits);
    AboveReachesTop(|bits|, Pack(bits));
  }

  lemma AboveReachesTop(n: nat, p: word)
    requires n <= 15 && Disjoint(p, Above(n))
    ensures Spare(p)
  {
    assert Above(2) == 0xFFFC && Above(4) == 0xFFF0 && Above(6) == 0xFFC0 && Above(8) == 0xFF00;
    assert Above(10) == 0xFC00 && Above(12) == 0xF000 && Above(14) == 0xC000;
  }

  /** Pack is the one register that a run of at most sixteen bits brings to zero. */
  lemma {:induction false} OnlyPackReachesZero(x: word, bits: seq<bit>)
    requires |bits| <= 16
    ensures BitCrc(x, bits) == 0 <==> x == Pack(bits)
    decreases bits
  {
    if bits != [] {
      var p := Pack(bits[1..]);
      PackSpare(bits[1..]);
      OnlyPackReachesZero(Feed(x, bits[0]), bits[1..]);
      FeedPush(bits[0], p);
      if Feed(x, bits[0]) == p { FeedInjective(x, Push(bits[0], p), bits[0]); }
    }
  }

  lemma {:induction false} PackIsZeroOnlyIfQuiet(bits: seq<bit>)
    requires |bits| <= 16 && Pack(bits) == 0
    ensures Quiet(bits)
    decreases bits
  {
    if bits != [] {
      PackSpare(bits[1..]);
      PushZero(bits[0], Pack(bits[1..]));
      PackIsZeroOnlyIfQuiet(bits[1..]);
      assert bits == [bits[0]] + bits[1..];
    }
  }

  /** An error goes unnoticed exactly when its own bit pattern, fed to a cleared register, leaves
      the register at zero: detection does not depend on the frame. */
  lemma UndetectedErrors(f: seq<byte>, g: seq<byte>)
    requires |f| == |g| >= 2 && CrcAccepts(f)
    ensures CrcAccepts(g) <==> BitCrc(0, Difference(BitsOf(f), BitsOf(g))) == 0
  {
    Residue(f);
    Residue(g);
    BytesAreSerial(0xFFFF, f);
    BytesAreSerial(0xFFFF, g);
    DifferenceOfRegisters(0xFFFF, 0xFFFF, BitsOf(f), BitsOf(g));
    XorCancels(0xFFFF, 0xFFFF);
    XorCancels(BitCrc(0xFFFF, BitsOf(f)), BitCrc(0xFFFF, BitsOf(g)));
  }

  lemma NoisyBurst(burst: seq<bit>)
    requires |burst| <= 16 && !Quiet(burst)
    ensures BitCrc(0, burst) != 0
  {
    OnlyPackReachesZero(0, burst);
    if Pack(burst) == 0 { PackIsZeroOnlyIfQuiet(burst); }
  }

  lemma BurstLeavesMark(head: seq<bit>, burst: seq<bit>, tail: seq<bit>)
    requires Quiet(head) && Quiet(tail) && |burst| <= 16 && !Quiet(burst)
    ensures BitCrc(0, head + (burst + tail)) != 0
  {
    BitCrcAppend(0, head, burst + tail);
    QuietKeepsZero(0, head);
    BitCrcAppend(0, burst, tail);
    NoisyBurst(burst);
    QuietKeepsZero(BitCrc(0, burst), tail);
  }

  lemma QuietSlice(d: seq<bit>, lo: nat, hi: nat)
    requires lo <= hi <= |d|
    requires forall i :: lo <= i < hi ==> d[i] == 0
    ensures Quiet(d[lo..hi])
  {}

  lemma NoisySlice(d: seq<bit>, lo: nat, hi: nat)
    requires lo <= hi <= |d| && Quiet(d[lo..hi])
    requires forall i :: 0 <= i < |d| && !(lo <= i < hi) ==> d[i] == 0
    ensures Quiet(d)
  {
    forall i | 0 <= i < |d|
      ensures d[i] == 0
    {
      if lo <= i < hi { assert d[lo..hi][i - lo] == d[i]; }
    }
  }

  lemma WindowedDifference(d: seq<bit>, k: nat)
    requires !Quiet(d)
    requires forall i :: 0 <= i < |d| && d[i] != 0 ==> k <= i < k + 16
    ensures BitCrc(0, d) != 0
  {
    var n := |d|;
    var lo := if k < n then k else n;
    var hi := if k + 16 < n then k + 16 else n;
    if Quiet(d[lo..hi]) { NoisySlice(d, lo, hi); }
    QuietSlice(d, 0, lo);
    QuietSlice(d, hi, n);
    BurstLeavesMark(d[0..lo], d[lo..hi], d[hi..n]);
    assert d == d[0..lo] + (d[lo..hi] + d[hi..n]);
  }

  /** Sixteen is the limit: the seventeen bits of the polynomial itself leave no mark. */
  lemma SeventeenBitsCanHide()
    ensures BitCrc(0, [1] + Bits(0xA001, 16)) == 0
  {
    var v: word := 0xA001;
    assert ([1] + Bits(v, 16))[1..] == Bits(v, 16);
    assert Feed(0, 1) == v;
    WordIsSerial(v, v, 16);
    XorCancels(v, v);
    StepNZero(0, 16);
    assert Half(Half(Half(Half(v)))) == 0xA00;
    assert Half(Half(Half(Half(0xA00)))) == 0xA0 && Half(Half(Half(Half(0xA0)))) == 0xA;
    assert Shifted(v, 16) == Shifted(0xA00, 12) == Shifted(0xA0, 8) == Shifted(FromByte(0xA0), 8);
    ByteIsSerial(0, 0xA0);
    XorCancels(BitCrc(v, Bits(v, 16)), 0);
  }

  /** Two distinct frames that differ only inside sixteen consecutive bits are never both accepted. */
  lemma BurstsAreDetected(f: seq<byte>, g: seq<byte>, k: nat)
    requires |f| == |g| >= 2 && f != g
    requires forall i :: 0 <= i < 8 * |f| && BitsOf(f)[i] != BitsOf(g)[i] ==> k <= i < k + 16
    ensures !(CrcAccepts(f) && CrcAccepts(g))
  {
    if CrcAccepts(f) {
      UndetectedErrors(f, g);
      var d := Difference(BitsOf(f), BitsOf(g));
      if Quiet(d) {
        assert BitsOf(f) == BitsOf(g);
        BitsOfInjective(f, g);
      }
      WindowedDifference(d, k);
    }
  }

  /** How many bits are set. */
  function Weight(bits: seq<bit>): nat
    decreases bits
  {
    if bits == [] then 0 else (if bits[0] == 1 then 1 else 0) + Weight(bits[1..])
  }

  lemma {:induction false} WeightIsParity(x: word, bits: seq<bit>)
    ensures Odd(BitCrc(x, bits)) == (Odd(x) != (Weight(bits) % 2 == 1))
    decreases bits
  {
    if bits != [] {
      if bits[0] == 1 { FeedOneParity(x); } else { assert bits[0] == 0; FeedZeroParity(x); }
      WeightIsParity(Feed(x, bits[0]), bits[1..]);
    }
  }

  /** Two frames that differ in an odd number of bits are never both accepted. */
  lemma OddErrorsAreDetected(f: seq<byte>, g: seq<byte>)
    requires |f| == |g| >= 2
    requires Weight(Difference(BitsOf(f), BitsOf(g))) % 2 == 1
    ensures !(CrcAccepts(f) && CrcAccepts(g))
  {
    if CrcAccepts(f) {
      UndetectedErrors(f, g);
      WeightIsParity(0, Difference(BitsOf(f), BitsOf(g)));
      assert !Odd(0);
    }
  }
}
