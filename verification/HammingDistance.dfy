/** How far apart accepted frames are: at least four bits, as long as they have fewer than 32768 bits. */
module HammingDistance {
  import opened Words
  import opened Crc
  import opened ErrorDetection

  // ----- The register returns to where it was after 32767 shifts, and not before -----

  lemma EvenWordsSatisfyTrinomial(x: word)
    requires !Odd(x)
    ensures StepN(x, 16) == Xor(StepN(x, 2), StepN(x, 1))
  {
    SixteenSteps(x);
    SixteenShifts(x);
    assert StepN(x, 2) == Step(Step(x)) && StepN(x, 1) == Step(x);
  }

  lemma SixteenSteps(x: word)
    ensures StepN(x, 16) == Eight(Eight(x))
  {
    StepNAdd(x, 8, 8);
    EightSteps(x);
    EightSteps(StepN(x, 8));
  }

  function Eight(x: word): word {
    Step(Step(Step(Step(Step(Step(Step(Step(x))))))))
  }

  lemma SixteenShifts(x: word)
    requires !Odd(x)
    ensures Eight(Eight(x)) == Xor(Step(Step(x)), Step(x))
  {}

  /** Of three numbers of shifts, the first does what the other two do together. */
  predicate Splits(x: word, a: nat, b: nat, c: nat) {
    StepN(x, a) == Xor(StepN(x, b), StepN(x, c))
  }

  lemma XorMiddle(x: word, y: word, z: word)
    ensures Xor(Xor(x, y), Xor(y, z)) == Xor(x, z)
    ensures Xor(Xor(x, y), Xor(z, y)) == Xor(x, z)
    ensures Xor(Xor(x, y), Xor(x, z)) == Xor(y, z)
  {}

  /** Shifting is linear, and over bits squares of sums are sums of squares. */
  lemma Doubles(x: word, a: nat, b: nat, c: nat)
    requires Splits(x, a, b, c)
    ensures Splits(x, 2 * a, 2 * b, 2 * c)
  {
    hide StepN, Xor;
    var p, q := StepN(x, b), StepN(x, c);
    StepNAdd(x, a, a);
    StepNLinear(p, q, a);
    StepNAdd(x, a, b);
    StepNAdd(x, b, a);
    StepNLinear(p, q, b);
    StepNAdd(x, b, b);
    StepNAdd(x, c, b);
    StepNAdd(x, a, c);
    StepNAdd(x, c, a);
    StepNLinear(p, q, c);
    StepNAdd(x, b, c);
    StepNAdd(x, c, c);
    XorMiddle(StepN(x, 2 * b), StepN(x, b + c), StepN(x, 2 * c));
  }

  /** The powers of two that the proofs need, for a word of even weight. */
  lemma EvenWordsSplit(x: word)
    requires !Odd(x)
    ensures Splits(x, 16, 2, 1) && Splits(x, 32, 4, 2) && Splits(x, 64, 8, 4) && Splits(x, 128, 16, 8)
    ensures Splits(x, 256, 4, 1) && Splits(x, 512, 8, 2)
  {
    hide Xor, Splits;
    EvenWordsSatisfyTrinomial(x);
    assert Splits(x, 16, 2, 1) by { SplitsAs(x, 16, 2, 1); }
    Doubles(x, 16, 2, 1);
    Doubles(x, 32, 4, 2);
    Doubles(x, 64, 8, 4);
    Doubles(x, 128, 16, 8);
    Chained(x, 256, 32, 16, 4, 2, 1);
    Doubles(x, 256, 4, 1);
  }

  lemma SplitsAs(x: word, a: nat, b: nat, c: nat)
    requires StepN(x, a) == Xor(StepN(x, b), StepN(x, c))
    ensures Splits(x, a, b, c)
  {}

  lemma Chained(x: word, a: nat, b: nat, c: nat, d: nat, e: nat, f: nat)
    requires Splits(x, a, b, c) && Splits(x, b, d, e) && Splits(x, c, e, f)
    ensures Splits(x, a, d, f)
  {
    hide StepN, Xor;
    XorMiddle(StepN(x, d), StepN(x, e), StepN(x, f));
  }

  /** 32768 shifts of a word of even weight are one shift, so that 32767 are none. */
  lemma FullPeriod(x: word)
    requires !Odd(x)
    ensures StepN(x, 32767) == x
  {
    hide StepN, Xor, Splits;
    EvenWordsSplit(x);
    Doubles(x, 512, 8, 2);
    Doubles(x, 1024, 16, 4);
    Doubles(x, 2048, 32, 8);
    Doubles(x, 4096, 64, 16);
    Doubles(x, 8192, 128, 32);
    Doubles(x, 16384, 256, 64);
    ComesAround(x);
    StepNAdd(x, 32767, 1);
    StepIsInjective(StepN(x, 32767), x);
  }

  lemma ComesAround(x: word)
    requires Splits(x, 32768, 512, 128) && Splits(x, 512, 8, 2) && Splits(x, 128, 16, 8) && Splits(x, 16, 2, 1)
    ensures StepN(x, 32768) == StepN(x, 1)
  {
    hide StepN, Xor;
    XorCommutes(StepN(x, 8), StepN(x, 2));
    XorMiddle(StepN(x, 2), StepN(x, 8), StepN(x, 16));
    XorAssociative(StepN(x, 2), StepN(x, 2), StepN(x, 1));
    XorSelf(StepN(x, 2));
    XorIdentity(StepN(x, 1));
  }

  lemma XorCommutes(x: word, y: word)
    ensures Xor(x, y) == Xor(y, x)
  {}

  lemma StepIsInjective(x: word, y: word)
    requires StepN(x, 1) == StepN(y, 1)
    ensures x == y
  {
    assert StepN(x, 1) == Step(x) && StepN(y, 1) == Step(y);
    StepLinear(x, y);
    XorCancels(Step(x), Step(y));
    StepZero(Xor(x, y));
    XorCancels(x, y);
  }

  // ----- No shorter period: it would divide 217, 1057 or 4681 -----

  predicate Returns(x: word, n: nat) {
    StepN(x, n) == x
  }

  lemma ReturnsLess(x: word, m: nat, n: nat)
    requires m <= n && Returns(x, m) && Returns(x, n)
    ensures Returns(x, n - m)
  {
    StepNAdd(x, m, n - m);
  }

  predicate Divides(d: nat, n: nat)
    requires d > 0
    decreases n
  {
    if n < d then n == 0 else Divides(d, n - d)
  }

  lemma {:induction false} DividesSum(d: nat, a: nat, b: nat)
    requires d > 0 && Divides(d, a) && Divides(d, b)
    ensures Divides(d, a + b)
    decreases a
  {
    if a >= d {
      DividesSum(d, a - d, b);
      assert a + b - d == (a - d) + b;
    }
  }

  lemma {:induction false} Quotient(d: nat, n: nat) returns (e: nat)
    requires d > 0 && Divides(d, n)
    ensures e * d == n
    decreases n
  {
    if n == 0 { e := 0; } else { e := Quotient(d, n - d); e := e + 1; }
  }

  lemma {:induction false} ReturnsMultiple(x: word, d: nat, n: nat)
    requires d > 0 && Returns(x, d) && Divides(d, n)
    ensures Returns(x, n)
    decreases n
  {
    if n > 0 {
      hide StepN;
      ReturnsMultiple(x, d, n - d);
      StepNAdd(x, d, n - d);
    }
  }

  /** Euclid's algorithm on two periods ends with a period that divides both. */
  lemma {:induction false} CommonPeriod(x: word, m: nat, n: nat) returns (d: nat)
    requires m > 0 && n > 0 && Returns(x, m) && Returns(x, n)
    ensures 0 < d <= m && Returns(x, d) && Divides(d, m) && Divides(d, n)
    decreases m + n
  {
    hide Returns;
    if m == n {
      d := m;
    } else if m < n {
      ReturnsLess(x, m, n);
      d := CommonPeriod(x, m, n - m);
      DividesSum(d, m, n - m);
    } else {
      ReturnsLess(x, n, m);
      d := CommonPeriod(x, m - n, n);
      DividesSum(d, n, m - n);
    }
  }

  /** 32767 is 7 times 31 times 151. */
  lemma SmallFactor(e: nat, d: nat)
    requires 1 < d <= 181 && e * d == 32767
    ensures d == 7 || d == 31 || d == 151
  {}

  lemma LargeProduct(e: nat, d: nat)
    requires d > 181 && e * d == 32767
    ensures e <= 181
    ensures d < 32767 ==> e > 1
  {
    if e > 181 { ProductGrows(182, e, d); }
    if e == 0 || e == 1 { assert e * d <= d; }
  }

  lemma ProductGrows(a: nat, e: nat, d: nat)
    requires a <= e && a <= d
    ensures a * a <= e * d
  {
    assert a * a <= e * a <= e * d;
  }

  /** A divisor of 32767 other than itself divides one of its three largest. */
  lemma ProperDivisors(d: nat)
    requires 0 < d < 32767 && Divides(d, 32767)
    ensures Divides(d, 217) || Divides(d, 1057) || Divides(d, 4681)
  {
    var e := Quotient(d, 32767);
    if d > 181 {
      LargeProduct(e, d);
      SmallFactor(d, e);
      ProductDivides(1, d);
    } else {
      if d > 1 { SmallFactor(e, d); }
      ProductDivides(217, 1);
      ProductDivides(31, 7);
      ProductDivides(7, 31);
      ProductDivides(7, 151);
    }
  }

  lemma {:induction false} ProductDivides(e: nat, d: nat)
    requires d > 0
    ensures Divides(d, e * d)
    decreases e
  {
    if e > 0 {
      ProductDivides(e - 1, d);
      assert e * d == (e - 1) * d + d;
    }
  }

  /** Many shifts at once, for a word of even weight. */
  lemma Jumps(x: word)
    requires !Odd(x)
    ensures StepN(x, 8) == Eight(x)
    ensures StepN(x, 64) == Xor(Eight(x), Step(Step(Step(Step(x)))))
    ensures StepN(x, 128) == Xor(Eight(Eight(x)), Eight(x))
    ensures StepN(x, 512) == Xor(Eight(x), Step(Step(x)))
  {
    hide StepN, Xor, Odd, Step;
    EvenWordsSplit(x);
    EightSteps(x);
    SixteenSteps(x);
    FewSteps(x);
  }

  lemma FewSteps(x: word)
    ensures StepN(x, 1) == Step(x) && StepN(x, 2) == Step(Step(x)) && StepN(x, 4) == Step(Step(Step(Step(x))))
  {
    assert StepN(x, 2) == StepN(Step(x), 1) && StepN(x, 4) == StepN(Step(Step(x)), 2);
  }

  /** 217 is 3 times 8, 1, 64 and 128. */
  lemma Not217()
    ensures StepN(0xA000, 217) == 0xC1C1
  {
    hide StepN;
    Jumps(0xA000);
    Jumps(0x00A0);
    Jumps(0x7800);
    FewSteps(0x0078);
    Jumps(0x003C);
    Jumps(0x4103);
    StepNAdd(0xA000, 8, 8);
    StepNAdd(0xA000, 16, 8);
    StepNAdd(0xA000, 24, 1);
    StepNAdd(0xA000, 25, 64);
    StepNAdd(0xA000, 89, 128);
  }

  /** 1057 is 4 times 8, 1 and twice 512. */
  lemma Not1057()
    ensures StepN(0xA000, 1057) == 0x0DD0
  {
    hide StepN;
    Jumps(0xA000);
    Jumps(0x00A0);
    Jumps(0x7800);
    Jumps(0x0078);
    FewSteps(0x2200);
    Jumps(0x1100);
    Jumps(0x0451);
    StepNAdd(0xA000, 8, 8);
    StepNAdd(0xA000, 16, 8);
    StepNAdd(0xA000, 24, 8);
    StepNAdd(0xA000, 32, 1);
    StepNAdd(0xA000, 33, 512);
    StepNAdd(0xA000, 545, 512);
  }

  /** 4681 is 8, 1, 64, 512 and 4096. */
  lemma Not4681()
    ensures StepN(0xA000, 4681) == 0x5F72
  {
    hide StepN, Splits;
    Jumps(0xA000);
    FewSteps(0x00A0);
    Jumps(0x0050);
    Jumps(0x3C05);
    EvenWordsSplit(0xFCFC);
    Doubles(0xFCFC, 512, 8, 2);
    Doubles(0xFCFC, 1024, 16, 4);
    Doubles(0xFCFC, 2048, 32, 8);
    LastJump();
    StepNAdd(0xA000, 8, 1);
    StepNAdd(0xA000, 9, 64);
    StepNAdd(0xA000, 73, 512);
    StepNAdd(0xA000, 585, 4096);
  }

  lemma LastJump()
    requires Splits(0xFCFC, 4096, 64, 16)
    ensures StepN(0xFCFC, 4096) == 0x5F72
  {
    hide StepN;
    Jumps(0xFCFC);
    SixteenSteps(0xFCFC);
  }

  lemma NoShortPeriod()
    ensures !Returns(0xA000, 217) && !Returns(0xA000, 1057) && !Returns(0xA000, 4681)
  {
    hide StepN;
    Not217();
    Not1057();
    Not4681();
  }

  /** So 32767 is the period of 0xA000, which is the sum of 1 and its successor; and 1 has none that is shorter. */
  lemma OneReturnsLate(n: nat)
    requires 0 < n < 32767
    ensures StepN(1, n) != 1
  {
    hide StepN;
    if StepN(1, n) == 1 {
      SumReturns(n);
      FullPeriod(0xA000);
      var d := CommonPeriod(0xA000, n, 32767);
      ProperDivisors(d);
      NoShortPeriod();
      if Divides(d, 217) { ReturnsMultiple(0xA000, d, 217); }
      else if Divides(d, 1057) { ReturnsMultiple(0xA000, d, 1057); }
      else { ReturnsMultiple(0xA000, d, 4681); }
    }
  }

  lemma SumReturns(n: nat)
    requires StepN(1, n) == 1
    ensures Returns(0xA000, n)
  {
    hide StepN;
    FewSteps(1);
    assert Xor(1, Step(1)) == 0xA000;
    StepNLinear(1, Step(1), n);
    StepNAdd(1, 1, n);
    StepNAdd(1, n, 1);
  }

  // ----- Two bits never hide -----

  lemma {:induction false} QuietSteps(x: word, bits: seq<bit>)
    requires Quiet(bits)
    ensures BitCrc(x, bits) == StepN(x, |bits|)
    decreases bits
  {
    if bits != [] {
      FeedNothing(x);
      QuietSteps(Feed(x, 0), bits[1..]);
    }
  }

  lemma {:induction false} QuietHasNoWeight(bits: seq<bit>)
    ensures Weight(bits) == 0 <==> Quiet(bits)
    decreases bits
  {
    if bits != [] {
      QuietHasNoWeight(bits[1..]);
      assert bits == [bits[0]] + bits[1..];
    }
  }

  /** A single bit after the register has moved on brings it to zero only from 1. */
  lemma {:induction false} OneMoreBit(x: word, bits: seq<bit>) returns (n: nat)
    requires Weight(bits) == 1
    ensures n < |bits| && (BitCrc(x, bits) == 0 <==> StepN(x, n) == 1)
    decreases bits
  {
    hide Quiet;
    if bits[0] == 0 {
      FeedNothing(x);
      n := OneMoreBit(Feed(x, 0), bits[1..]);
      n := n + 1;
      assert StepN(x, n) == StepN(Step(x), n - 1);
    } else {
      n := 0;
      QuietHasNoWeight(bits[1..]);
      QuietKeepsZero(Feed(x, 1), bits[1..]);
      FedOne(x);
    }
  }

  lemma FedOne(x: word)
    ensures Feed(x, 1) == 0 <==> x == 1
  {
    StepZero(Xor(x, 1));
    XorCancels(x, 1);
  }

  lemma {:induction false} TwoBitsLeaveMark(bits: seq<bit>)
    requires Weight(bits) == 2 && |bits| <= 32767
    ensures BitCrc(0, bits) != 0
    decreases bits
  {
    if bits[0] == 0 {
      FeedNothing(0);
      StepZero(0);
      TwoBitsLeaveMark(bits[1..]);
    } else {
      var n := OneMoreBit(Feed(0, 1), bits[1..]);
      assert Feed(0, 1) == Step(1);
      assert StepN(1, n + 1) == StepN(Step(1), n);
      OneReturnsLate(n + 1);
    }
  }

  lemma QuietDifference(f: seq<byte>, g: seq<byte>)
    requires |f| == |g| && f != g
    ensures Weight(Difference(BitsOf(f), BitsOf(g))) > 0
  {
    hide BitsOf;
    var d := Difference(BitsOf(f), BitsOf(g));
    QuietHasNoWeight(d);
    if Quiet(d) {
      assert BitsOf(f) == BitsOf(g);
      BitsOfInjective(f, g);
    }
  }

  /** Two distinct accepted frames of equal length differ in four bits at least, if they have fewer than 32768 bits;
      frames on the line have at most 2080. */
  lemma AcceptedFramesDifferInFourBits(f: seq<byte>, g: seq<byte>)
    requires 2 <= |f| == |g| < 4096 && f != g && CrcAccepts(f) && CrcAccepts(g)
    ensures Weight(Difference(BitsOf(f), BitsOf(g))) >= 4
  {
    hide BitsOf, CrcAccepts, BitCrc, Weight, Quiet;
    var d := Difference(BitsOf(f), BitsOf(g));
    UndetectedErrors(f, g);
    if Weight(d) % 2 == 1 { OddErrorsAreDetected(f, g); }
    if Weight(d) == 2 { TwoBitsLeaveMark(d); }
    QuietDifference(f, g);
  }

  lemma WeightOfBits(v: word, n: nat)
    requires n > 0
    ensures Weight(Bits(v, n)) == (if LowBit(v) == 1 then 1 else 0) + Weight(Bits(Half(v), n - 1))
  {
    assert Bits(v, n)[1..] == Bits(Half(v), n - 1);
  }

  lemma {:induction false} ZeroHasNoBits(n: nat)
    ensures Weight(Bits(0, n)) == 0
  {
    if n > 0 {
      WeightOfBits(0, n);
      assert Half(0) == 0 && LowBit(0) == 0;
      ZeroHasNoBits(n - 1);
    }
  }

  /** Four is the limit: the four bits of the polynomial itself can hide. */
  lemma FourBitsCanHide()
    ensures Weight([1] + Bits(0xA001, 16)) == 4 && BitCrc(0, [1] + Bits(0xA001, 16)) == 0
  {
    hide Bits, BitCrc;
    SeventeenBitsCanHide();
    assert ([1] + Bits(0xA001, 16))[1..] == Bits(0xA001, 16);
    WeightOfBits(0xA001, 16);
    WeightOfBits(0x5000, 15);
    WeightOfBits(0x2800, 14);
    WeightOfBits(0x1400, 13);
    WeightOfBits(0xA00, 12);
    WeightOfBits(0x500, 11);
    WeightOfBits(0x280, 10);
    WeightOfBits(0x140, 9);
    WeightOfBits(0xA0, 8);
    WeightOfBits(0x50, 7);
    WeightOfBits(0x28, 6);
    WeightOfBits(0x14, 5);
    WeightOfBits(0xA, 4);
    WeightOfBits(0x5, 3);
    WeightOfBits(0x2, 2);
    WeightOfBits(0x1, 1);
    ZeroHasNoBits(0);
  }

  lemma OnlyZeroStandsStill(y: word)
    requires Step(y) == y && !Odd(y)
    ensures y == 0
  {}

  lemma {:induction false} StepsKeepParity(x: word, n: nat)
    ensures Odd(StepN(x, n)) == Odd(x)
    decreases n
  {
    hide Odd, Step;
    if n > 0 {
      StepKeepsParity(x);
      StepsKeepParity(Step(x), n - 1);
    }
  }

  lemma SumComesAround()
    ensures StepN(0xA000, 32767) == 0xA000
  {
    hide StepN;
    FullPeriod(0xA000);
  }

  lemma OneReturns()
    ensures StepN(1, 32767) == 1
  {
    hide StepN, Odd;
    var a, b := StepN(1, 32767), StepN(Step(1), 32767);
    assert StepN(0xA000, 32767) == 0xA000 by { SumComesAround(); }
    FewSteps(1);
    assert Xor(1, Step(1)) == 0xA000;
    StepNLinear(1, Step(1), 32767);
    StepNAdd(1, 1, 32767);
    StepNAdd(1, 32767, 1);
    FewSteps(a);
    StepLinear(a, 1);
    SameSum(a, b, 1, Step(1));
    assert b == Step(a);
    StepsKeepParity(1, 32767);
    EvenSum(a);
    OnlyZeroStandsStill(Xor(a, 1));
    XorCancels(a, 1);
  }

  lemma EvenSum(x: word)
    requires Odd(x) == Odd(1)
    ensures !Odd(Xor(x, 1))
  {
    OddFlip(x);
  }

  lemma SameSum(a: word, b: word, c: word, d: word)
    requires Xor(a, b) == Xor(c, d)
    ensures Xor(a, c) == Xor(b, d)
  {
    hide Xor;
    XorMiddle(a, b, c);
    XorMiddle(c, d, b);
    XorCommutes(d, b);
  }

  /** 32767 places are the limit: two bits as far apart as that can hide. */
  lemma FarBitsCanHide(zeros: seq<bit>)
    requires |zeros| == 32766 && Quiet(zeros)
    ensures BitCrc(0, [1] + (zeros + [1])) == 0
  {
    hide StepN, BitCrc, Quiet;
    OneReturns();
    BitCrcAppend(0, [1], zeros + [1]);
    BitCrcAppend(Step(1), zeros, [1]);
    QuietSteps(Step(1), zeros);
    FewSteps(1);
    StepNAdd(1, 1, 32766);
    OneBit(0);
    OneBit(1);
  }

  lemma OneBit(x: word)
    ensures BitCrc(x, [1]) == Feed(x, 1)
    ensures x == 0 ==> Feed(x, 1) == Step(1)
    ensures x == 1 ==> Feed(x, 1) == 0
  {}
}
