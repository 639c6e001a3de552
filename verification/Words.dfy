/** Sixteen-bit words under exclusive or, and the shift of the CRC register.  The operations have
    names so that proofs elsewhere can treat words as atoms. */
module Words {

  type word = bv16
  type byte = bv8
  type bit = bv1

  function Xor(x: word, y: word): word {
    x ^ y
  }

  /** One shift of the register, without a branch: 0 - 1 is all ones, so the polynomial 0xA001 is
      xored in exactly when the bit that falls out is 1. */
  function Step(x: word): word {
    (x >> 1) ^ (0xA001 & (0 - (x & 1)))
  }

  function FromByte(b: byte): word {
    b as bv16
  }

  /** A byte eight places up. */
  function High(b: byte): word {
    (b as bv16) << 8
  }

  /** A two-byte word, low byte first. */
  function Word(lo: byte, hi: byte): word {
    (lo as bv16) | ((hi as bv16) << 8)
  }

  function LowByte(w: word): byte {
    (w & 0xFF) as bv8
  }

  function HighByte(w: word): byte {
    (w >> 8) as bv8
  }

  function LowBit(v: word): bit {
    (v & 1) as bv1
  }

  function Half(v: word): word {
    v >> 1
  }

  function Double(v: word): word {
    v << 1
  }

  /** A byte read as a count. */
  function Count(b: byte): (n: nat)
    ensures n <= 255
  {
    b as int
  }

  /** The register after one more bit of input. */
  function Feed(x: word, b: bit): word {
    Step(x ^ (b as bv16))
  }

  /** A bit shifted in below a word. */
  function Push(b: bit, p: word): word {
    (b as bv16) ^ (p << 1)
  }

  /** The word has a spare place at the top. */
  predicate Spare(p: word) {
    p & 0x8000 == 0
  }

  predicate Disjoint(p: word, m: word) {
    p & m == 0
  }

  /** Whether an odd number of the sixteen bits are set. */
  predicate Odd(x: word) {
    ((((x & 0x1 != 0) != (x & 0x2 != 0)) != ((x & 0x4 != 0) != (x & 0x8 != 0)))
     != (((x & 0x10 != 0) != (x & 0x20 != 0)) != ((x & 0x40 != 0) != (x & 0x80 != 0))))
    != ((((x & 0x100 != 0) != (x & 0x200 != 0)) != ((x & 0x400 != 0) != (x & 0x800 != 0)))
        != (((x & 0x1000 != 0) != (x & 0x2000 != 0)) != ((x & 0x4000 != 0) != (x & 0x8000 != 0))))
  }

  // ----- Exclusive or -----

  lemma XorIdentity(x: word)
    ensures Xor(x, 0) == x
    ensures Xor(0, x) == x
  {}

  lemma XorSelf(x: word)
    ensures Xor(x, x) == 0
  {}

  lemma XorAssociative(x: word, y: word, z: word)
    ensures Xor(Xor(x, y), z) == Xor(x, Xor(y, z))
  {}

  lemma XorCancels(x: word, y: word)
    ensures Xor(x, y) == 0 <==> x == y
  {
    hide Xor;
    XorSelf(x);
    XorAssociative(x, x, y);
    XorIdentity(x);
    XorIdentity(y);
  }

  // ----- The step is linear, injective and keeps parity -----

  lemma StepLinear(x: word, y: word)
    ensures Step(Xor(x, y)) == Xor(Step(x), Step(y))
  {}

  lemma StepZero(x: word)
    ensures Step(x) == 0 <==> x == 0
  {}

  lemma StepBranches(x: word)
    ensures x & 1 != 0 ==> Step(x) == (x >> 1) ^ 0xA001
    ensures x & 1 == 0 ==> Step(x) == x >> 1
  {}

  lemma OddShift(x: word)
    requires x & 1 == 0
    ensures Odd(x >> 1) == Odd(x)
  {}

  lemma OddFeedback(x: word)
    requires x & 1 != 0
    ensures Odd((x >> 1) ^ 0xA001) == Odd(x)
  {}

  /** The polynomial has an even number of terms, so that a step keeps the parity of the register. */
  lemma StepKeepsParity(x: word)
    ensures Odd(Step(x)) == Odd(x)
  {
    StepBranches(x);
    if x & 1 == 0 { OddShift(x); } else { OddFeedback(x); }
  }

  lemma OddFlip(x: word)
    ensures Odd(x ^ 1) != Odd(x)
  {}

  lemma FeedZeroParity(x: word)
    ensures Odd(Feed(x, 0)) == Odd(x)
  {
    StepKeepsParity(x);
    assert x ^ 0 == x;
  }

  lemma FeedOneParity(x: word)
    ensures Odd(Feed(x, 1)) != Odd(x)
  {
    OddFlip(x);
    StepKeepsParity(x ^ 1);
  }

  lemma FeedLinear(x: word, y: word, a: bit, b: bit)
    ensures Feed(Xor(x, y), a ^ b) == Xor(Feed(x, a), Feed(y, b))
  {}

  lemma FeedNothing(x: word)
    ensures Feed(x, 0) == 0 <==> x == 0
  {}

  // ----- Bits of a word -----

  /** Xoring in a word and stepping is feeding its lowest bit and leaving the rest one place lower. */
  lemma FeedLowest(x: word, v: word)
    ensures Step(Xor(x, v)) == Xor(Feed(x, LowBit(v)), Half(v))
  {}

  lemma HalvesAndLowBits(v: word, w: word)
    requires LowBit(v) == LowBit(w) && Half(v) == Half(w)
    ensures v == w
  {}

  lemma ByteHasEightBits(b: byte)
    ensures Half(Half(Half(Half(Half(Half(Half(Half(FromByte(b))))))))) == 0
  {}

  lemma FromByteInjective(b: byte, c: byte)
    requires FromByte(b) == FromByte(c)
    ensures b == c
  {}

  lemma PushDisjoint(b: bit, p: word, m: word)
    requires Disjoint(p, m)
    ensures Disjoint(Push(b, p), Double(m))
  {}

  lemma PushZero(b: bit, p: word)
    requires Spare(p)
    ensures Push(b, p) == 0 <==> b == 0 && p == 0
  {}

  lemma FeedPush(b: bit, p: word)
    requires Spare(p)
    ensures Feed(Push(b, p), b) == p
  {}

  lemma FeedInjective(x: word, y: word, b: bit)
    requires Feed(x, b) == Feed(y, b)
    ensures x == y
  {}

  // ----- Bytes of a word -----

  lemma WordBytes(w: word)
    ensures Word(LowByte(w), HighByte(w)) == w
  {}

  lemma WordOfBytes(lo: byte, hi: byte)
    ensures LowByte(Word(lo, hi)) == lo && HighByte(Word(lo, hi)) == hi
  {}

  lemma WordInjective(lo: byte, hi: byte, lo': byte, hi': byte)
    requires Word(lo, hi) == Word(lo', hi')
    ensures lo == lo' && hi == hi'
  {}

  lemma XorWord(c: word, lo: byte, hi: byte)
    ensures Xor(c, Word(lo, hi)) == Xor(Xor(c, FromByte(lo)), High(hi))
  {}

  lemma FourPlacesDown(h: byte)
    ensures Step(Step(Step(Step(High(h))))) == FromByte(h) << 4
    ensures Step(Step(Step(Step(FromByte(h) << 4)))) == FromByte(h)
  {
    var w := FromByte(h);
    assert Step(w << 8) == w << 7 && Step(w << 7) == w << 6 && Step(w << 6) == w << 5 && Step(w << 5) == w << 4;
    assert Step(w << 4) == w << 3 && Step(w << 3) == w << 2 && Step(w << 2) == w << 1 && Step(w << 1) == w;
  }

  /** A byte eight places up reaches the bottom in eight steps, unchanged. */
  lemma HighByteSteps(h: byte)
    ensures Step(Step(Step(Step(Step(Step(Step(Step(High(h))))))))) == FromByte(h)
  {
    FourPlacesDown(h);
  }
}
