/**
  The 16-bit shift register of the download CRC: generator x^16 + x^12 + x^5 + 1, most
  significant bit first.  A register is written out bit by bit, so that every fact about a
  single shift is propositional.  Messages are in module Crc.
 */
module CrcRegister {

  type byte = x: int | 0 <= x < 256

  datatype Octet = Octet(b7: bool, b6: bool, b5: bool, b4: bool, b3: bool, b2: bool, b1: bool, b0: bool)

  datatype Word = Word(hi: Octet, lo: Octet)

  const O0 := Octet(false, false, false, false, false, false, false, false)
  const O1 := Octet(true, true, true, true, true, true, true, true)
  const ZERO := Word(O0, O0)
  const PRESET := Word(O1, O1)

  /** Bit `k` of a number. */
  predicate Bit(n: nat, k: nat)
    requires k < 4
  {
    if k == 3 then n % 16 >= 8 else if k == 2 then n % 8 >= 4 else if k == 1 then n % 4 >= 2 else n % 2 == 1
  }

  function OctetOf(n: byte): Octet {
    var h, l := n / 16, n % 16;
    Octet(Bit(h, 3), Bit(h, 2), Bit(h, 1), Bit(h, 0), Bit(l, 3), Bit(l, 2), Bit(l, 1), Bit(l, 0))
  }

  function One(b: bool): nat { if b then 1 else 0 }

  function Nibble(b3: bool, b2: bool, b1: bool, b0: bool): (n: nat)
    ensures n < 16
  {
    8 * One(b3) + 4 * One(b2) + 2 * One(b1) + One(b0)
  }

  function Value(o: Octet): byte {
    16 * Nibble(o.b7, o.b6, o.b5, o.b4) + Nibble(o.b3, o.b2, o.b1, o.b0)
  }

  lemma NibbleOfBits(n: nat)
    requires n < 16
    ensures Nibble(Bit(n, 3), Bit(n, 2), Bit(n, 1), Bit(n, 0)) == n
  {}

  lemma BitsOfNibble(b3: bool, b2: bool, b1: bool, b0: bool)
    ensures var n := Nibble(b3, b2, b1, b0);
      Bit(n, 3) == b3 && Bit(n, 2) == b2 && Bit(n, 1) == b1 && Bit(n, 0) == b0
  {}

  lemma ValueOfOctet(n: byte)
    ensures Value(OctetOf(n)) == n
  {
    NibbleOfBits(n / 16);
    NibbleOfBits(n % 16);
  }

  lemma NibblesOf(h: nat, l: nat)
    requires h < 16 && l < 16
    ensures (16 * h + l) / 16 == h && (16 * h + l) % 16 == l
  {}

  lemma OctetOfNibbles(o: Octet, h: nat, l: nat)
    requires h < 16 && Bit(h, 3) == o.b7 && Bit(h, 2) == o.b6 && Bit(h, 1) == o.b5 && Bit(h, 0) == o.b4
    requires l < 16 && Bit(l, 3) == o.b3 && Bit(l, 2) == o.b2 && Bit(l, 1) == o.b1 && Bit(l, 0) == o.b0
    ensures OctetOf(16 * h + l) == o
  {
    NibblesOf(h, l);
  }

  lemma OctetOfValue(o: Octet)
    ensures OctetOf(Value(o)) == o
  {
    BitsOfNibble(o.b7, o.b6, o.b5, o.b4);
    BitsOfNibble(o.b3, o.b2, o.b1, o.b0);
    OctetOfNibbles(o, Nibble(o.b7, o.b6, o.b5, o.b4), Nibble(o.b3, o.b2, o.b1, o.b0));
  }

  function XorO(x: Octet, y: Octet): Octet {
    Octet(x.b7 != y.b7, x.b6 != y.b6, x.b5 != y.b5, x.b4 != y.b4,
          x.b3 != y.b3, x.b2 != y.b2, x.b1 != y.b1, x.b0 != y.b0)
  }

  function Xor(x: Word, y: Word): Word {
    Word(XorO(x.hi, y.hi), XorO(x.lo, y.lo))
  }

  /** One shift, subtracting the generator when a one falls out at the top. */
  function Advance(c: Word): Word {
    var t := c.hi.b7;
    Word(Octet(c.hi.b6, c.hi.b5, c.hi.b4, c.hi.b3 != t, c.hi.b2, c.hi.b1, c.hi.b0, c.lo.b7),
         Octet(c.lo.b6, c.lo.b5, c.lo.b4 != t, c.lo.b3, c.lo.b2, c.lo.b1, c.lo.b0, t))
  }

  function Advance8(c: Word): Word {
    Advance(Advance(Advance(Advance(Advance(Advance(Advance(Advance(c))))))))
  }

  function TopBit(bit: bool): Word { Word(O0.(b7 := bit), O0) }

  function BottomBit(bit: bool): Word { Word(O0, O0.(b0 := bit)) }

  /** The register takes in one message bit. */
  function BitStep(c: Word, bit: bool): Word {
    Advance(Xor(c, TopBit(bit)))
  }

  /** Schoolbook division: the next dividend bit is brought down at the right end. */
  function DivStep(r: Word, bit: bool): Word {
    Xor(Advance(r), BottomBit(bit))
  }

  /* ---- One shift is linear and reversible ---- */

  lemma AdvanceLinear(x: Word, y: Word)
    ensures Advance(Xor(x, y)) == Xor(Advance(x), Advance(y))
  {}

  lemma Advance8Linear(x: Word, y: Word)
    ensures Advance8(Xor(x, y)) == Xor(Advance8(x), Advance8(y))
  {
    var x1, y1 := Advance(x), Advance(y);
    var x2, y2 := Advance(x1), Advance(y1);
    var x3, y3 := Advance(x2), Advance(y2);
    var x4, y4 := Advance(x3), Advance(y3);
    var x5, y5 := Advance(x4), Advance(y4);
    var x6, y6 := Advance(x5), Advance(y5);
    var x7, y7 := Advance(x6), Advance(y6);
    AdvanceLinear(x, y); AdvanceLinear(x1, y1); AdvanceLinear(x2, y2); AdvanceLinear(x3, y3);
    AdvanceLinear(x4, y4); AdvanceLinear(x5, y5); AdvanceLinear(x6, y6); AdvanceLinear(x7, y7);
  }

  lemma XorSwap(x: Word, p: Word, y: Word, q: Word)
    ensures Xor(Xor(x, p), Xor(y, q)) == Xor(Xor(x, y), Xor(p, q))
  {}

  lemma BitStepLinear(x: Word, y: Word, a: bool, b: bool)
    ensures BitStep(Xor(x, y), a != b) == Xor(BitStep(x, a), BitStep(y, b))
  {
    AdvanceLinear(Xor(x, TopBit(a)), Xor(y, TopBit(b)));
    XorSwap(x, TopBit(a), y, TopBit(b));
  }

  lemma DivStepLinear(x: Word, y: Word, a: bool, b: bool)
    ensures DivStep(Xor(x, y), a != b) == Xor(DivStep(x, a), DivStep(y, b))
  {
    AdvanceLinear(x, y);
    XorSwap(Advance(x), BottomBit(a), Advance(y), BottomBit(b));
  }

  lemma AdvanceInjective(x: Word, y: Word)
    requires Advance(x) == Advance(y)
    ensures x == y
  {}

  lemma Advance8Injective(x: Word, y: Word)
    requires Advance8(x) == Advance8(y)
    ensures x == y
  {
    var x1, y1 := Advance(x), Advance(y);
    var x2, y2 := Advance(x1), Advance(y1);
    var x3, y3 := Advance(x2), Advance(y2);
    var x4, y4 := Advance(x3), Advance(y3);
    var x5, y5 := Advance(x4), Advance(y4);
    var x6, y6 := Advance(x5), Advance(y5);
    var x7, y7 := Advance(x6), Advance(y6);
    AdvanceInjective(x7, y7); AdvanceInjective(x6, y6); AdvanceInjective(x5, y5); AdvanceInjective(x4, y4);
    AdvanceInjective(x3, y3); AdvanceInjective(x2, y2); AdvanceInjective(x1, y1); AdvanceInjective(x, y);
  }

  /* ---- A byte is eight bits ---- */

  /** A register whose upper byte is clear is only shifted. */
  lemma LowByteShifts(o: Octet)
    ensures Advance8(Word(O0, o)) == Word(o, O0)
  {}

  function FourBits(c: Word, b0: bool, b1: bool, b2: bool, b3: bool): Word {
    BitStep(BitStep(BitStep(BitStep(c, b0), b1), b2), b3)
  }

  /** Feeding the top bit of `r` separates it from the bits that follow. */
  lemma PeelBit(s: Word, r: Octet)
    ensures Advance(Xor(s, Word(r, O0)))
         == Xor(BitStep(s, r.b7), Word(Octet(r.b6, r.b5, r.b4, r.b3, r.b2, r.b1, r.b0, false), O0))
  {}

  /** Eight bit steps are one byte step. */
  lemma EightBitSteps(c: Word, w: Octet)
    ensures Advance8(Xor(c, Word(w, O0)))
         == FourBits(FourBits(c, w.b7, w.b6, w.b5, w.b4), w.b3, w.b2, w.b1, w.b0)
  {
    var s1 := BitStep(c, w.b7);
    var s2 := BitStep(s1, w.b6);
    var s3 := BitStep(s2, w.b5);
    var s4 := BitStep(s3, w.b4);
    var s5 := BitStep(s4, w.b3);
    var s6 := BitStep(s5, w.b2);
    var s7 := BitStep(s6, w.b1);
    PeelBit(c, w);
    PeelBit(s1, Octet(w.b6, w.b5, w.b4, w.b3, w.b2, w.b1, w.b0, false));
    PeelBit(s2, Octet(w.b5, w.b4, w.b3, w.b2, w.b1, w.b0, false, false));
    PeelBit(s3, Octet(w.b4, w.b3, w.b2, w.b1, w.b0, false, false, false));
    PeelBit(s4, Octet(w.b3, w.b2, w.b1, w.b0, false, false, false, false));
    PeelBit(s5, Octet(w.b2, w.b1, w.b0, false, false, false, false, false));
    PeelBit(s6, Octet(w.b1, w.b0, false, false, false, false, false, false));
    PeelBit(s7, Octet(w.b0, false, false, false, false, false, false, false));
    XorZero(BitStep(s7, w.b0), ZERO);
  }

  lemma XorZero(x: Word, y: Word)
    ensures Xor(x, ZERO) == x
    ensures Xor(x, y) == ZERO <==> x == y
  {}

  /** Two byte steps over the register's own value leave zero, over anything else they do not. */
  lemma TwoBytesCancel(c: Word, hi: Octet, lo: Octet)
    ensures Advance8(Xor(Advance8(Xor(c, Word(hi, O0))), Word(lo, O0))) == ZERO <==> c == Word(hi, lo)
  {
    var x, y := Xor(c, Word(hi, O0)), Word(O0, lo);
    LowByteShifts(lo);
    LowByteShifts(O0);
    Advance8Linear(x, y);
    if Advance8(Advance8(Xor(x, y))) == ZERO {
      Advance8Injective(Advance8(Xor(x, y)), ZERO);
      Advance8Injective(Xor(x, y), ZERO);
    }
    XorZero(c, Word(hi, lo));
    assert Xor(x, y) == Xor(c, Word(hi, lo));
  }

  /* ---- A difference in one bit survives the next fifteen ---- */

  /** The lowest `n` bits are clear. */
  predicate LowClear(d: Word, n: nat) {
    && (n > 0 ==> !d.lo.b0) && (n > 1 ==> !d.lo.b1) && (n > 2 ==> !d.lo.b2) && (n > 3 ==> !d.lo.b3)
    && (n > 4 ==> !d.lo.b4) && (n > 5 ==> !d.lo.b5) && (n > 6 ==> !d.lo.b6) && (n > 7 ==> !d.lo.b7)
    && (n > 8 ==> !d.hi.b0) && (n > 9 ==> !d.hi.b1) && (n > 10 ==> !d.hi.b2) && (n > 11 ==> !d.hi.b3)
    && (n > 12 ==> !d.hi.b4) && (n > 13 ==> !d.hi.b5) && (n > 14 ==> !d.hi.b6) && (n > 15 ==> !d.hi.b7)
  }

  /** Going one bit back, at most one more low bit of the difference can be set. */
  lemma LowClearBackwards(x: Word, y: Word, a: bool, b: bool, n: nat)
    requires n < 16
    requires LowClear(Xor(BitStep(x, a), BitStep(y, b)), n + 1)
    ensures LowClear(Xor(x, y), n)
  {
    BitStepLinear(x, y, a, b);
    var d := Xor(Xor(x, y), TopBit(a != b));
    assert !d.hi.b7;
    assert LowClear(d, n);
  }
}
