/**
  The CRC of whole messages.  The reference definition feeds the register one bit at a time; the
  code's table-driven loop is proved to compute it, it is proved to be the remainder of a
  polynomial division, and the receiver's comparison is proved to catch every error burst of up
  to sixteen bits.
 */
module Crc {
  import opened CrcRegister
  import CrcTable

  /* ---- The reference: one bit at a time ---- */

  function CrcBits(bits: seq<bool>, c: Word): Word {
    if bits == [] then c else CrcBits(bits[1..], BitStep(c, bits[0]))
  }

  function OctetBits(o: Octet): seq<bool> {
    [o.b7, o.b6, o.b5, o.b4] + [o.b3, o.b2, o.b1, o.b0]
  }

  function ByteBits(b: byte): seq<bool> { OctetBits(OctetOf(b)) }

  /** The bits of a message in the order they are sent. */
  function MessageBits(s: seq<byte>): (bits: seq<bool>)
    ensures |bits| == 8 * |s|
  {
    if s == [] then [] else ByteBits(s[0]) + MessageBits(s[1..])
  }

  function Crc16(s: seq<byte>): Word {
    CrcBits(MessageBits(s), PRESET)
  }

  lemma {:induction false} CrcBitsAppend(x: seq<bool>, y: seq<bool>, c: Word)
    ensures CrcBits(x + y, c) == CrcBits(y, CrcBits(x, c))
  {
    if x == [] {
      assert x + y == y;
    } else {
      assert (x + y)[1..] == x[1..] + y;
      CrcBitsAppend(x[1..], y, BitStep(c, x[0]));
    }
  }

  lemma {:induction false} MessageBitsAppend(s: seq<byte>, t: seq<byte>)
    ensures MessageBits(s + t) == MessageBits(s) + MessageBits(t)
  {
    if s == [] {
      assert s + t == t;
    } else {
      assert (s + t)[1..] == s[1..] + t;
      MessageBitsAppend(s[1..], t);
      assert ByteBits(s[0]) + (MessageBits(s[1..]) + MessageBits(t))
          == (ByteBits(s[0]) + MessageBits(s[1..])) + MessageBits(t);
    }
  }

  /* ---- The code's loop ---- */

  lemma FourBitMessage(c: Word, p: bool, q: bool, r: bool, s: bool)
    ensures CrcBits([p, q, r, s], c) == FourBits(c, p, q, r, s)
  {
    var c1 := BitStep(c, p);
    var c2 := BitStep(c1, q);
    var c3 := BitStep(c2, r);
    assert [p, q, r, s][1..] == [q, r, s];
    assert [q, r, s][1..] == [r, s];
    assert [r, s][1..] == [s];
    assert [s][1..] == [];
    assert CrcBits([s], c3) == BitStep(c3, s);
    assert CrcBits([r, s], c2) == CrcBits([s], c3);
    assert CrcBits([q, r, s], c1) == CrcBits([r, s], c2);
  }

  /** One byte through the register, eight shifts at once. */
  function ByteStep(c: Word, o: Octet): Word { Advance8(Xor(c, Word(o, O0))) }

  lemma OctetMessage(c: Word, o: Octet)
    ensures CrcBits(OctetBits(o), c) == ByteStep(c, o)
  {
    EightBitSteps(c, o);
    CrcBitsAppend([o.b7, o.b6, o.b5, o.b4], [o.b3, o.b2, o.b1, o.b0], c);
    FourBitMessage(c, o.b7, o.b6, o.b5, o.b4);
    FourBitMessage(FourBits(c, o.b7, o.b6, o.b5, o.b4), o.b3, o.b2, o.b1, o.b0);
  }

  lemma SplitRegister(c: Word, o: Octet)
    ensures Xor(c, Word(o, O0)) == Xor(Word(XorO(c.hi, o), O0), Word(O0, c.lo))
  {}

  lemma XorCommutes(x: Word, y: Word)
    ensures Xor(x, y) == Xor(y, x)
  {}

  /** The code's step: the low byte moves up and the entry for the rest is added. */
  lemma TableStepIsByteStep(c: Word, o: Octet, i: Octet, entry: Word)
    requires i == XorO(c.hi, o) && entry == Advance8(Word(i, O0))
    ensures Xor(Word(c.lo, O0), entry) == ByteStep(c, o)
  {
    LowByteShifts(c.lo);
    SplitRegister(c, o);
    Advance8Linear(Word(i, O0), Word(O0, c.lo));
    XorCommutes(Word(c.lo, O0), entry);
  }

  /** The code's loop over the first `len` bytes of a buffer. */
  method CalcCrc16(buff: array<byte>, len: nat) returns (crc: Word)
    requires len <= buff.Length
    ensures crc == Crc16(buff[..len])
  {
    crc := PRESET;
    var i := 0;
    assert buff[0..len] == buff[..len];
    while i < len
      invariant 0 <= i <= len
      invariant CrcBits(MessageBits(buff[i..len]), crc) == Crc16(buff[..len])
    {
      var value := OctetOf(buff[i]);
      var tmp := XorO(crc.hi, value);
      var entry := CrcTable.TableAt(tmp);
      CrcTable.TableHoldsEightShifts(tmp);
      TableStepIsByteStep(crc, value, tmp, entry);
      OctetMessage(crc, value);
      CrcBitsAppend(ByteBits(buff[i]), MessageBits(buff[i + 1..len]), crc);
      assert buff[i..len][1..] == buff[i + 1..len];
      crc := Xor(Word(crc.lo, O0), entry);
      i := i + 1;
    }
    assert buff[i..len] == [];
  }

  /* ---- The receiver's comparison ---- */

  /** The checksum as the code holds it in a 16-bit variable. */
  function CrcNumber(s: seq<byte>): nat { 256 * Value(Crc16(s).hi) + Value(Crc16(s).lo) }

  /** The checksum a received frame claims for itself. */
  function ClaimedCrc(f: seq<byte>): nat
    requires |f| >= 2
  {
    var hi: int, lo: int := f[|f| - 2], f[|f| - 1];
    256 * hi + lo
  }

  /** A received frame passes when its last two bytes are the CRC of what precedes them. */
  predicate FrameChecks(f: seq<byte>)
    requires |f| >= 2
  {
    ClaimedCrc(f) == CrcNumber(f[..|f| - 2])
  }

  function CrcBytes(s: seq<byte>): (t: seq<byte>)
    ensures |t| == 2
  {
    [Value(Crc16(s).hi), Value(Crc16(s).lo)]
  }

  /** A frame that ends in its own CRC passes, and no other two bytes do. */
  lemma ChecksIffCrcBytes(s: seq<byte>, t: seq<byte>)
    requires |t| == 2
    ensures FrameChecks(s + t) <==> t == CrcBytes(s)
  {
    var f, c := s + t, Crc16(s);
    assert f[..|f| - 2] == s && f[|f| - 2] == t[0] && f[|f| - 1] == t[1];
    if FrameChecks(f) {
      BytesDetermined(t[0], t[1], Value(c.hi), Value(c.lo));
    }
  }

  /** Passing means that the whole frame leaves the register at zero. */
  lemma ChecksIffZero(f: seq<byte>)
    requires |f| >= 2
    ensures FrameChecks(f) <==> Crc16(f) == ZERO
  {
    var s, hi, lo := f[..|f| - 2], f[|f| - 2], f[|f| - 1];
    var c := Crc16(s);
    assert f == s + [hi, lo];
    MessageBitsAppend(s, [hi, lo]);
    CrcBitsAppend(MessageBits(s), MessageBits([hi, lo]), PRESET);
    assert [hi, lo][1..] == [lo] && [lo][1..] == [];
    assert MessageBits([lo]) == ByteBits(lo) + [];
    assert MessageBits([hi, lo]) == ByteBits(hi) + ByteBits(lo);
    CrcBitsAppend(ByteBits(hi), ByteBits(lo), c);
    OctetMessage(c, OctetOf(hi));
    OctetMessage(ByteStep(c, OctetOf(hi)), OctetOf(lo));
    TwoBytesCancel(c, OctetOf(hi), OctetOf(lo));
    NumberIsTwoBytes(c, hi, lo);
  }

  lemma NumberIsTwoBytes(c: Word, hi: byte, lo: byte)
    ensures 256 * hi + lo == 256 * Value(c.hi) + Value(c.lo) <==> c == Word(OctetOf(hi), OctetOf(lo))
  {
    ValueOfOctet(hi);
    ValueOfOctet(lo);
    if 256 * hi + lo == 256 * Value(c.hi) + Value(c.lo) {
      BytesDetermined(hi, lo, Value(c.hi), Value(c.lo));
      OctetOfValue(c.hi);
      OctetOfValue(c.lo);
    }
  }

  lemma BytesDetermined(h: byte, l: byte, h': byte, l': byte)
    requires 256 * h + l == 256 * h' + l'
    ensures h == h' && l == l'
  {}

  /* ---- Error bursts ---- */

  lemma {:induction false} SameTailKeepsDifference(bits: seq<bool>, c: Word, d: Word)
    requires c != d
    ensures CrcBits(bits, c) != CrcBits(bits, d)
  {
    if bits != [] {
      var b := bits[0];
      if BitStep(c, b) == BitStep(d, b) {
        AdvanceInjective(Xor(c, TopBit(b)), Xor(d, TopBit(b)));
        assert false by { XorCancel(c, d, TopBit(b)); }
      }
      SameTailKeepsDifference(bits[1..], BitStep(c, b), BitStep(d, b));
    }
  }

  lemma XorCancel(c: Word, d: Word, p: Word)
    requires Xor(c, p) == Xor(d, p)
    ensures c == d
  {}

  lemma {:induction false} EqualEndsLowClear(x: seq<bool>, y: seq<bool>, c: Word, d: Word)
    requires |x| == |y| <= 16
    requires CrcBits(x, c) == CrcBits(y, d)
    ensures LowClear(Xor(c, d), 16 - |x|)
  {
    if x == [] {
      XorZero(c, d);
    } else {
      EqualEndsLowClear(x[1..], y[1..], BitStep(c, x[0]), BitStep(d, y[0]));
      LowClearBackwards(c, d, x[0], y[0], 16 - |x|);
    }
  }

  /** Sixteen bits or fewer, from the same register: different bits end in different registers. */
  lemma {:induction false} WindowInjective(x: seq<bool>, y: seq<bool>, c: Word)
    requires |x| == |y| <= 16
    requires CrcBits(x, c) == CrcBits(y, c)
    ensures x == y
  {
    if x != [] {
      if x[0] != y[0] {
        EqualEndsLowClear(x[1..], y[1..], BitStep(c, x[0]), BitStep(c, y[0]));
        FlipShows(c, x[0]);
        assert false;
      }
      WindowInjective(x[1..], y[1..], BitStep(c, x[0]));
      assert x == [x[0]] + x[1..] && y == [y[0]] + y[1..];
    }
  }

  lemma FlipShows(c: Word, b: bool)
    ensures !LowClear(Xor(BitStep(c, b), BitStep(c, !b)), 1)
  {
    BitStepLinear(c, c, b, !b);
  }

  lemma {:induction false} MessageBitsInjective(f: seq<byte>, g: seq<byte>)
    requires |f| == |g| && MessageBits(f) == MessageBits(g)
    ensures f == g
  {
    if f != [] {
      FirstByte(f);
      FirstByte(g);
      SameOctetBits(OctetOf(f[0]), OctetOf(g[0]));
      ValueOfOctet(f[0]);
      ValueOfOctet(g[0]);
      MessageBitsInjective(f[1..], g[1..]);
      assert f == [f[0]] + f[1..] && g == [g[0]] + g[1..];
    }
  }

  lemma FirstByte(f: seq<byte>)
    requires f != []
    ensures MessageBits(f)[..8] == OctetBits(OctetOf(f[0])) && MessageBits(f)[8..] == MessageBits(f[1..])
  {
    Halves(ByteBits(f[0]), MessageBits(f[1..]));
  }

  lemma Halves<T>(x: seq<T>, y: seq<T>)
    ensures (x + y)[..|x|] == x && (x + y)[|x|..] == y
  {}

  lemma SameOctetBits(o: Octet, p: Octet)
    requires OctetBits(o) == OctetBits(p)
    ensures o == p
  {
    var x, y := OctetBits(o), OctetBits(p);
    assert x[0] == y[0] && x[1] == y[1] && x[2] == y[2] && x[3] == y[3];
    assert x[4] == y[4] && x[5] == y[5] && x[6] == y[6] && x[7] == y[7];
  }

  /** The two frames, seen as bits, agree outside the sixteen bits that start at `k`. */
  predicate AgreeOutside(x: seq<bool>, y: seq<bool>, k: nat)
    requires |x| == |y| && k + 16 <= |x|
  {
    x[..k] == y[..k] && x[k + 16..] == y[k + 16..]
  }

  /** No corruption confined to sixteen consecutive bits of a frame, CRC bytes included, passes. */
  lemma BurstDetected(f: seq<byte>, g: seq<byte>, k: nat)
    requires |f| == |g| >= 2 && k + 16 <= 8 * |f|
    requires AgreeOutside(MessageBits(f), MessageBits(g), k)
    requires FrameChecks(f) && f != g
    ensures !FrameChecks(g)
  {
    var x, y := MessageBits(f), MessageBits(g);
    ChecksIffZero(f);
    ChecksIffZero(g);
    if FrameChecks(g) {
      BitsAgree(x, y, k);
      MessageBitsInjective(f, g);
    }
  }

  lemma BitsAgree(x: seq<bool>, y: seq<bool>, k: nat)
    requires |x| == |y| && k + 16 <= |x| && AgreeOutside(x, y, k)
    requires CrcBits(x, PRESET) == CrcBits(y, PRESET)
    ensures x == y
  {
    SplitCrc(x, k);
    SplitCrc(y, k);
    var c := CrcBits(x[..k], PRESET);
    var p, q := CrcBits(x[k..k + 16], c), CrcBits(y[k..k + 16], c);
    if p != q {
      SameTailKeepsDifference(x[k + 16..], p, q);
    }
    WindowInjective(x[k..k + 16], y[k..k + 16], c);
    assert x == x[..k] + x[k..k + 16] + x[k + 16..];
    assert y == y[..k] + y[k..k + 16] + y[k + 16..];
  }

  lemma SplitCrc(x: seq<bool>, k: nat)
    requires k + 16 <= |x|
    ensures CrcBits(x, PRESET)
         == CrcBits(x[k + 16..], CrcBits(x[k..k + 16], CrcBits(x[..k], PRESET)))
  {
    CutInThree(x, k, k + 16);
    CrcOfThree(x[..k], x[k..k + 16], x[k + 16..], PRESET);
  }

  lemma CutInThree(x: seq<bool>, k: nat, m: nat)
    requires k <= m <= |x|
    ensures x == x[..k] + (x[k..m] + x[m..])
  {}

  lemma CrcOfThree(p: seq<bool>, w: seq<bool>, t: seq<bool>, c: Word)
    ensures CrcBits(p + (w + t), c) == CrcBits(t, CrcBits(w, CrcBits(p, c)))
  {
    CrcBitsAppend(p, w + t, c);
    CrcBitsAppend(w, t, CrcBits(p, c));
  }

  /** In particular two adjacent corrupted bytes are always noticed, wherever they are. */
  lemma AdjacentBytesDetected(before: seq<byte>, sent: seq<byte>, got: seq<byte>, after: seq<byte>)
    requires |sent| == |got| == 2 && sent != got
    requires FrameChecks(before + (sent + after))
    ensures !FrameChecks(before + (got + after))
  {
    var k := 8 * |before|;
    BitsOfThree(before, sent, after);
    BitsOfThree(before, got, after);
    var f, g := before + (sent + after), before + (got + after);
    assert f[|before|..][..2] == sent && g[|before|..][..2] == got;
    BurstDetected(f, g, k);
  }

  lemma BitsOfThree(x: seq<byte>, y: seq<byte>, z: seq<byte>)
    requires |y| == 2
    ensures var m := MessageBits(x + (y + z));
      |m| >= 8 * |x| + 16 && m[..8 * |x|] == MessageBits(x) && m[8 * |x| + 16..] == MessageBits(z)
  {
    MessageBitsAppend(x, y + z);
    MessageBitsAppend(y, z);
    ThreeParts(MessageBits(x), MessageBits(y), MessageBits(z));
  }

  lemma ThreeParts(x: seq<bool>, y: seq<bool>, z: seq<bool>)
    ensures (x + (y + z))[..|x|] == x && (x + (y + z))[|x| + |y|..] == z
  {}

  /* ---- The remainder of a polynomial division ---- */

  function Remainder(bits: seq<bool>, r: Word): Word {
    if bits == [] then r else Remainder(bits[1..], DivStep(r, bits[0]))
  }

  function Zeros(n: nat): seq<bool> { seq(n, i => false) }

  function Ones(n: nat): seq<bool> { seq(n, i => true) }

  function XorBits(x: seq<bool>, y: seq<bool>): (z: seq<bool>)
    requires |x| == |y|
    ensures |z| == |x|
  {
    seq(|x|, i requires 0 <= i < |x| => x[i] != y[i])
  }

  function Advance16(c: Word): Word { Advance8(Advance8(c)) }

  lemma {:induction false} RemainderAppend(x: seq<bool>, y: seq<bool>, r: Word)
    ensures Remainder(x + y, r) == Remainder(y, Remainder(x, r))
  {
    if x == [] {
      assert x + y == y;
    } else {
      assert (x + y)[1..] == x[1..] + y;
      RemainderAppend(x[1..], y, DivStep(r, x[0]));
    }
  }

  lemma {:induction false} RemainderLinear(x: seq<bool>, y: seq<bool>, r: Word, t: Word)
    requires |x| == |y|
    ensures Remainder(XorBits(x, y), Xor(r, t)) == Xor(Remainder(x, r), Remainder(y, t))
  {
    if x != [] {
      DivStepLinear(r, t, x[0], y[0]);
      assert XorBits(x, y)[1..] == XorBits(x[1..], y[1..]);
      RemainderLinear(x[1..], y[1..], DivStep(r, x[0]), DivStep(t, y[0]));
    }
  }

  lemma {:induction false} CrcBitsLinear(x: seq<bool>, n: nat, c: Word, d: Word)
    requires |x| == n
    ensures CrcBits(x, Xor(c, d)) == Xor(CrcBits(x, c), CrcBits(Zeros(n), d))
  {
    if x != [] {
      BitStepLinear(c, d, x[0], false);
      assert Zeros(n)[1..] == Zeros(n - 1);
      CrcBitsLinear(x[1..], n - 1, BitStep(c, x[0]), BitStep(d, false));
    }
  }

  lemma ZeroBitIsShift(c: Word)
    ensures BitStep(c, false) == Advance(c) && DivStep(c, false) == Advance(c)
  {}

  /** Feeding a zero bit is the same for the register and for the running remainder. */
  lemma {:induction false} ZerosOnly(n: nat, c: Word)
    ensures Remainder(Zeros(n), c) == CrcBits(Zeros(n), c)
  {
    if n > 0 {
      ZeroBitIsShift(c);
      assert Zeros(n)[1..] == Zeros(n - 1);
      ZerosOnly(n - 1, Advance(c));
    }
  }

  lemma EightZeros(c: Word)
    ensures CrcBits(Zeros(8), c) == Advance8(c)
  {
    OctetMessage(c, O0);
    assert Zeros(8) == OctetBits(O0);
    XorZero(c, c);
  }

  lemma SixteenZeros(c: Word)
    ensures Remainder(Zeros(16), c) == Advance16(c)
  {
    ZerosOnly(16, c);
    assert Zeros(16) == Zeros(8) + Zeros(8);
    CrcBitsAppend(Zeros(8), Zeros(8), c);
    EightZeros(c);
    EightZeros(Advance8(c));
  }

  /** A bit brought down at the right reaches, sixteen shifts later, where the register adds it. */
  lemma LowBitTravels(b: bool)
    ensures Advance16(BottomBit(b)) == Advance(TopBit(b))
  {
    var o := O0.(b0 := b);
    LowByteShifts(o);
    CrcTable.EightIsEightShifts(o);
    assert CrcTable.Eight(o) == Advance(TopBit(b));
  }

  lemma Advance16Commutes(c: Word)
    ensures Advance16(Advance(c)) == Advance(Advance16(c))
  {}

  lemma StepsAgree(r: Word, b: bool)
    ensures BitStep(Advance16(r), b) == Advance16(DivStep(r, b))
  {
    AdvanceLinear(Advance16(r), TopBit(b));
    Advance8Linear(Advance(r), BottomBit(b));
    Advance8Linear(Advance8(Advance(r)), Advance8(BottomBit(b)));
    Advance16Commutes(r);
    LowBitTravels(b);
  }

  lemma {:induction false} RegisterIsShiftedRemainder(bits: seq<bool>, r: Word)
    ensures CrcBits(bits, Advance16(r)) == Advance16(Remainder(bits, r))
  {
    if bits != [] {
      StepsAgree(r, bits[0]);
      RegisterIsShiftedRemainder(bits[1..], DivStep(r, bits[0]));
    }
  }

  lemma ShiftZero()
    ensures Advance16(ZERO) == ZERO
  {
    LowByteShifts(O0);
  }

  /** With the top bit clear, bringing down a one only shifts. */
  lemma OneIn(n: nat, h: Octet, l: Octet)
    requires n > 0 && !h.b7
    ensures Remainder(Ones(n), Word(h, l))
         == Remainder(Ones(n - 1), Word(Octet(h.b6, h.b5, h.b4, h.b3, h.b2, h.b1, h.b0, l.b7),
                                        Octet(l.b6, l.b5, l.b4, l.b3, l.b2, l.b1, l.b0, true)))
  {
    assert Ones(n)[1..] == Ones(n - 1);
  }

  lemma TwoIn(n: nat, h: Octet, l: Octet)
    requires n > 1 && !h.b7 && !h.b6
    ensures Remainder(Ones(n), Word(h, l))
         == Remainder(Ones(n - 2), Word(Octet(h.b5, h.b4, h.b3, h.b2, h.b1, h.b0, l.b7, l.b6),
                                        Octet(l.b5, l.b4, l.b3, l.b2, l.b1, l.b0, true, true)))
  {
    OneIn(n, h, l);
    OneIn(n - 1, Octet(h.b6, h.b5, h.b4, h.b3, h.b2, h.b1, h.b0, l.b7),
          Octet(l.b6, l.b5, l.b4, l.b3, l.b2, l.b1, l.b0, true));
  }

  lemma FourIn(n: nat, h: Octet, l: Octet)
    requires n > 3 && !h.b7 && !h.b6 && !h.b5 && !h.b4
    ensures Remainder(Ones(n), Word(h, l))
         == Remainder(Ones(n - 4), Word(Octet(h.b3, h.b2, h.b1, h.b0, l.b7, l.b6, l.b5, l.b4),
                                        Octet(l.b3, l.b2, l.b1, l.b0, true, true, true, true)))
  {
    TwoIn(n, h, l);
    TwoIn(n - 2, Octet(h.b5, h.b4, h.b3, h.b2, h.b1, h.b0, l.b7, l.b6),
          Octet(l.b5, l.b4, l.b3, l.b2, l.b1, l.b0, true, true));
  }

  lemma SixteenOnes()
    ensures Remainder(Ones(16), ZERO) == PRESET
  {
    var F, T := false, true;
    FourIn(16, O0, O0);
    FourIn(12, O0, Octet(F, F, F, F, T, T, T, T));
    FourIn(8, O0, O1);
    FourIn(4, Octet(F, F, F, F, T, T, T, T), O1);
  }

  /** The dividend whose remainder the code computes: the message with sixteen zero bits behind it
      and, because the register is preset to ones, its first sixteen bits inverted. */
  function Dividend(s: seq<byte>): seq<bool> {
    XorBits(MessageBits(s) + Zeros(16), Ones(16) + Zeros(8 * |s|))
  }

  /** The checksum is the remainder of the dividend on division by x^16 + x^12 + x^5 + 1. */
  lemma CrcIsRemainder(s: seq<byte>)
    ensures Crc16(s) == Remainder(Dividend(s), ZERO)
  {
    var m, n := MessageBits(s), 8 * |s|;
    XorZero(ZERO, ZERO);
    RemainderLinear(m + Zeros(16), Ones(16) + Zeros(n), ZERO, ZERO);
    RemainderAppend(m, Zeros(16), ZERO);
    SixteenZeros(Remainder(m, ZERO));
    RegisterIsShiftedRemainder(m, ZERO);
    ShiftZero();
    PresetLoaded(n);
    CrcBitsLinear(m, n, ZERO, PRESET);
    assert Xor(ZERO, PRESET) == PRESET;
  }

  lemma PresetLoaded(n: nat)
    ensures Remainder(Ones(16) + Zeros(n), ZERO) == CrcBits(Zeros(n), PRESET)
  {
    RemainderAppend(Ones(16), Zeros(n), ZERO);
    SixteenOnes();
    ZerosOnly(n, PRESET);
  }
}
