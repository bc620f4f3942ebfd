/**
  The 256-entry table behind the download CRC, and the proof that each entry is its own index
  shifted through the register eight times.
 */
module CrcTable {
  import opened CrcRegister

  // The code's table, sixteen entries to a row.
  const ROW0: seq<bv16> := [
    0x0000, 0x1021, 0x2042, 0x3063, 0x4084, 0x50a5, 0x60c6, 0x70e7,
    0x8108, 0x9129, 0xa14a, 0xb16b, 0xc18c, 0xd1ad, 0xe1ce, 0xf1ef]
  const ROW1: seq<bv16> := [
    0x1231, 0x0210, 0x3273, 0x2252, 0x52b5, 0x4294, 0x72f7, 0x62d6,
    0x9339, 0x8318, 0xb37b, 0xa35a, 0xd3bd, 0xc39c, 0xf3ff, 0xe3de]
  const ROW2: seq<bv16> := [
    0x2462, 0x3443, 0x0420, 0x1401, 0x64e6, 0x74c7, 0x44a4, 0x5485,
    0xa56a, 0xb54b, 0x8528, 0x9509, 0xe5ee, 0xf5cf, 0xc5ac, 0xd58d]
  const ROW3: seq<bv16> := [
    0x3653, 0x2672, 0x1611, 0x0630, 0x76d7, 0x66f6, 0x5695, 0x46b4,
    0xb75b, 0xa77a, 0x9719, 0x8738, 0xf7df, 0xe7fe, 0xd79d, 0xc7bc]
  const ROW4: seq<bv16> := [
    0x48c4, 0x58e5, 0x6886, 0x78a7, 0x0840, 0x1861, 0x2802, 0x3823,
    0xc9cc, 0xd9ed, 0xe98e, 0xf9af, 0x8948, 0x9969, 0xa90a, 0xb92b]
  const ROW5: seq<bv16> := [
    0x5af5, 0x4ad4, 0x7ab7, 0x6a96, 0x1a71, 0x0a50, 0x3a33, 0x2a12,
    0xdbfd, 0xcbdc, 0xfbbf, 0xeb9e, 0x9b79, 0x8b58, 0xbb3b, 0xab1a]
  const ROW6: seq<bv16> := [
    0x6ca6, 0x7c87, 0x4ce4, 0x5cc5, 0x2c22, 0x3c03, 0x0c60, 0x1c41,
    0xedae, 0xfd8f, 0xcdec, 0xddcd, 0xad2a, 0xbd0b, 0x8d68, 0x9d49]
  const ROW7: seq<bv16> := [
    0x7e97, 0x6eb6, 0x5ed5, 0x4ef4, 0x3e13, 0x2e32, 0x1e51, 0x0e70,
    0xff9f, 0xefbe, 0xdfdd, 0xcffc, 0xbf1b, 0xaf3a, 0x9f59, 0x8f78]
  const ROW8: seq<bv16> := [
    0x9188, 0x81a9, 0xb1ca, 0xa1eb, 0xd10c, 0xc12d, 0xf14e, 0xe16f,
    0x1080, 0x00a1, 0x30c2, 0x20e3, 0x5004, 0x4025, 0x7046, 0x6067]
  const ROW9: seq<bv16> := [
    0x83b9, 0x9398, 0xa3fb, 0xb3da, 0xc33d, 0xd31c, 0xe37f, 0xf35e,
    0x02b1, 0x1290, 0x22f3, 0x32d2, 0x4235, 0x5214, 0x6277, 0x7256]
  const ROW10: seq<bv16> := [
    0xb5ea, 0xa5cb, 0x95a8, 0x8589, 0xf56e, 0xe54f, 0xd52c, 0xc50d,
    0x34e2, 0x24c3, 0x14a0, 0x0481, 0x7466, 0x6447, 0x5424, 0x4405]
  const ROW11: seq<bv16> := [
    0xa7db, 0xb7fa, 0x8799, 0x97b8, 0xe75f, 0xf77e, 0xc71d, 0xd73c,
    0x26d3, 0x36f2, 0x0691, 0x16b0, 0x6657, 0x7676, 0x4615, 0x5634]
  const ROW12: seq<bv16> := [
    0xd94c, 0xc96d, 0xf90e, 0xe92f, 0x99c8, 0x89e9, 0xb98a, 0xa9ab,
    0x5844, 0x4865, 0x7806, 0x6827, 0x18c0, 0x08e1, 0x3882, 0x28a3]
  const ROW13: seq<bv16> := [
    0xcb7d, 0xdb5c, 0xeb3f, 0xfb1e, 0x8bf9, 0x9bd8, 0xabbb, 0xbb9a,
    0x4a75, 0x5a54, 0x6a37, 0x7a16, 0x0af1, 0x1ad0, 0x2ab3, 0x3a92]
  const ROW14: seq<bv16> := [
    0xfd2e, 0xed0f, 0xdd6c, 0xcd4d, 0xbdaa, 0xad8b, 0x9de8, 0x8dc9,
    0x7c26, 0x6c07, 0x5c64, 0x4c45, 0x3ca2, 0x2c83, 0x1ce0, 0x0cc1]
  const ROW15: seq<bv16> := [
    0xef1f, 0xff3e, 0xcf5d, 0xdf7c, 0xaf9b, 0xbfba, 0x8fd9, 0x9ff8,
    0x6e17, 0x7e36, 0x4e55, 0x5e74, 0x2e93, 0x3eb2, 0x0ed1, 0x1ef0]

  function WordOf(v: bv16): Word {
    Word(Octet(v & 0x8000 != 0, v & 0x4000 != 0, v & 0x2000 != 0, v & 0x1000 != 0,
               v & 0x0800 != 0, v & 0x0400 != 0, v & 0x0200 != 0, v & 0x0100 != 0),
         Octet(v & 0x0080 != 0, v & 0x0040 != 0, v & 0x0020 != 0, v & 0x0010 != 0,
               v & 0x0008 != 0, v & 0x0004 != 0, v & 0x0002 != 0, v & 0x0001 != 0))
  }

  function Pick<T>(row: seq<T>, b3: bool, b2: bool, b1: bool, b0: bool): T
    requires |row| == 16
  {
    row[(if b3 then 8 else 0) + (if b2 then 4 else 0) + (if b1 then 2 else 0) + (if b0 then 1 else 0)]
  }

  /** The entry at index `o`: the upper four bits select the row, the lower four the place in it. */
  function TableAt(o: Octet): Word {
    var row :=
      if !o.b7 then
        if !o.b6 then
          if !o.b5 then (if !o.b4 then ROW0 else ROW1) else (if !o.b4 then ROW2 else ROW3)
        else
          if !o.b5 then (if !o.b4 then ROW4 else ROW5) else (if !o.b4 then ROW6 else ROW7)
      else
        if !o.b6 then
          if !o.b5 then (if !o.b4 then ROW8 else ROW9) else (if !o.b4 then ROW10 else ROW11)
        else
          if !o.b5 then (if !o.b4 then ROW12 else ROW13) else (if !o.b4 then ROW14 else ROW15);
    WordOf(Pick(row, o.b3, o.b2, o.b1, o.b0))
  }

  /** Eight shifts of a register that holds `o` in its upper byte, in closed form. */
  function Eight(o: Octet): Word {
    var t0, t1, t2, t3 := o.b0 != o.b4, o.b1 != o.b5, o.b2 != o.b6, o.b3 != o.b7;
    var t4, t5, t6, t7 := o.b4, o.b5, o.b6, o.b7;
    Word(Octet(t3, t2, t1, t7 != t0, t6, t5, t4, t3), Octet(t7 != t2, t6 != t1, t5 != t0, t4, t3, t2, t1, t0))
  }

  lemma FirstTwoShifts(o: Octet)
    ensures Advance(Advance(Word(o, O0)))
         == Word(Octet(o.b5, o.b4, o.b7 != o.b3, o.b6 != o.b2, o.b1, o.b0, false, false),
                 Octet(false, o.b7, o.b6, false, false, false, o.b7, o.b6))
  {}

  lemma FourShifts(o: Octet, w: Word)
    requires w == Word(Octet(o.b5, o.b4, o.b7 != o.b3, o.b6 != o.b2, o.b1, o.b0, false, false),
                 Octet(false, o.b7, o.b6, false, false, false, o.b7, o.b6))
    ensures Advance(Advance(w))
         == Word(Octet(o.b7 != o.b3, o.b6 != o.b2, o.b5 != o.b1, o.b4 != o.b0, false, false, false, o.b7),
                 Octet(o.b6, o.b5, o.b4, false, o.b7, o.b6, o.b5, o.b4))
  {}

  lemma SixShifts(o: Octet, w: Word)
    requires w == Word(Octet(o.b7 != o.b3, o.b6 != o.b2, o.b5 != o.b1, o.b4 != o.b0, false, false, false, o.b7),
                 Octet(o.b6, o.b5, o.b4, false, o.b7, o.b6, o.b5, o.b4))
    ensures Advance(Advance(w))
         == Word(Octet(o.b5 != o.b1, o.b4 != o.b0, o.b7 != o.b3, o.b6 != o.b2, false, o.b7, o.b6, o.b5),
                 Octet(o.b4, o.b7 != o.b3, (o.b7 != o.b6) != o.b2, o.b6, o.b5, o.b4, o.b7 != o.b3, o.b6 != o.b2))
  {}

  lemma LastTwoShifts(o: Octet, w: Word)
    requires w == Word(Octet(o.b5 != o.b1, o.b4 != o.b0, o.b7 != o.b3, o.b6 != o.b2, false, o.b7, o.b6, o.b5),
                 Octet(o.b4, o.b7 != o.b3, (o.b7 != o.b6) != o.b2, o.b6, o.b5, o.b4, o.b7 != o.b3, o.b6 != o.b2))
    ensures Advance(Advance(w)) == Eight(o)
  {
    assert Advance(w)
        == Word(Octet(o.b4 != o.b0, o.b7 != o.b3, o.b6 != o.b2, o.b5 != o.b1, o.b7, o.b6, o.b5, o.b4),
                 Octet(o.b7 != o.b3, (o.b7 != o.b6) != o.b2, (o.b6 != o.b5) != o.b1, o.b5, o.b4, o.b7 != o.b3,
                   o.b6 != o.b2, o.b5 != o.b1));
  }

  lemma EightIsEightShifts(o: Octet)
    ensures Advance8(Word(o, O0)) == Eight(o)
  {
    var w2 := Advance(Advance(Word(o, O0)));
    var w4 := Advance(Advance(w2));
    var w6 := Advance(Advance(w4));
    FirstTwoShifts(o);
    FourShifts(o, w2);
    SixShifts(o, w4);
    LastTwoShifts(o, w6);
  }

  // The table row by row against the closed form.
  lemma Row0(b3: bool, b2: bool, b1: bool, b0: bool)
    ensures WordOf(Pick(ROW0, b3, b2, b1, b0)) == Eight(Octet(false, false, false, false, b3, b2, b1, b0))
  { if b3 { if b2 {} else {} } else if b2 {} }

  lemma Row1(b3: bool, b2: bool, b1: bool, b0: bool)
    ensures WordOf(Pick(ROW1, b3, b2, b1, b0)) == Eight(Octet(false, false, false, true, b3, b2, b1, b0))
  { if b3 { if b2 {} else {} } else if b2 {} }

  lemma Row2(b3: bool, b2: bool, b1: bool, b0: bool)
    ensures WordOf(Pick(ROW2, b3, b2, b1, b0)) == Eight(Octet(false, false, true, false, b3, b2, b1, b0))
  { if b3 { if b2 {} else {} } else if b2 {} }

  lemma Row3(b3: bool, b2: bool, b1: bool, b0: bool)
    ensures WordOf(Pick(ROW3, b3, b2, b1, b0)) == Eight(Octet(false, false, true, true, b3, b2, b1, b0))
  { if b3 { if b2 {} else {} } else if b2 {} }

  lemma Row4(b3: bool, b2: bool, b1: bool, b0: bool)
    ensures WordOf(Pick(ROW4, b3, b2, b1, b0)) == Eight(Octet(false, true, false, false, b3, b2, b1, b0))
  { if b3 { if b2 {} else {} } else if b2 {} }

  lemma Row5(b3: bool, b2: bool, b1: bool, b0: bool)
    ensures WordOf(Pick(ROW5, b3, b2, b1, b0)) == Eight(Octet(false, true, false, true, b3, b2, b1, b0))
  { if b3 { if b2 {} else {} } else if b2 {} }

  lemma Row6(b3: bool, b2: bool, b1: bool, b0: bool)
    ensures WordOf(Pick(ROW6, b3, b2, b1, b0)) == Eight(Octet(false, true, true, false, b3, b2, b1, b0))
  { if b3 { if b2 {} else {} } else if b2 {} }

  lemma Row7(b3: bool, b2: bool, b1: bool, b0: bool)
    ensures WordOf(Pick(ROW7, b3, b2, b1, b0)) == Eight(Octet(false, true, true, true, b3, b2, b1, b0))
  { if b3 { if b2 {} else {} } else if b2 {} }

  lemma Row8(b3: bool, b2: bool, b1: bool, b0: bool)
    ensures WordOf(Pick(ROW8, b3, b2, b1, b0)) == Eight(Octet(true, false, false, false, b3, b2, b1, b0))
  { if b3 { if b2 {} else {} } else if b2 {} }

  lemma Row9(b3: bool, b2: bool, b1: bool, b0: bool)
    ensures WordOf(Pick(ROW9, b3, b2, b1, b0)) == Eight(Octet(true, false, false, true, b3, b2, b1, b0))
  { if b3 { if b2 {} else {} } else if b2 {} }

  lemma Row10(b3: bool, b2: bool, b1: bool, b0: bool)
    ensures WordOf(Pick(ROW10, b3, b2, b1, b0)) == Eight(Octet(true, false, true, false, b3, b2, b1, b0))
  { if b3 { if b2 {} else {} } else if b2 {} }

  lemma Row11(b3: bool, b2: bool, b1: bool, b0: bool)
    ensures WordOf(Pick(ROW11, b3, b2, b1, b0)) == Eight(Octet(true, false, true, true, b3, b2, b1, b0))
  { if b3 { if b2 {} else {} } else if b2 {} }

  lemma Row12(b3: bool, b2: bool, b1: bool, b0: bool)
    ensures WordOf(Pick(ROW12, b3, b2, b1, b0)) == Eight(Octet(true, true, false, false, b3, b2, b1, b0))
  { if b3 { if b2 {} else {} } else if b2 {} }

  lemma Row13(b3: bool, b2: bool, b1: bool, b0: bool)
    ensures WordOf(Pick(ROW13, b3, b2, b1, b0)) == Eight(Octet(true, true, false, true, b3, b2, b1, b0))
  { if b3 { if b2 {} else {} } else if b2 {} }

  lemma Row14(b3: bool, b2: bool, b1: bool, b0: bool)
    ensures WordOf(Pick(ROW14, b3, b2, b1, b0)) == Eight(Octet(true, true, true, false, b3, b2, b1, b0))
  { if b3 { if b2 {} else {} } else if b2 {} }

  lemma Row15(b3: bool, b2: bool, b1: bool, b0: bool)
    ensures WordOf(Pick(ROW15, b3, b2, b1, b0)) == Eight(Octet(true, true, true, true, b3, b2, b1, b0))
  { if b3 { if b2 {} else {} } else if b2 {} }

  lemma FirstQuarter(o: Octet)
    requires (o.b7, o.b6) == (false, false)
    ensures TableAt(o) == Eight(o)
  {
    match (o.b5, o.b4)
    case (false, false) => Row0(o.b3, o.b2, o.b1, o.b0);
    case (false, true) => Row1(o.b3, o.b2, o.b1, o.b0);
    case (true, false) => Row2(o.b3, o.b2, o.b1, o.b0);
    case (true, true) => Row3(o.b3, o.b2, o.b1, o.b0);
  }

  lemma SecondQuarter(o: Octet)
    requires (o.b7, o.b6) == (false, true)
    ensures TableAt(o) == Eight(o)
  {
    match (o.b5, o.b4)
    case (false, false) => Row4(o.b3, o.b2, o.b1, o.b0);
    case (false, true) => Row5(o.b3, o.b2, o.b1, o.b0);
    case (true, false) => Row6(o.b3, o.b2, o.b1, o.b0);
    case (true, true) => Row7(o.b3, o.b2, o.b1, o.b0);
  }

  lemma ThirdQuarter(o: Octet)
    requires (o.b7, o.b6) == (true, false)
    ensures TableAt(o) == Eight(o)
  {
    match (o.b5, o.b4)
    case (false, false) => Row8(o.b3, o.b2, o.b1, o.b0);
    case (false, true) => Row9(o.b3, o.b2, o.b1, o.b0);
    case (true, false) => Row10(o.b3, o.b2, o.b1, o.b0);
    case (true, true) => Row11(o.b3, o.b2, o.b1, o.b0);
  }

  lemma FourthQuarter(o: Octet)
    requires (o.b7, o.b6) == (true, true)
    ensures TableAt(o) == Eight(o)
  {
    match (o.b5, o.b4)
    case (false, false) => Row12(o.b3, o.b2, o.b1, o.b0);
    case (false, true) => Row13(o.b3, o.b2, o.b1, o.b0);
    case (true, false) => Row14(o.b3, o.b2, o.b1, o.b0);
    case (true, true) => Row15(o.b3, o.b2, o.b1, o.b0);
  }

  /** Every entry of the table is its index shifted eight times through the register. */
  lemma TableHoldsEightShifts(o: Octet)
    ensures TableAt(o) == Advance8(Word(o, O0))
  {
    EightIsEightShifts(o);
    if !o.b7 {
      if !o.b6 { FirstQuarter(o); } else { SecondQuarter(o); }
    } else {
      if !o.b6 { ThirdQuarter(o); } else { FourthQuarter(o); }
    }
  }
}
