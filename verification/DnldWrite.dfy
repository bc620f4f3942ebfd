/**
  Fragmenting a firmware image into download frames.  An image is a run of records, each a
  two-byte big-endian length followed by that many bytes.  A record of at most 252 bytes travels
  in one frame; a longer one is cut into fragments, and all of them but the last carry bit 10 in
  their header.  Every frame ends in the CRC of what precedes it.
 */
module DnldWrite {
  import opened CrcRegister
  import opened Crc

  const MAX_BUFF := 256
  const MAX_PLD := 252
  const FRAG_BIT := 1024

  type u16 = x: int | 0 <= x < 0x10000

  function Add16(a: int, b: int): u16 { (a + b) % 0x10000 }

  function Sub16(a: int, b: int): u16 { (a - b) % 0x10000 }

  /** The counters and flags of a segmented transfer, kept in 16-bit variables by the code. */
  datatype RWInfo = RWInfo(
    addr: nat,
    offset: u16,          // where in the user buffer the transfer stands
    remBytes: u16,        // what is left of the whole transfer
    remChunk: u16,        // what is left of a record that is sent in fragments
    pldSize: u16,         // length of that record; zero for a record that fits one frame
    xfer: u16,            // bytes in the frame under way
    bytesRead: u16,
    segmented: bool,      // more fragments follow the frame under way
    firstWrite: bool,     // no frame of this request has been accepted yet
    firstChunkAcked: bool)

  const CLEARED := RWInfo(0, 0, 0, 0, 0, 0, 0, false, false, false)

  /* ---- Building a write frame ---- */

  /** A byte of the image.  The code does not check this index; conforming runs stay inside. */
  function At(img: seq<byte>, i: nat): byte { if i < |img| then img[i] else 0 }

  function Slice(img: seq<byte>, off: nat, n: nat): (s: seq<byte>)
    ensures |s| == n
  {
    seq<byte>(n, i requires 0 <= i < n => At(img, off + i))
  }

  function LengthAt(img: seq<byte>, off: nat): u16 { 256 * At(img, off) + At(img, off + 1) }

  /** The counters as the next frame is built; `len` is the record length read at the offset. */
  function PlanWith(rw: RWInfo, total: u16, len: u16): RWInfo {
    var r := if rw.firstWrite then rw.(remBytes := total, offset := 0) else rw;
    var frameLen: u16 := if r.segmented then 0 else len;
    var size := if r.segmented then r.pldSize else frameLen;
    if size > MAX_PLD then
      var c := if r.firstChunkAcked then r.(pldSize := size)
               else r.(pldSize := size, remChunk := frameLen, offset := Add16(r.offset, 2));
      if MAX_PLD < c.remChunk then c.(xfer := MAX_PLD, segmented := true)
      else c.(xfer := c.remChunk, segmented := false)
    else
      r.(pldSize := 0, xfer := Add16(frameLen, 2))
  }

  function PlanWrite(img: seq<byte>, rw: RWInfo): RWInfo
    requires |img| < 0x10000
  {
    PlanWith(rw, |img|, LengthAt(img, if rw.firstWrite then 0 else rw.offset))
  }

  function Header(n: nat, more: bool): (h: seq<byte>)
    requires n <= MAX_PLD
    ensures |h| == 2
  {
    var v := n + if more then FRAG_BIT else 0;
    [v / 256, v % 256]
  }

  /** What precedes the CRC in the frame that the planned counters describe. */
  function WriteBody(img: seq<byte>, rw: RWInfo): seq<byte> {
    if rw.pldSize != 0 && rw.xfer <= MAX_PLD
    then Header(rw.xfer, rw.segmented) + Slice(img, rw.offset, rw.xfer)
    else Slice(img, rw.offset, rw.xfer)
  }

  function Sealed(body: seq<byte>): seq<byte> { body + CrcBytes(body) }

  function WriteFrame(img: seq<byte>, rw: RWInfo): seq<byte> { Sealed(WriteBody(img, rw)) }

  /* ---- Taking in a reply ---- */

  const ST_OK: byte := 0x00
  const ST_FIRST_FRAG: byte := 0x2d
  const ST_NEXT_FRAG: byte := 0x2e
  const ST_PLL_ERROR: byte := 0x0d
  const ST_MEM_BUSY: byte := 0x20
  const ST_SIGNATURE_ERROR: byte := 0x21
  const ST_FW_VERSION_ERROR: byte := 0x24

  datatype Status =
    | Success | Pending | Busy | Timeout | FwVersionError | WriteFailed | Rejected | Failed | NoResources | Refused

  datatype Ack = Ack(rw: RWInfo, status: Status)

  function AckWrite(rw: RWInfo, st: byte): Ack {
    if st == ST_OK then
      var r := rw.(firstWrite := false);
      if r.firstChunkAcked && r.segmented then Ack(r, Failed)
      else
        var c := if r.firstChunkAcked then r.(remChunk := Sub16(r.remChunk, r.xfer), firstChunkAcked := false) else r;
        Ack(c.(remBytes := Sub16(c.remBytes, c.xfer), offset := Add16(c.offset, c.xfer)), Success)
    else if !rw.firstChunkAcked && rw.segmented && st == ST_FIRST_FRAG then
      Ack(rw.(firstChunkAcked := true,
              remChunk := Sub16(rw.remChunk, rw.xfer),
              remBytes := Sub16(rw.remBytes, rw.xfer + 2),
              offset := Add16(rw.offset, rw.xfer),
              firstWrite := false), Success)
    else if rw.firstChunkAcked && rw.segmented && st == ST_NEXT_FRAG then
      Ack(rw.(remChunk := Sub16(rw.remChunk, rw.xfer),
              remBytes := Sub16(rw.remBytes, rw.xfer),
              offset := Add16(rw.offset, rw.xfer)), Success)
    else if st == ST_FW_VERSION_ERROR then
      Ack(rw.(firstWrite := false, remBytes := 0, offset := 0), FwVersionError)
    else if st == ST_PLL_ERROR then Ack(rw, WriteFailed)
    else if st == ST_SIGNATURE_ERROR then Ack(rw, Rejected)
    else if st == ST_MEM_BUSY then Ack(rw, Busy)
    else Ack(rw, Failed)
  }

  /* ---- The chip's side: a receiver that joins fragments ---- */

  datatype Rx = Rx(records: seq<seq<byte>>, part: seq<byte>)

  datatype Option<T> = None | Some(value: T)

  const EMPTY := Rx([], [])

  function HeaderOf(f: seq<byte>): nat
    requires |f| >= 2
  {
    var hi: int, lo: int := f[0], f[1];
    256 * hi + lo
  }

  predicate WellFormedFrame(f: seq<byte>) {
    |f| >= 4 && FrameChecks(f) && HeaderOf(f) % 1024 == |f| - 4
  }

  /** The content of a frame: its payload, and whether bit 10 says that more follows. */
  datatype Part = Part(more: bool, payload: seq<byte>)

  function Open(f: seq<byte>): Option<Part> {
    if WellFormedFrame(f) then Some(Part((HeaderOf(f) / 1024) % 2 == 1, f[2..|f| - 2])) else None
  }

  /** A part without the continuation bit completes a record. */
  function Join(rx: Rx, part: Part): Rx {
    var all := rx.part + part.payload;
    if part.more then rx.(part := all) else Rx(rx.records + [all], [])
  }

  function Receive(rx: Rx, f: seq<byte>): Option<Rx> {
    var part := Open(f);
    if part.None? then None else Some(Join(rx, part.value))
  }

  function ReceiveAll(frames: seq<seq<byte>>): Option<Rx> {
    if frames == [] then Some(EMPTY)
    else
      var before := ReceiveAll(frames[..|frames| - 1]);
      if before.None? then None else Receive(before.value, frames[|frames| - 1])
  }

  /** The answer of a conforming chip that has received `rx` and now receives `f`. */
  function ChipStatus(rx: Rx, f: seq<byte>): byte {
    var part := Open(f);
    if part.None? || !part.value.more then 0x00 else if rx.part == [] then 0x2d else 0x2e
  }

  /** The same answer as the host can predict it from its own flags. */
  function ExpectedStatus(rw: RWInfo): byte {
    if !rw.segmented then 0x00 else if !rw.firstChunkAcked then 0x2d else 0x2e
  }

  /* ---- Images ---- */

  type Record = r: seq<byte> | |r| < 0x10000

  function EncodeRecord(r: Record): seq<byte> { [|r| / 256, |r| % 256] + r }

  function Encode(recs: seq<Record>): seq<byte> {
    if recs == [] then [] else EncodeRecord(recs[0]) + Encode(recs[1..])
  }

  /** Where record `k` starts. */
  function Start(recs: seq<Record>, k: nat): nat
    requires k <= |recs|
  {
    |Encode(recs[..k])|
  }

  lemma {:induction false} EncodeAppend(a: seq<Record>, b: seq<Record>)
    ensures Encode(a + b) == Encode(a) + Encode(b)
  {
    if a == [] {
      assert a + b == b;
    } else {
      assert (a + b)[1..] == a[1..] + b;
      EncodeAppend(a[1..], b);
      assert EncodeRecord(a[0]) + (Encode(a[1..]) + Encode(b)) == Encode(a) + Encode(b);
    }
  }

  lemma RecordAt(recs: seq<Record>, k: nat)
    requires k < |recs|
    ensures var o := Start(recs, k);
      && Start(recs, k + 1) == o + 2 + |recs[k]| <= |Encode(recs)|
      && Encode(recs)[o..o + 2 + |recs[k]|] == EncodeRecord(recs[k])
  {
    EncodeSplit(recs, k);
    Placed(Encode(recs), Encode(recs[..k]), EncodeRecord(recs[k]), Encode(recs[k + 1..]));
  }

  lemma EncodeSplit(recs: seq<Record>, k: nat)
    requires k < |recs|
    ensures Encode(recs) == Encode(recs[..k]) + (EncodeRecord(recs[k]) + Encode(recs[k + 1..]))
    ensures Encode(recs[..k + 1]) == Encode(recs[..k]) + EncodeRecord(recs[k])
  {
    SplitAt(recs, k);
    EncodeParts(recs[..k], recs[k], recs[k + 1..]);
  }

  lemma SplitAt<T>(s: seq<T>, k: nat)
    requires k < |s|
    ensures s == s[..k] + ([s[k]] + s[k + 1..]) && s[..k + 1] == s[..k] + [s[k]]
  {}

  lemma EncodeParts(a: seq<Record>, r: Record, b: seq<Record>)
    ensures Encode(a + ([r] + b)) == Encode(a) + (EncodeRecord(r) + Encode(b))
    ensures Encode(a + [r]) == Encode(a) + EncodeRecord(r)
  {
    EncodeOne(r);
    EncodeAppend(a, [r] + b);
    EncodeAppend([r], b);
    EncodeAppend(a, [r]);
  }

  lemma EncodeOne(r: Record)
    ensures Encode([r]) == EncodeRecord(r)
  {
    assert [r][1..] == [];
    assert Encode([r]) == EncodeRecord(r) + [];
  }

  lemma Placed(img: seq<byte>, x: seq<byte>, y: seq<byte>, z: seq<byte>)
    requires img == x + (y + z)
    ensures |x| + |y| <= |img| && img[|x|..|x| + |y|] == y
  {}

  lemma EndOfRecords(recs: seq<Record>)
    ensures Start(recs, |recs|) == |Encode(recs)| && Start(recs, 0) == 0
  {
    assert recs[..|recs|] == recs && recs[..0] == [];
  }

  /** The bytes of record `k` from its byte `p` on, as the code reads them off the image. */
  lemma SliceOfRecord(recs: seq<Record>, k: nat, p: nat, n: nat)
    requires k < |recs| && p + n <= |recs[k]|
    ensures Slice(Encode(recs), Start(recs, k) + 2 + p, n) == recs[k][p..p + n]
  {
    RecordAt(recs, k);
    SliceInside(Encode(recs), Start(recs, k), EncodeRecord(recs[k]), 2 + p, n);
    assert EncodeRecord(recs[k])[2 + p..2 + p + n] == recs[k][p..p + n];
  }

  lemma SliceInside(img: seq<byte>, o: nat, part: seq<byte>, q: nat, n: nat)
    requires o + |part| <= |img| && img[o..o + |part|] == part && q + n <= |part|
    ensures Slice(img, o + q, n) == part[q..q + n]
  {
    var got, want := Slice(img, o + q, n), part[q..q + n];
    forall i | 0 <= i < n
      ensures got[i] == want[i]
    {
      assert got[i] == img[o + q + i] == img[o..o + |part|][q + i];
    }
  }

  lemma LengthOfRecord(recs: seq<Record>, k: nat)
    requires k < |recs|
    ensures LengthAt(Encode(recs), Start(recs, k)) == |recs[k]|
    ensures Slice(Encode(recs), Start(recs, k), |recs[k]| + 2) == EncodeRecord(recs[k])
  {
    RecordAt(recs, k);
    var img, o, part := Encode(recs), Start(recs, k), EncodeRecord(recs[k]);
    SliceInside(img, o, part, 0, |part|);
    assert part[0..|part|] == part;
    assert part[0] == Slice(img, o, |part|)[0] == At(img, o);
    assert part[1] == Slice(img, o, |part|)[1] == At(img, o + 1);
  }

  /* ---- The invariant of a conforming write ---- */

  ghost predicate Image(recs: seq<Record>) { 0 < |Encode(recs)| < 0x10000 }

  /** Between frames, at `p` bytes into a record of `n` bytes that starts at `start`: everything
      before that has been accepted, nothing after it sent. */
  ghost predicate BetweenAt(rw: RWInfo, start: nat, n: nat, p: nat, total: nat) {
    && rw.segmented == rw.firstChunkAcked == (p > 0)
    && (p > 0 ==> rw.pldSize == n && rw.remChunk == n - p)
    && (rw.firstWrite ==> start == 0 && p == 0)
    && (!rw.firstWrite ==>
        && rw.offset == start + (if p > 0 then 2 + p else 0)
        && rw.offset + rw.remBytes == total)
  }

  function Fragment(rest: nat): nat { if rest > 252 then 252 else rest }

  /** A frame is under way: the counters describe the record or fragment at the position, and
      offset and rest add up to the image, two over only while a first fragment is unanswered. */
  ghost predicate UnderWayAt(rw: RWInfo, start: nat, n: nat, p: nat, total: nat) {
    && rw.firstChunkAcked == (p > 0)
    && (rw.firstWrite ==> start == 0 && p == 0)
    && if n > 252 then
         && p < n
         && rw.pldSize == n
         && rw.remChunk == n - p
         && rw.xfer == Fragment(n - p)
         && rw.segmented == (n - p > 252)
         && rw.offset == start + 2 + p
         && rw.offset + rw.remBytes == total + (if p == 0 then 2 else 0)
       else
         && p == 0 && !rw.segmented && rw.pldSize == 0
         && rw.xfer == n + 2
         && rw.offset == start
         && rw.offset + rw.remBytes == total
  }

  lemma PlanArithmetic(rw: RWInfo, start: nat, n: u16, p: nat, total: u16)
    requires p <= n && start + 2 + p + Fragment(n - p) <= total
    requires p > 0 ==> p < n && n > 252
    requires BetweenAt(rw, start, n, p, total)
    ensures UnderWayAt(PlanWith(rw, total, n), start, n, p, total)
  {}

  /** What the accepted frame takes off the count of remaining bytes. */
  function Consumed(rw: RWInfo): nat {
    rw.xfer + (if rw.segmented && !rw.firstChunkAcked then 2 else 0)
  }

  lemma AckArithmetic(rw: RWInfo, start: nat, n: u16, p: nat, total: u16)
    requires p <= n && start + 2 + p + Fragment(n - p) <= total
    requires UnderWayAt(rw, start, n, p, total)
    ensures var a := AckWrite(rw, ExpectedStatus(rw));
      && a.status == Success && !a.rw.firstWrite
      && a.rw.remBytes == rw.remBytes - Consumed(rw) < rw.remBytes
      && a.rw.offset == rw.offset + rw.xfer
      && if n - p > 252 then BetweenAt(a.rw, start, n, p + 252, total)
         else BetweenAt(a.rw, start + 2 + n, 0, 0, total)
  {}

  /** A position in the image: `k` records done and `p` bytes of the next one, which is then a
      record that is sent in fragments. */
  ghost predicate Position(recs: seq<Record>, k: nat, p: nat) {
    && k <= |recs|
    && (p > 0 ==> k < |recs| && p < |recs[k]| && |recs[k]| > 252)
  }

  ghost predicate Between(recs: seq<Record>, rw: RWInfo, k: nat, p: nat) {
    && Position(recs, k, p)
    && BetweenAt(rw, Start(recs, k), if k < |recs| then |recs[k]| else 0, p, |Encode(recs)|)
  }

  ghost predicate UnderWay(recs: seq<Record>, rw: RWInfo, k: nat, p: nat) {
    && Position(recs, k, p) && k < |recs|
    && UnderWayAt(rw, Start(recs, k), |recs[k]|, p, |Encode(recs)|)
  }

  /** Where the position moves when the frame under way is accepted. */
  function NextK(recs: seq<Record>, k: nat, p: nat): nat
    requires k < |recs|
  {
    if |recs[k]| - p > 252 then k else k + 1
  }

  function NextP(recs: seq<Record>, k: nat, p: nat): nat
    requires k < |recs|
  {
    if |recs[k]| - p > 252 then p + 252 else 0
  }

  /** Building a frame leads from `Between` to `UnderWay` and never wraps a counter. */
  lemma PlanKeepsPosition(recs: seq<Record>, rw: RWInfo, k: nat, p: nat)
    requires Image(recs) && Between(recs, rw, k, p)
    requires rw.firstWrite || rw.remBytes != 0
    requires rw.firstWrite ==> k == 0
    ensures UnderWay(recs, PlanWrite(Encode(recs), rw), k, p)
  {
    EndOfRecords(recs);
    assert k < |recs|;
    RecordAt(recs, k);
    LengthOfRecord(recs, k);
    if rw.segmented {
      SegmentedIgnoresLength(rw, |Encode(recs)|, LengthAt(Encode(recs), rw.offset), |recs[k]|);
    }
    PlanArithmetic(rw, Start(recs, k), |recs[k]|, p, |Encode(recs)|);
  }

  lemma SegmentedIgnoresLength(rw: RWInfo, total: u16, len: u16, len': u16)
    requires rw.segmented && rw.firstChunkAcked
    ensures PlanWith(rw, total, len) == PlanWith(rw, total, len')
  {}

  /** Accepting the expected answer leads back to `Between` at the next position; no counter
      wraps and the rest shrinks by exactly what was sent. */
  lemma AckKeepsPosition(recs: seq<Record>, rw: RWInfo, k: nat, p: nat)
    requires Image(recs) && UnderWay(recs, rw, k, p)
    ensures var a := AckWrite(rw, ExpectedStatus(rw));
      && a.status == Success && !a.rw.firstWrite
      && Between(recs, a.rw, NextK(recs, k, p), NextP(recs, k, p))
      && a.rw.remBytes == rw.remBytes - Consumed(rw) < rw.remBytes
      && a.rw.offset == rw.offset + rw.xfer
  {
    RecordAt(recs, k);
    AckArithmetic(rw, Start(recs, k), |recs[k]|, p, |Encode(recs)|);
  }

  /* ---- What the chip receives ---- */

  /** Everything before a position, as a receiver holds it. */
  ghost function Got(recs: seq<Record>, k: nat, p: nat): Rx
    requires Position(recs, k, p)
  {
    Rx(recs[..k], if p > 0 then recs[k][..p] else [])
  }

  /** A sealed frame reads back as what was put in: payload, length and continuation bit. */
  lemma SealedReadsBack(more: bool, payload: seq<byte>)
    requires |payload| <= 252
    ensures var f := Sealed(Header(|payload|, more) + payload);
      |f| == |payload| + 4 <= 256 && Open(f) == Some(Part(more, payload))
  {
    var n := |payload|;
    var body := Header(n, more) + payload;
    var f := Sealed(body);
    ChecksIffCrcBytes(body, CrcBytes(body));
    assert f[0] == Header(n, more)[0] && f[1] == Header(n, more)[1];
    HeaderReadsBack(n, more);
    assert HeaderOf(f) == HeaderOf(Header(n, more));
    assert f[2..|f| - 2] == body[2..] == payload;
  }

  lemma HeaderReadsBack(n: nat, more: bool)
    requires n <= 252
    ensures HeaderOf(Header(n, more)) % 1024 == n
    ensures (HeaderOf(Header(n, more)) / 1024) % 2 == (if more then 1 else 0)
  {
    assert HeaderOf(Header(n, more)) == n + if more then 1024 else 0;
  }

  lemma BodyAtPosition(recs: seq<Record>, rw: RWInfo, k: nat, p: nat)
    requires Image(recs) && UnderWay(recs, rw, k, p)
    ensures var r := recs[k]; var m := Fragment(|r| - p);
      WriteBody(Encode(recs), rw) == Header(m, |r| - p > 252) + r[p..p + m]
  {
    var r := recs[k];
    if |r| > 252 {
      SliceOfRecord(recs, k, p, rw.xfer);
    } else {
      LengthOfRecord(recs, k);
      assert r[0..|r|] == r;
      assert EncodeRecord(r) == Header(|r|, false) + r;
    }
  }

  /** Receiving the frame under way moves the receiver to the next position, and its answer is
      the one the host expects. */
  lemma FrameDelivers(recs: seq<Record>, rw: RWInfo, k: nat, p: nat)
    requires Image(recs) && UnderWay(recs, rw, k, p)
    ensures var f := WriteFrame(Encode(recs), rw);
      && 4 <= |f| <= 256
      && Position(recs, NextK(recs, k, p), NextP(recs, k, p))
      && Receive(Got(recs, k, p), f) == Some(Got(recs, NextK(recs, k, p), NextP(recs, k, p)))
      && ChipStatus(Got(recs, k, p), f) == ExpectedStatus(rw)
  {
    BodyAtPosition(recs, rw, k, p);
    var part := PartAt(recs[k], p);
    SealedReadsBack(part.more, part.payload);
    PartDelivers(recs, k, p, WriteFrame(Encode(recs), rw));
  }

  lemma PartDelivers(recs: seq<Record>, k: nat, p: nat, f: seq<byte>)
    requires Position(recs, k, p) && k < |recs| && p <= |recs[k]|
    requires Open(f) == Some(PartAt(recs[k], p))
    ensures Position(recs, NextK(recs, k, p), NextP(recs, k, p))
    ensures Receive(Got(recs, k, p), f) == Some(Got(recs, NextK(recs, k, p), NextP(recs, k, p)))
    ensures ChipStatus(Got(recs, k, p), f)
         == if |recs[k]| - p <= 252 then 0x00 else if p == 0 then 0x2d else 0x2e
  {
    var r := recs[k];
    JoinParts(r, p, Fragment(|r| - p));
    assert recs[..k + 1] == recs[..k] + [r];
  }

  function PartAt(r: Record, p: nat): Part
    requires p <= |r|
  {
    Part(|r| - p > 252, r[p..p + Fragment(|r| - p)])
  }

  lemma JoinParts(r: seq<byte>, p: nat, m: nat)
    requires p + m <= |r|
    ensures (if p > 0 then r[..p] else []) + r[p..p + m] == r[..p + m]
    ensures p + m == |r| ==> r[..p + m] == r
  {}
}
