/**
  Writes of any buffer, well formed or not.  The code reads record lengths off the buffer as it
  goes and never checks them against its end.  This module says for which buffers that goes well
  when every frame is answered as expected: exactly those that consist of whole records, up to a
  last record that may be cut short after full fragments.
 */
module DnldBuffers {
  import opened CrcRegister
  import opened Crc
  import opened DnldWrite
  import opened DnldHandler
  import opened DnldRuns

  predicate Buffer(img: seq<byte>) { 0 < |img| < 0x10000 }

  /** From `o` on the buffer holds whole records, up to a last one that may end with a full
      fragment instead of its own end. */
  predicate Sendable(img: seq<byte>, o: nat)
    requires o <= |img|
    decreases |img| - o
  {
    if o == |img| then true
    else if o + 1 == |img| then false
    else
      var n := LengthAt(img, o);
      if o + 2 + n <= |img| then Sendable(img, o + 2 + n)
      else n > 252 && |img| > o + 2 && (|img| - o - 2) % 252 == 0
  }

  /** Every image of whole records is sendable. */
  lemma {:induction false} ImageIsSendable(recs: seq<Record>, k: nat)
    requires k <= |recs|
    ensures Start(recs, k) <= |Encode(recs)| && Sendable(Encode(recs), Start(recs, k))
    decreases |recs| - k
  {
    EndOfRecords(recs);
    if k < |recs| {
      RecordAt(recs, k);
      LengthOfRecord(recs, k);
      ImageIsSendable(recs, k + 1);
    }
  }

  /** And so is a buffer that no list of records encodes: one record of `n` bytes, cut after full
      fragments.  The write reports success although the chip holds an unfinished record. */
  lemma CutRecordIsSendable(n: u16, data: seq<byte>)
    requires 0 < |data| < n && |data| % MAX_PLD == 0
    ensures var img := [n / 256, n % 256] + data;
      Sendable(img, 0) && forall recs: seq<Record> :: Encode(recs) != img
  {
    var head: seq<byte> := [n / 256, n % 256];
    var img := head + data;
    assert At(img, 0) == head[0] && At(img, 1) == head[1];
    assert LengthAt(img, 0) == n;
    forall recs: seq<Record> ensures Encode(recs) != img {
      if recs != [] {
        EndOfRecords(recs);
        RecordAt(recs, 0);
        LengthOfRecord(recs, 0);
      }
    }
  }

  /* ---- Places in a buffer ---- */

  /** In the record that starts at `start`, `p` bytes have been accepted, in full fragments. */
  predicate Place(img: seq<byte>, start: nat, p: nat) {
    && start < |img| && p % MAX_PLD == 0
    && (p > 0 ==> p < LengthAt(img, start) && start + 2 + p < |img|)
  }

  /** The next frame lies inside the buffer. */
  predicate Inside(img: seq<byte>, start: nat, p: nat) {
    p <= LengthAt(img, start) && start + 2 + p + Fragment(LengthAt(img, start) - p) <= |img|
  }

  lemma SendableInside(img: seq<byte>, start: nat, p: nat)
    requires Place(img, start, p) && Sendable(img, start)
    ensures Inside(img, start, p)
  {
    var n := LengthAt(img, start);
    if start + 2 + n > |img| { FullFragmentsFit(|img| - start - 2, p); }
  }

  lemma FullFragmentsFit(room: nat, p: nat)
    requires room % MAX_PLD == 0 && p % MAX_PLD == 0 && p < room
    ensures p + MAX_PLD <= room
  {}

  function NextStart(img: seq<byte>, start: nat, p: nat): nat {
    if LengthAt(img, start) - p > MAX_PLD then start else start + 2 + LengthAt(img, start)
  }

  function NextPlace(img: seq<byte>, start: nat, p: nat): nat {
    if LengthAt(img, start) - p > MAX_PLD then p + MAX_PLD else 0
  }

  lemma FullFragmentAdded(p: nat)
    requires p % MAX_PLD == 0
    ensures (p + MAX_PLD) % MAX_PLD == 0
  {}

  lemma FragmentMoves(img: seq<byte>, start: nat, p: nat, rest: nat)
    requires Place(img, start, p) && LengthAt(img, start) - p > MAX_PLD && start + 2 + p + MAX_PLD + rest == |img|
    ensures rest == 0 ==> Sendable(img, start)
    ensures rest != 0 ==> Place(img, start, p + MAX_PLD)
  {
    FullFragmentAdded(p);
    assert rest == 0 ==> |img| - start - 2 == p + MAX_PLD;
  }

  /** A frame inside the buffer leads to the end of a sendable buffer, or to a next place from
      which the buffer is sendable if it was before. */
  lemma PlaceMoves(img: seq<byte>, start: nat, p: nat, rest: nat)
    requires Place(img, start, p) && Inside(img, start, p)
    requires var n := LengthAt(img, start); start + 2 + p + Fragment(n - p) + rest == |img|
    ensures rest == 0 ==> Sendable(img, start)
    ensures rest != 0 ==>
      var start', p' := NextStart(img, start, p), NextPlace(img, start, p);
      Place(img, start', p') && (Sendable(img, start') <==> Sendable(img, start))
  {
    if LengthAt(img, start) - p > MAX_PLD { FragmentMoves(img, start, p, rest); }
  }

  /** The frame takes no more than what is left of the buffer. */
  predicate Fits(rw: RWInfo) { Consumed(rw) <= rw.remBytes }

  lemma PlanOutside(rw: RWInfo, start: nat, n: u16, p: nat, total: u16)
    requires start < total && (p > 0 ==> MAX_PLD <= p < n && start + 2 + p < total)
    requires start + 2 + p + Fragment(n - p) > total && BetweenAt(rw, start, n, p, total)
    ensures !Fits(PlanWith(rw, total, n))
  {}

  /** The counters of the frame that is built at a place; outside the buffer it does not fit. */
  lemma PlanAt(img: seq<byte>, rw: RWInfo, start: nat, p: nat)
    requires Buffer(img) && Place(img, start, p) && BetweenAt(rw, start, LengthAt(img, start), p, |img|)
    ensures var next := PlanWrite(img, rw);
      if Inside(img, start, p) then UnderWayAt(next, start, LengthAt(img, start), p, |img|) else !Fits(next)
  {
    var n := LengthAt(img, start);
    if rw.segmented { SegmentedIgnoresLength(rw, |img|, LengthAt(img, rw.offset), n); }
    assert PlanWrite(img, rw) == PlanWith(rw, |img|, n);
    if Inside(img, start, p) { PlanArithmetic(rw, start, n, p, |img|); } else { PlanOutside(rw, start, n, p, |img|); }
  }

  lemma PlannedFrameFits(img: seq<byte>, rw: RWInfo)
    requires Buffer(img)
    ensures |WriteFrame(img, PlanWrite(img, rw))| <= MAX_BUFF
  {
    PlannedXfer(rw, |img|, LengthAt(img, if rw.firstWrite then 0 else rw.offset));
  }

  lemma PlannedXfer(rw: RWInfo, total: u16, len: u16)
    ensures var next := PlanWith(rw, total, len);
      next.xfer <= MAX_PLD + 2 && (next.pldSize != 0 ==> next.xfer <= MAX_PLD)
  {}

  /* ---- Steps of a write ---- */

  /** A frame inside the buffer is under way. */
  ghost predicate Sending(img: seq<byte>, c: Ctx, start: nat, p: nat) {
    && InFlight(c) && c.kind == KWrite && c.user == img
    && Place(img, start, p) && Inside(img, start, p)
    && UnderWayAt(c.rw, start, LengthAt(img, start), p, |img|)
  }

  lemma SendingFits(img: seq<byte>, c: Ctx, start: nat, p: nat)
    requires Buffer(img) && Sending(img, c, start, p)
    ensures Fits(c.rw) && 0 < c.rw.remBytes && c.rw.offset + c.rw.xfer <= |img|
    ensures var n := LengthAt(img, start); start + 2 + p + Fragment(n - p) + (c.rw.remBytes - Consumed(c.rw)) == |img|
  {}

  /** What the expected answer leads to. */
  ghost predicate Moved(img: seq<byte>, c: Ctx, d: Ctx, start: nat, p: nat) {
    if c.rw.remBytes == Consumed(c.rw) then
      Idle(d) && d.calls == c.calls + [Success] && d.rw.remBytes == 0
    else
      && InFlight(d) && d.kind == KWrite && d.user == img && d.calls == c.calls && d.writing && d.armed == NoTimer
      && d.rw.remBytes == c.rw.remBytes - Consumed(c.rw) < c.rw.remBytes
      && if Inside(img, NextStart(img, start, p), NextPlace(img, start, p))
         then Sending(img, d, NextStart(img, start, p), NextPlace(img, start, p))
         else !Fits(d.rw)
  }

  lemma AckAt(img: seq<byte>, c: Ctx, start: nat, p: nat)
    requires Buffer(img) && Sending(img, c, start, p)
    ensures var a := AckWrite(c.rw, ExpectedStatus(c.rw)); var start' := NextStart(img, start, p);
      && a.status == Success && !a.rw.firstWrite && a.rw.remBytes == c.rw.remBytes - Consumed(c.rw) < c.rw.remBytes
      && BetweenAt(a.rw, start', LengthAt(img, start'), NextPlace(img, start, p), |img|)
  {
    AckArithmetic(c.rw, start, LengthAt(img, start), p, |img|);
  }

  /** After the answer, with bytes left, the next frame goes out, inside the buffer or not. */
  lemma NextGoesOut(img: seq<byte>, o: Ctx, start: nat, p: nat, env: Env)
    requires Buffer(img) && Answered(o, Success) && o.kind == KWrite && o.user == img && o.rw.remBytes != 0
      && env.writeOk
    requires Place(img, start, p) && BetweenAt(o.rw, start, LengthAt(img, start), p, |img|) && !o.rw.firstWrite
    ensures var d := AfterReply(o, Success, env);
      && InFlight(d) && d.kind == KWrite && d.user == img && d.calls == o.calls && d.writing && d.armed == NoTimer
      && d.rw.remBytes == o.rw.remBytes
      && if Inside(img, start, p) then Sending(img, d, start, p) else !Fits(d.rw)
  {
    var next := PlanWrite(img, o.rw);
    PlanAt(img, o.rw, start, p);
    PlannedFrameFits(img, o.rw);
    NextFrameSent(o, env, next, WriteFrame(img, next));
  }

  lemma ExpectedMoves(img: seq<byte>, c: Ctx, start: nat, p: nat, b: seq<byte>, env: Env)
    requires Buffer(img) && Sending(img, c, start, p) && c.reading && env.writeOk && |b| <= MAX_BUFF
    requires ReplyStatus(b) == Some(ExpectedStatus(c.rw))
    ensures Moved(img, c, Step(c, Move(ReplyIn(b), env)), start, p)
  {
    AckAt(img, c, start, p);
    ReplyLeads(c, b, env);
    var o := Judged(Taken(c, b), ReplyStatus(b)).c;
    if o.rw.remBytes != 0 {
      SendingFits(img, c, start, p);
      PlaceMoves(img, start, p, o.rw.remBytes);
      NextGoesOut(img, o, NextStart(img, start, p), NextPlace(img, start, p), env);
    }
  }

  ghost predicate SendingOn(img: seq<byte>, c: Ctx) {
    exists start, p :: Sending(img, c, start, p) && Sendable(img, start)
  }

  lemma MovesOn(img: seq<byte>, c: Ctx, d: Ctx, start: nat, p: nat)
    requires Buffer(img) && Sending(img, c, start, p) && Sendable(img, start) && c.reading && Moved(img, c, d, start, p)
    ensures if Idle(d) then d.calls == c.calls + [Success] && d.rw.remBytes == 0
            else d.calls == c.calls && SendingOn(img, d) && 1 + StepsLeft(d) <= StepsLeft(c)
  {
    SendingFits(img, c, start, p);
    PlaceMoves(img, start, p, c.rw.remBytes - Consumed(c.rw));
    if c.rw.remBytes != Consumed(c.rw) {
      SendableInside(img, NextStart(img, start, p), NextPlace(img, start, p));
    }
  }

  /** Whatever comes in, short of a false OK, the write of a sendable buffer ends, or stays inside
      the buffer and is closer to its end, except that a busy answer costs three more steps. */
  lemma BufferStep(img: seq<byte>, c: Ctx, m: Move)
    requires Buffer(img) && SendingOn(img, c) && Enabled(c, m.input) && m.env.writeOk && m.env.readOk
    requires !FalseOk(c, m.input)
    ensures var d := Step(c, m);
      Idle(d) || (SendingOn(img, d) && 1 + StepsLeft(d) <= StepsLeft(c) + if IsBusy(c, m.input) then 3 else 0)
    ensures IsExpected(c, m.input) && Idle(Step(c, m)) ==>
      Step(c, m).calls == c.calls + [Success] && Step(c, m).rw.remBytes == 0
    ensures IsExpected(c, m.input) && !Idle(Step(c, m)) ==> Step(c, m).calls == c.calls
  {
    var start, p :| Sending(img, c, start, p) && Sendable(img, start);
    var d := Step(c, m);
    if IsExpected(c, m.input) {
      ExpectedMoves(img, c, start, p, m.input.bytes, m.env);
      MovesOn(img, c, d, start, p);
    } else {
      UnexpectedStep(c, m);
      if !Idle(d) { assert Sending(img, d, start, p); }
    }
  }

  /* ---- Runs answered as expected ---- */

  predicate Expected(c: Ctx, i: Input) { i == WriteDone(true) || IsExpected(c, i) }

  predicate ExpectedRun(c: Ctx, ms: seq<Move>)
    decreases |ms|
  {
    ms == [] || (Expected(c, ms[0].input) && ExpectedRun(Step(c, ms[0]), ms[1..]))
  }

  /** Done with success, or under way inside the buffer with an expected input to come. */
  ghost predicate InsideOrDone(e: Ctx, img: seq<byte>, calls: seq<Status>) {
    || (Idle(e) && e.calls == calls + [Success] && e.rw.remBytes == 0)
    || (&& InFlight(e) && e.calls == calls && Fits(e.rw) && e.rw.offset + e.rw.xfer <= |img|
        && exists i :: Enabled(e, i) && Expected(e, i))
  }

  /** In every run answered as expected, no frame reaches beyond the buffer, and the run ends when
      the buffer is used up. */
  ghost predicate StaysInside(d: Ctx, img: seq<byte>, calls: seq<Status>) {
    forall ms :: Legal(d, ms) && ExpectedRun(d, ms) ==> |ms| <= 2 * |img| + 1 && InsideOrDone(Run(d, ms), img, calls)
  }

  lemma ExpectedExists(c: Ctx) returns (i: Input)
    requires InFlight(c) && c.kind == KWrite && c.armed != ResendTimer
    ensures Enabled(c, i) && Expected(c, i) && (c.writing ==> i == WriteDone(true)) && (c.reading ==> i.ReplyIn?)
  {
    if c.writing {
      i := WriteDone(true);
    } else {
      var st := ExpectedStatus(c.rw);
      ShortReplyIsValid(st);
      ValidReplyStatus(ShortReply(st), st);
      i := ReplyIn(ShortReply(st));
    }
  }

  const BEGUN := CLEARED.(firstWrite := true)

  lemma RequestPlans(c: Ctx, img: seq<byte>, env: Env)
    requires Idle(c) && Buffer(img) && env.writeOk
    ensures var d := WriteRequest(c, img, env);
      && InFlight(d) && d.kind == KWrite && d.user == img && d.writing && d.armed == NoTimer && d.calls == c.calls
      && d.rw == PlanWrite(img, BEGUN)
  {
    RequestSends(c, img, env);
    BuildKeepsControl(Requested(c, img, env));
    WriteAccepted(c, img, env);
  }

  lemma FirstPlace(img: seq<byte>, d: Ctx)
    requires Buffer(img) && InFlight(d) && d.kind == KWrite && d.user == img && d.rw == PlanWrite(img, BEGUN)
    ensures d.rw.remBytes == |img|
    ensures if Inside(img, 0, 0) then Sending(img, d, 0, 0) else !Fits(d.rw)
  {
    PlanAt(img, BEGUN, 0, 0);
  }

  lemma {:induction false} ExpectedRunInside(img: seq<byte>, c: Ctx, ms: seq<Move>)
    requires Buffer(img) && SendingOn(img, c) && c.armed != ResendTimer && Legal(c, ms) && ExpectedRun(c, ms)
    ensures |ms| + StepsLeft(Run(c, ms)) <= StepsLeft(c) && InsideOrDone(Run(c, ms), img, c.calls)
    decreases |ms|
  {
    var start, p :| Sending(img, c, start, p) && Sendable(img, start);
    SendingFits(img, c, start, p);
    if ms == [] {
      var i := ExpectedExists(c);
    } else {
      var d := Step(c, ms[0]);
      BufferStep(img, c, ms[0]);
      ExpectedStep(img, c, ms[0]);
      if Idle(d) {
        NeverStuck(d);
        assert ms[1..] == [];
      } else {
        ExpectedRunInside(img, d, ms[1..]);
      }
    }
  }

  /** An expected input neither arms the resend timer nor calls back before the end. */
  lemma ExpectedStep(img: seq<byte>, c: Ctx, m: Move)
    requires Buffer(img) && SendingOn(img, c) && Enabled(c, m.input) && Expected(c, m.input)
    requires m.env.writeOk && m.env.readOk
    ensures !FalseOk(c, m.input) && !IsBusy(c, m.input)
    ensures var d := Step(c, m);
      (Idle(d) && d.calls == c.calls + [Success] && d.rw.remBytes == 0)
        || (d.calls == c.calls && d.armed != ResendTimer)
  {
    if m.input == WriteDone(true) {
      WriteDoneKeeps(c, m.env);
    } else {
      var start, p :| Sending(img, c, start, p) && Sendable(img, start);
      ExpectedMoves(img, c, start, p, m.input.bytes, m.env);
    }
  }

  /* ---- Buffers that are not sendable ---- */

  /** From a frame inside a buffer that is not sendable there, the expected answers lead to a frame
      that reaches beyond the buffer. */
  lemma {:induction false} LeavesFrom(img: seq<byte>, c: Ctx, start: nat, p: nat) returns (ms: seq<Move>)
    requires Buffer(img) && Sending(img, c, start, p) && !Sendable(img, start) && c.armed != ResendTimer
    ensures Legal(c, ms) && ExpectedRun(c, ms) && InFlight(Run(c, ms)) && !Fits(Run(c, ms).rw)
    decreases StepsLeft(c)
  {
    var i := ExpectedExists(c);
    var m := Move(i, Env(0, true, true, true));
    var d := Step(c, m);
    var rest := [];
    if c.writing {
      WriteDoneKeeps(c, m.env);
      rest := LeavesFrom(img, d, start, p);
    } else {
      ExpectedMoves(img, c, start, p, i.bytes, m.env);
      SendingFits(img, c, start, p);
      PlaceMoves(img, start, p, c.rw.remBytes - Consumed(c.rw));
      var start', p' := NextStart(img, start, p), NextPlace(img, start, p);
      if Inside(img, start', p') { rest := LeavesFrom(img, d, start', p'); }
    }
    ms := [m] + rest;
    assert ms[1..] == rest;
  }

  /** Exactly which buffers are sent without a frame that reaches beyond them: the sendable ones. */
  lemma StaysInsideIff(c: Ctx, img: seq<byte>, env: Env)
    requires Idle(c) && Buffer(img) && env.writeOk
    ensures StaysInside(WriteRequest(c, img, env), img, c.calls) <==> Sendable(img, 0)
  {
    var d := WriteRequest(c, img, env);
    RequestPlans(c, img, env);
    FirstPlace(img, d);
    if Sendable(img, 0) {
      SendableInside(img, 0, 0);
      assert Sending(img, d, 0, 0);
      forall ms | Legal(d, ms) && ExpectedRun(d, ms)
        ensures |ms| <= 2 * |img| + 1 && InsideOrDone(Run(d, ms), img, c.calls)
      {
        ExpectedRunInside(img, d, ms);
      }
    } else {
      var ms := [];
      if Inside(img, 0, 0) { ms := LeavesFrom(img, d, 0, 0); }
      assert Legal(d, ms) && ExpectedRun(d, ms) && !InsideOrDone(Run(d, ms), img, c.calls);
    }
  }
}
