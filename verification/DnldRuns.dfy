/**
  Whole runs of a firmware write: what the chip has received, and what the host's counters say,
  after every step.
 */
module DnldRuns {
  import opened CrcRegister
  import opened Crc
  import opened DnldWrite
  import opened DnldHandler

  /* ---- Replies of the chip ---- */

  predicate ValidReply(b: seq<byte>, st: byte) {
    5 <= |b| <= MAX_BUFF && FrameChecks(b) && HeaderOf(b) == |b| - 4 && b[2] == st
  }

  function ShortReply(st: byte): seq<byte> { Sealed([0, 1, st]) }

  lemma ShortReplyIsValid(st: byte)
    ensures ValidReply(ShortReply(st), st)
  {
    var body: seq<byte> := [0, 1, st];
    ChecksIffCrcBytes(body, CrcBytes(body));
  }

  /** A reply whose CRC is right and whose first two bytes count the bytes between themselves and the
      CRC, in 16 bits. */
  predicate Genuine(b: seq<byte>) {
    3 <= |b| && FrameChecks(b) && 256 * (b[0] as int) + b[1] as int == (|b| - 4) % 65536
  }

  /** The status byte of a genuine reply. */
  function ReplyStatus(b: seq<byte>): Option<byte> { if Genuine(b) then Some(b[2]) else None }

  lemma ValidReplyStatus(b: seq<byte>, st: byte)
    requires ValidReply(b, st)
    ensures ReplyStatus(b) == Some(st)
  {}

  /** A reply to a write is judged by its status byte alone. */
  function Judged(c: Ctx, status: Option<byte>): Outcome {
    match status
    case None => Outcome(c, Failed)
    case Some(st) =>
      var a := AckWrite(c.rw, st);
      Outcome(c.(rw := a.rw, lastStatus := LastStatus(c.lastStatus, st, a.status)), a.status)
  }

  /** The checks let through exactly the genuine replies. */
  lemma Checked(t: Ctx, b: seq<byte>)
    requires |b| <= |t.buff| == 256 && t.buff[..|b|] == b && t.kind != KRaw
    ensures ProcessFrame(t, Done(true, |b|)) == if Genuine(b) then UpdateRsp(t, Sub16(|b|, 5)) else Outcome(t, Failed)
  {
    GenuineIsWellFormed(b);
  }

  lemma GenuineIsWellFormed(b: seq<byte>)
    requires |b| <= 256
    ensures Genuine(b) <==> WellFormedReply(b)
  {}

  lemma InTheBuffer(buff: seq<byte>, b: seq<byte>)
    requires |buff| == 256 && |b| <= 256
    ensures var r := Overlay(buff, 0, b); r[..|b|] == b && (|b| >= 3 ==> At(r, 2) == b[2])
  {}

  lemma ReplyJudged(c: Ctx, b: seq<byte>)
    requires |c.buff| == MAX_BUFF && c.kind == KWrite && c.cmd == CMD_WRITE && |b| <= MAX_BUFF
    ensures var r := c.(buff := Overlay(c.buff, 0, b));
      ProcessFrame(r, Done(true, |b|)) == Judged(r, ReplyStatus(b))
  {
    var r := c.(buff := Overlay(c.buff, 0, b));
    InTheBuffer(c.buff, b);
    Checked(r, b);
  }

  /* ---- The counters, whatever the chip's memory does ---- */

  /** A write of the image is in flight and its counters stand at a position of the image. */
  ghost predicate Writing(recs: seq<Record>, c: Ctx, k: nat, p: nat) {
    InFlight(c) && c.kind == KWrite && c.user == Encode(recs) && UnderWay(recs, c.rw, k, p)
  }

  ghost predicate WritingSomewhere(recs: seq<Record>, c: Ctx) { exists k, p :: Writing(recs, c, k, p) }

  /** The rest is used up exactly at the end of the image. */
  lemma RestIsZeroAtEnd(recs: seq<Record>, rw: RWInfo, k: nat, p: nat)
    requires Image(recs) && Between(recs, rw, k, p) && !rw.firstWrite
    ensures rw.remBytes == 0 <==> k == |recs|
  {
    EndOfRecords(recs);
    if k < |recs| { RecordAt(recs, k); }
  }

  /** The accepted frame was the last one. */
  ghost predicate LastFrame(recs: seq<Record>, k: nat, p: nat)
    requires k < |recs|
  {
    NextK(recs, k, p) == |recs|
  }

  lemma AfterGoodReply(recs: seq<Record>, c: Ctx, env: Env, k: nat, p: nat)
    requires Image(recs) && Answered(c, Success) && c.kind == KWrite && c.user == Encode(recs) && env.writeOk
    requires Between(recs, c.rw, k, p) && !c.rw.firstWrite
    ensures var d := AfterReply(c, Success, env);
      if k == |recs| then
        Idle(d) && d.calls == c.calls + [Success] && d.sent == c.sent && d.rw.remBytes == 0
      else
        && Writing(recs, d, k, p) && d.calls == c.calls
        && d.rw.remBytes == c.rw.remBytes && d.state == Recv
        && d.sent == c.sent + [WriteFrame(Encode(recs), d.rw)]
        && d.buff == Fill(WriteFrame(Encode(recs), d.rw)) && d.sendLen == |WriteFrame(Encode(recs), d.rw)|
  {
    RestIsZeroAtEnd(recs, c.rw, k, p);
    if k < |recs| {
      PlanKeepsPosition(recs, c.rw, k, p);
      var rw := PlanWrite(c.user, c.rw);
      FrameDelivers(recs, rw, k, p);
      NextFrameSent(c, env, rw, WriteFrame(c.user, rw));
    }
  }

  /** After a good answer, with bytes left to write, the next frame goes out. */
  lemma NextFrameSent(c: Ctx, env: Env, rw: RWInfo, f: seq<byte>)
    requires Answered(c, Success) && c.kind == KWrite && c.rw.remBytes != 0 && env.writeOk
    requires rw == PlanWrite(c.user, c.rw) && f == WriteFrame(c.user, rw) && |f| <= MAX_BUFF
    ensures var d := AfterReply(c, Success, env);
      && d == c.(reading := false, rw := rw, buff := Fill(f), sendLen := |f|, state := Recv, writing := true,
         sent := c.sent + [f])
      && InFlight(d)
  {
    var g := c.(reading := false);
    BuildWrite(g);
    assert AfterReply(c, Success, env) == GoOn(g, env);
    AfterReplyProgresses(c, Success, env);
  }

  /** Building a write frame puts exactly that frame into the buffer. */
  lemma BuildWrite(c: Ctx)
    requires c.kind == KWrite && 0 < |c.user| < 0x10000
    ensures var rw := PlanWrite(c.user, c.rw); var f := WriteFrame(c.user, rw);
      && Build(c) == c.(rw := rw, buff := Fill(f), sendLen := |f|)
      && (|f| <= MAX_BUFF ==> Prefix(Fill(f), |f|) == f)
  {
    var rw := PlanWrite(c.user, c.rw);
    var f := WriteFrame(c.user, rw);
    if |f| <= MAX_BUFF { assert Fill(f)[..|f|] == f; }
  }

  lemma ReplyStep(c: Ctx, b: seq<byte>, env: Env)
    requires InFlight(c) && c.kind == KWrite && c.reading
    ensures Step(c, Move(ReplyIn(b), env)) == RespondRW(Taken(c, b), Done(true, |b|), env)
    ensures Arrived(Taken(c, b)) && !Taken(c, b).expired
  {}

  /** What a reply to a write leads to. */
  lemma ReplyLeads(c: Ctx, b: seq<byte>, env: Env)
    requires InFlight(c) && c.kind == KWrite && c.reading && |b| <= MAX_BUFF
    ensures var t := Taken(c, b); var o := Judged(t, ReplyStatus(b));
      && Step(c, Move(ReplyIn(b), env)) == (if o.st == Busy then AfterBusy(o.c, env) else AfterReply(o.c, o.st, env))
      && Arrived(t) && !t.expired
      && t == c.(reading := false, buff := Overlay(c.buff, 0, b), timerOn := false, armed := NoTimer, state := Response)
  {
    ReplyStep(c, b, env);
    var u := c.(reading := false);
    assert Taken(c, b) == StopTimer(u).(buff := Overlay(StopTimer(u).buff, 0, b));
    ReplyJudged(StopTimer(u), b);
  }

  /** The expected answer moves the write to the next position, or completes it. */
  lemma ExpectedReply(recs: seq<Record>, c: Ctx, k: nat, p: nat, b: seq<byte>, env: Env)
    requires Image(recs) && Writing(recs, c, k, p) && c.reading && env.writeOk && |b| <= MAX_BUFF
    requires ReplyStatus(b) == Some(ExpectedStatus(c.rw))
    ensures var d := Step(c, Move(ReplyIn(b), env));
      if LastFrame(recs, k, p) then
        Idle(d) && d.calls == c.calls + [Success] && d.sent == c.sent && d.rw.remBytes == 0
      else
        && Writing(recs, d, NextK(recs, k, p), NextP(recs, k, p)) && d.calls == c.calls
        && d.rw.remBytes == c.rw.remBytes - Consumed(c.rw) < c.rw.remBytes && d.state == Recv
        && d.sent == c.sent + [WriteFrame(Encode(recs), d.rw)]
        && d.buff == Fill(WriteFrame(Encode(recs), d.rw)) && d.sendLen == |WriteFrame(Encode(recs), d.rw)|
  {
    ReplyLeads(c, b, env);
    AckKeepsPosition(recs, c.rw, k, p);
    var o := Judged(Taken(c, b), ReplyStatus(b));
    AfterGoodReply(recs, o.c, env, NextK(recs, k, p), NextP(recs, k, p));
  }

  /** The write goes on as it was. */
  predicate WriteKept(c: Ctx, d: Ctx) {
    InFlight(d) && d.kind == KWrite && d.user == c.user && d.rw == c.rw && d.calls == c.calls
  }

  lemma AfterBusyReply(c: Ctx, env: Env)
    requires Arrived(c) && !c.expired && c.kind == KWrite
    ensures var d := AfterBusy(c, env);
      && d.sent == c.sent && d.lastStatus == c.lastStatus
      && if env.startOk && c.timerId != 0 then
           WriteKept(c, d) && d.armed == ResendTimer && d.buff == c.buff && d.sendLen == c.sendLen
         else Idle(d) && d.calls == c.calls + [NoResources]
  {}

  /** A busy answer leaves the counters where they are. */
  lemma BusyReply(c: Ctx, b: seq<byte>, env: Env)
    requires InFlight(c) && c.kind == KWrite && c.reading && |b| <= MAX_BUFF && ReplyStatus(b) == Some(0x20)
    ensures var d := Step(c, Move(ReplyIn(b), env));
      && d.sent == c.sent && d.lastStatus == 0x20
      && if env.startOk && c.timerId != 0 then
           WriteKept(c, d) && d.armed == ResendTimer && d.buff == Overlay(c.buff, 0, b) && d.sendLen == c.sendLen
         else Idle(d) && d.calls == c.calls + [NoResources]
  {
    var t := Taken(c, b).(lastStatus := ST_MEM_BUSY);
    assert Judged(Taken(c, b), ReplyStatus(b)) == Outcome(t, Busy) by {
      assert AckWrite(c.rw, ST_MEM_BUSY) == Ack(c.rw, Busy);
    }
    ReplyLeads(c, b, env);
    AfterBusyReply(t, env);
  }

  /** An OK that answers a first fragment, which the chip should have answered with 0x2d. */
  predicate FalseOk(c: Ctx, i: Input) {
    && c.kind == KWrite && c.rw.segmented && !c.rw.firstChunkAcked
    && i.ReplyIn? && ReplyStatus(i.bytes) == Some(0x00)
  }

  predicate IsBusy(c: Ctx, i: Input) { c.kind == KWrite && i.ReplyIn? && ReplyStatus(i.bytes) == Some(0x20) }

  /** What the caller is told about a reply that ends a write before its time. */
  function Verdict(status: Option<byte>): Status {
    match status
    case None => Failed
    case Some(st) =>
      if st == 0x0d then WriteFailed else if st == 0x21 then Rejected else if st == 0x24 then FwVersionError else Failed
  }

  lemma OtherStatusFails(rw: RWInfo, st: byte, last: byte)
    requires st != ExpectedStatus(rw) && st != 0x20 && !(st == 0x00 && rw.segmented && !rw.firstChunkAcked)
    ensures var a := AckWrite(rw, st);
      a.status == Verdict(Some(st)) && LastStatus(last, st, a.status) == if st == 0x0d || st == 0x21 then st else last
  {}

  /** Every other reply ends the request: a PLL error (0x0d) as a failed write, a signature error
      (0x21) as rejected, a version error (0x24) as such, and anything else, malformed replies
      included, as failed.  The two errors that recovery asks about are remembered. */
  lemma BadReply(c: Ctx, b: seq<byte>, env: Env)
    requires InFlight(c) && c.kind == KWrite && c.reading && |b| <= MAX_BUFF
    requires ReplyStatus(b) != Some(ExpectedStatus(c.rw)) && !IsBusy(c, ReplyIn(b)) && !FalseOk(c, ReplyIn(b))
    ensures var d := Step(c, Move(ReplyIn(b), env));
      && Idle(d) && d.calls == c.calls + [Verdict(ReplyStatus(b))] && d.sent == c.sent
      && d.lastStatus == if ReplyStatus(b) == Some(0x0d) || ReplyStatus(b) == Some(0x21) then b[2] else c.lastStatus
  {
    ReplyLeads(c, b, env);
    if ReplyStatus(b).Some? { OtherStatusFails(c.rw, b[2], c.lastStatus); }
  }

  /** Every other input ends the request or leaves the counters where they are. */
  lemma OtherInput(c: Ctx, m: Move)
    requires InFlight(c) && c.kind == KWrite && Enabled(c, m.input) && !m.input.ReplyIn? && m.env.writeOk
      && m.env.readOk
    ensures var d := Step(c, m); (Idle(d) && d.calls == c.calls + [Timeout]) || WriteKept(c, d)
    ensures m.input == WriteDone(true) ==>
      var d := Step(c, m); d.reading && d.sent == c.sent && d.buff == c.buff && d.sendLen == c.sendLen && InFlight(d)
    ensures m.input.ResendFires? ==> Step(c, m).sent == c.sent + [Prefix(c.buff, c.sendLen)]
  {
    StepProgresses(c, m);
  }

  lemma OtherInputAdvances(c: Ctx, m: Move)
    requires InFlight(c) && c.kind == KWrite && Enabled(c, m.input) && !m.input.ReplyIn? && m.env.writeOk
      && m.env.readOk
    ensures var d := Step(c, m); d.event == NoEvent || Phase(d) < Phase(c)
  {}

  /** The reply is the answer that the host's flags predict. */
  predicate IsExpected(c: Ctx, i: Input) { i.ReplyIn? && ReplyStatus(i.bytes) == Some(ExpectedStatus(c.rw)) }

  /** Whatever else comes in, short of a false OK: the request ends, or goes on as it was and is
      closer to its end, except that a busy answer costs three more steps. */
  lemma UnexpectedStep(c: Ctx, m: Move)
    requires InFlight(c) && c.kind == KWrite && Enabled(c, m.input) && m.env.writeOk && m.env.readOk
    requires !FalseOk(c, m.input) && !IsExpected(c, m.input)
    ensures var d := Step(c, m);
      Idle(d) || (WriteKept(c, d) && 1 + StepsLeft(d) <= StepsLeft(c) + if IsBusy(c, m.input) then 3 else 0)
  {
    match m.input
    case ReplyIn(b) => if IsBusy(c, m.input) { BusyReply(c, b, m.env); } else { BadReply(c, b, m.env); }
    case _ =>
      OtherInput(c, m);
      OtherInputAdvances(c, m);
  }

  /** Whatever comes in, short of a false OK: the request ends, or the counters describe a position
      of the image again and the rest has not grown. */
  lemma WriteStep(recs: seq<Record>, c: Ctx, k: nat, p: nat, m: Move)
    requires Image(recs) && Writing(recs, c, k, p) && Enabled(c, m.input) && m.env.writeOk && m.env.readOk
    requires !FalseOk(c, m.input)
    ensures var d := Step(c, m); Idle(d) || (WritingSomewhere(recs, d) && d.rw.remBytes <= c.rw.remBytes)
  {
    var d := Step(c, m);
    if IsExpected(c, m.input) {
      ExpectedReply(recs, c, k, p, m.input.bytes, m.env);
      if !LastFrame(recs, k, p) { assert Writing(recs, d, NextK(recs, k, p), NextP(recs, k, p)); }
    } else {
      UnexpectedStep(c, m);
      if !Idle(d) { assert Writing(recs, d, k, p); }
    }
  }

  predicate NoFalseOk(c: Ctx, ms: seq<Move>)
    decreases |ms|
  {
    ms == [] || (!FalseOk(c, ms[0].input) && NoFalseOk(Step(c, ms[0]), ms[1..]))
  }

  /** Conservation over every run, with busy answers, errors, malformed replies, failed transfers
      and expiries, as long as no first fragment is answered OK: while the request lasts the
      counters describe a position of the image and the rest never grows. */
  lemma {:induction false} CountersConserved(recs: seq<Record>, c: Ctx, ms: seq<Move>)
    requires Image(recs) && WritingSomewhere(recs, c) && Legal(c, ms) && NoFalseOk(c, ms)
    ensures var d := Run(c, ms);
      Idle(d) || (WritingSomewhere(recs, d) && d.rw.remBytes <= c.rw.remBytes)
    decreases |ms|
  {
    if ms != [] {
      var k, p :| Writing(recs, c, k, p);
      var d := Step(c, ms[0]);
      WriteStep(recs, c, k, p, ms[0]);
      if Idle(d) {
        NeverStuck(d);
        assert ms[1..] == [];
      } else {
        CountersConserved(recs, d, ms[1..]);
      }
    }
  }

  /** What `UnderWay` says about the counters, in the terms of the code's variables. */
  lemma CountersAtPosition(recs: seq<Record>, c: Ctx, k: nat, p: nat)
    requires Image(recs) && Writing(recs, c, k, p)
    ensures c.rw.offset + c.rw.remBytes
         == |Encode(recs)| + (if c.rw.segmented && !c.rw.firstChunkAcked then 2 else 0)
    ensures |recs[k]| > 252 ==> c.rw.remChunk == |recs[k]| - p && c.rw.xfer <= c.rw.remChunk
    ensures 0 < c.rw.xfer <= c.rw.remBytes && c.rw.offset + c.rw.xfer <= |Encode(recs)|
    ensures |WriteFrame(Encode(recs), c.rw)| <= 256
  {
    RecordAt(recs, k);
    FrameDelivers(recs, c.rw, k, p);
  }

  /* ---- Delivery ---- */

  /** What the chip answers to the last frame sent, having received the ones before it. */
  ghost function ChipAnswer(sent: seq<seq<byte>>): byte {
    if sent == [] then 0x00
    else
      var before := ReceiveAll(sent[..|sent| - 1]);
      if before.None? then 0x00 else ChipStatus(before.value, sent[|sent| - 1])
  }

  /** Transfers succeed and replies are well formed and carry the conforming answer. */
  ghost predicate Conforming(c: Ctx, i: Input) {
    match i
    case WriteDone(ok) => ok
    case ReplyIn(b) => ValidReply(b, ChipAnswer(c.sent))
    case _ => false
  }

  ghost predicate ConformingRun(c: Ctx, ms: seq<Move>)
    decreases |ms|
  {
    ms == [] || (Conforming(c, ms[0].input) && ConformingRun(Step(c, ms[0]), ms[1..]))
  }

  /** The frame under way is the last one sent, and the chip holds everything before it. */
  ghost predicate Delivering(recs: seq<Record>, c: Ctx, k: nat, p: nat) {
    && Writing(recs, c, k, p)
    && c.sent != [] && c.sent[|c.sent| - 1] == WriteFrame(Encode(recs), c.rw)
    && ReceiveAll(c.sent[..|c.sent| - 1]) == Some(Got(recs, k, p))
    && c.buff == Fill(c.sent[|c.sent| - 1]) && c.sendLen == |c.sent[|c.sent| - 1]|
    && c.armed != ResendTimer
  }

  ghost predicate DeliveringSomewhere(recs: seq<Record>, c: Ctx) { exists k, p :: Delivering(recs, c, k, p) }

  /** The whole image has arrived, record by record, and the caller has been told so. */
  ghost predicate Delivered(recs: seq<Record>, c: Ctx, calls: seq<Status>) {
    Idle(c) && ReceiveAll(c.sent) == Some(Rx(recs, [])) && c.calls == calls + [Success] && c.rw.remBytes == 0
  }

  lemma WriteDoneDelivers(recs: seq<Record>, c: Ctx, k: nat, p: nat, env: Env)
    requires Delivering(recs, c, k, p) && c.writing && env.writeOk && env.readOk
    ensures var d := Step(c, Move(WriteDone(true), env));
      StepsLeft(d) < StepsLeft(c) && Delivering(recs, d, k, p) && d.calls == c.calls
  {
    OtherInput(c, Move(WriteDone(true), env));
    OtherInputAdvances(c, Move(WriteDone(true), env));
  }

  /** The chip's answer to the frame under way is the one the host expects; having received it,
      the chip stands at the next position. */
  lemma ChipAnswersAsExpected(recs: seq<Record>, c: Ctx, k: nat, p: nat)
    requires Image(recs) && Delivering(recs, c, k, p)
    ensures ChipAnswer(c.sent) == ExpectedStatus(c.rw)
    ensures Position(recs, NextK(recs, k, p), NextP(recs, k, p))
    ensures ReceiveAll(c.sent) == Some(Got(recs, NextK(recs, k, p), NextP(recs, k, p)))
  {
    FrameDelivers(recs, c.rw, k, p);
    OneMoreReceived(c.sent, Got(recs, k, p));
  }

  lemma OneMoreReceived(sent: seq<seq<byte>>, held: Rx)
    requires sent != [] && ReceiveAll(sent[..|sent| - 1]) == Some(held)
    ensures ReceiveAll(sent) == Receive(held, sent[|sent| - 1])
      && ChipAnswer(sent) == ChipStatus(held, sent[|sent| - 1])
  {}

  lemma ReplyDelivers(recs: seq<Record>, c: Ctx, k: nat, p: nat, b: seq<byte>, env: Env)
    requires Image(recs) && Delivering(recs, c, k, p) && c.reading && env.writeOk
    requires ValidReply(b, ChipAnswer(c.sent))
    ensures var d := Step(c, Move(ReplyIn(b), env));
      && StepsLeft(d) < StepsLeft(c)
      && if LastFrame(recs, k, p) then Delivered(recs, d, c.calls)
         else Delivering(recs, d, NextK(recs, k, p), NextP(recs, k, p)) && d.calls == c.calls
  {
    ChipAnswersAsExpected(recs, c, k, p);
    ValidReplyStatus(b, ChipAnswer(c.sent));
    ExpectedReply(recs, c, k, p, b, env);
    CountersAtPosition(recs, c, k, p);
    var d := Step(c, Move(ReplyIn(b), env));
    if LastFrame(recs, k, p) {
      EndsDelivered(recs, c, d, NextP(recs, k, p));
    } else {
      StaysDelivering(recs, c, d, NextK(recs, k, p), NextP(recs, k, p), WriteFrame(Encode(recs), d.rw));
      CloserToTheEnd(c, d);
    }
  }

  lemma EndsDelivered(recs: seq<Record>, c: Ctx, d: Ctx, p: nat)
    requires InFlight(c) && c.rw.xfer <= c.rw.remBytes && Position(recs, |recs|, p)
    requires ReceiveAll(c.sent) == Some(Got(recs, |recs|, p))
    requires Idle(d) && d.calls == c.calls + [Success] && d.sent == c.sent && d.rw.remBytes == 0
    requires c.rw.remBytes > 0
    ensures Delivered(recs, d, c.calls) && StepsLeft(d) < StepsLeft(c)
  {
    assert recs[..|recs|] == recs;
  }

  lemma StaysDelivering(recs: seq<Record>, c: Ctx, d: Ctx, k: nat, p: nat, f: seq<byte>)
    requires Writing(recs, d, k, p) && d.state == Recv && ReceiveAll(c.sent) == Some(Got(recs, k, p))
    requires f == WriteFrame(Encode(recs), d.rw) && d.sent == c.sent + [f] && d.buff == Fill(f) && d.sendLen == |f|
    ensures Delivering(recs, d, k, p)
  {
    assert d.sent[..|d.sent| - 1] == c.sent && d.sent[|d.sent| - 1] == f;
  }

  lemma CloserToTheEnd(c: Ctx, d: Ctx)
    requires InFlight(c) && InFlight(d) && c.kind == KWrite && d.kind == KWrite
    requires c.reading && d.state == Recv && d.rw.remBytes < c.rw.remBytes
    ensures StepsLeft(d) < StepsLeft(c)
  {}

  lemma ConformingStep(recs: seq<Record>, c: Ctx, k: nat, p: nat, m: Move)
    requires Image(recs) && Delivering(recs, c, k, p) && Conforming(c, m.input)
    requires Enabled(c, m.input) && m.env.writeOk && m.env.readOk
    ensures var d := Step(c, m);
      && StepsLeft(d) < StepsLeft(c)
      && (Delivered(recs, d, c.calls) || (DeliveringSomewhere(recs, d) && d.calls == c.calls))
  {
    match m.input
    case WriteDone(ok) => WriteDoneDelivers(recs, c, k, p, m.env);
    case ReplyIn(b) => ReplyDelivers(recs, c, k, p, b, m.env);
  }

  lemma {:induction false} ConformingRunDelivers(recs: seq<Record>, c: Ctx, ms: seq<Move>)
    requires Image(recs) && DeliveringSomewhere(recs, c) && Legal(c, ms) && ConformingRun(c, ms)
    ensures var d := Run(c, ms);
      && |ms| + StepsLeft(d) <= StepsLeft(c)
      && (Delivered(recs, d, c.calls) || (DeliveringSomewhere(recs, d) && d.calls == c.calls))
    decreases |ms|
  {
    if ms != [] {
      var k, p :| Delivering(recs, c, k, p);
      var d := Step(c, ms[0]);
      ConformingStep(recs, c, k, p, ms[0]);
      if Idle(d) {
        NeverStuck(d);
        assert ms[1..] == [];
      } else {
        ConformingRunDelivers(recs, d, ms[1..]);
      }
    }
  }

  /** The context of a write request as its first frame is built. */
  function Requested(c: Ctx, img: seq<byte>, env: Env): Ctx {
    WithTimer(c.(kind := KWrite, cmd := CMD_WRITE, user := img, rspMem := [], rspLen := 0, resend := false,
                 rw := CLEARED.(firstWrite := true), sent := [], event := Write,
                 inProgress := true), env).(state := Send)
  }

  lemma RequestSends(c: Ctx, img: seq<byte>, env: Env)
    requires Idle(c) && 0 < |img| < 0x10000
    ensures WriteRequest(c, img, env) == SendNew(Requested(c, img, env), env)
  {}

  /** The request itself sends the first frame of the image. */
  lemma WriteStarts(recs: seq<Record>, c: Ctx, env: Env)
    requires Image(recs) && Idle(c) && env.writeOk
    ensures var d := WriteRequest(c, Encode(recs), env);
      Delivering(recs, d, 0, 0) && d.calls == c.calls && d.rw.remBytes == |Encode(recs)|
  {
    var img, rw := Encode(recs), CLEARED.(firstWrite := true);
    FirstPosition(recs, rw);
    FrameDelivers(recs, PlanWrite(img, rw), 0, 0);
    RequestSends(c, img, env);
    BuildWrite(Requested(c, img, env));
    WriteAccepted(c, img, env);
    FirstFrame(recs, WriteRequest(c, img, env), WriteFrame(img, PlanWrite(img, rw)));
  }

  lemma FirstPosition(recs: seq<Record>, rw: RWInfo)
    requires Image(recs) && rw == CLEARED.(firstWrite := true)
    ensures UnderWay(recs, PlanWrite(Encode(recs), rw), 0, 0)
    ensures PlanWrite(Encode(recs), rw).remBytes == |Encode(recs)|
  {
    EndOfRecords(recs);
    assert recs != [];
    assert Between(recs, rw, 0, 0);
    PlanKeepsPosition(recs, rw, 0, 0);
  }

  lemma FirstFrame(recs: seq<Record>, d: Ctx, f: seq<byte>)
    requires InFlight(d) && d.kind == KWrite && d.user == Encode(recs) && UnderWay(recs, d.rw, 0, 0)
    requires f == WriteFrame(Encode(recs), d.rw) && d.sent == [f] && d.buff == Fill(f) && d.sendLen == |f|
      && d.armed == NoTimer
    ensures Delivering(recs, d, 0, 0)
  {
    assert d.sent[..0] == [] && recs[..0] == [];
  }

  /** A conforming run can always be extended until the image is delivered. */
  lemma ConformingRunGoesOn(recs: seq<Record>, c: Ctx)
    requires DeliveringSomewhere(recs, c)
    ensures exists i :: Enabled(c, i) && Conforming(c, i)
  {
    if c.writing {
      assert Enabled(c, WriteDone(true)) && Conforming(c, WriteDone(true));
    } else {
      var b := ShortReply(ChipAnswer(c.sent));
      ShortReplyIsValid(ChipAnswer(c.sent));
      assert Enabled(c, ReplyIn(b)) && Conforming(c, ReplyIn(b));
    }
  }

  /** For every image and every conforming run of its download: the chip has received a prefix of
      the records, the run is at most two steps per byte long and can be continued, and when it
      stops the chip has reassembled exactly the records of the image. */
  lemma ImageDelivered(recs: seq<Record>, c: Ctx, env: Env)
    requires Image(recs) && Idle(c) && env.writeOk
    ensures var d := WriteRequest(c, Encode(recs), env);
      forall ms :: Legal(d, ms) && ConformingRun(d, ms) ==>
        && |ms| <= 2 * |Encode(recs)| + 1
        && DeliveredOrOn(recs, Run(d, ms), c.calls)
  {
    var d := WriteRequest(c, Encode(recs), env);
    WriteStarts(recs, c, env);
    assert Delivering(recs, d, 0, 0);
    forall ms | Legal(d, ms) && ConformingRun(d, ms)
      ensures |ms| <= 2 * |Encode(recs)| + 1 && DeliveredOrOn(recs, Run(d, ms), c.calls)
    {
      ConformingRunDelivers(recs, d, ms);
      if DeliveringSomewhere(recs, Run(d, ms)) { ConformingRunGoesOn(recs, Run(d, ms)); }
    }
  }

  /** Delivered, or under way with a conforming input to come. */
  ghost predicate DeliveredOrOn(recs: seq<Record>, d: Ctx, calls: seq<Status>) {
    || Delivered(recs, d, calls)
    || (DeliveringSomewhere(recs, d) && d.calls == calls && exists i :: Enabled(d, i) && Conforming(d, i))
  }

  /* ---- Resending after "memory busy" ---- */

  lemma OverlaidFrame(f: seq<byte>, b: seq<byte>)
    requires 4 <= |f| <= MAX_BUFF && 4 <= |b| <= MAX_BUFF
    requires HeaderOf(f) % 1024 == |f| - 4 && HeaderOf(b) == |b| - 4
    ensures Prefix(Overlay(Fill(f), 0, b), |f|) == f <==> b == f
  {
    var o := Overlay(Fill(f), 0, b);
    assert o == b + Fill(f)[|b|..];
    var again := o[..|f|];
    assert again[0] == b[0] && again[1] == b[1];
    if again == f {
      assert HeaderOf(b) == HeaderOf(f);
      assert |b| == |f|;
      assert again == b;
    }
    if b == f { assert again == b; }
  }

  /** What is sent again when the busy reply `b` was read into the buffer that held frame `f`. */
  function Resent(f: seq<byte>, b: seq<byte>): seq<byte> { Prefix(Overlay(Fill(f), 0, b), |f|) }

  lemma ResentExact(f: seq<byte>, b: seq<byte>)
    requires WellFormedFrame(f) && |f| <= MAX_BUFF && ValidReply(b, 0x20)
    ensures Resent(f, b) == f <==> b == f
  {
    OverlaidFrame(f, b);
  }

  /** Which frames a busy chip can be sent again intact: only those that are not fragments and
      whose first payload byte is the busy code itself, so that the reply can be the frame. */
  lemma ResendExactIff(f: seq<byte>)
    requires WellFormedFrame(f) && |f| <= MAX_BUFF
    ensures (exists b :: ValidReply(b, 0x20) && Resent(f, b) == f)
            <==> |f| >= 5 && HeaderOf(f) < 1024 && f[2] == 0x20
  {
    forall b | ValidReply(b, 0x20) ensures Resent(f, b) == f <==> b == f {
      ResentExact(f, b);
    }
    if |f| >= 5 && HeaderOf(f) < 1024 && f[2] == 0x20 { assert ValidReply(f, 0x20); }
  }

  /** A fragment, or a record that does not start with the busy code, is never resent intact. */
  lemma ResendCorrupts(f: seq<byte>, b: seq<byte>)
    requires WellFormedFrame(f) && |f| <= MAX_BUFF && ValidReply(b, 0x20)
    requires HeaderOf(f) >= 1024 || f[2] != 0x20
    ensures Resent(f, b) != f
  {
    ResentExact(f, b);
  }

  /** From a frame of a conforming download, a busy answer and the resend timer: the counters stay
      and what goes out again is the frame as the answer has left it. */
  lemma BusyThenResend(recs: seq<Record>, c: Ctx, k: nat, p: nat, b: seq<byte>, env: Env, env': Env)
    requires Delivering(recs, c, k, p) && c.reading && env'.writeOk && env'.readOk
    requires ValidReply(b, 0x20) && env.startOk && c.timerId != 0
    ensures var d := Step(Step(c, Move(ReplyIn(b), env)), Move(ResendFires, env'));
      Writing(recs, d, k, p) && d.rw == c.rw && d.sent == c.sent + [Resent(c.sent[|c.sent| - 1], b)]
  {
    ValidReplyStatus(b, 0x20);
    BusyReply(c, b, env);
    OtherInput(Step(c, Move(ReplyIn(b), env)), Move(ResendFires, env'));
    ResendIsNotIdle(Step(c, Move(ReplyIn(b), env)), env');
  }

  lemma ResendIsNotIdle(c: Ctx, env: Env)
    requires InFlight(c) && c.armed == ResendTimer && env.writeOk
    ensures !Idle(Step(c, Move(ResendFires, env)))
  {}
}
