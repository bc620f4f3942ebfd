/**
  Requests that are accepted come to their one completion, whatever the chip answers: writes of
  sendable buffers, reads of any length, commands.  Only "memory busy" answers can put the end off.
  Two things can lead a write astray: a buffer that is not sendable, and an OK to the first
  fragment of a record.
 */
module DnldCompletion {
  import opened CrcRegister
  import opened Crc
  import opened DnldWrite
  import opened DnldHandler
  import opened DnldRuns
  import opened DnldBuffers
  import opened DnldReads

  /* ---- Reads, whatever is answered ---- */

  /** A read in one piece has read nothing yet and asks for as much as fits. */
  predicate ReadShape(rw: RWInfo) { rw.segmented || (rw.bytesRead == 0 && rw.xfer == Chunk(rw.remBytes)) }

  lemma PieceCounts(rw: RWInfo, next: RWInfo, addr: nat)
    requires ReadCounters(rw) && ReadShape(rw)
    requires next.bytesRead == rw.bytesRead + rw.xfer && next.remBytes == rw.remBytes - rw.xfer
    requires next.pldSize == READ_PLD && next.segmented == rw.segmented && next.remBytes != 0
    ensures var plan := PlanRead(next.bytesRead, addr, next); ReadShape(plan) && plan.remBytes < rw.remBytes
  {}

  lemma GoOnPlans(c: Ctx, env: Env)
    requires CanBuild(c) && env.writeOk
    ensures var d := GoOn(c, env); d.rw == Plan(c) && d.writing && d.kind == c.kind && d.armed == c.armed
  {
    BuildKeepsControl(c);
  }

  /** A reply to a read ends it or leaves less to read. */
  lemma ReadReply(c: Ctx, b: seq<byte>, env: Env)
    requires InFlight(c) && c.kind == KRead && c.reading && ReadShape(c.rw) && |b| <= MAX_BUFF && env.writeOk
    ensures var d := Step(c, Move(ReplyIn(b), env));
      Idle(d) || (InFlight(d) && d.kind == KRead && ReadShape(d.rw) && StepsLeft(d) < StepsLeft(c))
  {
    var t, info := Taken(c, b), Done(true, |b|);
    var o := ProcessFrame(t, info);
    assert Step(c, Move(ReplyIn(b), env)) == AfterReply(o.c, o.st, env) by {
      AnswerStep(c, b, env);
      ProcessFrameKeepsControl(t, info);
    }
    assert TakenFrom(c, t) by { AnswerStep(c, b, env); }
    ReadOutcome(c, t, info, env);
  }

  /** Less is left when an answer has been taken in and the next request has gone out. */
  lemma NextPiece(rw: RWInfo, u: Ctx, env: Env)
    requires Answered(u, Success) && u.kind == KRead && u.rw.remBytes != 0 && u.rspLen == u.rw.bytesRead && env.writeOk
    requires ReadCounters(rw) && ReadShape(rw)
    requires u.rw.bytesRead == rw.bytesRead + rw.xfer && u.rw.remBytes == rw.remBytes - rw.xfer
    requires u.rw.pldSize == READ_PLD && u.rw.segmented == rw.segmented
    ensures var d := AfterReply(u, Success, env);
      InFlight(d) && d.kind == KRead && ReadShape(d.rw) && d.rw.remBytes < rw.remBytes && Phase(d) == 1
  {
    var g := u.(reading := false);
    assert AfterReply(u, Success, env) == GoOn(g, env);
    GoOnPlans(g, env);
    PieceCounts(rw, u.rw, u.addr);
    AfterReplyProgresses(u, Success, env);
  }

  lemma ReadOutcome(c: Ctx, t: Ctx, info: Info, env: Env)
    requires InFlight(c) && c.kind == KRead && c.reading && ReadShape(c.rw) && TakenFrom(c, t) && env.writeOk
    ensures var o := ProcessFrame(t, info); var d := AfterReply(o.c, o.st, env);
      Idle(d) || (InFlight(d) && d.kind == KRead && ReadShape(d.rw) && StepsLeft(d) < StepsLeft(c))
  {
    var o := ProcessFrame(t, info);
    ProcessFrameKeepsControl(t, info);
    if o.st == Success && o.c.rw.remBytes != 0 {
      assert o.c.rspLen == o.c.rw.bytesRead == t.rw.bytesRead + t.rw.xfer
        && o.c.rw.remBytes == t.rw.remBytes - t.rw.xfer
          && o.c.rw.pldSize == READ_PLD && o.c.rw.segmented == t.rw.segmented by {
        ProcessFrameCases(t, info);
        AckReadCounts(t);
      }
      assert Answered(o.c, Success) by { ReadGoesOn(t, info); }
      NextPiece(t.rw, o.c, env);
    } else {
      FinishIsIdle(o.c, o.st, env);
    }
  }

  lemma FinishIsIdle(c: Ctx, st: Status, env: Env)
    requires |c.buff| == MAX_BUFF && !c.writing && !(c.rw.remBytes != 0 && st == Success) && st != Busy
    ensures Idle(AfterReply(c, st, env))
  {}

  /* ---- Commands ---- */

  ghost predicate CommandUnderWay(c: Ctx) {
    InFlight(c) && c.kind != KWrite && c.kind != KRead && (IsRW(c.event) ==> c.rw.remBytes == 0)
  }

  /** A command takes one frame and one reply, whatever it says. */
  lemma CommandStep(c: Ctx, m: Move)
    requires CommandUnderWay(c) && Enabled(c, m.input) && m.env.writeOk && m.env.readOk
    ensures var d := Step(c, m); Idle(d) || (CommandUnderWay(d) && StepsLeft(d) < StepsLeft(c))
  {
    StepProgresses(c, m);
    match m.input
    case ReplyIn(b) => CommandReply(c, b, m.env);
    case _ =>
  }

  lemma CommandReply(c: Ctx, b: seq<byte>, env: Env)
    requires CommandUnderWay(c) && c.reading && env.writeOk
    ensures Step(c, Move(ReplyIn(b), env)).event == NoEvent
  {
    var t, info := Taken(c, b), Done(true, |b|);
    ProcessFrameKeepsControl(t, info);
    ProcessFrameCases(t, info);
    CommandKeepsRest(t, Sub16(|b|, 5));
    ReplyResponds(c, b, env);
  }

  lemma CommandKeepsRest(c: Ctx, n: nat)
    requires c.cmd != CMD_WRITE && c.cmd != CMD_READ
    ensures UpdateRsp(c, n).c.rw == c.rw
  {
    AckCommandKeepsControl(c, n);
  }

  /* ---- Every request ---- */

  ghost predicate UnderWayRequest(c: Ctx) {
    || (Buffer(c.user) && SendingOn(c.user, c))
    || (InFlight(c) && c.kind == KRead && ReadShape(c.rw))
    || CommandUnderWay(c)
  }

  lemma RequestStep(c: Ctx, m: Move)
    requires UnderWayRequest(c) && Enabled(c, m.input) && m.env.writeOk && m.env.readOk && !FalseOk(c, m.input)
    ensures var d := Step(c, m);
      || Idle(d)
      || (UnderWayRequest(d) && 1 + StepsLeft(d) <= StepsLeft(c) + if IsBusy(c, m.input) then 3 else 0)
  {
    if CommandUnderWay(c) {
      CommandStep(c, m);
    } else if c.kind == KRead {
      match m.input
      case ReplyIn(b) => ReadReply(c, b, m.env);
      case WriteDone(ok) => if ok { WriteDoneKeeps(c, m.env); } else { ReadFails(c, m); }
      case _ => ReadFails(c, m);
    } else {
      BufferStep(c.user, c, m);
    }
  }

  lemma ReadFails(c: Ctx, m: Move)
    requires InFlight(c) && c.kind == KRead && Enabled(c, m.input) && m.input != WriteDone(true) && !m.input.ReplyIn?
    requires m.env.writeOk && m.env.readOk
    ensures Idle(Step(c, m))
  {
    StepProgresses(c, m);
  }

  /** The "memory busy" answers in a run. */
  function BusyCount(c: Ctx, ms: seq<Move>): nat
    decreases |ms|
  {
    if ms == [] then 0 else (if IsBusy(c, ms[0].input) then 1 else 0) + BusyCount(Step(c, ms[0]), ms[1..])
  }

  lemma StepsRemain(c: Ctx)
    requires UnderWayRequest(c)
    ensures InFlight(c) && StepsLeft(c) >= 1
  {
    if Buffer(c.user) && SendingOn(c.user, c) {
      var start, p :| Sending(c.user, c, start, p) && Sendable(c.user, start);
      SendingFits(c.user, c, start, p);
    }
  }

  lemma {:induction false} RunIsBounded(c: Ctx, ms: seq<Move>)
    requires UnderWayRequest(c) && Legal(c, ms) && NoFalseOk(c, ms)
    ensures |ms| + StepsLeft(Run(c, ms)) <= StepsLeft(c) + 3 * BusyCount(c, ms)
    decreases |ms|
  {
    if ms != [] {
      var d := Step(c, ms[0]);
      RequestStep(c, ms[0]);
      if Idle(d) {
        StepsRemain(c);
        NeverStuck(d);
        assert ms[1..] == [];
      } else {
        RunIsBounded(d, ms[1..]);
      }
    }
  }

  /** What a caller may ask for. */
  datatype Ask =
    | WriteBuffer(img: seq<byte>)
    | ReadMemory(dst: seq<byte>, addr: nat)
    | Command(e: Event, kind: Kind, cmd: byte, user: seq<byte>, mem: seq<byte>)

  ghost predicate Proper(a: Ask) {
    match a
    case WriteBuffer(img) => Buffer(img) && Sendable(img, 0)
    case ReadMemory(dst, _) => 0 < |dst| < 0x10000
    case Command(e, kind, cmd, user, mem) => IsCommand(e, kind, cmd, user) && |mem| < 0x10000
  }

  ghost function Requesting(c: Ctx, a: Ask, env: Env): Ctx
    requires Proper(a)
  {
    match a
    case WriteBuffer(img) => WriteRequest(c, img, env)
    case ReadMemory(dst, addr) => ReadRequest(c, dst, addr, env)
    case Command(e, kind, cmd, user, mem) => CommandRequest(c, e, kind, cmd, user, mem, env)
  }

  /** Two steps per byte, and the first frame; a command takes two steps. */
  ghost function Bound(a: Ask): nat {
    match a
    case WriteBuffer(img) => 2 * |img| + 1
    case ReadMemory(dst, _) => 2 * |dst| + 1
    case Command(_, _, _, _, _) => 2
  }

  lemma AskAccepted(c: Ctx, a: Ask, env: Env)
    requires Idle(c) && Proper(a) && env.writeOk && Requesting(c, a, env).sendStatus == Pending
    ensures var d := Requesting(c, a, env); UnderWayRequest(d) && d.calls == c.calls && StepsLeft(d) <= Bound(a)
  {
    match a
    case WriteBuffer(img) =>
      RequestPlans(c, img, env);
      FirstPlace(img, WriteRequest(c, img, env));
      SendableInside(img, 0, 0);
      assert Sending(img, WriteRequest(c, img, env), 0, 0);
    case ReadMemory(dst, addr) => ReadAskAccepted(c, dst, addr, env);
    case Command(e, kind, cmd, user, mem) =>
      CommandAccepted(c, e, kind, cmd, user, mem, env);
      CommandAskAccepted(c, e, kind, cmd, user, mem, env);
  }

  lemma ReadAskAccepted(c: Ctx, dst: seq<byte>, addr: nat, env: Env)
    requires Idle(c) && 0 < |dst| < 0x10000 && env.writeOk
    ensures var d := ReadRequest(c, dst, addr, env);
      && InFlight(d) && d.kind == KRead && ReadShape(d.rw) && d.calls == c.calls && d.rw.remBytes == |dst|
         && d.armed == NoTimer
  {
    ReadAccepted(c, dst, addr, env);
    DnldReads.RequestSends(c, dst, addr, env);
    var g := DnldReads.Requested(c, dst, addr, env);
    BuildKeepsControl(g);
    assert ReadShape(PlanRead(|dst|, addr, CLEARED));
  }

  lemma CommandAskAccepted(c: Ctx, e: Event, kind: Kind, cmd: byte, user: seq<byte>, mem: seq<byte>, env: Env)
    requires Idle(c) && IsCommand(e, kind, cmd, user) && |mem| < 0x10000 && env.writeOk
    ensures var d := CommandRequest(c, e, kind, cmd, user, mem, env);
      d.sendStatus == Pending ==>
        d.kind == kind && d.event == e && (IsRW(e) ==> d.rw.remBytes == 0) && d.armed == NoTimer
  {
    CommandSends(c, e, kind, cmd, user, mem, env);
    BuildKeepsControl(CommandStart(c, e, kind, cmd, user, mem, env));
  }

  /** For each request that is accepted as pending, and every run in which TML takes each transfer
      and only outstanding inputs arrive, whatever they are, short of an OK to a first fragment:
      the run is no longer than the request and three steps for each busy answer; while it can go
      on no callback was made, and when it cannot, exactly one was and the context is at rest. */
  lemma EveryRequestCompletes(c: Ctx, a: Ask, env: Env)
    requires Idle(c) && Proper(a) && env.writeOk
    ensures var d := Requesting(c, a, env);
      d.sendStatus == Pending ==>
        forall ms :: Legal(d, ms) && NoFalseOk(d, ms) ==>
          && |ms| <= Bound(a) + 3 * BusyCount(d, ms)
          && CompletedOnce(Run(d, ms), c.calls)
  {
    var d := Requesting(c, a, env);
    if d.sendStatus == Pending {
      AskAccepted(c, a, env);
      StepsRemain(d);
      forall ms | Legal(d, ms) && NoFalseOk(d, ms)
        ensures |ms| <= Bound(a) + 3 * BusyCount(d, ms) && CompletedOnce(Run(d, ms), c.calls)
      {
        RunIsBounded(d, ms);
        SingleCompletion(d, ms);
        NeverStuck(Run(d, ms));
      }
    }
  }

  /** Still waiting for something, without a callback, or at rest after one. */
  ghost predicate CompletedOnce(d: Ctx, calls: seq<Status>) {
    || (InFlight(d) && d.calls == calls && exists i :: Enabled(d, i))
    || (Idle(d) && |d.calls| == |calls| + 1 && d.calls[..|calls|] == calls && !exists i :: Enabled(d, i))
  }

  /* ---- A first fragment answered OK ---- */

  lemma FalseOkCounts(rw: RWInfo, total: u16, len: u16)
    requires rw.segmented && !rw.firstChunkAcked && rw.xfer == MAX_PLD && MAX_PLD < rw.pldSize && MAX_PLD < rw.remBytes
    ensures AckWrite(rw, ST_OK).status == Success
    ensures var a := AckWrite(rw, ST_OK).rw; var next := PlanWith(a, total, len);
      && !a.firstWrite && a.remBytes == rw.remBytes - MAX_PLD
      && next == a.(remChunk := 0, xfer := 0, segmented := false, offset := Add16(rw.offset, MAX_PLD + 2))
  {}

  /** What an OK to a first fragment does: the rest of the record is dropped, the next frame has an
      empty payload, and offset and rest together run four bytes past the image. */
  lemma FalseOkOverruns(recs: seq<Record>, c: Ctx, k: nat, p: nat, b: seq<byte>, env: Env)
    requires Image(recs) && Writing(recs, c, k, p) && c.reading && |b| <= MAX_BUFF && FalseOk(c, ReplyIn(b))
      && env.writeOk
    ensures var d := Step(c, Move(ReplyIn(b), env));
      && InFlight(d) && d.kind == KWrite && d.user == c.user && d.writing && d.calls == c.calls
      && d.sent == c.sent + [Sealed(Header(0, false))]
      && d.rw.xfer == 0 && d.rw.remBytes == c.rw.remBytes - MAX_PLD && d.rw.offset == Add16(c.rw.offset, MAX_PLD + 2)
      && c.rw.offset + MAX_PLD + 2 + d.rw.remBytes == |Encode(recs)| + 4
      && !d.rw.segmented && !d.rw.firstChunkAcked && !d.rw.firstWrite
  {
    RecordAt(recs, k);
    var rw := AckWrite(c.rw, ST_OK).rw;
    var next := PlanWrite(c.user, rw);
    FalseOkCounts(c.rw, |c.user|, LengthAt(c.user, rw.offset));
    ReplyLeads(c, b, env);
    var o := Judged(Taken(c, b), Some(ST_OK)).c;
    assert WriteBody(c.user, next) == Header(0, false) by { assert Slice(c.user, next.offset, 0) == []; }
    NextFrameSent(o, env, next, Sealed(Header(0, false)));
  }

  /** One record just too long for one frame, all zeros. */
  const LONG_RECORD: Record := Zeroes(MAX_PLD + 1)
  const LONG_IMAGE: seq<Record> := [LONG_RECORD]

  lemma LongImage()
    ensures Image(LONG_IMAGE) && |Encode(LONG_IMAGE)| == MAX_PLD + 3
  {
    EncodeOne(LONG_RECORD);
  }

  /** A write that has gone astray, with an odd number of bytes left to write: taking two off at a
      time never brings that to zero. */
  ghost predicate Astray(c: Ctx) {
    && InFlight(c) && c.kind == KWrite && c.writing && Buffer(c.user)
    && !c.rw.segmented && !c.rw.firstChunkAcked
    && (c.rw.xfer == 0 || c.rw.xfer == 2) && c.rw.remBytes % 2 == 1
  }

  /** Where the next record length is read. */
  function Ahead(c: Ctx): u16 { Add16(c.rw.offset, c.rw.xfer) }

  lemma AstrayCounts(rw: RWInfo, total: u16)
    requires !rw.segmented && !rw.firstChunkAcked && (rw.xfer == 0 || rw.xfer == 2) && rw.remBytes % 2 == 1
    ensures var a := AckWrite(rw, ST_OK).rw; var next := PlanWith(a, total, 0);
      && AckWrite(rw, ST_OK).status == Success && a.offset == Add16(rw.offset, rw.xfer) && !a.firstWrite
      && a.remBytes % 2 == 1 && next == a.(pldSize := 0, xfer := 2)
  {}

  const ALL_FINE := Env(0, true, true, true)
  const SENT := Move(WriteDone(true), ALL_FINE)

  function OkReply(): Move { Move(ReplyIn(ShortReply(ST_OK)), ALL_FINE) }

  lemma OkReplyStatus()
    ensures ReplyStatus(ShortReply(ST_OK)) == Some(ST_OK) && |ShortReply(ST_OK)| <= MAX_BUFF
  {
    ShortReplyIsValid(ST_OK);
    ValidReplyStatus(ShortReply(ST_OK), ST_OK);
  }

  lemma AstrayReply(c: Ctx, before: Ctx)
    requires Astray(before) && InFlight(c) && c.kind == KWrite && c.reading && LengthAt(c.user, Ahead(c)) == 0
    requires c.rw == before.rw && c.user == before.user
    ensures var d := Step(c, OkReply());
      Astray(d) && d.calls == c.calls && d.user == c.user && Ahead(d) == Add16(Ahead(c), 2)
  {
    OkReplyStatus();
    var b := ShortReply(ST_OK);
    var rw := AckWrite(c.rw, ST_OK).rw;
    AstrayCounts(c.rw, |c.user|);
    var next := PlanWrite(c.user, rw);
    ReplyLeads(c, b, ALL_FINE);
    var o := Judged(Taken(c, b), Some(ST_OK)).c;
    NextFrameSent(o, ALL_FINE, next, WriteFrame(c.user, next));
  }

  /** The input may come now and is not a busy answer. */
  predicate MayCome(c: Ctx, m: Move) {
    Enabled(c, m.input) && m.env.writeOk && m.env.readOk && !IsBusy(c, m.input)
  }

  /** A legal run without busy answers that leaves the request in flight and without a callback. */
  ghost predicate RunsOn(c: Ctx, ms: seq<Move>) {
    Legal(c, ms) && BusyCount(c, ms) == 0 && InFlight(Run(c, ms)) && Run(c, ms).calls == c.calls
  }

  lemma AstrayRound(c: Ctx)
    requires Astray(c) && LengthAt(c.user, Ahead(c)) == 0
    ensures var d := Step(c, SENT); var e := Step(d, OkReply());
      && MayCome(c, SENT) && !FalseOk(c, SENT.input) && MayCome(d, OkReply()) && !FalseOk(d, OkReply().input)
      && Astray(e) && e.calls == c.calls && e.user == c.user && Ahead(e) == Add16(Ahead(c), 2)
  {
    OkReplyStatus();
    WriteDoneKeeps(c, ALL_FINE);
    AstrayReply(Step(c, SENT), c);
  }

  lemma TwoMore(c: Ctx, m: Move, d: Ctx, n: Move, e: Ctx, rest: seq<Move>)
    requires d == Step(c, m) && e == Step(d, n) && MayCome(c, m) && MayCome(d, n)
    requires RunsOn(e, rest) && e.calls == c.calls
    ensures var ms := [m] + ([n] + rest);
      && RunsOn(c, ms) && |ms| == |rest| + 2
      && (NoFalseOk(e, rest) && !FalseOk(c, m.input) && !FalseOk(d, n.input) ==> NoFalseOk(c, ms))
  {
    var ms := [m] + ([n] + rest);
    assert ms[1..] == [n] + rest && ([n] + rest)[1..] == rest;
  }

  /** The next `k` record lengths are read as zero. */
  ghost predicate ZerosAhead(img: seq<byte>, at: u16, k: nat) {
    forall j :: 0 <= j < k ==> LengthAt(img, Add16(at, 2 * j)) == 0
  }

  lemma OneZeroLess(img: seq<byte>, at: u16, k: nat)
    requires k > 0 && ZerosAhead(img, at, k)
    ensures LengthAt(img, at) == 0 && ZerosAhead(img, Add16(at, 2), k - 1)
  {
    assert Add16(at, 2 * 0) == at;
    forall j | 0 <= j < k - 1 ensures LengthAt(img, Add16(Add16(at, 2), 2 * j)) == 0 {
      assert Add16(Add16(at, 2), 2 * j) == Add16(at, 2 * (j + 1));
    }
  }

  /** As long as it reads zeros as record lengths, the write goes on, one empty record after the
      other. */
  lemma {:induction false} AstrayRun(c: Ctx, k: nat) returns (ms: seq<Move>)
    requires Astray(c) && ZerosAhead(c.user, Ahead(c), k)
    ensures RunsOn(c, ms) && NoFalseOk(c, ms) && |ms| == 2 * k
    decreases k
  {
    if k == 0 {
      ms := [];
    } else {
      OneZeroLess(c.user, Ahead(c), k);
      AstrayRound(c);
      var d := Step(c, SENT);
      var e := Step(d, OkReply());
      var rest := AstrayRun(e, k - 1);
      TwoMore(c, SENT, d, OkReply(), e, rest);
      ms := [SENT] + ([OkReply()] + rest);
    }
  }

  /** The first fragment of the record is out. */
  lemma FirstFragmentOut(d: Ctx)
    requires Delivering(LONG_IMAGE, d, 0, 0) && d.writing
    ensures var e := Step(d, SENT); MayCome(d, SENT) && Writing(LONG_IMAGE, e, 0, 0) && e.reading && e.calls == d.calls
  {
    WriteDoneKeeps(d, ALL_FINE);
  }

  lemma FirstFragmentCounts(rw: RWInfo)
    requires UnderWay(LONG_IMAGE, rw, 0, 0)
    ensures rw.segmented && !rw.firstChunkAcked && rw.offset == 2 && rw.remBytes == MAX_PLD + 3
  {
    LongImage();
    EndOfRecords(LONG_IMAGE);
  }

  lemma LedAstray(e: Ctx)
    requires Writing(LONG_IMAGE, e, 0, 0) && e.reading
    ensures var f := Step(e, OkReply());
      MayCome(e, OkReply()) && Astray(f) && f.calls == e.calls && f.user == e.user && Ahead(f) == MAX_PLD + 4
  {
    assert Image(LONG_IMAGE) by { LongImage(); }
    FirstFragmentCounts(e.rw);
    var b := ShortReply(ST_OK);
    assert MayCome(e, OkReply()) && FalseOk(e, ReplyIn(b)) by { OkReplyStatus(); }
    FalseOkOverruns(LONG_IMAGE, e, 0, 0, b, ALL_FINE);
    OverrunIsAstray(e, Step(e, OkReply()));
  }

  lemma OverrunIsAstray(e: Ctx, f: Ctx)
    requires InFlight(f) && f.kind == KWrite && f.writing && f.user == e.user && Buffer(f.user)
    requires e.rw.offset == 2 && e.rw.remBytes == MAX_PLD + 3 && f.rw.xfer == 0
    requires f.rw.remBytes == e.rw.remBytes - MAX_PLD && f.rw.offset == Add16(e.rw.offset, MAX_PLD + 2)
    requires !f.rw.segmented && !f.rw.firstChunkAcked && !f.rw.firstWrite
    ensures Astray(f) && Ahead(f) == MAX_PLD + 4
  {}

  /** The proviso on the answers is needed: a false OK to the one record's first fragment and
      nothing but OK after it can keep the write going, far beyond the bound and without a
      callback.  From the false OK on the code takes its record lengths from behind the image; the
      run is the one for a memory of zeros there. */
  lemma FalseOkRunsOn(c: Ctx, env: Env, k: nat) returns (ms: seq<Move>)
    requires Idle(c) && env.writeOk && k <= 32000
    ensures var d := WriteRequest(c, Encode(LONG_IMAGE), env); RunsOn(d, ms) && |ms| == 2 * k + 2
    ensures Sendable(Encode(LONG_IMAGE), 0)
  {
    LongImage();
    EndOfRecords(LONG_IMAGE);
    ImageIsSendable(LONG_IMAGE, 0);
    WriteStarts(LONG_IMAGE, c, env);
    var d := WriteRequest(c, Encode(LONG_IMAGE), env);
    WriteAccepted(c, Encode(LONG_IMAGE), env);
    FirstFragmentOut(d);
    var e := Step(d, SENT);
    LedAstray(e);
    var f := Step(e, OkReply());
    BehindLongImage(k);
    var rest := AstrayRun(f, k);
    ms := [SENT] + ([OkReply()] + rest);
    TwoMore(d, SENT, e, OkReply(), f, rest);
  }

  lemma BehindLongImage(k: nat)
    requires k <= 32000
    ensures ZerosAhead(Encode(LONG_IMAGE), MAX_PLD + 4, k)
  {
    LongImage();
  }

  /* ---- A buffer that is not sendable ---- */

  /** Empty records, and half a length field behind them; three zero bytes are the smallest. */
  ghost predicate OddZeros(z: seq<byte>) {
    Buffer(z) && |z| >= 3 && |z| % 2 == 1 && forall i :: 0 <= i < |z| ==> z[i] == 0
  }

  lemma {:induction false} OddZerosNotSendable(z: seq<byte>, o: nat)
    requires OddZeros(z) && o <= |z| && o % 2 == 0
    ensures !Sendable(z, o)
    decreases |z| - o
  {
    if o + 1 < |z| {
      assert LengthAt(z, o) == 0;
      OddZerosNotSendable(z, o + 2);
    }
  }

  lemma OddZerosAstray(z: seq<byte>, d: Ctx)
    requires OddZeros(z) && InFlight(d) && d.kind == KWrite && d.writing && d.user == z && d.rw == PlanWrite(z, BEGUN)
    ensures Astray(d)
  {
    assert LengthAt(z, 0) == 0;
    FirstPlace(z, d);
  }

  /** The proviso on the buffer is needed: an odd number of zero bytes is accepted as a write, and
      OK answers take two off the rest at a time, past one and through 65535, for ever: without a
      callback, a busy answer or a false OK.  When the buffer is used up the code takes record
      lengths from behind it; the run is the one for a memory of zeros there. */
  lemma OddZerosRunOn(c: Ctx, z: seq<byte>, env: Env, k: nat) returns (ms: seq<Move>)
    requires Idle(c) && OddZeros(z) && env.writeOk
    ensures !Sendable(z, 0)
    ensures var d := WriteRequest(c, z, env);
      d.sendStatus == Pending && RunsOn(d, ms) && NoFalseOk(d, ms) && |ms| == 2 * k
  {
    OddZerosNotSendable(z, 0);
    RequestPlans(c, z, env);
    WriteAccepted(c, z, env);
    var d := WriteRequest(c, z, env);
    OddZerosAstray(z, d);
    ZerosEverywhere(z, Ahead(d), k);
    ms := AstrayRun(d, k);
  }

  lemma ZerosEverywhere(z: seq<byte>, at: u16, k: nat)
    requires OddZeros(z)
    ensures ZerosAhead(z, at, k)
  {}

  /* ---- A transfer that TML refuses ---- */

  /** The same services with a TML that takes every transfer. */
  function Taking(env: Env): Env { env.(writeOk := true, readOk := true) }

  /** `d` is `w` without the transfer that TML refused. */
  predicate Without(d: Ctx, w: Ctx, env: Env) {
    if w.writing then d == w.(writing := env.writeOk, sent := d.sent, sendStatus := d.sendStatus)
    else if w.reading then d == w.(reading := env.readOk, sendStatus := d.sendStatus)
    else d == w
  }

  lemma GoOnWithout(c: Ctx, env: Env)
    requires !c.writing && !c.reading
    ensures Without(GoOn(c, env), GoOn(c, Taking(env)), env)
  {
    BuildKeepsControl(c);
  }

  lemma AfterReplyWithout(u: Ctx, st: Status, env: Env)
    requires !u.writing && !u.reading
    ensures Without(AfterReply(u, st, env), AfterReply(u, st, Taking(env)), env)
  {
    if u.rw.remBytes != 0 && st == Success { GoOnWithout(u, env); }
  }

  lemma RespondWithout(t: Ctx, info: Info, env: Env)
    requires !t.writing && (!t.expired ==> !t.reading)
    ensures Without(RespondRW(t, info, env), RespondRW(t, info, Taking(env)), env)
  {
    if !t.expired {
      var o := ProcessFrame(t, info);
      ProcessFrameKeepsControl(t, info);
      AfterReplyWithout(o.c, o.st, env);
      AfterReplyWithout(o.c.(timerOn := true, state := Timer, armed := ResendTimer), Busy, env);
      AfterReplyWithout(o.c.(timerOn := false, state := Response), NoResources, env);
    }
  }

  lemma SentWithout(c: Ctx, ok: bool, env: Env)
    requires InFlight(c) && c.writing
    ensures Without(Step(c, Move(WriteDone(ok), env)), Step(c, Move(WriteDone(ok), Taking(env))), env)
  {}

  lemma ReplyWithout(c: Ctx, b: seq<byte>, env: Env)
    requires InFlight(c) && c.reading
    ensures Without(Step(c, Move(ReplyIn(b), env)), Step(c, Move(ReplyIn(b), Taking(env))), env)
  {
    var t, info := Taken(c, b), Done(true, |b|);
    RespondWithout(t, info, env);
    ReplyResponds(c, b, env);
    ReplyResponds(c, b, Taking(env));
    if !IsRW(c.event) { SeqIsQuiet(t, info); }
  }

  /** Every reply is taken in by the response part of its sequence. */
  lemma ReplyResponds(c: Ctx, b: seq<byte>, env: Env)
    requires InFlight(c) && c.reading
    ensures var t, info := Taken(c, b), Done(true, |b|);
      && Step(c, Move(ReplyIn(b), env)) == (if IsRW(c.event) then RespondRW(t, info, env) else RespondSeq(t, info))
      && !t.writing && !t.reading && !t.expired
  {
    assert StopTimer(c.(reading := false, buff := Overlay(c.buff, 0, b))) == Taken(c, b);
  }

  lemma SeqIsQuiet(t: Ctx, info: Info)
    requires !t.writing && !t.reading
    ensures !RespondSeq(t, info).writing && !RespondSeq(t, info).reading
  {
    ProcessFrameKeepsControl(t, info);
  }

  lemma TimerWithout(c: Ctx, i: Input, env: Env)
    requires InFlight(c) && Enabled(c, i) && (i == RspFires || i == ResendFires)
    ensures Without(Step(c, Move(i, env)), Step(c, Move(i, Taking(env))), env)
  {}

  lemma StepWithout(c: Ctx, m: Move)
    requires InFlight(c) && Enabled(c, m.input)
    ensures Without(Step(c, m), Step(c, m.(env := Taking(m.env))), m.env)
  {
    match m.input
    case WriteDone(ok) => SentWithout(c, ok, m.env);
    case ReplyIn(b) => ReplyWithout(c, b, m.env);
    case _ => TimerWithout(c, m.input, m.env);
  }

  /** When a request is left hanging, with nothing to wait for and no callback: exactly when TML
      refuses the write that the step asks for, or the read, with no response timer running. */
  lemma LeftHangingIff(c: Ctx, m: Move)
    requires InFlight(c) && Enabled(c, m.input)
    ensures var d := Step(c, m); var w := Step(c, m.(env := Taking(m.env)));
      (!exists i :: Enabled(d, i)) && d.calls == c.calls
      <==> (w.writing && !m.env.writeOk) || (w.reading && !m.env.readOk && w.armed == NoTimer)
  {
    var d, w := Step(c, m), Step(c, m.(env := Taking(m.env)));
    StepWithout(c, m);
    StepProgresses(c, m.(env := Taking(m.env)));
    assert w.writing && m.env.writeOk ==> Enabled(d, WriteDone(true));
    assert w.reading && m.env.readOk ==> Enabled(d, ReplyIn([]));
    assert w.armed == RspTimer ==> Enabled(d, RspFires);
    assert w.armed == ResendTimer ==> Enabled(d, ResendFires);
  }
}
