/**
  Segmented reads of the chip's memory.  A request of up to 248 bytes goes in one frame; a longer
  one is cut into successive requests, each answered into the next part of the caller's buffer.
 */
module DnldReads {
  import opened CrcRegister
  import opened Crc
  import opened DnldWrite
  import opened DnldHandler

  /* ---- The chip's side ---- */

  type Memory = nat -> byte

  function Bytes(mem: Memory, a: nat, n: nat): (s: seq<byte>)
    ensures |s| == n
  {
    seq<byte>(n, i requires 0 <= i < n => mem(a + i))
  }

  function RequestLen(f: seq<byte>): nat { At(f, 4) + 256 * At(f, 5) }

  function RequestAddr(f: seq<byte>): nat {
    At(f, 6) + 256 * At(f, 7) + 0x1_0000 * At(f, 8) + 0x100_0000 * At(f, 9)
  }

  /** A well-formed answer with `n` bytes of memory from address `a`. */
  predicate ValidAnswer(b: seq<byte>, mem: Memory, a: nat, n: nat) {
    && |b| == n + 8 <= 256 && FrameChecks(b) && HeaderOf(b) == |b| - 4
    && b[2] == 0x00 && RequestLen(b) == n
    && b[6..6 + n] == Bytes(mem, a, n)
  }

  /** A frame that a checking chip takes for a read request: CRC, length and command byte. */
  predicate ProperRequest(f: seq<byte>) { |f| >= 4 && FrameChecks(f) && HeaderOf(f) == |f| - 4 && f[2] == 0xa2 }

  /** Transfers succeed; a reply answers the last request that was sent, if that is a proper one. */
  predicate Answers(c: Ctx, i: Input, mem: Memory) {
    match i
    case WriteDone(ok) => ok
    case ReplyIn(b) =>
      && c.sent != []
      && var f := c.sent[|c.sent| - 1];
         ProperRequest(f) && ValidAnswer(b, mem, RequestAddr(f), RequestLen(f))
    case _ => false
  }

  predicate AnsweredRun(c: Ctx, ms: seq<Move>, mem: Memory)
    decreases |ms|
  {
    ms == [] || (Answers(c, ms[0].input, mem) && AnsweredRun(Step(c, ms[0]), ms[1..], mem))
  }

  /* ---- Requests ---- */

  function Chunk(n: int): int { if n > 248 then 248 else n }

  function RequestFrame(a: nat, n: u16): seq<byte> {
    Sealed(ReadBody(CMD_READ, CLEARED.(addr := a, xfer := n)))
  }

  /** A frame that asks for `n` bytes from `a`. */
  predicate Asks(f: seq<byte>, a: nat, n: int) {
    |f| == 12 && ProperRequest(f) && RequestAddr(f) == a && RequestLen(f) == n
  }

  function Count(n: nat): nat { (n + 247) / 248 }

  /** The first `j` of the requests that cover `n` bytes from `a`: all full but the last. */
  ghost predicate Asked(sent: seq<seq<byte>>, a: nat, n: nat, j: nat) {
    |sent| == j && forall i :: 0 <= i < j ==> Asks(sent[i], a + 248 * i, Chunk(n - 248 * i))
  }

  lemma BodyReadsBack(a: nat, n: u16)
    requires a < 0x1_0000_0000
    ensures var body := ReadBody(CMD_READ, CLEARED.(addr := a, xfer := n));
      |body| == 10 && RequestLen(body) == n && RequestAddr(body) == a
  {
    var body := ReadBody(CMD_READ, CLEARED.(addr := a, xfer := n));
    assert RequestAddr(body) == a by {
      assert At(body, 6) == a % 256 && At(body, 7) == (a / 256) % 256;
      assert At(body, 8) == (a / 0x1_0000) % 256 && At(body, 9) == (a / 0x100_0000) % 256;
      FourBytes(a);
    }
  }

  /** Whatever follows it, a request carries its address and length. */
  lemma RequestReadsBack(a: nat, n: u16, tail: seq<byte>)
    requires a < 0x1_0000_0000
    ensures var f := ReadBody(CMD_READ, CLEARED.(addr := a, xfer := n)) + tail;
      |f| == 10 + |tail| && RequestLen(f) == n && RequestAddr(f) == a
  {
    BodyReadsBack(a, n);
  }

  function Tail(a: nat, n: u16): seq<byte> { CrcBytes(ReadBody(CMD_READ, CLEARED.(addr := a, xfer := n))) }

  lemma FourBytes(a: nat)
    requires a < 0x1_0000_0000
    ensures a % 256 + 256 * ((a / 256) % 256) + 0x1_0000 * ((a / 0x1_0000) % 256)
            + 0x100_0000 * ((a / 0x100_0000) % 256) == a
  {
    assert a / 0x1_0000 == (a / 256) / 256;
    assert a / 0x100_0000 == (a / 0x1_0000) / 256;
  }

  lemma FrameAsks(a: nat, n: u16) returns (f: seq<byte>)
    requires a < 0x1_0000_0000
    ensures f == RequestFrame(a, n) && Asks(f, a, n)
  {
    var body := ReadBody(CMD_READ, CLEARED.(addr := a, xfer := n));
    f := Sealed(body);
    RequestReadsBack(a, n, Tail(a, n));
    ChecksIffCrcBytes(body, CrcBytes(body));
    SealedRequest(body, f);
  }

  lemma SealedRequest(body: seq<byte>, f: seq<byte>)
    requires |body| == 10 && body[0] == 0 && body[1] == 8 && body[2] == 0xa2 && f == Sealed(body) && FrameChecks(f)
    ensures ProperRequest(f)
  {
    assert f[0] == body[0] && f[1] == body[1] && f[2] == body[2];
  }

  lemma PiecesTile(n: nat, j: nat, y: int)
    requires 248 * j < n
    ensures 248 * j <= y < 248 * j + Chunk(n - 248 * j) <==> 0 <= y < n && j == y / 248
  {}

  /** Every address of the range is asked for by exactly one of the requests, and no other is. */
  lemma RequestsCoverOnce(sent: seq<seq<byte>>, a: nat, n: nat, j: nat, x: nat)
    requires Asked(sent, a, n, Count(n)) && j < |sent|
    ensures RequestAddr(sent[j]) <= x < RequestAddr(sent[j]) + RequestLen(sent[j])
      <==> a <= x < a + n && j == (x - a) / 248
    ensures a <= x < a + n ==> (x - a) / 248 < |sent|
  {
    assert Asks(sent[j], a + 248 * j, Chunk(n - 248 * j));
    PiecesTile(n, j, x - a);
  }

  /* ---- The invariant of a read ---- */

  predicate Range(a: nat, n: nat) { 0 < n < 0x10000 && a + n <= 0x1_0000_0000 }

  /** `done` bytes of `n` have been read from `a` on, and the next request is out. */
  predicate ReadingAt(rw: RWInfo, a: nat, n: nat, done: nat) {
    && done < n
    && rw.addr == a + done && rw.offset == done && rw.bytesRead == done && rw.remBytes == n - done
    && rw.pldSize == READ_PLD && rw.xfer == Chunk(n - done) && rw.segmented == (Add16(n, 4) > MAX_PLD)
  }

  ghost predicate Reading(c: Ctx, mem: Memory, a: nat, n: nat, j: nat)
    requires Range(a, n)
  {
    && InFlight(c) && c.kind == KRead && c.addr == a && |c.rspMem| == n
    && ReadingAt(c.rw, a, n, 248 * j)
    && c.rspMem[..248 * j] == Bytes(mem, a, 248 * j)
    && Asked(c.sent, a, n, j + 1)
    && c.armed != ResendTimer
  }

  ghost predicate ReadingSomewhere(c: Ctx, mem: Memory, a: nat, n: nat)
    requires Range(a, n)
  {
    exists j :: Reading(c, mem, a, n, j)
  }

  /** The caller's buffer holds the range and the reported length is the requested one. */
  ghost predicate ReadComplete(c: Ctx, mem: Memory, a: nat, n: nat, calls: seq<Status>)
    requires Range(a, n)
  {
    && Idle(c) && c.calls == calls + [Success]
    && c.rspLen == n && c.rspMem == Bytes(mem, a, n)
    && Asked(c.sent, a, n, Count(n))
  }

  lemma BytesGrow(mem: Memory, a: nat, m: seq<byte>, done: nat, k: nat)
    requires done + k <= |m| && m[..done] == Bytes(mem, a, done)
    ensures var r := Overlay(m, done, Bytes(mem, a + done, k));
      r[..done + k] == Bytes(mem, a, done + k)
  {
    var r := Overlay(m, done, Bytes(mem, a + done, k));
    assert r[..done] == m[..done];
    if k > 0 { assert r[done..done + k] == Bytes(mem, a + done, k); }
    forall i | 0 <= i < done + k
      ensures r[i] == Bytes(mem, a, done + k)[i]
    {
      if i < done { assert r[i] == m[..done][i]; } else { assert r[i] == r[done..done + k][i - done]; }
    }
  }

  lemma AnswerInBuffer(buff: seq<byte>, b: seq<byte>, k: nat)
    requires |buff| == MAX_BUFF && |b| == k + 8 <= MAX_BUFF
    ensures var r := Overlay(buff, 0, b);
      && r[..|b|] == b && At(r, 2) == b[2] && RequestLen(r) == RequestLen(b)
      && Slice(r, 6, k) == b[6..6 + k]
  {
    var r := Overlay(buff, 0, b);
    assert r[..|b|] == b;
    var got, want := Slice(r, 6, k), b[6..6 + k];
    forall i | 0 <= i < k
      ensures got[i] == want[i]
    {
      assert got[i] == At(r, 6 + i) == r[6 + i];
      assert r[6 + i] == r[..|b|][6 + i];
    }
  }

  lemma AckReadCopies(r: Ctx, data: seq<byte>)
    requires At(r.buff, 2) == ST_OK && RequestLen(r.buff) == r.rw.xfer && Slice(r.buff, 6, r.rw.xfer) == data
    ensures AckRead(r) == Outcome(WithAnswer(r, data), Success)
  {}

  /** A well-formed reply to a read is left to `AckRead`. */
  lemma AnswerJudged(r: Ctx, b: seq<byte>)
    requires r.kind == KRead && r.cmd == CMD_READ && |b| <= |r.buff| && r.buff[..|b|] == b && WellFormedReply(b)
    ensures ProcessFrame(r, Done(true, |b|)) == AckRead(r)
  {}

  /** A well-formed answer is left to `AckRead`, which finds the requested bytes in the buffer. */
  lemma AnswerFound(c: Ctx, b: seq<byte>, mem: Memory, a: nat, k: nat)
    requires |c.buff| == MAX_BUFF && c.kind == KRead && c.cmd == CMD_READ && ValidAnswer(b, mem, a, k)
    ensures var r := c.(buff := Overlay(c.buff, 0, b));
      && ProcessFrame(r, Done(true, |b|)) == AckRead(r)
      && At(r.buff, 2) == ST_OK && RequestLen(r.buff) == k && Slice(r.buff, 6, k) == Bytes(mem, a, k)
  {
    var r := c.(buff := Overlay(c.buff, 0, b));
    assert At(r.buff, 2) == ST_OK && RequestLen(r.buff) == k && Slice(r.buff, 6, k) == Bytes(mem, a, k)
        && r.buff[..|b|] == b by {
      AnswerInBuffer(c.buff, b, k);
    }
    assert WellFormedReply(b) by { ValidIsWellFormed(b, mem, a, k); }
    AnswerJudged(r, b);
  }

  lemma ValidIsWellFormed(b: seq<byte>, mem: Memory, a: nat, k: nat)
    requires ValidAnswer(b, mem, a, k)
    ensures WellFormedReply(b)
  {}

  /* ---- Steps of a read ---- */

  lemma BuildRead(c: Ctx, a: nat, n: nat, done: nat) returns (f: seq<byte>)
    requires Range(a, n) && c.kind == KRead && c.cmd == CMD_READ && ReadingAt(Plan(c), a, n, done)
    ensures Build(c) == c.(rw := Plan(c), buff := Fill(f), sendLen := |f|) && Prefix(Fill(f), |f|) == f
    ensures Asks(f, a + done, Chunk(n - done))
  {
    f := FrameAsks(a + done, Chunk(n - done));
    SameRequest(Plan(c), a + done, Chunk(n - done));
    BuiltRead(c, f);
  }

  lemma BuiltRead(c: Ctx, f: seq<byte>)
    requires c.kind == KRead && f == Sealed(ReadBody(c.cmd, Plan(c))) && |f| <= MAX_BUFF
    ensures Build(c) == c.(rw := Plan(c), buff := Fill(f), sendLen := |f|) && Prefix(Fill(f), |f|) == f
  {
    assert Fill(f)[..|f|] == f;
  }

  lemma SameRequest(rw: RWInfo, a: nat, n: u16)
    requires rw.addr == a && rw.xfer == n
    ensures Sealed(ReadBody(CMD_READ, rw)) == RequestFrame(a, n)
  {
    assert ReadBody(CMD_READ, rw) == ReadBody(CMD_READ, CLEARED.(addr := a, xfer := n));
  }

  lemma CountedBy(n: nat, j: nat)
    requires 248 * j < n
    ensures j < Count(n) && (248 * j + Chunk(n - 248 * j) == n <==> j + 1 == Count(n))
  {}

  lemma OneMoreAsked(sent: seq<seq<byte>>, a: nat, n: nat, j: nat)
    requires |sent| == j + 1 && Asked(sent[..j], a, n, j) && Asks(sent[j], a + 248 * j, Chunk(n - 248 * j))
    ensures Asked(sent, a, n, j + 1)
  {
    forall i | 0 <= i < j + 1
      ensures Asks(sent[i], a + 248 * i, Chunk(n - 248 * i))
    {
      if i < j { assert sent[i] == sent[..j][i]; }
    }
  }

  /** After an answer, with bytes left to read, the next request goes out. */
  lemma PieceSent(c: Ctx, env: Env, a: nat, n: nat, done: nat)
    requires Range(a, n) && Answered(c, Success) && c.kind == KRead && env.writeOk && c.rw.remBytes != 0
    requires ReadingAt(Plan(c), a, n, done)
    ensures var d := AfterReply(c, Success, env);
      && InFlight(d) && d.state == Recv && d.armed == NoTimer && d.kind == KRead && d.rw == Plan(c)
      && d.calls == c.calls && d.addr == c.addr && d.rspMem == c.rspMem
      && |d.sent| == |c.sent| + 1 && d.sent[..|c.sent|] == c.sent
      && Asks(d.sent[|c.sent|], a + done, Chunk(n - done))
  {
    var g := c.(reading := false);
    var f := BuildRead(g, a, n, done);
    assert AfterReply(c, Success, env) == GoOn(g, env);
    AfterReplyProgresses(c, Success, env);
  }

  /** After an answer that is not the last, the next request goes out. */
  lemma NextRequest(c: Ctx, env: Env, mem: Memory, a: nat, n: nat, j: nat)
    requires Range(a, n) && n > READ_PLD && Answered(c, Success) && c.kind == KRead && c.addr == a && env.writeOk
    requires c.rw.remBytes != 0 && c.rw.segmented && ReadingAt(Plan(c), a, n, 248 * j)
    requires |c.rspMem| == n && c.rspMem[..248 * j] == Bytes(mem, a, 248 * j) && Asked(c.sent, a, n, j)
    ensures var d := AfterReply(c, Success, env);
      Reading(d, mem, a, n, j) && d.calls == c.calls && d.rw.remBytes == c.rw.remBytes && d.state == Recv
  {
    PieceSent(c, env, a, n, 248 * j);
    OneMoreAsked(AfterReply(c, Success, env).sent, a, n, j);
  }

  lemma AnswerStep(c: Ctx, b: seq<byte>, env: Env)
    requires InFlight(c) && c.kind == KRead && c.reading
    ensures Step(c, Move(ReplyIn(b), env)) == RespondRW(Taken(c, b), Done(true, |b|), env)
    ensures TakenFrom(c, Taken(c, b))
  {}

  /** `t` is `c` with a reply in its buffer and no timer. */
  predicate TakenFrom(c: Ctx, t: Ctx) {
    && Arrived(t) && !t.expired
    && t == c.(reading := false, buff := t.buff, timerOn := false, armed := NoTimer, state := Response)
  }

  /** Counters after the answer to request `j`. */
  predicate CountedTo(rw: RWInfo, a: nat, n: nat, j: nat) {
    && 248 * j < n
    && var done := 248 * j + Chunk(n - 248 * j);
    && (done < n ==> rw.addr == a + done)
    && rw.offset == done && rw.bytesRead == done && rw.remBytes == n - done
    && rw.pldSize == READ_PLD && rw.segmented == (Add16(n, 4) > MAX_PLD)
  }

  lemma AnswerCounted(rw: RWInfo, a: nat, n: nat, j: nat)
    requires Range(a, n) && ReadingAt(rw, a, n, 248 * j)
    ensures CountedTo(AfterAnswer(rw), a, n, j)
  {}

  lemma CountedPlans(c: Ctx, a: nat, n: nat, j: nat)
    requires Range(a, n) && READ_PLD < n <= 65531 && c.kind == KRead && CountedTo(c.rw, a, n, j)
      && n - 248 * j > READ_PLD
    ensures c.rw.segmented && ReadingAt(Plan(c), a, n, 248 * (j + 1))
  {}

  /** The context after an answer has been copied: `j + 1` pieces are in the caller's buffer. */
  ghost predicate Copied(c: Ctx, d: Ctx, mem: Memory, a: nat, n: nat, j: nat)
    requires Range(a, n)
  {
    && Answered(d, Success) && d.kind == KRead && d.addr == a && |d.rspMem| == n
    && CountedTo(d.rw, a, n, j) && d.rspLen == d.rw.bytesRead
    && d.rspMem[..d.rw.bytesRead] == Bytes(mem, a, d.rw.bytesRead)
    && d.sent == c.sent && d.calls == c.calls
  }

  lemma AnswerTaken(c: Ctx, mem: Memory, a: nat, k: nat, b: seq<byte>)
    requires InFlight(c) && c.kind == KRead && c.rw.xfer == k && ValidAnswer(b, mem, a, k)
    ensures ProcessFrame(Taken(c, b), Done(true, |b|)) == Outcome(WithAnswer(Taken(c, b), Bytes(mem, a, k)), Success)
  {
    var u := StopTimer(c.(reading := false));
    assert Taken(c, b) == u.(buff := Overlay(u.buff, 0, b));
    AnswerFound(u, b, mem, a, k);
    AckReadCopies(Taken(c, b), Bytes(mem, a, k));
  }

  lemma Responds(t: Ctx, info: Info, env: Env, d: Ctx)
    requires ProcessFrame(t, info) == Outcome(d, Success) && !t.expired
    ensures RespondRW(t, info, env) == AfterReply(d, Success, env)
  {}

  lemma CopiedFrom(c: Ctx, t: Ctx, mem: Memory, a: nat, n: nat, j: nat, x: nat, k: nat)
    requires Range(a, n) && Reading(c, mem, a, n, j) && TakenFrom(c, t) && x == a + 248 * j && k == Chunk(n - 248 * j)
    ensures Copied(c, WithAnswer(t, Bytes(mem, x, k)), mem, a, n, j)
  {
    var d := WithAnswer(t, Bytes(mem, x, k));
    AnswerCounted(c.rw, a, n, j);
    BytesGrow(mem, a, c.rspMem, 248 * j, k);
    if d.rw.remBytes != 0 { GoesOnAfter(c.rw, d.rspLen, a); }
  }

  lemma GoesOnAfter(rw: RWInfo, len: u16, a: nat)
    requires ReadCounters(rw) && len == AfterAnswer(rw).bytesRead && AfterAnswer(rw).remBytes != 0
    ensures len != 0 && ReadCounters(PlanRead(len, a, AfterAnswer(rw)))
  {}

  lemma CopiedGoesOn(c: Ctx, d: Ctx, env: Env, mem: Memory, a: nat, n: nat, j: nat)
    requires Range(a, n) && n <= 65531 && Copied(c, d, mem, a, n, j) && env.writeOk
    requires Asked(c.sent, a, n, j + 1) && n - 248 * j > READ_PLD
    ensures var e := AfterReply(d, Success, env);
      Reading(e, mem, a, n, j + 1) && e.calls == c.calls && e.rw.remBytes == n - 248 * (j + 1) && e.state == Recv
  {
    CountedPlans(d, a, n, j);
    NextRequest(d, env, mem, a, n, j + 1);
  }

  lemma CopiedCompletes(c: Ctx, d: Ctx, env: Env, mem: Memory, a: nat, n: nat, j: nat)
    requires Range(a, n) && Copied(c, d, mem, a, n, j)
    requires Asked(c.sent, a, n, j + 1) && n - 248 * j <= READ_PLD
    ensures ReadComplete(AfterReply(d, Success, env), mem, a, n, c.calls)
  {
    CountedBy(n, j);
    assert d.rspMem[..n] == d.rspMem;
  }

  lemma AnswerLeads(c: Ctx, mem: Memory, a: nat, k: nat, b: seq<byte>, env: Env)
    requires InFlight(c) && c.kind == KRead && c.reading && c.rw.xfer == k && ValidAnswer(b, mem, a, k)
    ensures Step(c, Move(ReplyIn(b), env)) == AfterReply(WithAnswer(Taken(c, b), Bytes(mem, a, k)), Success, env)
  {
    var t := Taken(c, b);
    AnswerStep(c, b, env);
    AnswerTaken(c, mem, a, k, b);
    Responds(t, Done(true, |b|), env, WithAnswer(t, Bytes(mem, a, k)));
  }

  /** What the read has come to after the answer to request `j`. */
  ghost predicate Moved(c: Ctx, d: Ctx, mem: Memory, a: nat, n: nat, j: nat)
    requires Range(a, n)
  {
    || (n - 248 * j <= READ_PLD && ReadComplete(d, mem, a, n, c.calls))
    || (Reading(d, mem, a, n, j + 1) && d.calls == c.calls && d.rw.remBytes < c.rw.remBytes && d.state == Recv)
  }

  lemma TakenMoves(c: Ctx, t: Ctx, mem: Memory, a: nat, n: nat, j: nat, x: nat, k: nat, env: Env)
    requires Range(a, n) && n <= 65531 && Reading(c, mem, a, n, j) && TakenFrom(c, t) && env.writeOk
    requires x == a + 248 * j && k == Chunk(n - 248 * j)
    ensures Moved(c, AfterReply(WithAnswer(t, Bytes(mem, x, k)), Success, env), mem, a, n, j)
  {
    CopiedFrom(c, t, mem, a, n, j, x, k);
    var d := WithAnswer(t, Bytes(mem, x, k));
    if n - 248 * j <= READ_PLD {
      CopiedCompletes(c, d, env, mem, a, n, j);
    } else {
      CopiedGoesOn(c, d, env, mem, a, n, j);
    }
  }

  /* ---- Whole runs ---- */

  /** The chip answers the request that is out. */
  lemma RequestOut(c: Ctx, mem: Memory, a: nat, n: nat, j: nat)
    requires Range(a, n) && Reading(c, mem, a, n, j)
    ensures c.sent != [] && var f := c.sent[|c.sent| - 1];
      ProperRequest(f) && RequestAddr(f) == a + 248 * j && RequestLen(f) == Chunk(n - 248 * j)
  {
    assert Asks(c.sent[j], a + 248 * j, Chunk(n - 248 * j));
  }

  lemma SentStep(c: Ctx, mem: Memory, a: nat, n: nat, j: nat, env: Env)
    requires Range(a, n) && Reading(c, mem, a, n, j) && c.writing && env.readOk
    ensures var d := Step(c, Move(WriteDone(true), env));
      StepsLeft(d) < StepsLeft(c) && Reading(d, mem, a, n, j) && d.calls == c.calls
  {
    WriteDoneKeeps(c, env);
  }

  lemma MovedAlong(c: Ctx, d: Ctx, mem: Memory, a: nat, n: nat, j: nat)
    requires Range(a, n) && Reading(c, mem, a, n, j) && c.state != Recv && Moved(c, d, mem, a, n, j)
    ensures StepsLeft(d) < StepsLeft(c)
    ensures ReadComplete(d, mem, a, n, c.calls) || (ReadingSomewhere(d, mem, a, n) && d.calls == c.calls)
  {}

  lemma AnsweredStep(c: Ctx, mem: Memory, a: nat, n: nat, j: nat, m: Move)
    requires Range(a, n) && n <= 65531 && Reading(c, mem, a, n, j)
    requires Enabled(c, m.input) && Answers(c, m.input, mem) && m.env.writeOk && m.env.readOk
    ensures var d := Step(c, m);
      && StepsLeft(d) < StepsLeft(c)
      && (ReadComplete(d, mem, a, n, c.calls) || (ReadingSomewhere(d, mem, a, n) && d.calls == c.calls))
  {
    match m.input
    case WriteDone(ok) => SentStep(c, mem, a, n, j, m.env);
    case ReplyIn(b) =>
      var f := c.sent[|c.sent| - 1];
      var x, k := RequestAddr(f), RequestLen(f);
      var t := Taken(c, b);
      assert x == a + 248 * j && k == Chunk(n - 248 * j) by { RequestOut(c, mem, a, n, j); }
      assert TakenFrom(c, t) by { AnswerStep(c, b, m.env); }
      assert Step(c, m) == AfterReply(WithAnswer(t, Bytes(mem, x, k)), Success, m.env) by {
        AnswerLeads(c, mem, x, k, b, m.env);
      }
      TakenMoves(c, t, mem, a, n, j, x, k, m.env);
      MovedAlong(c, Step(c, m), mem, a, n, j);
  }

  /** The context of a read request as its first frame is built. */
  function Requested(c: Ctx, dst: seq<byte>, a: nat, env: Env): Ctx
    requires |dst| < 0x10000
  {
    WithTimer(c.(kind := KRead, cmd := CMD_READ, addr := a, user := [], rspMem := dst, rspLen := |dst|,
                 rw := CLEARED, sent := [], event := Read, inProgress := true), env).(state := Send)
  }

  lemma RequestSends(c: Ctx, dst: seq<byte>, a: nat, env: Env)
    requires Idle(c) && 0 < |dst| < 0x10000
    ensures ReadRequest(c, dst, a, env) == SendNew(Requested(c, dst, a, env), env)
  {}

  lemma FirstPieceSent(g: Ctx, env: Env, a: nat, n: nat)
    requires Range(a, n) && g.kind == KRead && g.cmd == CMD_READ && g.rspLen != 0 && env.writeOk && g.sent == []
    requires ReadingAt(Plan(g), a, n, 0)
    ensures var d := SendNew(g, env);
      && d.rw == Plan(g) && d.calls == g.calls && d.addr == g.addr && d.rspMem == g.rspMem && d.armed == g.armed
      && |d.sent| == 1 && Asks(d.sent[0], a, Chunk(n))
  {
    var f := BuildRead(g, a, n, 0);
  }

  /** The request itself sends the first piece. */
  lemma ReadStarts(c: Ctx, dst: seq<byte>, mem: Memory, a: nat, env: Env) returns (d: Ctx)
    requires Idle(c) && Range(a, |dst|) && env.writeOk
    ensures d == ReadRequest(c, dst, a, env) && Reading(d, mem, a, |dst|, 0) && d.calls == c.calls
    ensures d.rw.remBytes == |dst|
  {
    var n, g := |dst|, Requested(c, dst, a, env);
    d := ReadRequest(c, dst, a, env);
    assert d == SendNew(g, env) by { RequestSends(c, dst, a, env); }
    assert InFlight(d) && d.kind == KRead by { ReadAccepted(c, dst, a, env); }
    assert ReadingAt(Plan(g), a, n, 0);
    FirstPieceSent(g, env, a, n);
    OneMoreAsked(d.sent, a, n, 0);
  }

  /* ---- Lengths beyond 65531 ---- */

  /** The length check wraps, the transfer is not marked as segmented, and after the first piece
      the code starts over with that piece's length as the whole. */
  predicate StartedOver(c: Ctx, a: nat) {
    && InFlight(c) && c.kind == KRead && c.addr == a && ReadingAt(c.rw, a, READ_PLD, 0)
    && c.sent != [] && Asks(c.sent[|c.sent| - 1], a, READ_PLD) && c.armed != ResendTimer
  }

  predicate Truncated(c: Ctx, calls: seq<Status>) {
    Idle(c) && c.calls == calls + [Success] && c.rspLen == 248
  }

  lemma FirstPieceRestarts(c: Ctx, mem: Memory, a: nat, n: nat, b: seq<byte>, env: Env)
    requires Range(a, n) && n > 65531 && Reading(c, mem, a, n, 0) && c.reading && env.writeOk
    requires ValidAnswer(b, mem, a, READ_PLD)
    ensures var d := Step(c, Move(ReplyIn(b), env)); StartedOver(d, a) && d.calls == c.calls
  {
    AnswerLeads(c, mem, a, READ_PLD, b, env);
    AnswerStep(c, b, env);
    var t := Taken(c, b);
    CopiedFrom(c, t, mem, a, n, 0, a, READ_PLD);
    RestartFrom(c, WithAnswer(t, Bytes(mem, a, READ_PLD)), mem, a, n, env);
  }

  lemma RestartFrom(c: Ctx, d: Ctx, mem: Memory, a: nat, n: nat, env: Env)
    requires Range(a, n) && n > 65531 && Copied(c, d, mem, a, n, 0) && env.writeOk
    ensures var e := AfterReply(d, Success, env); StartedOver(e, a) && e.calls == c.calls
  {
    assert ReadingAt(Plan(d), a, READ_PLD, 0);
    PieceSent(d, env, a, READ_PLD, 0);
  }

  lemma SecondPieceEnds(c: Ctx, t: Ctx, a: nat, data: seq<byte>, env: Env)
    requires Range(a, READ_PLD) && StartedOver(c, a) && TakenFrom(c, t)
    ensures Truncated(AfterReply(WithAnswer(t, data), Success, env), c.calls)
  {
    AnswerCounted(c.rw, a, READ_PLD, 0);
  }

  /** The answer to the first piece. */
  lemma FirstAnswer(c: Ctx, mem: Memory, a: nat, n: nat, m: Move)
    requires Range(a, n) && n > 65531 && Reading(c, mem, a, n, 0) && m.input.ReplyIn?
    requires Enabled(c, m.input) && Answers(c, m.input, mem) && m.env.writeOk
    ensures StartedOver(Step(c, m), a) && Step(c, m).calls == c.calls
  {
    RequestOut(c, mem, a, n, 0);
    FirstPieceRestarts(c, mem, a, n, m.input.bytes, m.env);
  }

  /** The answer to the piece that was asked for again. */
  lemma SecondAnswer(c: Ctx, mem: Memory, a: nat, m: Move)
    requires Range(a, 248) && StartedOver(c, a) && m.input.ReplyIn? && Enabled(c, m.input) && Answers(c, m.input, mem)
    ensures Truncated(Step(c, m), c.calls)
  {
    var b := m.input.bytes;
    var t := Taken(c, b);
    assert TakenFrom(c, t) by { AnswerStep(c, b, m.env); }
    assert Step(c, m) == AfterReply(WithAnswer(t, Bytes(mem, a, 248)), Success, m.env) by {
      AnswerLeads(c, mem, a, 248, b, m.env);
    }
    SecondPieceEnds(c, t, a, Bytes(mem, a, 248), m.env);
  }

  lemma TruncatedStep(c: Ctx, mem: Memory, a: nat, n: nat, m: Move)
    requires Range(a, n) && n > 65531 && (Reading(c, mem, a, n, 0) || StartedOver(c, a))
    requires Enabled(c, m.input) && Answers(c, m.input, mem) && m.env.writeOk && m.env.readOk
    ensures var d := Step(c, m);
      && StepsLeft(d) < StepsLeft(c)
      && (Truncated(d, c.calls) || ((Reading(d, mem, a, n, 0) || StartedOver(d, a)) && d.calls == c.calls))
  {
    if m.input.WriteDone? {
      WriteDoneKeeps(c, m.env);
    } else if Reading(c, mem, a, n, 0) {
      FirstAnswer(c, mem, a, n, m);
      RestartIsCloser(c, Step(c, m), a, n);
    } else {
      SecondAnswer(c, mem, a, m);
    }
  }

  lemma RestartIsCloser(c: Ctx, d: Ctx, a: nat, n: nat)
    requires n > 65531 && InFlight(c) && c.kind == KRead && c.rw.remBytes == n && StartedOver(d, a)
    ensures StepsLeft(d) < StepsLeft(c)
  {}

  /* ---- Whole answered runs, of any length ---- */

  /** The read stands somewhere in the range; a long one at its first piece, or there again. */
  ghost predicate Ongoing(c: Ctx, mem: Memory, a: nat, n: nat)
    requires Range(a, n)
  {
    if n <= 65531 then ReadingSomewhere(c, mem, a, n) else Reading(c, mem, a, n, 0) || StartedOver(c, a)
  }

  /** The read is over; a long one with its first piece only. */
  ghost predicate Over(c: Ctx, mem: Memory, a: nat, n: nat, calls: seq<Status>)
    requires Range(a, n)
  {
    if n <= 65531 then ReadComplete(c, mem, a, n, calls) else Truncated(c, calls)
  }

  lemma OngoingStep(c: Ctx, mem: Memory, a: nat, n: nat, m: Move)
    requires Range(a, n) && Ongoing(c, mem, a, n)
    requires Enabled(c, m.input) && Answers(c, m.input, mem) && m.env.writeOk && m.env.readOk
    ensures var d := Step(c, m);
      && StepsLeft(d) < StepsLeft(c)
      && (Over(d, mem, a, n, c.calls) || (Ongoing(d, mem, a, n) && d.calls == c.calls))
  {
    if n <= 65531 {
      var j :| Reading(c, mem, a, n, j);
      AnsweredStep(c, mem, a, n, j, m);
    } else {
      TruncatedStep(c, mem, a, n, m);
    }
  }

  /** The answer of a chip that has the memory. */
  function AnswerFrame(mem: Memory, a: nat, n: nat): seq<byte>
    requires n <= READ_PLD
  {
    Sealed([0, n + 4, ST_OK, 0, n, 0] + Bytes(mem, a, n))
  }

  lemma AnswerFrameIsValid(mem: Memory, a: nat, n: nat)
    requires n <= READ_PLD
    ensures ValidAnswer(AnswerFrame(mem, a, n), mem, a, n)
  {
    var head: seq<byte>, data := [0, n + 4, ST_OK, 0, n, 0], Bytes(mem, a, n);
    var body := head + data;
    var f := Sealed(body);
    ChecksIffCrcBytes(body, CrcBytes(body));
    assert f[..6] == head && f[6..6 + n] == data;
    assert forall i :: 0 <= i < 6 ==> f[i] == f[..6][i];
  }

  lemma LastAsks(c: Ctx, mem: Memory, a: nat, n: nat)
    requires Range(a, n) && Ongoing(c, mem, a, n)
    ensures InFlight(c) && c.kind == KRead && c.armed != ResendTimer && c.sent != []
    ensures ProperRequest(c.sent[|c.sent| - 1]) && RequestLen(c.sent[|c.sent| - 1]) <= 248
  {
    if n <= 65531 {
      var j :| Reading(c, mem, a, n, j);
      RequestOut(c, mem, a, n, j);
    } else if Reading(c, mem, a, n, 0) {
      RequestOut(c, mem, a, n, 0);
    }
  }

  /** A chip that has the memory can always answer. */
  lemma AnswerExists(c: Ctx, mem: Memory, a: nat, n: nat) returns (i: Input)
    requires Range(a, n) && Ongoing(c, mem, a, n)
    ensures Enabled(c, i) && Answers(c, i, mem)
  {
    LastAsks(c, mem, a, n);
    if c.writing {
      i := WriteDone(true);
    } else {
      var f := c.sent[|c.sent| - 1];
      var x, k := RequestAddr(f), RequestLen(f);
      AnswerFrameIsValid(mem, x, k);
      i := ReplyIn(AnswerFrame(mem, x, k));
    }
  }

  /** Where an answered run may stand: at its end, or on its way with an answer to come. */
  ghost predicate Along(d: Ctx, mem: Memory, a: nat, n: nat, calls: seq<Status>)
    requires Range(a, n)
  {
    || Over(d, mem, a, n, calls)
    || (Ongoing(d, mem, a, n) && d.calls == calls && exists i :: Enabled(d, i) && Answers(d, i, mem))
  }

  lemma {:induction false} AnsweredRunReads(c: Ctx, mem: Memory, a: nat, n: nat, ms: seq<Move>)
    requires Range(a, n) && Ongoing(c, mem, a, n) && Legal(c, ms) && AnsweredRun(c, ms, mem)
    ensures var d := Run(c, ms);
      |ms| + StepsLeft(d) <= StepsLeft(c) && Along(d, mem, a, n, c.calls)
    decreases |ms|
  {
    if ms == [] {
      var i := AnswerExists(c, mem, a, n);
    } else {
      var d := Step(c, ms[0]);
      OngoingStep(c, mem, a, n, ms[0]);
      if Over(d, mem, a, n, c.calls) {
        NeverStuck(d);
        assert ms[1..] == [];
      } else {
        AnsweredRunReads(d, mem, a, n, ms[1..]);
      }
    }
  }

  /** From wherever it stands, the read can be answered to its end. */
  lemma {:induction false} AnsweredToTheEnd(c: Ctx, mem: Memory, a: nat, n: nat) returns (ms: seq<Move>)
    requires Range(a, n) && Ongoing(c, mem, a, n)
    ensures Legal(c, ms) && AnsweredRun(c, ms, mem) && Over(Run(c, ms), mem, a, n, c.calls)
    decreases StepsLeft(c)
  {
    var i := AnswerExists(c, mem, a, n);
    var m := Move(i, Env(0, true, true, true));
    var d := Step(c, m);
    OngoingStep(c, mem, a, n, m);
    var rest := [];
    if !Over(d, mem, a, n, c.calls) { rest := AnsweredToTheEnd(d, mem, a, n); }
    ms := [m] + rest;
    assert ms[1..] == rest;
  }

  /** For every length up to 65531 and every run with conforming answers: the run is bounded and
      can be answered on, the requests sent are the ones that tile the range, and when it stops
      the caller's buffer holds the range and the reported length is the requested one. */
  lemma ReadReassembled(c: Ctx, dst: seq<byte>, mem: Memory, a: nat, env: Env)
    requires Idle(c) && Range(a, |dst|) && |dst| <= 65531 && env.writeOk
    ensures var d := ReadRequest(c, dst, a, env);
      forall ms :: Legal(d, ms) && AnsweredRun(d, ms, mem) ==>
        && |ms| <= 2 * |dst| + 1
        && var e := Run(d, ms);
           || ReadComplete(e, mem, a, |dst|, c.calls)
           || (&& ReadingSomewhere(e, mem, a, |dst|) && e.calls == c.calls
               && exists i :: Enabled(e, i) && Answers(e, i, mem))
  {
    var d := ReadStarts(c, dst, mem, a, env);
    forall ms | Legal(d, ms) && AnsweredRun(d, ms, mem)
      ensures |ms| <= 2 * |dst| + 1 && Along(Run(d, ms), mem, a, |dst|, c.calls)
    {
      AnsweredRunReads(d, mem, a, |dst|, ms);
    }
  }

  /** For every longer read every such run is bounded, can be answered on, and ends reporting only
      the first 248 bytes. */
  lemma LongReadTruncated(c: Ctx, dst: seq<byte>, mem: Memory, a: nat, env: Env)
    requires Idle(c) && Range(a, |dst|) && |dst| > 65531 && env.writeOk
    ensures var d := ReadRequest(c, dst, a, env);
      forall ms :: Legal(d, ms) && AnsweredRun(d, ms, mem) ==>
        && |ms| <= 2 * |dst| + 1
        && var e := Run(d, ms);
           || Truncated(e, c.calls)
           || (e.calls == c.calls && exists i :: Enabled(e, i) && Answers(e, i, mem))
  {
    var d := ReadStarts(c, dst, mem, a, env);
    forall ms | Legal(d, ms) && AnsweredRun(d, ms, mem)
      ensures |ms| <= 2 * |dst| + 1 && Along(Run(d, ms), mem, a, |dst|, c.calls)
    {
      AnsweredRunReads(d, mem, a, |dst|, ms);
    }
  }

  /** Every read can be answered to its end, and then reports the requested length if and only if
      that length is at most 65531. */
  lemma ReadCompleteIff(c: Ctx, dst: seq<byte>, mem: Memory, a: nat, env: Env) returns (run: seq<Move>)
    requires Idle(c) && Range(a, |dst|) && env.writeOk
    ensures var d := ReadRequest(c, dst, a, env);
      Legal(d, run) && AnsweredRun(d, run, mem) && Idle(Run(d, run))
    ensures var d := ReadRequest(c, dst, a, env);
      forall ms :: Legal(d, ms) && AnsweredRun(d, ms, mem) && Idle(Run(d, ms)) ==>
        (Run(d, ms).rspLen == |dst| <==> |dst| <= 65531)
  {
    var d := ReadStarts(c, dst, mem, a, env);
    run := AnsweredToTheEnd(d, mem, a, |dst|);
    forall ms | Legal(d, ms) && AnsweredRun(d, ms, mem) && Idle(Run(d, ms))
      ensures Run(d, ms).rspLen == |dst| <==> |dst| <= 65531
    {
      AnsweredRunReads(d, mem, a, |dst|, ms);
    }
  }

  /** The read that fails: any of more than 65531 bytes has an answered run that ends with success
      and 248 bytes. */
  lemma LongReadHappens(c: Ctx, dst: seq<byte>, mem: Memory, a: nat, env: Env) returns (ms: seq<Move>)
    requires Idle(c) && Range(a, |dst|) && |dst| > 65531 && env.writeOk
    ensures var d := ReadRequest(c, dst, a, env);
      Legal(d, ms) && AnsweredRun(d, ms, mem) && Truncated(Run(d, ms), c.calls)
  {
    var d := ReadStarts(c, dst, mem, a, env);
    ms := AnsweredToTheEnd(d, mem, a, |dst|);
  }
}
