/**
  The commands that take one frame and one reply, byte for byte: what goes out, what comes back to
  the caller, and with which status.  The same for a read that is answered wrongly or not at all.
 */
module DnldCommands {
  import opened CrcRegister
  import opened Crc
  import opened DnldWrite
  import opened DnldHandler
  import opened DnldRuns
  import opened DnldReads
  import opened DnldCompletion

  /* ---- What goes out ---- */

  /** The frame of a command without its CRC: a two-byte length, the command, and its input. */
  predicate IsBody(body: seq<byte>, kind: Kind, cmd: byte, user: seq<byte>) {
    match kind
    case KChkIntg => body == [0, 8, cmd, 0, 0, 0, 0xbc, 0x02, 0x00, 0x0c]
    case KLog => |user| <= 64 && body == [0, 4 + |user|, cmd, 0, 0, 0] + user
    case KForce => body == [0, 4, cmd] + user
    case _ => body == [0, 4, cmd, 0, 0, 0]
  }

  lemma CommandBodyIs(kind: Kind, cmd: byte, user: seq<byte>)
    requires kind != KRaw && (kind == KLog ==> |user| <= 64) && (kind == KForce ==> |user| == 3)
    ensures IsBody(CommandBody(cmd, CommandTail(kind, user)), kind, cmd, user)
    ensures |CommandBody(cmd, CommandTail(kind, user))| <= 70
  {
    var body := CommandBody(cmd, CommandTail(kind, user));
    if kind == KLog {
      assert body == [0, 4 + |user|, cmd, 0, 0, 0] + user;
    } else if kind == KForce {
      assert body == [0, 4, cmd] + user;
    }
  }

  /** A pending command has sent one frame: for a raw request the caller's bytes, otherwise the body
      with the CRC that makes it pass the receiver's check. */
  lemma CommandSent(c: Ctx, e: Event, kind: Kind, cmd: byte, user: seq<byte>, mem: seq<byte>, env: Env)
      returns (f: seq<byte>)
    requires Idle(c) && IsCommand(e, kind, cmd, user) && |mem| < 0x10000 && env.writeOk
    ensures var d := CommandRequest(c, e, kind, cmd, user, mem, env); d.sendStatus == Pending ==> d.sent == [f]
    ensures if kind == KRaw then f == user else |f| >= 2 && FrameChecks(f) && IsBody(f[..|f| - 2], kind, cmd, user)
  {
    CommandSends(c, e, kind, cmd, user, mem, env);
    var g := CommandStart(c, e, kind, cmd, user, mem, env);
    if kind == KRaw {
      f := user;
    } else {
      f := CommandFrame(kind, cmd, user);
    }
    SentAsBuilt(g, env, f);
  }

  lemma CommandFrame(kind: Kind, cmd: byte, user: seq<byte>) returns (f: seq<byte>)
    requires kind != KRaw && (kind == KLog ==> |user| <= 64) && (kind == KForce ==> |user| == 3)
    ensures f == Sealed(CommandBody(cmd, CommandTail(kind, user))) && 2 <= |f| <= 72
    ensures FrameChecks(f) && IsBody(f[..|f| - 2], kind, cmd, user)
  {
    var body := CommandBody(cmd, CommandTail(kind, user));
    CommandBodyIs(kind, cmd, user);
    ChecksIffCrcBytes(body, CrcBytes(body));
    f := Sealed(body);
    assert f[..|f| - 2] == body;
  }

  lemma SentAsBuilt(g: Ctx, env: Env, f: seq<byte>)
    requires CanBuild(g) && g.kind != KWrite && g.kind != KRead && env.writeOk && g.sent == []
    requires f == FrameFor(g) && |f| <= MAX_BUFF
    ensures SendNew(g, env).sent == [f]
  {
    assert Fill(f)[..|f|] == f;
  }

  /* ---- What comes back ---- */

  /** A raw request takes any reply; another command one with status 0, whose bytes between the
      status and the CRC go to a caller who wants them.  Everything else is a failure and leaves
      the caller's memory alone. */
  lemma CommandReplied(c: Ctx, b: seq<byte>, env: Env)
    requires CommandUnderWay(c) && c.reading && |b| <= 256 && env.writeOk
    ensures var d := Step(c, Move(ReplyIn(b), env));
      Idle(d) && d.calls == c.calls + [if Counts(c.kind, b) then Success else Failed] && HandedOver(c, b, d)
  {
    var t, info := Taken(c, b), Done(true, |b|);
    ReplyResponds(c, b, env);
    CommandJudged(t, c.buff, b);
    ProcessFrameKeepsControl(t, info);
    CommandEnds(t, info, env);
  }

  /** The reply counts: any for a raw request, a genuine one with status 0 for another command. */
  predicate Counts(kind: Kind, b: seq<byte>) { if kind == KRaw then b != [] else ReplyStatus(b) == Some(0) }

  /** What has reached the caller when the reply `b` turns the context `c` into `d`. */
  predicate HandedOver(c: Ctx, b: seq<byte>, d: Ctx) {
    && (!Counts(c.kind, b) || c.rspLen == 0 ==> d.rspMem == c.rspMem && d.rspLen == c.rspLen)
    && (Counts(c.kind, b) && c.rspLen != 0 && c.kind == KRaw ==>
          d.rspMem == Overlay(c.rspMem, 0, b) && d.rspLen == |b|)
    && (Counts(c.kind, b) && c.rspLen != 0 && c.kind != KRaw && |b| >= 5 ==>
          d.rspMem == Overlay(c.rspMem, 0, b[3..|b| - 2]) && d.rspLen == |b| - 5)
  }

  lemma RawJudged(t: Ctx, b: seq<byte>)
    requires |b| <= |t.buff| == 256 && t.buff[..|b|] == b && t.kind == KRaw
    ensures var o := ProcessFrame(t, Done(true, |b|));
      o.st == (if Counts(t.kind, b) then Success else Failed) && o.c.rw == t.rw && HandedOver(t, b, o.c)
  {}

  lemma PlainJudged(t: Ctx, b: seq<byte>)
    requires 3 <= |b| <= |t.buff| == 256 && t.buff[..|b|] == b && At(t.buff, 2) == b[2]
    ensures var o := AckCommand(t, Sub16(|b|, 5));
      && o.st == (if b[2] == 0 then Success else Failed) && o.c.rw == t.rw
      && (b[2] != 0 || t.rspLen == 0 ==> o.c == t)
      && (b[2] == 0 && t.rspLen != 0 && |b| >= 5 ==>
            o.c.rspMem == Overlay(t.rspMem, 0, b[3..|b| - 2]) && o.c.rspLen == |b| - 5)
  {
    if |b| >= 5 { PayloadInBuffer(t.buff, b); }
  }

  /** What the checks make of a reply that lies in the buffer. */
  lemma CommandJudged(t: Ctx, buff: seq<byte>, b: seq<byte>)
    requires |buff| == 256 && |b| <= 256 && t.buff == Overlay(buff, 0, b)
    requires t.cmd != CMD_WRITE && t.cmd != CMD_READ
    ensures var o := ProcessFrame(t, Done(true, |b|));
      o.st == (if Counts(t.kind, b) then Success else Failed) && o.c.rw == t.rw && HandedOver(t, b, o.c)
  {
    InTheBuffer(buff, b);
    if t.kind == KRaw {
      RawJudged(t, b);
    } else {
      Checked(t, b);
      if Genuine(b) {
        assert UpdateRsp(t, Sub16(|b|, 5)) == AckCommand(t, Sub16(|b|, 5));
        PlainJudged(t, b);
      }
    }
  }

  lemma PayloadInBuffer(buff: seq<byte>, b: seq<byte>)
    requires 5 <= |b| <= |buff| && buff[..|b|] == b
    ensures Slice(buff, 3, |b| - 5) == b[3..|b| - 2]
  {
    var got, want := Slice(buff, 3, |b| - 5), b[3..|b| - 2];
    forall i | 0 <= i < |want| ensures got[i] == want[i] {
      assert got[i] == At(buff, 3 + i) == buff[3 + i];
      assert buff[3 + i] == buff[..|b|][3 + i];
    }
  }

  lemma CommandEnds(t: Ctx, info: Info, env: Env)
    requires |t.buff| == MAX_BUFF && !t.writing && !t.reading && !t.expired && !t.resend
    requires var o := ProcessFrame(t, info);
      SameControl(t, o.c) && o.st != Busy && (IsRW(t.event) ==> o.c.rw.remBytes == 0)
    ensures var o := ProcessFrame(t, info);
      var d := if IsRW(t.event) then RespondRW(t, info, env) else RespondSeq(t, info);
      Idle(d) && d.calls == t.calls + [o.st] && d.rspMem == o.c.rspMem && d.rspLen == o.c.rspLen
  {}

  /** A command that is not answered in time, or not sent, is timed out; a reset has then worked. */
  lemma CommandExpires(c: Ctx, i: Input, env: Env)
    requires CommandUnderWay(c) && Enabled(c, i) && (i == RspFires || i == WriteDone(false))
    requires env.writeOk && env.readOk
    ensures var d := Step(c, Move(i, env));
      Idle(d) && d.calls == c.calls + [if c.event == Reset then Success else Timeout]
  {
    StepProgresses(c, Move(i, env));
  }

  /* ---- A read that fails ---- */

  /** A reply to a read that is not genuine, carries another status than 0 or another length than
      was asked for ends the read as failed and leaves the caller's memory as it is. */
  lemma ReadReplyFails(c: Ctx, b: seq<byte>, env: Env)
    requires InFlight(c) && c.kind == KRead && c.reading && |b| <= 256
    requires ReplyStatus(b) != Some(0) || RequestLen(Overlay(c.buff, 0, b)) != c.rw.xfer
    ensures var d := Step(c, Move(ReplyIn(b), env));
      Idle(d) && d.calls == c.calls + [Failed] && d.rspMem == c.rspMem && d.rspLen == c.rspLen
  {
    var t, info := Taken(c, b), Done(true, |b|);
    assert ProcessFrame(t, info) == Outcome(t, Failed) by {
      InTheBuffer(c.buff, b);
      Checked(t, b);
      assert UpdateRsp(t, Sub16(|b|, 5)) == AckRead(t);
    }
    AnswerStep(c, b, env);
  }

  /** A read that is not answered in time, or not sent, is timed out. */
  lemma ReadExpires(c: Ctx, i: Input, env: Env)
    requires InFlight(c) && c.kind == KRead && Enabled(c, i) && (i == RspFires || i == WriteDone(false))
    ensures var d := Step(c, Move(i, env)); Idle(d) && d.calls == c.calls + [Timeout] && d.rspMem == c.rspMem
  {}
}
