/**
  The download context as the code keeps it: one object whose fields every handler updates in
  place, and one buffer that holds the frame being sent and then the reply.  Each method is
  proved to take the value of the object to the value given by DnldHandler.
 */
module DnldContext {
  import opened CrcRegister
  import opened Crc
  import opened DnldWrite
  import opened DnldHandler

  /** The buffer holds `s` and zeros behind it. */
  ghost predicate Holds(buff: seq<byte>, s: seq<byte>) {
    |s| <= MAX_BUFF && buff == s + Zeroes(MAX_BUFF - |s|)
  }

  function Put(buff: seq<byte>, at: nat, data: seq<byte>): (r: seq<byte>)
    requires at + |data| <= |buff|
    ensures |r| == |buff|
  {
    buff[..at] + data + buff[at + |data|..]
  }

  lemma PutBehind(buff: seq<byte>, s: seq<byte>, data: seq<byte>)
    requires Holds(buff, s) && |s| + |data| <= MAX_BUFF
    ensures |buff| == MAX_BUFF && Holds(Put(buff, |s|, data), s + data)
  {}

  lemma PutBefore(buff: seq<byte>, head: seq<byte>, tail: seq<byte>)
    requires |buff| == MAX_BUFF && |head| + |tail| <= MAX_BUFF
    requires buff == Put(Zeroes(MAX_BUFF), |head|, tail)
    ensures Holds(Put(buff, 0, head), head + tail)
  {}

  lemma HoldsIsFill(buff: seq<byte>, f: seq<byte>)
    requires Holds(buff, f)
    ensures buff == Fill(f) && buff[..|f|] == f
  {}

  lemma PlannedSize(img: seq<byte>, rw: RWInfo)
    requires |img| < 0x10000
    ensures var p := PlanWrite(img, rw);
      (p.pldSize != 0 ==> p.xfer <= MAX_PLD) && (p.pldSize == 0 ==> p.xfer <= MAX_PLD + 2)
  {}

  function ReadTail(cmd: byte, rw: RWInfo): seq<byte> { ReadBody(cmd, rw)[3..] }

  lemma ReadBodyIsCommand(cmd: byte, rw: RWInfo)
    ensures CommandBody(cmd, ReadTail(cmd, rw)) == ReadBody(cmd, rw) && |ReadTail(cmd, rw)| == 7
  {}

  // The parts of the context that the code keeps together.
  datatype Control = Control(event: Event, state: State, inProgress: bool, resend: bool)
  datatype Request = Request(kind: Kind, cmd: byte, addr: nat, user: seq<byte>)
  datatype TimerInfo = TimerInfo(id: nat, on: bool, expired: bool)

  /** What is outstanding below, and what has gone out. */
  datatype Below = Below(writing: bool, reading: bool, armed: Armed, sent: seq<seq<byte>>, calls: seq<Status>)

  class DlContext {
    var ctl: Control
    var req: Request
    var rsp: array<byte>
    var rspLen: u16
    var frame: array<byte>
    var sendLen: nat
    var timer: TimerInfo
    var rw: RWInfo
    var sendStatus: Status
    var lastStatus: byte
    var below: Below

    ghost predicate Valid()
      reads this
    {
      frame.Length == MAX_BUFF && frame != rsp && |req.user| < 0x10000
    }

    ghost function View(): Ctx
      reads this, frame, rsp
    {
      Ctx(ctl.event, ctl.state, ctl.inProgress, ctl.resend, req.kind, req.cmd, req.addr, req.user, rsp[..], rspLen,
          frame[..], sendLen, timer.id, timer.on, timer.expired, rw, sendStatus, lastStatus,
          below.writing, below.reading, below.armed, below.sent, below.calls)
    }

    /** Copies bytes into the frame buffer. */
    method PutBytes(at: nat, data: seq<byte>)
      requires Valid() && at + |data| <= MAX_BUFF
      modifies frame
      ensures frame[..] == Put(old(frame[..]), at, data)
    {
      ghost var was := frame[..];
      var i := 0;
      while i < |data|
        invariant 0 <= i <= |data|
        invariant forall k :: 0 <= k < MAX_BUFF ==> frame[k] == if at <= k < at + i then data[k - at] else was[k]
      {
        frame[at + i] := data[i];
        i := i + 1;
      }
      assert frame[..] == Put(was, at, data);
    }

    /** Clears the frame buffer. */
    method ClearFrame()
      requires Valid()
      modifies frame
      ensures frame[..] == Zeroes(MAX_BUFF)
    {
      var i := 0;
      while i < MAX_BUFF
        invariant 0 <= i <= MAX_BUFF
        invariant forall k :: 0 <= k < i ==> frame[k] == 0
      {
        frame[i] := 0;
        i := i + 1;
      }
      assert frame[..] == Zeroes(MAX_BUFF);
    }

    /** Computes the CRC over the first `len` bytes of the buffer and appends it. */
    method Seal(len: nat, ghost body: seq<byte>)
      requires Valid() && len == |body| && len + 2 <= MAX_BUFF && Holds(frame[..], body)
      modifies frame
      ensures frame[..] == Fill(Sealed(body)) && |Sealed(body)| == len + 2
    {
      HoldsIsFill(frame[..], body);
      var crc := CalcCrc16(frame, len);
      assert frame[..len] == frame[..][..len] == body;
      PutBehind(frame[..], body, [Value(crc.hi), Value(crc.lo)]);
      PutBytes(len, [Value(crc.hi), Value(crc.lo)]);
      assert CrcBytes(body) == [Value(crc.hi), Value(crc.lo)];
      HoldsIsFill(frame[..], Sealed(body));
    }

    /** Counters and payload of a write frame; the header of an unfragmented record is part of it. */
    method PlanWriteFrame()
      requires Valid() && req.kind == KWrite && 0 < |req.user|
      modifies this`rw
      ensures rw == PlanWrite(req.user, old(rw))
    {
      if rw.firstWrite { rw := rw.(remBytes := |req.user|, offset := 0); }
      var frameLen: u16 := 0;
      if !rw.segmented {
        frameLen := 256 * At(req.user, rw.offset) + At(req.user, rw.offset + 1);
        rw := rw.(pldSize := frameLen);
      }
      if rw.pldSize > MAX_PLD {
        if !rw.firstChunkAcked {
          rw := rw.(remChunk := frameLen, offset := Add16(rw.offset, 2));
        }
        if MAX_PLD < rw.remChunk {
          rw := rw.(xfer := MAX_PLD, segmented := true);
        } else {
          rw := rw.(xfer := rw.remChunk, segmented := false);
        }
      } else {
        rw := rw.(pldSize := 0, xfer := Add16(frameLen, 2));
      }
    }

    method PlanReadFrame()
      requires Valid() && req.kind == KRead
      modifies this`rw
      ensures rw == PlanRead(rspLen, req.addr, old(rw))
    {
      if !rw.segmented {
        var frameLen := Add16(rspLen, 4);
        rw := rw.(pldSize := READ_PLD, remBytes := rspLen, addr := req.addr, offset := 0, bytesRead := 0);
        if MAX_PLD < frameLen { rw := rw.(segmented := true); }
      }
      rw := rw.(xfer := if rw.remBytes > rw.pldSize then rw.pldSize else rw.remBytes);
    }

    method PutWriteFrame()
      requires Valid() && req.kind == KWrite && frame[..] == Zeroes(MAX_BUFF)
      requires rw.pldSize != 0 ==> rw.xfer <= MAX_PLD
      requires rw.pldSize == 0 ==> rw.xfer <= MAX_PLD + 2
      modifies this`sendLen, frame
      ensures frame[..] == Fill(WriteFrame(req.user, rw)) && sendLen == |WriteFrame(req.user, rw)|
    {
      var payload := Slice(req.user, rw.offset, rw.xfer);
      if rw.pldSize != 0 {
        var head := Header(rw.xfer, rw.segmented);
        PutBytes(2, payload);
        PutBefore(frame[..], head, payload);
        PutBytes(0, head);
        sendLen := 2 + rw.xfer;
        Seal(sendLen, head + payload);
      } else {
        PutBehind(frame[..], [], payload);
        PutBytes(0, payload);
        assert [] + payload == payload;
        sendLen := rw.xfer;
        Seal(sendLen, payload);
      }
      sendLen := sendLen + 2;
    }

    /** Header, command byte and the rest of any frame that is not a write. */
    method PutCommandFrame(tail: seq<byte>)
      requires Valid() && frame[..] == Zeroes(MAX_BUFF) && |tail| <= 200
      modifies this`sendLen, frame
      ensures frame[..] == Fill(Sealed(CommandBody(req.cmd, tail))) && sendLen == |Sealed(CommandBody(req.cmd, tail))|
    {
      var len := 1 + |tail|;
      var hi: byte, lo: byte := (len / 256) % 256, len % 256;
      var head: seq<byte> := [hi, lo, req.cmd];
      PutBytes(3, tail);
      PutBefore(frame[..], head, tail);
      PutBytes(0, head);
      sendLen := len + 2;
      Seal(sendLen, head + tail);
      sendLen := sendLen + 2;
    }

    method BuildFrame()
      requires Valid() && frame[..] == Zeroes(MAX_BUFF) && (req.kind == KLog ==> |req.user| <= 64)
      requires req.kind == KForce ==> |req.user| == 3
      requires req.kind == KRaw ==> |req.user| <= MAX_BUFF
      requires req.kind == KWrite && rw.pldSize != 0 ==> rw.xfer <= MAX_PLD
      requires req.kind == KWrite && rw.pldSize == 0 ==> rw.xfer <= MAX_PLD + 2
      modifies this`sendLen, frame
      ensures frame[..] == Fill(FrameFor(old(View()))) && sendLen == |FrameFor(old(View()))|
    {
      if req.kind == KWrite {
        PutWriteFrame();
      } else if req.kind == KRaw {
        PutBehind(frame[..], [], req.user);
        PutBytes(0, req.user);
        assert [] + req.user == req.user;
        HoldsIsFill(frame[..], req.user);
        sendLen := |req.user|;
      } else if req.kind == KRead {
        ReadBodyIsCommand(req.cmd, rw);
        PutCommandFrame(ReadTail(req.cmd, rw));
      } else {
        PutCommandFrame(CommandTail(req.kind, req.user));
      }
    }

    method CheckInputs() returns (ok: bool)
      requires Valid()
      ensures ok == CanBuild(View())
    {
      match req.kind
      case KWrite => ok := |req.user| != 0;
      case KRead => ok := rspLen != 0;
      case KLog => ok := 0 < |req.user| <= 64;
      case KForce => ok := |req.user| == 3;
      case KRaw => ok := 0 < |req.user| <= MAX_BUFF;
      case _ => ok := true;
    }

    method PlanFrame()
      requires Valid() && CanBuild(View())
      modifies this`rw
      ensures rw == Plan(old(View()))
      ensures req.kind == KWrite && rw.pldSize != 0 ==> rw.xfer <= MAX_PLD
      ensures req.kind == KWrite && rw.pldSize == 0 ==> rw.xfer <= MAX_PLD + 2
    {
      if req.kind == KWrite {
        PlannedSize(req.user, rw);
        PlanWriteFrame();
      } else if req.kind == KRead {
        PlanReadFrame();
      }
    }

    method BuildFramePkt() returns (ok: bool)
      requires Valid()
      modifies this`rw, this`sendLen, frame
      ensures ok == CanBuild(old(View()))
      ensures View() == if ok then Build(old(View())) else old(View())
    {
      ok := CheckInputs();
      if !ok { return; }
      PlanFrame();
      ClearFrame();
      SameFrame(old(View()).(rw := rw), View());
      BuildFrame();
    }

    /* ---- Replies ---- */

    /** Copies bytes into the caller's buffer. */
    method CopyOut(off: nat, data: seq<byte>)
      requires Valid()
      modifies rsp
      ensures rsp[..] == Overlay(old(rsp[..]), off, data)
    {
      ghost var was := rsp[..];
      var i := 0;
      while i < |data| && off + i < rsp.Length
        invariant 0 <= i <= |data| && (off + i <= rsp.Length || i == 0)
        invariant forall k :: 0 <= k < rsp.Length ==> rsp[k] == if off <= k < off + i then data[k - off] else was[k]
      {
        rsp[off + i] := data[i];
        i := i + 1;
      }
      assert rsp[..] == Overlay(was, off, data);
    }

    method UpdateWrite(st: byte) returns (s: Status)
      requires Valid()
      modifies this`rw, this`lastStatus
      ensures Ack(rw, s) == AckWrite(old(rw), st)
      ensures lastStatus == LastStatus(old(lastStatus), st, s)
    {
      s := Success;
      if st == ST_OK {
        if rw.firstWrite { rw := rw.(firstWrite := false); }
        if rw.firstChunkAcked {
          if !rw.segmented {
            rw := rw.(remChunk := Sub16(rw.remChunk, rw.xfer), firstChunkAcked := false);
          } else {
            s := Failed;
          }
        }
        if s == Success {
          rw := rw.(remBytes := Sub16(rw.remBytes, rw.xfer), offset := Add16(rw.offset, rw.xfer));
        }
      } else if !rw.firstChunkAcked && rw.segmented && st == ST_FIRST_FRAG {
        rw := rw.(firstChunkAcked := true);
        rw := rw.(remChunk := Sub16(rw.remChunk, rw.xfer));
        rw := rw.(remBytes := Sub16(rw.remBytes, rw.xfer + 2));
        rw := rw.(offset := Add16(rw.offset, rw.xfer));
        if rw.firstWrite { rw := rw.(firstWrite := false); }
      } else if rw.firstChunkAcked && rw.segmented && st == ST_NEXT_FRAG {
        rw := rw.(remChunk := Sub16(rw.remChunk, rw.xfer));
        rw := rw.(remBytes := Sub16(rw.remBytes, rw.xfer));
        rw := rw.(offset := Add16(rw.offset, rw.xfer));
      } else if st == ST_FW_VERSION_ERROR {
        rw := rw.(firstWrite := false, remBytes := 0, offset := 0);
        s := FwVersionError;
      } else if st == ST_PLL_ERROR {
        lastStatus := ST_PLL_ERROR;
        s := WriteFailed;
      } else if st == ST_SIGNATURE_ERROR {
        lastStatus := ST_SIGNATURE_ERROR;
        s := Rejected;
      } else if st == ST_MEM_BUSY {
        lastStatus := ST_MEM_BUSY;
        s := Busy;
      } else {
        s := Failed;
      }
    }

    /** The counters after an answer has been copied. */
    method CountRead()
      modifies this`rw, this`rspLen
      ensures rw == AfterAnswer(old(rw)) && rspLen == rw.bytesRead
    {
      rw := rw.(bytesRead := Add16(rw.bytesRead, rw.xfer));
      rspLen := rw.bytesRead;
      rw := rw.(remBytes := Sub16(rw.remBytes, rw.xfer));
      rw := rw.(addr := (rw.addr + rw.xfer) % 0x1_0000_0000);
      rw := rw.(offset := Add16(rw.offset, rw.xfer));
    }

    /** Takes in the bytes of a read answer, behind what was read before. */
    method TakeAnswer(data: seq<byte>)
      requires Valid()
      modifies this`rw, this`rspLen, rsp
      ensures View() == WithAnswer(old(View()), data)
    {
      CopyOut(rw.offset, data);
      CountRead();
    }

    /** The length field of a read answer. */
    method AnswerLength() returns (n: nat)
      requires Valid()
      ensures n == 256 * At(frame[..], 5) + At(frame[..], 4)
    {
      var hi: int, lo: int := frame[5], frame[4];
      n := 256 * hi + lo;
    }

    method UpdateRead() returns (s: Status)
      requires Valid()
      modifies this`rw, this`rspLen, rsp
      ensures Outcome(View(), s) == AckRead(old(View()))
    {
      s := Success;
      assert frame[2] == At(frame[..], 2);
      if frame[2] != ST_OK { s := Failed; return; }
      var n := AnswerLength();
      if n != rw.xfer { s := Failed; return; }
      TakeAnswer(Slice(frame[..], 6, n));
    }

    method UpdateResponse(pldLen: nat) returns (s: Status)
      requires Valid()
      modifies this`rw, this`rspLen, this`lastStatus, rsp
      ensures Outcome(View(), s) == UpdateRsp(old(View()), pldLen)
    {
      var st := frame[2];
      assert st == At(frame[..], 2);
      if req.cmd == CMD_WRITE {
        s := UpdateWrite(st);
      } else if req.cmd == CMD_READ {
        s := UpdateRead();
      } else if st == ST_OK {
        s := Success;
        if rspLen != 0 {
          CopyOut(0, Slice(frame[..], 3, pldLen));
          rspLen := pldLen % 0x10000;
        }
      } else {
        s := Failed;
      }
    }

    /** Checks CRC and length of the reply that lies in the buffer. */
    method CheckReply(n: nat) returns (good: bool)
      requires Valid() && n <= frame.Length
      ensures good == WellFormedReply(frame[..][..n])
    {
      if n < 3 {
        return false;
      }
      ghost var reply := frame[..][..n];
      var crc := CalcCrc16(frame, n - 2);
      assert frame[..n - 2] == reply[..n - 2];
      var cHi: int, cLo: int := frame[n - 2], frame[n - 1];
      var hHi: int, hLo: int := frame[0], frame[1];
      good := 256 * cHi + cLo == 256 * Value(crc.hi) + Value(crc.lo) && 256 * hHi + hLo == Sub16(n, 4);
    }

    /** Checks the reply that lies in the buffer and takes it in. */
    method ProcessReply(info: Info) returns (s: Status)
      requires Valid()
      modifies this`rw, this`rspLen, this`lastStatus, rsp
      ensures Outcome(View(), s) == ProcessFrame(old(View()), info)
    {
      s := Failed;
      if info.NoInfo? || !info.ok || info.len == 0 || info.len > frame.Length { return; }
      var n := info.len;
      ghost var reply := frame[..][..n];
      assert frame[..n] == reply;
      if req.kind == KRaw {
        s := Success;
        if rspLen != 0 {
          CopyOut(0, frame[..n]);
          rspLen := n % 0x10000;
        }
      } else {
        var good := CheckReply(n);
        if good {
          s := UpdateResponse(Sub16(n, 5));
        }
      }
    }

    /* ---- The handler ---- */

    /** Hands the frame in the buffer to TML. */
    method WriteToTml(env: Env)
      requires Valid()
      modifies this`below
      ensures View() == TmlWrite(old(View()), env)
    {
      if env.writeOk {
        below := below.(writing := true, sent := below.sent + [Prefix(frame[..], sendLen)]);
      }
    }

    method FinishRequest(st: Status)
      requires Valid()
      modifies this`ctl, this`timer, this`below
      ensures View() == Finish(old(View()), st)
    {
      below := below.(reading := false);
      ctl := ctl.(event := NoEvent, inProgress := false, state := Init);
      timer := TimerInfo(0, false, false);
      below := below.(armed := NoTimer, calls := below.calls + [st]);
    }

    method AwaitReply(env: Env)
      requires Valid()
      modifies this`ctl, this`timer, this`below, this`sendStatus
      ensures View() == Await(old(View()), env)
    {
      if env.startOk && timer.id != 0 {
        timer := timer.(on := true);
        ctl := ctl.(state := Timer);
        below := below.(armed := RspTimer);
      } else {
        ctl := ctl.(state := Response);
      }
      below := below.(reading := env.readOk);
      sendStatus := if env.readOk then Pending else Refused;
    }

    method StopRunningTimer()
      requires Valid()
      modifies this`ctl, this`timer, this`below
      ensures View() == StopTimer(old(View()))
    {
      if timer.on {
        timer := timer.(on := false);
        below := below.(armed := NoTimer);
      }
      ctl := ctl.(state := Response);
    }

    method SendFrame(env: Env)
      requires Valid()
      modifies this`rw, this`sendLen, this`ctl, this`below, this`sendStatus, frame
      ensures View() == SendNew(old(View()), env)
    {
      var ok := BuildFramePkt();
      if ok {
        ctl := ctl.(state := Recv);
        WriteToTml(env);
        sendStatus := if env.writeOk then Pending else Refused;
      } else {
        sendStatus := Failed;
      }
    }

    method SendReadWrite(env: Env)
      requires Valid()
      modifies this`rw, this`sendLen, this`ctl, this`below, this`sendStatus, frame
      ensures View() == SendRW(old(View()), env)
    {
      if !ctl.resend {
        SendFrame(env);
      } else {
        ctl := ctl.(resend := false, state := Recv);
        WriteToTml(env);
        sendStatus := if env.writeOk then Pending else Refused;
      }
    }

    /** Builds and sends the next frame of a transfer. */
    method SendNext(env: Env)
      requires Valid()
      modifies this`rw, this`sendLen, this`ctl, this`below, frame
      ensures View() == GoOn(old(View()), env)
    {
      var ok := BuildFramePkt();
      if ok {
        ctl := ctl.(state := Recv);
        WriteToTml(env);
      }
    }

    /** The end of the response state of a read or write sequence. */
    method Proceed(st: Status, env: Env)
      requires Valid()
      modifies this`rw, this`sendLen, this`ctl, this`timer, this`below, frame
      ensures View() == AfterReply(old(View()), st, env)
    {
      if rw.remBytes != 0 && st == Success {
        below := below.(reading := false);
        SendNext(env);
      } else if st == Busy {
        // The resend timer is running; nothing to do.
      } else {
        EndTransfer(st);
      }
    }

    method EndTransfer(st: Status)
      requires Valid()
      modifies this`rw, this`ctl, this`timer, this`below
      ensures View() == Finish(old(View()).(rw := old(rw).(segmented := false), resend := false), st)
    {
      rw := rw.(segmented := false);
      ctl := ctl.(resend := false);
      FinishRequest(st);
    }

    /** A busy chip is asked again when the resend timer fires. */
    method SetupResend(env: Env) returns (st: Status)
      requires Valid()
      modifies this`ctl, this`timer, this`below
      ensures st == if env.startOk && old(timer).id != 0 then Busy else NoResources
      ensures View() == if st == Busy then old(View()).(timerOn := true, state := Timer, armed := ResendTimer)
                        else old(View()).(timerOn := false, state := Response)
    {
      if env.startOk && timer.id != 0 {
        timer := timer.(on := true);
        ctl := ctl.(state := Timer);
        below := below.(armed := ResendTimer);
        st := Busy;
      } else {
        timer := timer.(on := false);
        ctl := ctl.(state := Response);
        st := NoResources;
      }
    }

    /** A reply that has arrived in time. */
    method TakeReply(info: Info, env: Env)
      requires Valid()
      modifies this`rw, this`sendLen, this`ctl, this`timer, this`below, this`rspLen, this`lastStatus, frame, rsp
      ensures var o := ProcessFrame(old(View()), info);
        View() == if o.st == Busy then AfterBusy(o.c, env) else AfterReply(o.c, o.st, env)
    {
      var st := ProcessReply(info);
      if st == Busy { st := SetupResend(env); }
      Proceed(st, env);
    }

    method RespondReadWrite(info: Info, env: Env)
      requires Valid()
      modifies this`rw, this`sendLen, this`ctl, this`timer, this`below, this`rspLen, this`lastStatus, frame, rsp
      ensures View() == RespondRW(old(View()), info, env)
    {
      if timer.expired {
        timer := timer.(expired := false);
        Proceed(Timeout, env);
      } else {
        TakeReply(info, env);
      }
    }

    method PrepareTimer(env: Env)
      requires Valid()
      modifies this`ctl, this`timer
      ensures View() == WithTimer(old(View()), env).(state := Send)
    {
      if timer.id == 0 && env.newTimer != 0 { timer := TimerInfo(env.newTimer, false, false); }
      ctl := ctl.(state := Send);
    }

    /** A transfer that failed is treated like a reply that did not come. */
    method TransferFailed()
      requires Valid()
      modifies this`ctl, this`timer, this`below
      ensures View() == StopTimer(old(View()).(expired := true))
    {
      timer := timer.(expired := true);
      StopRunningTimer();
    }

    /** The states of a read or write sequence; each may fall through to the next. */
    method ProcessRWSeqState(info: Info, env: Env)
      requires Valid()
      modifies this`rw, this`sendLen, this`ctl, this`timer, this`below, this`rspLen, this`lastStatus, this`sendStatus,
               frame, rsp
      ensures View() == HandleRW(old(View()), info, env)
    {
      if ctl.state == Init { PrepareTimer(env); }
      if ctl.state == Send {
        SendReadWrite(env);
        return;
      }
      if ctl.state == Recv {
        if info.Done? && info.ok {
          AwaitReply(env);
          return;
        }
        TransferFailed();
      } else if ctl.state == Timer {
        StopRunningTimer();
      }
      RespondReadWrite(info, env);
    }

    method RespondSequence(info: Info)
      requires Valid()
      modifies this`rw, this`ctl, this`timer, this`below, this`rspLen, this`lastStatus, rsp
      ensures View() == RespondSeq(old(View()), info)
    {
      var st;
      if timer.expired {
        st := if ctl.event == Reset then Success else Timeout;
      } else {
        st := ProcessReply(info);
      }
      FinishRequest(st);
    }

    /** The first states of a command sequence: a timer, and the frame. */
    method StartSequence(env: Env)
      requires Valid() && (ctl.state == Init || ctl.state == Send)
      modifies this`rw, this`sendLen, this`ctl, this`timer, this`below, this`sendStatus, frame
      ensures View() == HandleSeq(old(View()), NoInfo, env)
    {
      if ctl.state == Init {
        if timer.id == 0 && env.newTimer == 0 {
          sendStatus := NoResources;
          return;
        }
        PrepareTimer(env);
      }
      SendFrame(env);
    }

    /** The states of every other sequence. */
    method ProcessSeqState(info: Info, env: Env)
      requires Valid()
      modifies this`rw, this`sendLen, this`ctl, this`timer, this`below, this`rspLen, this`lastStatus, this`sendStatus,
               frame, rsp
      ensures View() == HandleSeq(old(View()), info, env)
    {
      if ctl.state == Init || ctl.state == Send {
        StartSequence(env);
        return;
      }
      if ctl.state == Recv {
        if info.Done? && info.ok {
          AwaitReply(env);
          return;
        }
        TransferFailed();
      } else if ctl.state == Timer {
        StopRunningTimer();
      }
      RespondSequence(info);
    }

    method RspTimeOutCb(env: Env)
      requires Valid()
      modifies this`rw, this`sendLen, this`ctl, this`timer, this`below, this`rspLen, this`lastStatus, this`sendStatus,
               frame, rsp
      ensures View() == RspTimeOut(old(View()), env)
    {
      if timer.on {
        timer := timer.(on := false, expired := true);
        if ctl.event == Read || ctl.event == Write {
          ProcessRWSeqState(NoInfo, env);
        } else {
          ProcessSeqState(NoInfo, env);
        }
      }
    }

    method ResendTimeOutCb(env: Env)
      requires Valid()
      modifies this`rw, this`sendLen, this`ctl, this`timer, this`below, this`rspLen, this`lastStatus, this`sendStatus,
               frame, rsp
      ensures View() == ResendTimeOut(old(View()), env)
    {
      if timer.on {
        timer := timer.(on := false, expired := false);
        ctl := ctl.(state := Send, resend := true);
        ProcessRWSeqState(NoInfo, env);
      }
    }

    /** Starts a request; refused while another one is unfinished. */
    method CommandHandler(e: Event, env: Env) returns (st: Status)
      requires Valid() && e != NoEvent
      modifies this`rw, this`sendLen, this`ctl, this`timer, this`below, this`rspLen, this`lastStatus, this`sendStatus,
               frame, rsp
      ensures old(ctl).event == NoEvent ==> View() == CmdHandler(old(View()), e, env) && st == sendStatus
      ensures old(ctl).event != NoEvent ==> View() == old(View()) && st == Failed
    {
      if ctl.event != NoEvent { return Failed; }
      ctl := ctl.(event := e, inProgress := true);
      if IsRW(e) {
        ProcessRWSeqState(NoInfo, env);
      } else {
        ProcessSeqState(NoInfo, env);
      }
      st := sendStatus;
    }

    method FillWriteRequest(img: seq<byte>, none: array<byte>)
      requires Valid() && |img| < 0x10000 && none != frame && none.Length == 0
      modifies this
      ensures Valid() && frame == old(frame) && rsp == none && ctl.event == old(ctl).event
      ensures View() == old(View()).(kind := KWrite, cmd := CMD_WRITE, user := img, rspMem := [], rspLen := 0,
                                     resend := false, rw := CLEARED.(firstWrite := true), sent := [])
    {
      req := Request(KWrite, CMD_WRITE, req.addr, img);
      rsp := none;
      rspLen := 0;
      ctl := ctl.(resend := false);
      rw := CLEARED.(firstWrite := true);
      below := below.(sent := []);
      assert rsp[..] == [];
    }

    /** The firmware write request: refused while busy, and failed without an image. */
    method WriteImage(img: seq<byte>, none: array<byte>, env: Env) returns (st: Status)
      requires Valid() && |img| < 0x10000 && none != frame && none.Length == 0
      modifies this, frame, rsp, none
      ensures old(ctl).inProgress ==> st == Busy && View() == old(View())
      ensures !old(ctl).inProgress && img == [] ==> st == Failed && View() == old(View())
      ensures !old(ctl).inProgress && img != [] && old(ctl).event != NoEvent ==> st == Failed
      ensures !old(ctl).inProgress && img != [] && old(ctl).event == NoEvent ==>
                View() == WriteRequest(old(View()), img, env) && st == sendStatus
    {
      if ctl.inProgress { return Busy; }
      if img == [] { return Failed; }
      FillWriteRequest(img, none);
      st := CommandHandler(Write, env);
    }
  }

  /** The frame does not depend on what the buffer held before. */
  lemma SameFrame(c: Ctx, d: Ctx)
    requires d == c.(buff := d.buff)
    ensures FrameFor(c) == FrameFor(d)
  {}
}
