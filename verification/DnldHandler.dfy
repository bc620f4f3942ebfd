/**
  The download command handler: one request at a time, driven by completions of TML transfers
  and by one timer.  A step takes the context to its next value; the transfers and the timer
  that are outstanding, the frames handed to TML and the user callbacks made are part of it.
 */
module DnldHandler {
  import opened CrcRegister
  import opened Crc
  import opened DnldWrite

  datatype Event = NoEvent | Reset | GetVersion | Write | Read | CheckIntegrity | SessionState | Log | Force | RawFrame

  datatype State = Init | Send | Recv | Timer | Response

  datatype Kind = KNone | KChkIntg | KWrite | KLog | KForce | KRead | KRaw

  datatype Armed = NoTimer | RspTimer | ResendTimer

  const CMD_WRITE: byte := 0xc0
  const CMD_READ: byte := 0xa2
  const READ_PLD := 248

  datatype Ctx = Ctx(
    event: Event,
    state: State,
    inProgress: bool,
    resend: bool,
    kind: Kind,
    cmd: byte,
    addr: nat,
    user: seq<byte>,        // what the caller wants sent
    rspMem: seq<byte>,      // where the caller wants the answer
    rspLen: u16,
    buff: seq<byte>,        // one buffer for the frame sent and the reply received
    sendLen: nat,
    timerId: nat,
    timerOn: bool,
    expired: bool,
    rw: RWInfo,
    sendStatus: Status,
    lastStatus: byte,
    writing: bool,          // a TML write is outstanding
    reading: bool,          // a TML read is outstanding
    armed: Armed,           // the timer that will fire
    sent: seq<seq<byte>>,   // frames handed to TML since the request was made
    calls: seq<Status>)     // user callbacks made

  /** What the services below answer: a timer, whether it starts, whether TML takes a transfer. */
  datatype Env = Env(newTimer: nat, startOk: bool, writeOk: bool, readOk: bool)

  /** What TML reports: nothing, or a finished transfer. */
  datatype Info = NoInfo | Done(ok: bool, len: nat)

  /* ---- Building frames ---- */

  function ReadBody(cmd: byte, rw: RWInfo): seq<byte> {
    var a := rw.addr % 0x1_0000_0000;
    [0, 8, cmd, 0, rw.xfer % 256, rw.xfer / 256,
     a % 256, (a / 256) % 256, (a / 0x1_0000) % 256, (a / 0x100_0000) % 256]
  }

  function CommandTail(kind: Kind, user: seq<byte>): seq<byte> {
    match kind
    case KChkIntg => [0, 0, 0, 0xbc, 0x02, 0x00, 0x0c]
    case KLog => [0, 0, 0] + user
    case KForce => user
    case _ => [0, 0, 0]
  }

  function CommandBody(cmd: byte, tail: seq<byte>): seq<byte> {
    [((1 + |tail|) / 256) % 256, (1 + |tail|) % 256, cmd] + tail
  }

  function PlanRead(rspLen: u16, addr: nat, rw: RWInfo): RWInfo {
    var r := if rw.segmented then rw
             else rw.(pldSize := READ_PLD, remBytes := rspLen, addr := addr, offset := 0, bytesRead := 0,
                      segmented := Add16(rspLen, 4) > MAX_PLD);
    r.(xfer := if r.remBytes > r.pldSize then r.pldSize else r.remBytes)
  }

  function Plan(c: Ctx): RWInfo {
    if c.kind == KWrite && |c.user| < 0x10000 then PlanWrite(c.user, c.rw)
    else if c.kind == KRead then PlanRead(c.rspLen, c.addr, c.rw)
    else c.rw
  }

  function FrameFor(c: Ctx): seq<byte> {
    match c.kind
    case KWrite => WriteFrame(c.user, c.rw)
    case KRead => Sealed(ReadBody(c.cmd, c.rw))
    case KRaw => c.user
    case _ => Sealed(CommandBody(c.cmd, CommandTail(c.kind, c.user)))
  }

  predicate CanBuild(c: Ctx) {
    match c.kind
    case KWrite => 0 < |c.user| < 0x10000
    case KLog => 0 < |c.user| <= 64
    case KForce => |c.user| == 3
    case KRaw => 0 < |c.user| <= MAX_BUFF
    case KRead => c.rspLen != 0
    case _ => true
  }

  function Zeroes(n: nat): (z: seq<byte>)
    ensures |z| == n
  {
    seq<byte>(n, i => 0)
  }

  function Fill(frame: seq<byte>): seq<byte> {
    if |frame| <= MAX_BUFF then frame + Zeroes(MAX_BUFF - |frame|) else frame[..MAX_BUFF]
  }

  function Prefix(s: seq<byte>, n: nat): seq<byte> { if n <= |s| then s[..n] else s }

  /** The first step clears the buffer and writes the frame with its CRC into it. */
  function Build(c: Ctx): Ctx {
    var p := c.(rw := Plan(c));
    var f := FrameFor(p);
    p.(buff := Fill(f), sendLen := |f|)
  }

  /* ---- Replies ---- */

  datatype Outcome = Outcome(c: Ctx, st: Status)

  /** `data` laid over `mem` at `off`; what would fall beyond the end is dropped. */
  function Overlay(mem: seq<byte>, off: nat, data: seq<byte>): (r: seq<byte>)
    ensures |r| == |mem|
  {
    if off >= |mem| then mem
    else if off + |data| <= |mem| then mem[..off] + data + mem[off + |data|..]
    else mem[..off] + data[..|mem| - off]
  }

  /** The counters after an answer of `rw.xfer` bytes. */
  function AfterAnswer(rw: RWInfo): RWInfo {
    rw.(bytesRead := Add16(rw.bytesRead, rw.xfer), remBytes := Sub16(rw.remBytes, rw.xfer),
        addr := (rw.addr + rw.xfer) % 0x1_0000_0000, offset := Add16(rw.offset, rw.xfer))
  }

  /** The context after `data` has been taken in. */
  function WithAnswer(r: Ctx, data: seq<byte>): Ctx {
    var rw := AfterAnswer(r.rw);
    r.(rspMem := Overlay(r.rspMem, r.rw.offset, data), rspLen := rw.bytesRead, rw := rw)
  }

  function AckRead(c: Ctx): Outcome {
    if At(c.buff, 2) != ST_OK then Outcome(c, Failed)
    else
      var n := 256 * At(c.buff, 5) + At(c.buff, 4);
      if n != c.rw.xfer then Outcome(c, Failed) else Outcome(WithAnswer(c, Slice(c.buff, 6, n)), Success)
  }

  function AckCommand(c: Ctx, pldLen: nat): Outcome {
    if At(c.buff, 2) != ST_OK then Outcome(c, Failed)
    else if c.rspLen == 0 then Outcome(c, Success)
    else Outcome(WithReply(c, Slice(c.buff, 3, pldLen), pldLen % 0x10000), Success)
  }

  /** The context after the payload `data` of a reply has been handed to the caller. */
  function WithReply(c: Ctx, data: seq<byte>, len: u16): Ctx {
    c.(rspMem := Overlay(c.rspMem, 0, data), rspLen := len)
  }

  function LastStatus(old_: byte, st: byte, s: Status): byte {
    if s == WriteFailed || s == Rejected || s == Busy then st else old_
  }

  function UpdateRsp(c: Ctx, pldLen: nat): Outcome {
    var st := At(c.buff, 2);
    if c.cmd == CMD_WRITE then
      var a := AckWrite(c.rw, st);
      Outcome(c.(rw := a.rw, lastStatus := LastStatus(c.lastStatus, st, a.status)), a.status)
    else if c.cmd == CMD_READ then AckRead(c)
    else AckCommand(c, pldLen)
  }

  /** CRC and length are right.  The code computes the length in 16 bits, so that three bytes
      0xff 0xff 0x00 pass; shorter replies never do. */
  predicate WellFormedReply(b: seq<byte>) { 3 <= |b| && FrameChecks(b) && HeaderOf(b) == Sub16(|b|, 4) }

  /** A reply of `info.len` bytes lies in the buffer. */
  function ProcessFrame(c: Ctx, info: Info): Outcome {
    if info.NoInfo? || !info.ok || info.len == 0 || info.len > |c.buff| then Outcome(c, Failed)
    else
      var reply := c.buff[..info.len];
      if c.kind == KRaw then
        Outcome(if c.rspLen == 0 then c
                else c.(rspMem := Overlay(c.rspMem, 0, reply), rspLen := info.len % 0x10000), Success)
      else if !WellFormedReply(reply) then Outcome(c, Failed)
      else UpdateRsp(c, Sub16(info.len, 5))
  }

  /* ---- The handler ---- */

  predicate IsRW(e: Event) { e == Write || e == Read || e == Log || e == Force }

  /** Hand the frame in the buffer to TML. */
  function TmlWrite(c: Ctx, env: Env): Ctx {
    if env.writeOk then c.(writing := true, sent := c.sent + [Prefix(c.buff, c.sendLen)]) else c
  }

  function SendNew(c: Ctx, env: Env): Ctx {
    if CanBuild(c) then
      TmlWrite(Build(c).(state := Recv), env).(sendStatus := if env.writeOk then Pending else Refused)
    else c.(sendStatus := Failed)
  }

  function SendAgain(c: Ctx, env: Env): Ctx {
    TmlWrite(c.(resend := false, state := Recv), env).(sendStatus := if env.writeOk then Pending else Refused)
  }

  function SendRW(c: Ctx, env: Env): Ctx { if c.resend then SendAgain(c, env) else SendNew(c, env) }

  function WithTimer(c: Ctx, env: Env): Ctx {
    if c.timerId == 0 && env.newTimer != 0 then c.(timerId := env.newTimer, timerOn := false, expired := false) else c
  }

  /** The frame is out: start the response timer and ask TML to read into the same buffer. */
  function Await(c: Ctx, env: Env): Ctx {
    var t := if env.startOk && c.timerId != 0 then c.(timerOn := true, state := Timer, armed := RspTimer)
             else c.(state := Response);
    t.(reading := env.readOk, sendStatus := if env.readOk then Pending else Refused)
  }

  function StopTimer(c: Ctx): Ctx {
    (if c.timerOn then c.(timerOn := false, armed := NoTimer) else c).(state := Response)
  }

  function Finish(c: Ctx, st: Status): Ctx {
    c.(reading := false, event := NoEvent, inProgress := false, state := Init,
       timerId := 0, timerOn := false, expired := false, armed := NoTimer, calls := c.calls + [st])
  }

  /** The next frame of a transfer. */
  function GoOn(c: Ctx, env: Env): Ctx {
    if CanBuild(c) then TmlWrite(Build(c).(state := Recv), env) else c
  }

  /** What follows a reply in a read or write sequence. */
  function AfterReply(c: Ctx, st: Status, env: Env): Ctx {
    if c.rw.remBytes != 0 && st == Success then GoOn(c.(reading := false), env)
    else if st == Busy then c
    else Finish(c.(rw := c.rw.(segmented := false), resend := false), st)
  }

  /** A busy chip is asked again after the resend timer. */
  function AfterBusy(c: Ctx, env: Env): Ctx {
    if env.startOk && c.timerId != 0
    then AfterReply(c.(timerOn := true, state := Timer, armed := ResendTimer), Busy, env)
    else AfterReply(c.(timerOn := false, state := Response), NoResources, env)
  }

  function RespondRW(c: Ctx, info: Info, env: Env): Ctx {
    if c.expired then AfterReply(c.(expired := false), Timeout, env)
    else
      var o := ProcessFrame(c, info);
      if o.st == Busy then AfterBusy(o.c, env) else AfterReply(o.c, o.st, env)
  }

  function HandleRW(c: Ctx, info: Info, env: Env): Ctx {
    match c.state
    case Init => SendRW(WithTimer(c, env).(state := Send), env)
    case Send => SendRW(c, env)
    case Recv => if info.Done? && info.ok then Await(c, env) else RespondRW(StopTimer(c.(expired := true)), info, env)
    case Timer => RespondRW(StopTimer(c), info, env)
    case Response => RespondRW(c, info, env)
  }

  function RespondSeq(c: Ctx, info: Info): Ctx {
    if c.expired then Finish(c, if c.event == Reset then Success else Timeout)
    else var o := ProcessFrame(c, info); Finish(o.c, o.st)
  }

  function HandleSeq(c: Ctx, info: Info, env: Env): Ctx {
    match c.state
    case Init =>
      if c.timerId == 0 && env.newTimer == 0 then c.(sendStatus := NoResources)
      else SendNew(WithTimer(c, env).(state := Send), env)
    case Send => SendNew(c, env)
    case Recv => if info.Done? && info.ok then Await(c, env) else RespondSeq(StopTimer(c.(expired := true)), info)
    case Timer => RespondSeq(StopTimer(c), info)
    case Response => RespondSeq(c, info)
  }

  function Handle(c: Ctx, info: Info, env: Env): Ctx {
    if IsRW(c.event) then HandleRW(c, info, env) else HandleSeq(c, info, env)
  }

  function RspTimeOut(c: Ctx, env: Env): Ctx {
    if !c.timerOn then c
    else
      var t := c.(timerOn := false, expired := true);
      if c.event == Read || c.event == Write then HandleRW(t, NoInfo, env) else HandleSeq(t, NoInfo, env)
  }

  function ResendTimeOut(c: Ctx, env: Env): Ctx {
    if !c.timerOn then c
    else HandleRW(c.(timerOn := false, expired := false, state := Send, resend := true), NoInfo, env)
  }

  function CmdHandler(c: Ctx, e: Event, env: Env): Ctx {
    Handle(c.(event := e, inProgress := true), NoInfo, env)
  }

  /* ---- Requests ---- */

  function WriteRequest(c: Ctx, img: seq<byte>, env: Env): Ctx {
    CmdHandler(c.(kind := KWrite, cmd := CMD_WRITE, user := img, rspMem := [], rspLen := 0, resend := false,
                  rw := CLEARED.(firstWrite := true), sent := []), Write, env)
  }

  function ReadRequest(c: Ctx, mem: seq<byte>, addr: nat, env: Env): Ctx
    requires |mem| < 0x10000
  {
    CmdHandler(c.(kind := KRead, cmd := CMD_READ, addr := addr, user := [], rspMem := mem, rspLen := |mem|,
                  rw := CLEARED, sent := []), Read, env)
  }

  /** Every other request: the commands that take one frame and one reply. */
  predicate IsCommand(e: Event, kind: Kind, cmd: byte, user: seq<byte>) {
    && e != NoEvent && e != Write && e != Read && kind != KWrite && kind != KRead
    && cmd != CMD_WRITE && cmd != CMD_READ
    && (kind == KLog ==> 0 < |user| <= 64) && (kind == KForce ==> |user| == 3)
    && (kind == KRaw ==> 0 < |user| <= MAX_BUFF)
  }

  function CommandRequest(c: Ctx, e: Event, kind: Kind, cmd: byte, user: seq<byte>, mem: seq<byte>, env: Env): Ctx
    requires |mem| < 0x10000
  {
    CmdHandler(c.(kind := kind, cmd := cmd, user := user, rspMem := mem, rspLen := |mem|,
                  rw := if e == Log || e == Force then CLEARED else c.rw, sent := []), e, env)
  }

  /* ---- Runs ---- */

  datatype Input = WriteDone(ok: bool) | ReplyIn(bytes: seq<byte>) | RspFires | ResendFires

  datatype Move = Move(input: Input, env: Env)

  /** The input is one that is outstanding; a reply fits the buffer. */
  predicate Enabled(c: Ctx, i: Input) {
    match i
    case WriteDone(_) => c.writing
    case ReplyIn(b) => c.reading && |b| <= MAX_BUFF
    case RspFires => c.armed == RspTimer
    case ResendFires => c.armed == ResendTimer
  }

  function Step(c: Ctx, m: Move): Ctx {
    match m.input
    case WriteDone(ok) => Handle(c.(writing := false), Done(ok, 1), m.env)
    case ReplyIn(b) => Handle(c.(reading := false, buff := Overlay(c.buff, 0, b)), Done(true, |b|), m.env)
    case RspFires => RspTimeOut(c.(armed := NoTimer), m.env)
    case ResendFires => ResendTimeOut(c.(armed := NoTimer), m.env)
  }

  function Run(c: Ctx, ms: seq<Move>): Ctx
    decreases |ms|
  {
    if ms == [] then c else Run(Step(c, ms[0]), ms[1..])
  }

  /** How many steps the frame under way may still take before it is answered. */
  function Phase(c: Ctx): nat { if c.armed == ResendTimer then 2 else if c.writing then 1 else 0 }

  /** How many steps the request may still take if it is not told to wait. */
  function StepsLeft(c: Ctx): nat {
    if c.event == NoEvent then 0 else (if c.kind == KWrite || c.kind == KRead then 2 * c.rw.remBytes else 1) + Phase(c)
  }

  /** TML accepts every transfer and only outstanding inputs arrive. */
  predicate Legal(c: Ctx, ms: seq<Move>)
    decreases |ms|
  {
    ms == [] || (Enabled(c, ms[0].input) && ms[0].env.writeOk && ms[0].env.readOk && Legal(Step(c, ms[0]), ms[1..]))
  }

  /* ---- One completion per request ---- */

  predicate Idle(c: Ctx) {
    && c.event == NoEvent && c.state == Init && !c.inProgress && !c.resend
    && c.timerId == 0 && !c.timerOn && !c.expired
    && !c.writing && !c.reading && c.armed == NoTimer
    && |c.buff| == MAX_BUFF
  }

  /** A read request that goes on always has a non-zero length left to report. */
  predicate ReadCounters(rw: RWInfo) {
    rw.pldSize == READ_PLD && 1 <= rw.xfer <= rw.remBytes && rw.bytesRead + rw.remBytes < 0x10000
  }

  /** Event, frame type and command belong together, and there is something to build. */
  predicate Matched(c: Ctx) {
    && |c.buff| == MAX_BUFF
    && (c.event == Write <==> c.kind == KWrite) && (c.kind == KWrite <==> c.cmd == CMD_WRITE)
    && (c.event == Read <==> c.kind == KRead) && (c.kind == KRead <==> c.cmd == CMD_READ)
    && (c.kind != KRead ==> CanBuild(c))
  }

  predicate Consistent(c: Ctx) {
    && Matched(c)
    && (c.kind == KRead ==> ReadCounters(c.rw))
  }

  /** Exactly one thing is outstanding: a write, a reply with or without its timer, or the wait
      before a resend. */
  predicate Waiting(c: Ctx) {
    || (c.state == Recv && c.writing && !c.reading && !c.timerOn && c.armed == NoTimer)
    || (c.state == Timer && !c.writing && c.reading && c.timerOn && c.armed == RspTimer)
    || (c.state == Response && !c.writing && c.reading && !c.timerOn && c.armed == NoTimer)
    || (c.state == Timer && !c.writing && !c.reading && c.timerOn && c.armed == ResendTimer && c.event == Write)
  }

  predicate InFlight(c: Ctx) {
    c.event != NoEvent && c.inProgress && !c.expired && !c.resend && Consistent(c) && Waiting(c)
  }

  predicate SameControl(c: Ctx, d: Ctx) {
    d == c.(rw := d.rw, rspMem := d.rspMem, rspLen := d.rspLen, lastStatus := d.lastStatus)
  }

  lemma AckReadKeepsControl(c: Ctx)
    ensures SameControl(c, AckRead(c).c) && AckRead(c).st != Busy
  {}

  lemma BusyKeepsCounters(rw: RWInfo, st: byte)
    ensures AckWrite(rw, st).status == Busy ==> AckWrite(rw, st).rw == rw
  {}

  lemma WriteRspKeepsControl(c: Ctx, n: nat)
    requires c.cmd == CMD_WRITE
    ensures SameControl(c, UpdateRsp(c, n).c) && (UpdateRsp(c, n).st == Busy ==> UpdateRsp(c, n).c.rw == c.rw)
  {
    BusyKeepsCounters(c.rw, At(c.buff, 2));
  }

  lemma WithReplyKeepsControl(c: Ctx, data: seq<byte>, len: u16)
    ensures SameControl(c, WithReply(c, data, len)) && WithReply(c, data, len).rw == c.rw
  {}

  lemma AckCommandKeepsControl(c: Ctx, n: nat)
    ensures SameControl(c, AckCommand(c, n).c) && AckCommand(c, n).st != Busy && AckCommand(c, n).c.rw == c.rw
  {
    WithReplyKeepsControl(c, Slice(c.buff, 3, n), n % 0x10000);
  }

  lemma UpdateRspKeepsControl(c: Ctx, n: nat)
    ensures var o := UpdateRsp(c, n);
      SameControl(c, o.c) && (o.st == Busy ==> c.cmd == CMD_WRITE && o.c.rw == c.rw)
  {
    if c.cmd == CMD_WRITE {
      WriteRspKeepsControl(c, n);
    } else if c.cmd == CMD_READ {
      AckReadKeepsControl(c);
      assert UpdateRsp(c, n) == AckRead(c);
    } else {
      AckCommandKeepsControl(c, n);
      assert UpdateRsp(c, n) == AckCommand(c, n);
    }
  }

  /** Where the outcome of a reply comes from. */
  lemma ProcessFrameCases(c: Ctx, info: Info)
    ensures var o := ProcessFrame(c, info);
      || (o.c == c && o.st == Failed)
      || (c.kind == KRaw && SameControl(c, o.c) && o.c.rw == c.rw && o.st == Success)
      || (c.kind != KRaw && info.Done? && o == UpdateRsp(c, Sub16(info.len, 5)))
  {}

  lemma ProcessFrameKeepsControl(c: Ctx, info: Info)
    ensures var o := ProcessFrame(c, info);
      SameControl(c, o.c) && (o.st == Busy ==> c.cmd == CMD_WRITE && o.c.rw == c.rw)
  {
    ProcessFrameCases(c, info);
    if info.Done? { UpdateRspKeepsControl(c, Sub16(info.len, 5)); }
  }

  lemma AckReadCounts(c: Ctx)
    requires ReadCounters(c.rw) && AckRead(c).st == Success
    ensures var r := AckRead(c).c.rw;
      && AckRead(c).c.rspLen == r.bytesRead == c.rw.bytesRead + c.rw.xfer
      && r.remBytes == c.rw.remBytes - c.rw.xfer && r.pldSize == READ_PLD && r.segmented == c.rw.segmented
  {}

  /** A read that is answered and not complete has a frame to send next. */
  lemma ReadGoesOn(c: Ctx, info: Info)
    requires c.kind == KRead && c.cmd == CMD_READ && ReadCounters(c.rw)
    ensures var o := ProcessFrame(c, info);
      o.st == Success && o.c.rw.remBytes != 0 ==>
        o.c.rspLen != 0 && ReadCounters(PlanRead(o.c.rspLen, o.c.addr, o.c.rw))
  {
    ProcessFrameCases(c, info);
    if ProcessFrame(c, info).st == Success { AckReadCounts(c); }
  }

  /** The context right after a reply or an expiry has been taken in. */
  predicate Answered(c: Ctx, st: Status) {
    && c.event != NoEvent && c.inProgress && !c.expired && !c.resend && Matched(c)
    && (c.kind == KRead && st == Success && c.rw.remBytes != 0
        ==> c.rspLen != 0 && ReadCounters(PlanRead(c.rspLen, c.addr, c.rw)))
    && !c.writing && !c.timerOn && c.armed == NoTimer && c.state == Response
  }

  /** What a step may lead to: still waiting, without a callback, or idle after exactly one. */
  predicate Progress(c: Ctx, c': Ctx) {
    || (InFlight(c') && c'.calls == c.calls)
    || (Idle(c') && exists st :: c'.calls == c.calls + [st])
  }

  lemma AfterReplyProgresses(c: Ctx, st: Status, env: Env)
    requires Answered(c, st) && st != Busy && env.writeOk
    ensures Progress(c, AfterReply(c, st, env))
  {
    if c.rw.remBytes != 0 && st == Success {
      BuildKeepsControl(c.(reading := false));
    } else {
      assert AfterReply(c, st, env).calls == c.calls + [st];
    }
  }

  lemma BuildKeepsControl(c: Ctx)
    ensures var b := Build(c);
      && b == c.(rw := b.rw, buff := b.buff, sendLen := b.sendLen)
      && |b.buff| == MAX_BUFF
      && b.rw == Plan(c)
  {}

  /** The context once the reply lies in the buffer and its timer is stopped. */
  function Taken(c: Ctx, b: seq<byte>): Ctx {
    StopTimer(c.(reading := false, buff := Overlay(c.buff, 0, b)))
  }

  /** A reply or an expiry has come in and its timer is stopped. */
  predicate Arrived(c: Ctx) {
    && c.event != NoEvent && c.inProgress && !c.resend && Consistent(c)
    && !c.writing && !c.timerOn && c.armed == NoTimer && c.state == Response
    && (!c.expired ==> !c.reading)
  }

  lemma AfterBusyProgresses(c: Ctx, env: Env)
    requires Answered(c, NoResources) && Consistent(c) && c.event == Write && !c.reading && env.writeOk
    ensures Progress(c, AfterBusy(c, env))
  {
    if !(env.startOk && c.timerId != 0) {
      AfterReplyProgresses(c.(timerOn := false, state := Response), NoResources, env);
    }
  }

  lemma RespondRWProgresses(c: Ctx, info: Info, env: Env)
    requires Arrived(c) && env.writeOk
    ensures Progress(c, RespondRW(c, info, env))
  {
    if c.expired {
      AfterReplyProgresses(c.(expired := false), Timeout, env);
    } else {
      var o := ProcessFrame(c, info);
      ProcessFrameKeepsControl(c, info);
      if c.kind == KRead { ReadGoesOn(c, info); }
      if o.st == Busy {
        AfterBusyProgresses(o.c, env);
      } else {
        AfterReplyProgresses(o.c, o.st, env);
      }
    }
  }

  lemma RespondSeqProgresses(c: Ctx, info: Info)
    requires Arrived(c)
    ensures Progress(c, RespondSeq(c, info))
  {
    ProcessFrameKeepsControl(c, info);
    var o := ProcessFrame(c, info);
    assert Finish(o.c, o.st).calls == c.calls + [o.st];
    assert Finish(c, Success).calls == c.calls + [Success];
    assert Finish(c, Timeout).calls == c.calls + [Timeout];
  }

  lemma AwaitInFlight(c: Ctx, env: Env)
    requires c.event != NoEvent && c.inProgress && !c.expired && !c.resend && Consistent(c)
    requires c.state == Recv && !c.writing && !c.reading && !c.timerOn && c.armed == NoTimer && env.readOk
    ensures Progress(c, Await(c, env))
  {}

  /** A frame of a read or write is out: the reply is awaited, nothing else changes. */
  lemma WriteDoneKeeps(c: Ctx, env: Env)
    requires InFlight(c) && IsRW(c.event) && c.writing && env.readOk
    ensures var d := Step(c, Move(WriteDone(true), env));
      && InFlight(d) && d.reading && d.armed != ResendTimer && d.state != Recv
      && d == c.(writing := false, reading := true, timerOn := d.timerOn, state := d.state, armed := d.armed,
         sendStatus := Pending)
  {}

  lemma HandleProgresses(c: Ctx, info: Info, env: Env)
    requires c.event != NoEvent && c.inProgress && !c.resend && Consistent(c) && env.writeOk && env.readOk
    requires !c.writing && c.state != Init && c.state != Send
    requires c.state == Recv ==> !c.expired && !c.reading && !c.timerOn && c.armed == NoTimer
    requires c.state == Response ==> !c.timerOn && c.armed == NoTimer && (!c.expired ==> !c.reading)
    requires c.state == Timer ==> (c.armed == NoTimer || c.timerOn) && (!c.expired ==> !c.reading)
    ensures Progress(c, HandleRW(c, info, env)) && Progress(c, HandleSeq(c, info, env))
  {
    if c.state == Recv {
      if info.Done? && info.ok {
        AwaitInFlight(c, env);
      } else {
        RespondRWProgresses(StopTimer(c.(expired := true)), info, env);
        RespondSeqProgresses(StopTimer(c.(expired := true)), info);
      }
    } else if c.state == Timer {
      RespondRWProgresses(StopTimer(c), info, env);
      RespondSeqProgresses(StopTimer(c), info);
    } else {
      RespondRWProgresses(c, info, env);
      RespondSeqProgresses(c, info);
    }
  }

  lemma ResendInFlight(c: Ctx, env: Env)
    requires InFlight(c) && c.armed == ResendTimer && env.writeOk
    ensures Progress(c, ResendTimeOut(c.(armed := NoTimer), env))
  {}

  /** One step of a request in flight: no callback and still waiting, or one callback and idle. */
  lemma StepProgresses(c: Ctx, m: Move)
    requires InFlight(c) && Enabled(c, m.input) && m.env.writeOk && m.env.readOk
    ensures Progress(c, Step(c, m))
  {
    match m.input
    case WriteDone(ok) => HandleProgresses(c.(writing := false), Done(ok, 1), m.env);
    case ReplyIn(b) =>
      HandleProgresses(c.(reading := false, buff := Overlay(c.buff, 0, b)), Done(true, |b|), m.env);
    case RspFires =>
      HandleProgresses(c.(armed := NoTimer, timerOn := false, expired := true), NoInfo, m.env);
    case ResendFires => ResendInFlight(c, m.env);
  }

  /** A request in flight can always go on; an idle context waits for nothing. */
  lemma NeverStuck(c: Ctx)
    ensures InFlight(c) ==> exists i :: Enabled(c, i)
    ensures Idle(c) ==> !exists i :: Enabled(c, i)
  {
    if InFlight(c) {
      assert Enabled(c, WriteDone(true)) || Enabled(c, ReplyIn([])) || Enabled(c, ResendFires);
    }
  }

  /** Over every run: at most one callback, and exactly one once the run can go no further; then
      the context is back where a new request is accepted, with its timer released. */
  lemma {:induction false} SingleCompletion(c: Ctx, ms: seq<Move>)
    requires InFlight(c) && Legal(c, ms)
    ensures var d := Run(c, ms);
      || (InFlight(d) && d.calls == c.calls)
      || (Idle(d) && |d.calls| == |c.calls| + 1 && d.calls[..|c.calls|] == c.calls)
    decreases |ms|
  {
    if ms != [] {
      var d := Step(c, ms[0]);
      StepProgresses(c, ms[0]);
      if Idle(d) {
        NeverStuck(d);
        assert ms[1..] == [];
      } else {
        SingleCompletion(d, ms[1..]);
      }
    }
  }

  /* ---- Requests that are accepted are in flight ---- */

  lemma WriteAccepted(c: Ctx, img: seq<byte>, env: Env)
    requires Idle(c) && 0 < |img| < 0x10000 && env.writeOk
    ensures var d := WriteRequest(c, img, env);
      InFlight(d) && d.sendStatus == Pending && d.calls == c.calls
  {}

  lemma ReadAccepted(c: Ctx, mem: seq<byte>, addr: nat, env: Env)
    requires Idle(c) && 0 < |mem| < 0x10000 && env.writeOk
    ensures var d := ReadRequest(c, mem, addr, env);
      InFlight(d) && d.sendStatus == Pending && d.calls == c.calls
  {}

  lemma SendNewInFlight(g: Ctx, env: Env)
    requires g.event != NoEvent && g.inProgress && !g.expired && !g.resend && Matched(g) && CanBuild(g)
    requires !g.writing && !g.reading && !g.timerOn && g.armed == NoTimer && g.kind != KRead && env.writeOk
    ensures var d := SendNew(g, env); InFlight(d) && d.sendStatus == Pending && d.calls == g.calls
  {
    BuildKeepsControl(g);
  }

  /** The context of a command as its frame is built. */
  function CommandStart(c: Ctx, e: Event, kind: Kind, cmd: byte, user: seq<byte>, mem: seq<byte>, env: Env): Ctx
    requires |mem| < 0x10000
  {
    WithTimer(c.(kind := kind, cmd := cmd, user := user, rspMem := mem, rspLen := |mem|,
                 rw := if e == Log || e == Force then CLEARED else c.rw, sent := [], event := e,
                 inProgress := true), env)
    .(state := Send)
  }

  lemma CommandSends(c: Ctx, e: Event, kind: Kind, cmd: byte, user: seq<byte>, mem: seq<byte>, env: Env)
    requires Idle(c) && IsCommand(e, kind, cmd, user) && |mem| < 0x10000
    ensures var d := CommandRequest(c, e, kind, cmd, user, mem, env);
      if IsRW(e) || env.newTimer != 0 then d == SendNew(CommandStart(c, e, kind, cmd, user, mem, env), env)
      else d.sendStatus == NoResources
  {}

  lemma CommandAccepted(c: Ctx, e: Event, kind: Kind, cmd: byte, user: seq<byte>, mem: seq<byte>, env: Env)
    requires Idle(c) && IsCommand(e, kind, cmd, user) && |mem| < 0x10000 && env.writeOk
    ensures var d := CommandRequest(c, e, kind, cmd, user, mem, env);
      && (d.sendStatus == Pending ==> InFlight(d) && d.calls == c.calls)
      && if IsRW(e) || env.newTimer != 0 then d.sendStatus == Pending
         else d.sendStatus == NoResources && d.sent == [] && d.calls == c.calls
  {
    CommandSends(c, e, kind, cmd, user, mem, env);
    SendNewInFlight(CommandStart(c, e, kind, cmd, user, mem, env), env);
  }
}
