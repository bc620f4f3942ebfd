/**
  The firmware-download driver: sequences of handlers steered by flags and an attempt counter,
  with a recovery sequence and retries that call each other.  The chip, the transport and the
  semaphores answer arbitrarily; a run is driven by a finite sequence of such answers, one for
  each handler, and stops when they are used up, so that every run, ended or not, is covered by
  its finite beginnings.
 */
module FwDriver {

  const MAX_ATTEMPTS := 3

  datatype Status = Success | Failed | Pending | WriteFailed | Rejected | NotAllowed | Other(code: int)

  datatype Wait = Fine | ErrorAfterCall | ErrorBeforeCall

  /** The data a callback is given. */
  datatype Info = NoInfo | Info(bytes: seq<int>)

  /** What the world does during one handler: was the callback data created, what did the request
      return, how did the wait for the callback end, what was the callback told, and what did
      switching the chip's mode return. */
  datatype Answer = Answer(created: bool, started: Status, wait: Wait, reply: Status, info: Info,
                           toNormal: Status, toDownload: Status)

  /** Parts of the sequences to be left out. */
  datatype Skips = Skips(all: bool, reset: bool, force: bool)

  /** What the completion is asked to do next. */
  datatype Wants = Wants(recovery: bool, retry: bool, nci: bool)

  datatype Session = Session(prevOpen: bool, initiated: bool, forceDnld: bool, attemptFailed: bool, lastStatus: Status)

  /** The 8-bit attempt counter; and, as history, the firmware-image writes so far, whether the
      counter has wrapped, and whether a semaphore wait has failed. */
  datatype Counts = Counts(attempts: nat, writes: nat, wrapped: bool, waitFailed: bool)

  /** The driver's context, and the version of the image at hand. */
  datatype Ctx = Ctx(skip: Skips, want: Wants, sess: Session, n: Counts, newMinor: int, newMajor: int)

  datatype Outcome = Outcome(c: Ctx, st: Status)

  /** One more attempt, in eight bits. */
  function Tick(c: Ctx): Ctx {
    c.(n := if c.n.attempts < 255 then c.n.(attempts := c.n.attempts + 1) else c.n.(attempts := 0, wrapped := true))
  }

  /** The common end of a handler whose request is pending: `called` is the context after the
      callback, which reports `told`. */
  function AfterWait(c: Ctx, a: Answer, called: Ctx, told: Status): Outcome {
    match a.wait
    case Fine => Outcome(called, told)
    case ErrorAfterCall => Outcome(called.(n := called.n.(waitFailed := true)), Failed)
    case ErrorBeforeCall => Outcome(c.(n := c.n.(waitFailed := true)), Failed)
  }

  function OrFailed(st: Status): Status { if st == Success then Success else Failed }

  function Reset(c: Ctx, a: Answer): Outcome {
    if c.skip.all || c.skip.reset then Outcome(c.(skip := c.skip.(reset := false)), Success)
    else if !a.created || a.started != Pending then Outcome(c, Failed)
    else AfterWait(c, a, c, OrFailed(a.reply))
  }

  /** The force command; `forced` is the context after a successful callback. */
  function ForceWith(c: Ctx, a: Answer, marks: bool): Outcome {
    if c.skip.force then Outcome(c, Success)
    else
      var t := if c.want.recovery then Tick(c) else c;
      if !a.created then Outcome(t, Failed)
      else if a.started != Pending
      then Outcome(t.(skip := t.skip.(force := false), want := t.want.(retry := false)), a.started)
      else
        var called :=
          if marks && a.reply == Success
          then t.(want := t.want.(recovery := false, retry := true), skip := t.skip.(reset := true))
          else t;
        AfterWait(t, a, called, Success)
  }

  function Normal(c: Ctx, a: Answer): Outcome { ForceWith(c, a, false) }

  function Force(c: Ctx, a: Answer): Outcome { ForceWith(c, a, true) }

  /** The length of a version reply, by chip version; 0 for an unknown chip. */
  function VersionLength(hw: int): nat {
    var v := hw % 16;
    if v == 4 || v == 5 || v == 8 then 9 else if 1 <= v <= 3 then 11 else 0
  }

  function VersionCallback(c: Ctx, a: Answer): Outcome {
    if a.reply != Success || a.info == NoInfo then Outcome(c, Failed)
    else
      var b := a.info.bytes;
      if b == [] || VersionLength(b[0]) == 0 then Outcome(c, Failed)
      else if VersionLength(b[0]) != |b| then Outcome(c, Success)
      else
        var minor, major := b[|b| - 2], b[|b| - 1];
        var same := c.newMinor == minor && c.newMajor == major;
        if b[1] == 7 && c.newMajor != 1 then Outcome(c, NotAllowed)
        else if !c.sess.initiated && c.newMajor < major then Outcome(c, NotAllowed)
        else if !c.sess.initiated && same then Outcome(c.(skip := c.skip.(all := true)), Success)
        else if c.sess.initiated && !same then Outcome(c, Failed)
        else Outcome(c, Success)
  }

  function GetVersion(c: Ctx, a: Answer): Outcome {
    if c.skip.all || c.sess.prevOpen then Outcome(c, Success)
    else if !a.created || a.started != Pending then Outcome(c, Failed)
    else
      var o := VersionCallback(c, a);
      AfterWait(c, a, o.c, OrFailed(o.st))
  }

  const LIFE_CYCLE_OPERATIONAL := 17
  const SESSION_OPEN := 1

  function SessionCallback(c: Ctx, a: Answer): Outcome {
    if a.reply != Success || a.info == NoInfo || |a.info.bytes| != 3 || a.info.bytes[2] != LIFE_CYCLE_OPERATIONAL
    then Outcome(c, Failed)
    else if a.info.bytes[0] != SESSION_OPEN then Outcome(c.(sess := c.sess.(prevOpen := false)), Success)
    else if !c.sess.initiated then Outcome(c.(sess := c.sess.(prevOpen := true)), Success)
    else Outcome(c.(sess := c.sess.(prevOpen := true), want := c.want.(retry := c.n.attempts < MAX_ATTEMPTS)), Failed)
  }

  function SessionState(c: Ctx, a: Answer): Outcome {
    if c.skip.all then Outcome(c, Success)
    else if !a.created || a.started != Pending then Outcome(c, Failed)
    else
      var o := SessionCallback(c, a);
      AfterWait(c, a, o.c, OrFailed(o.st))
  }

  function LogRead(c: Ctx, a: Answer): Outcome {
    if ((c.skip.all || c.sess.forceDnld) && !c.sess.prevOpen) || (c.sess.prevOpen && c.want.retry)
    then Outcome(c, Success)
    else if !a.created || a.started != Pending then Outcome(c, Failed)
    else AfterWait(c, a, c, if a.info == NoInfo then Failed else OrFailed(a.reply))
  }

  function WriteCallback(c: Ctx, a: Answer): Ctx {
    if a.reply == Success then c.(sess := c.sess.(attemptFailed := false))
    else if a.reply == WriteFailed then c.(skip := c.skip.(all := true), want := c.want.(recovery := true))
    else c
  }

  /** The firmware image is written. */
  function Write(c0: Ctx, a: Answer): Outcome {
    var c := c0.(want := c0.want.(retry := false));
    if c.skip.all && !c.sess.prevOpen then Outcome(c, Success)
    else if !a.created then Outcome(c, Failed)
    else
      var t := if c.sess.forceDnld then c else Tick(c).(sess := c.sess.(initiated := true));
      var w := t.(n := t.n.(writes := t.n.writes + 1));
      if !c.sess.forceDnld && a.started != Pending then Outcome(w, Failed)
      else AfterWait(w, a, WriteCallback(w, a), a.reply)
  }

  /** Six of the bits of the integrity reply's first byte must be set. */
  predicate CrcStatusGood(b: int) { (b % 128) / 2 == 63 }

  function CheckIntegrity(c: Ctx, a: Answer): Outcome {
    if c.sess.prevOpen || c.skip.all then Outcome(c, Success)
    else if !a.created || a.started != Pending then Outcome(c, Failed)
    else
      var bad := a.reply != Success || a.info == NoInfo || (|a.info.bytes| == 31 && !CrcStatusGood(a.info.bytes[0]));
      AfterWait(c, a, c, if bad then Failed else Success)
  }

  function RecoverCallback(c: Ctx, a: Answer): Ctx {
    var t := if a.reply != Success then c
             else if !c.skip.force then c.(want := c.want.(retry := true))
             else c.(want := c.want.(nci := true));
    t.(want := t.want.(recovery := false), skip := t.skip.(force := false))
  }

  /** The recovery image is written. */
  function Recover(c: Ctx, a: Answer): Outcome {
    if !c.want.recovery then Outcome(c, Success)
    else if !a.created then Outcome(c, Failed)
    else
      var t := Tick(c).(want := c.want.(recovery := false));
      if a.started != Pending
      then Outcome(t.(skip := t.skip.(force := false), want := t.want.(retry := false)), a.started)
      else AfterWait(t, a, RecoverCallback(t, a), OrFailed(a.reply))
  }

  function NciCallback(c: Ctx, a: Answer): Outcome {
    var o := if a.reply != Success then Outcome(c, a.reply)
             else if a.toDownload == Success then Outcome(c.(want := c.want.(retry := true)), Success)
             else Outcome(c.(want := c.want.(retry := false)), Failed);
    o.(c := o.c.(want := o.c.want.(nci := false)))
  }

  function SendNci(c: Ctx, a: Answer): Outcome {
    if !c.want.nci then Outcome(c, Success)
    else if a.toNormal != Success then Outcome(c.(want := c.want.(retry := false, nci := false)), a.toNormal)
    else if !a.created then Outcome(c, Failed)
    else if a.started != Pending then Outcome(c, a.started)
    else
      var o := NciCallback(c, a);
      AfterWait(c, a, o.c, OrFailed(o.st))
  }

  function Log(c: Ctx, a: Answer): Outcome {
    if (c.skip.all || c.sess.forceDnld) && !c.sess.initiated then Outcome(c, Success)
    else if !a.created then Outcome(c, Failed)
    else if a.started != Pending then Outcome(c.(sess := c.sess.(initiated := false)), Failed)
    else AfterWait(c, a, if a.reply == Success then c.(sess := c.sess.(initiated := false)) else c, OrFailed(a.reply))
  }

  datatype Handler = HNormal | HSession | HVersion | HLogRead | HWrite | HLog | HIntegrity | HReset | HForce
    | HRecover | HSendNci

  function Handle(h: Handler, c: Ctx, a: Answer): Outcome {
    match h
    case HNormal => Normal(c, a)
    case HSession => SessionState(c, a)
    case HVersion => GetVersion(c, a)
    case HLogRead => LogRead(c, a)
    case HWrite => Write(c, a)
    case HLog => Log(c, a)
    case HIntegrity => CheckIntegrity(c, a)
    case HReset => Reset(c, a)
    case HForce => Force(c, a)
    case HRecover => Recover(c, a)
    case HSendNci => SendNci(c, a)
  }

  const BEFORE_WRITE := [HNormal, HNormal, HSession, HVersion, HLogRead]
  const AFTER_WRITE := [HSession, HVersion, HLog, HIntegrity]
  const DOWNLOAD_SEQ := BEFORE_WRITE + [HWrite] + AFTER_WRITE
  const RECOVERY_SEQ := [HReset, HForce, HRecover, HSendNci]
  const LOG_SEQ := [HLog]

  /* ---- Sequences ---- */

  /** Where a run stands: `cut` when the answers ran out on the way. */
  datatype Result = Result(c: Ctx, st: Status, rest: seq<Answer>, cut: bool)

  function RunHandlers(hs: seq<Handler>, c: Ctx, answers: seq<Answer>): (r: Result)
    ensures |r.rest| <= |answers|
    decreases |hs|
  {
    if hs == [] then Result(c, Success, answers, false)
    else if answers == [] then Result(c, Failed, [], true)
    else
      var o := Handle(hs[0], c, answers[0]);
      if o.st != Success then Result(o.c, o.st, answers[1..], false) else RunHandlers(hs[1..], o.c, answers[1..])
  }

  /** The sequence handler first aborts a pending read. */
  function RunSeq(hs: seq<Handler>, c: Ctx, answers: seq<Answer>): (r: Result)
    ensures answers != [] ==> |r.rest| < |answers|
    ensures answers == [] ==> r.cut
  {
    if answers == [] then Result(c, Failed, [], true)
    else if answers[0].started != Success then Result(c, answers[0].started, answers[1..], false)
    else RunHandlers(hs, c, answers[1..])
  }

  /** What the completion first makes of the status of the sequence before it. */
  function Judge(c: Ctx, st: Status): Ctx {
    if st == WriteFailed || st == Rejected then
      if c.n.attempts < MAX_ATTEMPTS
      then c.(want := c.want.(recovery := true), skip := c.skip.(force := c.skip.force || st == Rejected))
      else c.(want := c.want.(recovery := false, retry := false))
    else c
  }

  function Restarted(c: Ctx): Ctx {
    c.(sess := c.sess.(prevOpen := false, initiated := false, forceDnld := false),
       skip := c.skip.(all := false, force := false), want := c.want.(recovery := false, nci := false))
  }

  function Cleared(c: Ctx): Ctx {
    c.(sess := Session(false, false, false, false, if c.sess.attemptFailed then Success else c.sess.lastStatus),
       skip := Skips(false, false, false), want := Wants(false, false, false), n := c.n.(attempts := 0))
  }

  function Logging(c: Ctx, st: Status): Ctx {
    Judge(c, st).(sess := c.sess.(lastStatus := st, attemptFailed := true, initiated := false))
  }

  /** The completion of a sequence: log what was begun, recover, retry, or end.  As in the source
      each level returns its own status, whatever the levels below it return. */
  function Complete(c: Ctx, st: Status, answers: seq<Answer>): Result
    decreases |answers|
  {
    var j := Judge(c, st);
    if answers == [] then Result(j, st, [], true)
    else if j.sess.initiated then
      var r := RunSeq(LOG_SEQ, Logging(c, st), answers);
      var own := if st != Success then st else r.st;
      if r.cut then r else Complete(r.c, own, r.rest).(st := own)
    else if j.want.recovery then
      var r := RunSeq(RECOVERY_SEQ, j, answers);
      if r.cut then r else Complete(r.c, r.st, r.rest).(st := r.st)
    else if j.want.retry then
      var r := RunSeq(DOWNLOAD_SEQ, Restarted(j), answers);
      if r.cut then r else Complete(r.c, r.st, r.rest).(st := r.st)
    else
      var own := if j.want.nci then Success else if answers[0].toNormal != Success then answers[0].toNormal else st;
      Result(Cleared(j), own, answers[1..], false)
  }

  /** The context at the start of a download. */
  function Fresh(minor: int, major: int, attemptFailed: bool, last: Status): Ctx {
    Ctx(Skips(false, false, false), Wants(false, false, false), Session(false, false, false, attemptFailed, last),
        Counts(0, 0, false, false), minor, major)
  }

  /** One download: the main sequence, if the image can be opened, and the completion. */
  function Download(c: Ctx, imageOpens: bool, answers: seq<Answer>): Result {
    if imageOpens then
      var r := RunSeq(DOWNLOAD_SEQ, c, answers);
      if r.cut then r else Complete(r.c, r.st, r.rest)
    else Complete(c, Failed, answers)
  }

  /* ---- The bound on firmware-image writes ---- */

  /** Neither the attempt counter nor a semaphore has misbehaved. */
  predicate Sound(c: Ctx) { !c.n.wrapped && !c.n.waitFailed }

  /** Another write is allowed. */
  predicate MayWrite(c: Ctx) {
    !c.sess.forceDnld && (Sound(c) ==> c.n.writes <= c.n.attempts && c.n.writes < MAX_ATTEMPTS)
  }

  /** Between handlers: whoever has asked for a retry or a recovery did so while another write was
      allowed, except that a failed write asks for recovery before its status has been judged. */
  predicate Bounded(c: Ctx, st: Status) {
    && !c.sess.forceDnld
    && (Sound(c) ==>
          && c.n.writes <= c.n.attempts && c.n.writes <= MAX_ATTEMPTS
          && (c.want.retry ==> c.n.writes < MAX_ATTEMPTS)
          && (c.want.recovery ==> c.n.writes < MAX_ATTEMPTS || st == WriteFailed))
  }

  lemma ForceKeepsMayWrite(c: Ctx, a: Answer, marks: bool)
    requires MayWrite(c)
    ensures MayWrite(ForceWith(c, a, marks).c)
    ensures !c.want.recovery ==> !ForceWith(c, a, marks).c.want.recovery
  {}

  lemma RecoverKeepsMayWrite(c: Ctx, a: Answer)
    requires MayWrite(c)
    ensures MayWrite(Recover(c, a).c)
  {}

  lemma SendNciKeepsMayWrite(c: Ctx, a: Answer)
    requires MayWrite(c)
    ensures MayWrite(SendNci(c, a).c)
  {}

  /** The handlers that only ask the chip something. */
  predicate Asks(h: Handler) { h.HReset? || h.HSession? || h.HVersion? || h.HLogRead? || h.HLog? || h.HIntegrity? }

  /** They write nothing and count nothing, and ask for a retry only while attempts are left. */
  lemma AskingKeeps(h: Handler, c: Ctx, a: Answer)
    requires Asks(h)
    ensures var d := Handle(h, c, a).c;
      && d.sess.forceDnld == c.sess.forceDnld && d.want.recovery == c.want.recovery
      && d.n.writes == c.n.writes && d.n.attempts == c.n.attempts && (Sound(d) ==> Sound(c))
      && (d.want.retry ==> c.want.retry || c.n.attempts < MAX_ATTEMPTS)
  {
    match h
    case HSession => SessionKeeps(c, a);
    case HVersion => VersionKeeps(c, a);
    case _ =>
  }

  lemma SessionKeeps(c: Ctx, a: Answer)
    ensures var d := SessionState(c, a).c;
      && d.sess.forceDnld == c.sess.forceDnld && d.want.recovery == c.want.recovery
      && d.n.writes == c.n.writes && d.n.attempts == c.n.attempts && (Sound(d) ==> Sound(c))
      && (d.want.retry ==> c.want.retry || c.n.attempts < MAX_ATTEMPTS)
  {}

  lemma VersionKeeps(c: Ctx, a: Answer)
    ensures var d := GetVersion(c, a).c;
      && d.sess == c.sess && d.want == c.want
      && d.n.writes == c.n.writes && d.n.attempts == c.n.attempts && (Sound(d) ==> Sound(c))
  {}

  lemma OtherHandlersKeepMayWrite(h: Handler, c: Ctx, a: Answer)
    requires MayWrite(c) && h != HWrite
    ensures MayWrite(Handle(h, c, a).c)
    ensures h in BEFORE_WRITE && !c.want.recovery ==> !Handle(h, c, a).c.want.recovery
  {
    if Asks(h) { AskingKeeps(h, c, a); }
    match h
    case HNormal => ForceKeepsMayWrite(c, a, false);
    case HForce => ForceKeepsMayWrite(c, a, true);
    case HRecover => RecoverKeepsMayWrite(c, a);
    case HSendNci => SendNciKeepsMayWrite(c, a);
    case _ =>
  }

  lemma WriteStaysBounded(c: Ctx, a: Answer)
    requires MayWrite(c) && !c.want.recovery
    ensures Bounded(Write(c, a).c, Write(c, a).st)
  {}

  lemma AfterWriteStaysBounded(h: Handler, c: Ctx, a: Answer, st: Status)
    requires h in AFTER_WRITE && Bounded(c, st)
    ensures Bounded(Handle(h, c, a).c, st)
  {
    assert Asks(h);
    AskingKeeps(h, c, a);
  }

  /** Handlers after the write, and the log sequence. */
  lemma {:induction false} TailStaysBounded(hs: seq<Handler>, c: Ctx, answers: seq<Answer>, st: Status)
    requires (forall h :: h in hs ==> h in AFTER_WRITE) && Bounded(c, st)
    ensures Bounded(RunHandlers(hs, c, answers).c, st)
    decreases |hs|
  {
    if hs != [] && answers != [] {
      AfterWriteStaysBounded(hs[0], c, answers[0], st);
      TailStaysBounded(hs[1..], Handle(hs[0], c, answers[0]).c, answers[1..], st);
    }
  }

  lemma {:induction false} RecoveryKeepsMayWrite(hs: seq<Handler>, c: Ctx, answers: seq<Answer>)
    requires HWrite !in hs && MayWrite(c)
    ensures MayWrite(RunHandlers(hs, c, answers).c)
    decreases |hs|
  {
    if hs != [] && answers != [] {
      OtherHandlersKeepMayWrite(hs[0], c, answers[0]);
      RecoveryKeepsMayWrite(hs[1..], Handle(hs[0], c, answers[0]).c, answers[1..]);
    }
  }

  lemma MainStaysBounded(hs: seq<Handler>, c: Ctx, answers: seq<Answer>)
    requires (forall h :: h in hs ==> h in BEFORE_WRITE) && MayWrite(c) && !c.want.recovery
    ensures var r := RunHandlers(hs + [HWrite] + AFTER_WRITE, c, answers); Bounded(r.c, r.st)
    decreases |hs|
  {
    var all := hs + [HWrite] + AFTER_WRITE;
    if answers != [] {
      var o := Handle(all[0], c, answers[0]);
      if hs == [] {
        assert all[1..] == AFTER_WRITE;
        WriteStaysBounded(c, answers[0]);
        if o.st == Success { TailStaysBounded(AFTER_WRITE, o.c, answers[1..], Success); }
      } else {
        assert all[1..] == hs[1..] + [HWrite] + AFTER_WRITE && hs[0] in BEFORE_WRITE;
        OtherHandlersKeepMayWrite(hs[0], c, answers[0]);
        MainStaysBounded(hs[1..], o.c, answers[1..]);
      }
    }
  }

  lemma DownloadSeqStaysBounded(c: Ctx, answers: seq<Answer>)
    requires MayWrite(c) && !c.want.recovery
    ensures var r := RunSeq(DOWNLOAD_SEQ, c, answers); Bounded(r.c, r.st)
  {
    if answers != [] { MainStaysBounded(BEFORE_WRITE, c, answers[1..]); }
  }

  lemma JudgeSettles(c: Ctx, st: Status)
    requires Bounded(c, st)
    ensures forall any :: Bounded(Judge(c, st), any)
  {}

  lemma {:induction false} CompleteStaysBounded(c: Ctx, st: Status, answers: seq<Answer>)
    requires Bounded(c, st)
    ensures Sound(Complete(c, st, answers).c) ==> Complete(c, st, answers).c.n.writes <= 3
    decreases |answers|
  {
    JudgeSettles(c, st);
    var j := Judge(c, st);
    assert Bounded(j, Success);
    if answers != [] {
      if j.sess.initiated {
        var r := RunSeq(LOG_SEQ, Logging(c, st), answers);
        assert Bounded(Logging(c, st), Success);
        TailStaysBounded(LOG_SEQ, Logging(c, st), answers[1..], Success);
        if !r.cut { CompleteStaysBounded(r.c, if st != Success then st else r.st, r.rest); }
      } else if j.want.recovery {
        var r := RunSeq(RECOVERY_SEQ, j, answers);
        RecoveryKeepsMayWrite(RECOVERY_SEQ, j, answers[1..]);
        if !r.cut { CompleteStaysBounded(r.c, r.st, r.rest); }
      } else if j.want.retry {
        var r := RunSeq(DOWNLOAD_SEQ, Restarted(j), answers);
        DownloadSeqStaysBounded(Restarted(j), answers);
        if !r.cut { CompleteStaysBounded(r.c, r.st, r.rest); }
      }
    }
  }

  /** Whatever is answered and however recovery and retry recurse, one download writes the
      firmware image at most three times, at every point of the run, unless the 8-bit attempt
      counter has wrapped or a semaphore wait has failed. */
  lemma AtMostThreeWrites(minor: int, major: int, failed: bool, last: Status, imageOpens: bool, answers: seq<Answer>)
    ensures var r := Download(Fresh(minor, major, failed, last), imageOpens, answers);
      r.c.n.wrapped || r.c.n.waitFailed || r.c.n.writes <= 3
  {
    var c := Fresh(minor, major, failed, last);
    if imageOpens {
      var r := RunSeq(DOWNLOAD_SEQ, c, answers);
      DownloadSeqStaysBounded(c, answers);
      if !r.cut { CompleteStaysBounded(r.c, r.st, r.rest); }
    } else {
      CompleteStaysBounded(c, Failed, answers);
    }
  }
}
