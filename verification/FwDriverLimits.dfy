/**
  Why the bound on firmware-image writes is what it is: a run that writes three times, and runs
  that write a fourth time once a semaphore wait fails or the 8-bit attempt counter wraps.
 */
module FwDriverLimits {
  import opened FwDriver

  const YES := Answer(true, Pending, Fine, Success, Info([4]), Success, Success)
  const ABORT := YES.(started := Success)
  const CLOSED := YES.(info := Info([0, 0, LIFE_CYCLE_OPERATIONAL]))
  const OPEN := YES.(info := Info([SESSION_OPEN, 0, LIFE_CYCLE_OPERATIONAL]))
  const NO_DATA := YES.(created := false)
  const REFUSED := YES.(reply := WriteFailed)
  const REFUSED_LATE := REFUSED.(wait := ErrorAfterCall)

  /** Ready for the main sequence. */
  predicate Plain(c: Ctx) {
    && !c.skip.all && !c.skip.force && !c.sess.prevOpen && !c.sess.initiated && !c.sess.forceDnld
    && !c.want.recovery && !c.want.nci && c.n.attempts < 256
  }

  /** Ready for the recovery sequence. */
  predicate Recovering(c: Ctx) {
    && c.want.recovery && c.skip.all && !c.skip.force && !c.sess.initiated && !c.sess.forceDnld && !c.want.nci
    && c.n.attempts < 256
  }

  lemma Handled(h: Handler, hs: seq<Handler>, c: Ctx, a: Answer, rest: seq<Answer>)
    ensures var o := Handle(h, c, a);
      RunHandlers([h] + hs, c, [a] + rest)
      == if o.st == Success then RunHandlers(hs, o.c, rest) else Result(o.c, o.st, rest, false)
  {
    assert ([h] + hs)[1..] == hs && ([a] + rest)[1..] == rest;
  }

  lemma SeqStarts(hs: seq<Handler>, c: Ctx, rest: seq<Answer>)
    ensures RunSeq(hs, c, [ABORT] + rest) == RunHandlers(hs, c, rest)
  {
    assert ([ABORT] + rest)[1..] == rest;
  }

  lemma HandledWell(h: Handler, hs: seq<Handler>, c: Ctx, a: Answer, d: Ctx, rest: seq<Answer>)
    requires Handle(h, c, a) == Outcome(d, Success)
    ensures RunHandlers([h] + hs, c, [a] + rest) == RunHandlers(hs, d, rest)
  {
    assert ([h] + hs)[1..] == hs && ([a] + rest)[1..] == rest;
  }

  /** With these answers the handlers before the write change nothing. */
  lemma QuietBeforeWrite(c: Ctx)
    requires Plain(c)
    ensures Handle(HNormal, c, YES) == Outcome(c, Success) && Handle(HSession, c, CLOSED) == Outcome(c, Success)
    ensures Handle(HVersion, c, YES) == Outcome(c, Success) && Handle(HLogRead, c, YES) == Outcome(c, Success)
  {}

  const TO_WRITE := [ABORT, YES, YES, CLOSED, YES, YES]

  /** The main sequence comes to the write without a change of context. */
  lemma ReachesWrite(c: Ctx, rest: seq<Answer>)
    requires Plain(c)
    ensures RunSeq(DOWNLOAD_SEQ, c, TO_WRITE + rest) == RunHandlers([HWrite] + AFTER_WRITE, c, rest)
  {
    QuietBeforeWrite(c);
    var h2 := [HSession] + ([HVersion] + ([HLogRead] + ([HWrite] + AFTER_WRITE)));
    var a2 := [CLOSED] + ([YES] + ([YES] + rest));
    assert DOWNLOAD_SEQ == [HNormal] + ([HNormal] + h2);
    assert TO_WRITE + rest == [ABORT] + ([YES] + ([YES] + a2));
    SeqStarts([HNormal] + ([HNormal] + h2), c, [YES] + ([YES] + a2));
    HandledWell(HNormal, [HNormal] + h2, c, YES, c, [YES] + a2);
    HandledWell(HNormal, h2, c, YES, c, a2);
    QuietTail(c, rest);
  }

  lemma QuietTail(c: Ctx, rest: seq<Answer>)
    requires Plain(c)
    ensures RunHandlers([HSession] + ([HVersion] + ([HLogRead] + ([HWrite] + AFTER_WRITE))), c,
      [CLOSED] + ([YES] + ([YES] + rest)))
            == RunHandlers([HWrite] + AFTER_WRITE, c, rest)
  {
    QuietBeforeWrite(c);
    var h5 := [HWrite] + AFTER_WRITE;
    HandledWell(HSession, [HVersion] + ([HLogRead] + h5), c, CLOSED, c, [YES] + ([YES] + rest));
    HandledWell(HVersion, [HLogRead] + h5, c, YES, c, [YES] + rest);
    HandledWell(HLogRead, h5, c, YES, c, rest);
  }

  /** The run ends right after one more write. */
  lemma LastWrite(c: Ctx)
    requires Plain(c)
    ensures var d := Download(c, true, TO_WRITE + [YES]).c;
      d.n == Tick(c).n.(writes := c.n.writes + 1)
  {
    ReachesWrite(c, [YES]);
    Handled(HWrite, AFTER_WRITE, c, YES, []);
    assert [YES] + [] == [YES];
  }

  /** A log sequence inside the completion, and what the completion goes on with. */
  lemma Logged(c: Ctx, st: Status, rest: seq<Answer>)
    requires c.sess.initiated && !c.sess.forceDnld && st != Success
    ensures Complete(c, st, [ABORT, YES] + rest).c == Complete(Logging(c, st), st, rest).c
  {
    var l := Logging(c, st);
    assert [ABORT, YES] + rest == [ABORT] + ([YES] + rest);
    SeqStarts(LOG_SEQ, l, [YES] + rest);
    assert LOG_SEQ == [HLog] + [];
    Handled(HLog, [], l, YES, rest);
  }

  lemma Retries(c: Ctx, st: Status, answers: seq<Answer>)
    requires answers != [] && st != WriteFailed && st != Rejected && !c.sess.initiated && !c.want.recovery
      && c.want.retry
    ensures Complete(c, st, answers).c == Download(Restarted(c), true, answers).c
  {}

  /** The chip has taken the image but reports its session still open. */
  function Reopened(c: Ctx): Ctx { Restarted(Logging(SessionState(Write(c, YES).c, OPEN).c, Failed)) }

  /** Then the driver tries again. */
  lemma SessionStillOpen(c: Ctx, rest: seq<Answer>)
    requires Plain(c) && c.n.attempts + 1 < MAX_ATTEMPTS && rest != []
    ensures Download(c, true, TO_WRITE + ([YES, OPEN] + ([ABORT, YES] + rest))).c == Download(Reopened(c), true, rest).c
    ensures Plain(Reopened(c)) && Reopened(c).n == Tick(c).n.(writes := c.n.writes + 1)
  {
    var tail := [ABORT, YES] + rest;
    ReachesWrite(c, [YES, OPEN] + tail);
    assert [YES, OPEN] + tail == [YES] + ([OPEN] + tail);
    Handled(HWrite, AFTER_WRITE, c, YES, [OPEN] + tail);
    var w := Write(c, YES).c;
    assert AFTER_WRITE == [HSession] + [HVersion, HLog, HIntegrity];
    Handled(HSession, [HVersion, HLog, HIntegrity], w, OPEN, tail);
    var o := SessionState(w, OPEN).c;
    Logged(o, Failed, rest);
    Retries(Logging(o, Failed), Failed, rest);
  }

  /** The chip has refused the image. */
  function Turned(c: Ctx, w: Answer): Ctx { Logging(Write(c, w).c, Write(c, w).st) }

  /** Then the driver wants to recover. */
  lemma WriteRefused(c: Ctx, w: Answer, rest: seq<Answer>)
    requires Plain(c) && rest != []
    requires w == REFUSED_LATE || (w == REFUSED && c.n.attempts + 1 < MAX_ATTEMPTS)
    ensures Download(c, true, TO_WRITE + ([w] + ([ABORT, YES] + rest))).c
      == Complete(Turned(c, w), Write(c, w).st, rest).c
    ensures Write(c, w).st == if w == REFUSED then WriteFailed else Failed
    ensures var d := Turned(c, w);
      Recovering(d) && d.n == Tick(c).n.(writes := c.n.writes + 1, waitFailed := c.n.waitFailed || w == REFUSED_LATE)
  {
    var tail := [ABORT, YES] + rest;
    ReachesWrite(c, [w] + tail);
    Handled(HWrite, AFTER_WRITE, c, w, tail);
    Logged(Write(c, w).c, Write(c, w).st, rest);
  }

  lemma JudgeKeepsRecovering(c: Ctx, st: Status)
    requires Recovering(c) && (st == Failed || (st == WriteFailed && c.n.attempts < MAX_ATTEMPTS))
    ensures Judge(c, st) == c
  {}

  /** The context after a reset that is skipped and a force command that succeeds. */
  function Forced(c: Ctx): Ctx {
    Tick(c).(want := c.want.(recovery := false, retry := true), skip := c.skip.(reset := true))
  }

  function ResetSkipped(c: Ctx): Ctx { c.(skip := c.skip.(reset := false)) }

  lemma RecoveryHandlers(c: Ctx)
    requires Recovering(c)
    ensures Handle(HReset, c, YES) == Outcome(ResetSkipped(c), Success)
    ensures Handle(HForce, ResetSkipped(c), YES) == Outcome(Forced(c), Success)
    ensures Handle(HForce, ResetSkipped(c), NO_DATA) == Outcome(Unforced(c), Failed)
    ensures Handle(HRecover, Forced(c), YES) == Outcome(Forced(c), Success)
    ensures Handle(HSendNci, Forced(c), YES) == Outcome(Forced(c), Success)
  {}

  lemma RecoveryWorks(c: Ctx, rest: seq<Answer>)
    requires Recovering(c)
    ensures RunSeq(RECOVERY_SEQ, c, [ABORT, YES] + ([YES, YES, YES] + rest)) == Result(Forced(c), Success, rest, false)
  {
    RecoveryHandlers(c);
    var r, f := ResetSkipped(c), Forced(c);
    var h1 := [HForce] + ([HRecover] + ([HSendNci] + []));
    var a1 := [YES] + ([YES] + ([YES] + rest));
    assert RECOVERY_SEQ == [HReset] + h1;
    assert [ABORT, YES] + ([YES, YES, YES] + rest) == [ABORT] + ([YES] + a1);
    SeqStarts([HReset] + h1, c, [YES] + a1);
    HandledWell(HReset, h1, c, YES, r, a1);
    HandledWell(HForce, [HRecover] + ([HSendNci] + []), r, YES, f, [YES] + ([YES] + rest));
    HandledWell(HRecover, [HSendNci] + [], f, YES, f, [YES] + rest);
    HandledWell(HSendNci, [], f, YES, f, rest);
  }

  lemma RecoveryBreaks(c: Ctx, rest: seq<Answer>)
    requires Recovering(c)
    ensures RunSeq(RECOVERY_SEQ, c, [ABORT, YES] + ([NO_DATA] + rest)) == Result(Unforced(c), Failed, rest, false)
  {
    RecoveryHandlers(c);
    var h1 := [HForce] + [HRecover, HSendNci];
    assert [ABORT, YES] + ([NO_DATA] + rest) == [ABORT] + ([YES] + ([NO_DATA] + rest));
    assert RECOVERY_SEQ == [HReset] + h1;
    SeqStarts([HReset] + h1, c, [YES] + ([NO_DATA] + rest));
    HandledWell(HReset, h1, c, YES, ResetSkipped(c), [NO_DATA] + rest);
    Handled(HForce, [HRecover, HSendNci], ResetSkipped(c), NO_DATA, rest);
  }

  /** Recovery succeeds and the driver tries again. */
  lemma Recovers(c: Ctx, st: Status, rest: seq<Answer>) returns (d: Ctx)
    requires Recovering(c) && rest != [] && (st == Failed || (st == WriteFailed && c.n.attempts < MAX_ATTEMPTS))
    ensures Complete(c, st, [ABORT, YES] + ([YES, YES, YES] + rest)).c == Download(d, true, rest).c
    ensures Plain(d) && d.n == Tick(c).n
  {
    JudgeKeepsRecovering(c, st);
    RecoveryWorks(c, rest);
    Retries(Forced(c), Success, rest);
    d := Restarted(Forced(c));
  }

  /** The context after a force command that could not even be prepared. */
  function Unforced(c: Ctx): Ctx { Tick(c).(skip := c.skip.(reset := false)) }

  /** Recovery fails before it sends anything; only the counter moves. */
  lemma RecoveryFails(c: Ctx, st: Status, rest: seq<Answer>)
    requires Recovering(c) && (st == Failed || (st == WriteFailed && c.n.attempts < MAX_ATTEMPTS))
    ensures Complete(c, st, [ABORT, YES] + ([NO_DATA] + rest)).c == Complete(Unforced(c), Failed, rest).c
    ensures Recovering(Unforced(c)) && Unforced(c).n == Tick(c).n
  {
    JudgeKeepsRecovering(c, st);
    RecoveryBreaks(c, rest);
  }

  /** Three writes do happen. */
  lemma ThreeWritesHappen(minor: int, major: int) returns (answers: seq<Answer>)
    ensures var d := Download(Fresh(minor, major, false, Success), true, answers).c; Sound(d) && d.n.writes == 3
  {
    var c := Fresh(minor, major, false, Success);
    var last := TO_WRITE + [YES];
    var second := TO_WRITE + ([YES, OPEN] + ([ABORT, YES] + last));
    answers := TO_WRITE + ([YES, OPEN] + ([ABORT, YES] + second));
    var c1 := Reopened(c);
    SessionStillOpen(c, second);
    SessionStillOpen(c1, last);
    LastWrite(Reopened(c1));
  }

  /** A semaphore error during the third write lets a fourth through. */
  lemma FourthAfterWaitError(minor: int, major: int) returns (answers: seq<Answer>)
    ensures var d := Download(Fresh(minor, major, false, Success), true, answers).c; !d.n.wrapped && d.n.writes == 4
  {
    var c := Fresh(minor, major, false, Success);
    var last := TO_WRITE + [YES];
    var recovery := [ABORT, YES] + ([YES, YES, YES] + last);
    var third := TO_WRITE + ([REFUSED_LATE] + ([ABORT, YES] + recovery));
    var second := TO_WRITE + ([YES, OPEN] + ([ABORT, YES] + third));
    answers := TO_WRITE + ([YES, OPEN] + ([ABORT, YES] + second));
    var c1 := Reopened(c);
    SessionStillOpen(c, second);
    SessionStillOpen(c1, third);
    WriteRefused(Reopened(c1), REFUSED_LATE, recovery);
    var c4 := Recovers(Turned(Reopened(c1), REFUSED_LATE), Failed, last);
    LastWrite(c4);
  }

  /** Failing recoveries can take the counter through its wrap without a write. */
  lemma {:induction false} CounterWraps(c: Ctx, st: Status, rest: seq<Answer>) returns (answers: seq<Answer>, d: Ctx)
    requires Recovering(c) && (st == Failed || (st == WriteFailed && c.n.attempts < MAX_ATTEMPTS))
    ensures Complete(c, st, answers).c == Complete(d, Failed, rest).c && answers != []
    ensures Recovering(d) && d.n == c.n.(attempts := 0, wrapped := true)
    decreases 256 - c.n.attempts
  {
    d := Unforced(c);
    var later := rest;
    if c.n.attempts < 255 {
      RecoveryFails(c, st, rest);
      later, d := CounterWraps(d, Failed, rest);
    }
    RecoveryFails(c, st, later);
    answers := [ABORT, YES] + ([NO_DATA] + later);
  }

  /** A wrapped counter lets a fourth write through. */
  lemma FourthAfterWrap(minor: int, major: int) returns (answers: seq<Answer>)
    ensures var d := Download(Fresh(minor, major, false, Success), true, answers).c; !d.n.waitFailed && d.n.writes == 4
  {
    var c := Fresh(minor, major, false, Success);
    var last := TO_WRITE + [YES];
    var third := TO_WRITE + ([YES, OPEN] + ([ABORT, YES] + last));
    var recovery := [ABORT, YES] + ([YES, YES, YES] + third);
    SessionStillOpen(c, last);
    WriteRefused(Reopened(c), REFUSED, last);
    var wrap, d := CounterWraps(Turned(Reopened(c), REFUSED), WriteFailed, recovery);
    var second := TO_WRITE + ([REFUSED] + ([ABORT, YES] + wrap));
    answers := TO_WRITE + ([YES, OPEN] + ([ABORT, YES] + second));
    SessionStillOpen(c, second);
    WriteRefused(Reopened(c), REFUSED, wrap);
    var c3 := Recovers(d, Failed, third);
    SessionStillOpen(c3, last);
    LastWrite(Reopened(c3));
  }
}
