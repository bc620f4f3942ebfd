/**
  What one download does when the chip and the system answer well: which versions are installed,
  which are left alone, and what a chip that reports a wrong version or a broken memory afterwards
  leads to.
 */
module FwOutcomes {
  import opened FwDriver

  /* ---- Answers ---- */

  /** Everything about the answer is as it should be. */
  predicate Good(a: Answer) {
    && a.created && a.started == Pending && a.wait == Fine && a.reply == Success
    && a.toNormal == Success && a.toDownload == Success
  }

  /** The chip is operational (17) and no session is open (1). */
  predicate SessionClosed(a: Answer) {
    Good(a) && a.info.Info? && |a.info.bytes| == 3 && a.info.bytes[2] == 17 && a.info.bytes[0] != 1
  }

  /** A version reply of a known chip: ROM code in the second byte, firmware version in the last two. */
  predicate VersionIs(a: Answer, rom: int, minor: int, major: int) {
    && Good(a) && a.info.Info?
    && var b := a.info.bytes;
    && ((|b| == 9 && b[0] % 16 in {4, 5, 8}) || (|b| == 11 && 1 <= b[0] % 16 <= 3))
    && b[1] == rom && b[|b| - 2] == minor && b[|b| - 1] == major
  }

  predicate HasData(a: Answer) { Good(a) && a.info.Info? }

  predicate BitSet(b: int, weight: int)
    requires weight > 0
  {
    (b / weight) % 2 == 1
  }

  /** The six checks that the integrity reply reports in bits 1 to 6. */
  predicate AllIntact(b: int) {
    BitSet(b, 2) && BitSet(b, 4) && BitSet(b, 8) && BitSet(b, 16) && BitSet(b, 32) && BitSet(b, 64)
  }

  predicate IntegrityReply(a: Answer) { HasData(a) && (|a.info.bytes| == 31 ==> 0 <= a.info.bytes[0] < 256) }

  /** No check is reported as failed; a reply of another length than 31 reports none. */
  predicate Intact(a: Answer)
    requires a.info.Info?
  {
    |a.info.bytes| == 31 ==> AllIntact(a.info.bytes[0])
  }

  lemma IntactBits(b: int)
    requires 0 <= b < 256
    ensures CrcStatusGood(b) <==> AllIntact(b)
  {
    var q := (b % 128) / 2;
    assert b == 128 * (b / 128) + 2 * q + b % 2;
    assert b / 2 == 64 * (b / 128) + q;
  }

  /* ---- Steps through the main sequence ---- */

  /** Handler `i` of a sequence answered by `xs[k]`. */
  lemma Passed(hs: seq<Handler>, i: nat, c: Ctx, xs: seq<Answer>, k: nat, d: Ctx)
    requires i < |hs| && k < |xs| && Handle(hs[i], c, xs[k]) == Outcome(d, Success)
    ensures RunHandlers(hs[i..], c, xs[k..]) == RunHandlers(hs[i + 1..], d, xs[k + 1..])
  {
    assert hs[i..][1..] == hs[i + 1..] && xs[k..][1..] == xs[k + 1..];
  }

  lemma Stopped(hs: seq<Handler>, i: nat, c: Ctx, xs: seq<Answer>, k: nat, o: Outcome)
    requires i < |hs| && k < |xs| && Handle(hs[i], c, xs[k]) == o && o.st != Success
    ensures RunHandlers(hs[i..], c, xs[k..]) == Result(o.c, o.st, xs[k + 1..], false)
  {
    assert xs[k..][1..] == xs[k + 1..];
  }

  lemma AtEnd(hs: seq<Handler>, i: nat, c: Ctx, xs: seq<Answer>)
    requires i == |hs|
    ensures RunHandlers(hs[i..], c, xs) == Result(c, Success, xs, false)
  {}

  lemma Started(hs: seq<Handler>, c: Ctx, xs: seq<Answer>, k: nat)
    requires k < |xs| && xs[k].started == Success
    ensures RunSeq(hs, c, xs[k..]) == RunHandlers(hs[0..], c, xs[k + 1..])
  {
    assert hs[0..] == hs && xs[k..][1..] == xs[k + 1..];
  }

  /** Ready for the main sequence: nothing skipped, no session begun, no recovery asked for. */
  predicate Ready(c: Ctx) {
    && !c.skip.all && !c.skip.force && !c.want.recovery && !c.want.nci
    && !c.sess.prevOpen && !c.sess.initiated && !c.sess.forceDnld && c.n.attempts < 255
  }

  /** The read abort, the two force commands and the session state are answered well. */
  predicate Begun(xs: seq<Answer>) {
    |xs| > 4 && xs[0].started == Success && Good(xs[1]) && Good(xs[2]) && SessionClosed(xs[3])
  }

  lemma UpToVersion(c: Ctx, xs: seq<Answer>)
    requires Ready(c) && Begun(xs)
    ensures RunSeq(DOWNLOAD_SEQ, c, xs) == RunHandlers(DOWNLOAD_SEQ[3..], c, xs[4..])
  {
    assert xs[0..] == xs;
    Started(DOWNLOAD_SEQ, c, xs, 0);
    assert Handle(HNormal, c, xs[1]) == Outcome(c, Success) && Handle(HNormal, c, xs[2]) == Outcome(c, Success);
    assert Handle(HSession, c, xs[3]) == Outcome(c, Success);
    Passed(DOWNLOAD_SEQ, 0, c, xs, 1, c);
    Passed(DOWNLOAD_SEQ, 1, c, xs, 2, c);
    Passed(DOWNLOAD_SEQ, 2, c, xs, 3, c);
  }

  /** The image may run on the chip's ROM code. */
  predicate RomAllows(rom: int, major: int) { rom != 7 || major == 1 }

  lemma VersionJudged(c: Ctx, a: Answer, rom: int, minor: int, major: int)
    requires VersionIs(a, rom, minor, major) && !c.skip.all && !c.sess.prevOpen
    ensures var same := c.newMinor == minor && c.newMajor == major;
      Handle(HVersion, c, a)
      == if !RomAllows(rom, c.newMajor) then Outcome(c, Failed)
         else if c.sess.initiated then Outcome(c, if same then Success else Failed)
         else if c.newMajor < major then Outcome(c, Failed)
         else Outcome(if same then c.(skip := c.skip.(all := true)) else c, Success)
  {}

  /* ---- Nothing to install ---- */

  function Skipping(c: Ctx): Ctx { c.(skip := c.skip.(all := true)) }

  lemma SkipsRest(c: Ctx, xs: seq<Answer>)
    requires Ready(c) && !c.want.retry && |xs| > 11
    ensures RunHandlers(DOWNLOAD_SEQ[4..], Skipping(c), xs[5..]) == Result(Skipping(c), Success, xs[11..], false)
  {
    var d := Skipping(c);
    Passed(DOWNLOAD_SEQ, 4, d, xs, 5, d);
    Passed(DOWNLOAD_SEQ, 5, d, xs, 6, d);
    Passed(DOWNLOAD_SEQ, 6, d, xs, 7, d);
    Passed(DOWNLOAD_SEQ, 7, d, xs, 8, d);
    Passed(DOWNLOAD_SEQ, 8, d, xs, 9, d);
    Passed(DOWNLOAD_SEQ, 9, d, xs, 10, d);
    AtEnd(DOWNLOAD_SEQ, 10, d, xs[11..]);
  }

  /** With no session begun and nothing asked for, the completion reports the status it was given,
      unless the chip cannot be put back into normal mode. */
  lemma Ends(c: Ctx, st: Status, rest: seq<Answer>)
    requires !c.sess.initiated && !c.want.recovery && !c.want.retry && !c.want.nci
    requires st != WriteFailed && st != Rejected
    ensures var r := Complete(c, st, rest);
      && r.c.n.writes == c.n.writes
      && (!r.cut ==> r.c.sess.lastStatus == if c.sess.attemptFailed then Success else c.sess.lastStatus)
      && (st != Success ==> r.st != Success)
      && (rest != [] && rest[0].toNormal == Success ==> !r.cut && r.st == st)
  {}

  /** The version at hand is the one on the chip: nothing is written, and that is a success. */
  lemma SameVersionIsLeft(minor: int, major: int, failed: bool, last: Status, xs: seq<Answer>, rom: int)
    requires Begun(xs) && VersionIs(xs[4], rom, minor, major) && RomAllows(rom, major)
    requires |xs| > 11 && xs[11].toNormal == Success
    ensures var r := Download(Fresh(minor, major, failed, last), true, xs);
      && !r.cut && r.st == Success && r.c.n.writes == 0
      && r.c.sess.lastStatus == if failed then Success else last
  {
    var c := Fresh(minor, major, failed, last);
    UpToVersion(c, xs);
    VersionJudged(c, xs[4], rom, minor, major);
    Passed(DOWNLOAD_SEQ, 3, c, xs, 4, Skipping(c));
    SkipsRest(c, xs);
    Ends(Skipping(c), Success, xs[11..]);
  }

  /** The chip's major version is higher, or its ROM code does not take the image: nothing is
      written, and that is not a success. */
  lemma LowerVersionIsRefused(minor: int, major: int, failed: bool, last: Status, xs: seq<Answer>,
                              rom: int, m: int, M: int)
    requires Begun(xs) && VersionIs(xs[4], rom, m, M) && (major < M || !RomAllows(rom, major))
    ensures var r := Download(Fresh(minor, major, failed, last), true, xs);
      r.st != Success && r.c.n.writes == 0
  {
    var c := Fresh(minor, major, failed, last);
    UpToVersion(c, xs);
    VersionJudged(c, xs[4], rom, m, M);
    Stopped(DOWNLOAD_SEQ, 3, c, xs, 4, Outcome(c, Failed));
    Ends(c, Failed, xs[5..]);
  }

  /* ---- Something to install ---- */

  /** Another version that may replace the chip's. */
  predicate Newer(minor: int, major: int, rom: int, m: int, M: int) {
    RomAllows(rom, major) && major >= M && !(minor == m && major == M)
  }

  function Counted(c: Ctx): Counts { c.n.(attempts := c.n.attempts + 1, writes := c.n.writes + 1) }

  function Wrote(c: Ctx): Ctx {
    c.(sess := c.sess.(initiated := true, attemptFailed := false), want := c.want.(retry := false), n := Counted(c))
  }

  lemma UpToWrite(c: Ctx, xs: seq<Answer>, rom: int, m: int, M: int)
    requires Ready(c) && Begun(xs) && VersionIs(xs[4], rom, m, M) && Newer(c.newMinor, c.newMajor, rom, m, M)
    requires |xs| > 6 && HasData(xs[5])
    ensures RunSeq(DOWNLOAD_SEQ, c, xs) == RunHandlers(DOWNLOAD_SEQ[5..], c, xs[6..])
  {
    UpToVersion(c, xs);
    VersionJudged(c, xs[4], rom, m, M);
    Passed(DOWNLOAD_SEQ, 3, c, xs, 4, c);
    Passed(DOWNLOAD_SEQ, 4, c, xs, 5, c);
  }

  /** The image is written and the chip's session is closed again. */
  lemma UpToSecondVersion(c: Ctx, xs: seq<Answer>, rom: int, m: int, M: int)
    requires Ready(c) && Begun(xs) && VersionIs(xs[4], rom, m, M) && Newer(c.newMinor, c.newMajor, rom, m, M)
    requires |xs| > 8 && HasData(xs[5]) && Good(xs[6]) && SessionClosed(xs[7])
    ensures RunSeq(DOWNLOAD_SEQ, c, xs) == RunHandlers(DOWNLOAD_SEQ[7..], Wrote(c), xs[8..])
  {
    UpToWrite(c, xs, rom, m, M);
    Passed(DOWNLOAD_SEQ, 5, c, xs, 6, Wrote(c));
    Passed(DOWNLOAD_SEQ, 6, Wrote(c), xs, 7, Wrote(c));
  }

  function Logged(c: Ctx): Ctx { Wrote(c).(sess := Wrote(c).sess.(initiated := false)) }

  /** The chip reports the image's version after the write, takes the log, and answers the integrity
      check and the switch to normal mode. */
  predicate Confirms(minor: int, major: int, xs: seq<Answer>, rom: int) {
    && |xs| > 11 && VersionIs(xs[8], rom, minor, major) && RomAllows(rom, major) && Good(xs[9])
    && IntegrityReply(xs[10]) && xs[11].toNormal == Success
  }

  lemma UpToIntegrity(c: Ctx, xs: seq<Answer>, rom: int)
    requires Ready(c) && Confirms(c.newMinor, c.newMajor, xs, rom)
    ensures RunHandlers(DOWNLOAD_SEQ[7..], Wrote(c), xs[8..]) == RunHandlers(DOWNLOAD_SEQ[9..], Logged(c), xs[10..])
  {
    VersionJudged(Wrote(c), xs[8], rom, c.newMinor, c.newMajor);
    Passed(DOWNLOAD_SEQ, 7, Wrote(c), xs, 8, Wrote(c));
    Passed(DOWNLOAD_SEQ, 8, Wrote(c), xs, 9, Logged(c));
  }

  /** The last part of a pass through the main sequence, and its completion. */
  lemma Confirmed(c: Ctx, xs: seq<Answer>, rom: int)
    requires Ready(c) && Confirms(c.newMinor, c.newMajor, xs, rom)
    ensures var t := RunHandlers(DOWNLOAD_SEQ[7..], Wrote(c), xs[8..]);
      && !t.cut
      && var r := Complete(t.c, t.st, t.rest);
      && !r.cut && r.c.n.writes == c.n.writes + 1 && (r.st == Success <==> Intact(xs[10]))
      && r.c.sess.lastStatus == c.sess.lastStatus
  {
    UpToIntegrity(c, xs, rom);
    if |xs[10].info.bytes| == 31 { IntactBits(xs[10].info.bytes[0]); }
    if Intact(xs[10]) {
      Passed(DOWNLOAD_SEQ, 9, Logged(c), xs, 10, Logged(c));
      AtEnd(DOWNLOAD_SEQ, 10, Logged(c), xs[11..]);
      Ends(Logged(c), Success, xs[11..]);
    } else {
      Stopped(DOWNLOAD_SEQ, 9, Logged(c), xs, 10, Outcome(Logged(c), Failed));
      Ends(Logged(c), Failed, xs[11..]);
    }
  }

  /** What it takes for an image to be written and found on the chip; the last answer but one is the
      integrity reply. */
  predicate Installs(minor: int, major: int, xs: seq<Answer>, rom: int, m: int, M: int, rom': int) {
    && Begun(xs) && VersionIs(xs[4], rom, m, M) && Newer(minor, major, rom, m, M)
    && |xs| > 11 && HasData(xs[5]) && Good(xs[6]) && SessionClosed(xs[7]) && Confirms(minor, major, xs, rom')
  }

  /** One pass through the main sequence that writes the image, from the start or after recovery. */
  lemma PassInstalls(c: Ctx, xs: seq<Answer>, rom: int, m: int, M: int, rom': int)
    requires Ready(c) && Installs(c.newMinor, c.newMajor, xs, rom, m, M, rom')
    ensures var r := Download(c, true, xs);
      && !r.cut && r.c.n.writes == c.n.writes + 1 && (r.st == Success <==> Intact(xs[10]))
      && r.c.sess.lastStatus == c.sess.lastStatus
  {
    UpToSecondVersion(c, xs, rom, m, M);
    Confirmed(c, xs, rom');
  }

  /** A newer major version, or another minor of the same, is written exactly once; if the chip then
      reports it and an intact memory, that is a success, and otherwise not. */
  lemma NewVersionIsInstalled(minor: int, major: int, failed: bool, last: Status, xs: seq<Answer>,
                              rom: int, m: int, M: int, rom': int)
    requires Installs(minor, major, xs, rom, m, M, rom')
    ensures var r := Download(Fresh(minor, major, failed, last), true, xs);
      && !r.cut && r.c.n.writes == 1 && (r.st == Success <==> Intact(xs[10]))
      && r.c.sess.lastStatus == last
  {
    PassInstalls(Fresh(minor, major, failed, last), xs, rom, m, M, rom');
  }

  /** The log read before the write must bring data. */
  lemma LogReadStops(c: Ctx, xs: seq<Answer>, rom: int, m: int, M: int)
    requires Ready(c) && Begun(xs) && VersionIs(xs[4], rom, m, M) && Newer(c.newMinor, c.newMajor, rom, m, M)
    requires |xs| > 5
    requires var a := xs[5];
      !a.created || a.started != Pending || a.wait != Fine || a.reply != Success || a.info == NoInfo
    ensures var r := RunSeq(DOWNLOAD_SEQ, c, xs); !r.cut && r.st == Failed && r.c.n.writes == c.n.writes
  {
    UpToVersion(c, xs);
    VersionJudged(c, xs[4], rom, m, M);
    Passed(DOWNLOAD_SEQ, 3, c, xs, 4, c);
    var o := LogRead(c, xs[5]);
    Stopped(DOWNLOAD_SEQ, 4, c, xs, 5, o);
  }

  /* ---- A session that was left open ---- */

  /** The chip is operational (17), and a session is open (1). */
  predicate SessionOpen(a: Answer) {
    Good(a) && a.info.Info? && |a.info.bytes| == 3 && a.info.bytes[2] == 17 && a.info.bytes[0] == 1
  }

  /** The chip still has a session open, from a download that was interrupted: the image is written
      whatever the chip's version, which is not asked for; in a retry the log is not read either. */
  lemma OpenSessionIsRewritten(c: Ctx, xs: seq<Answer>, rom: int)
    requires Ready(c) && Confirms(c.newMinor, c.newMajor, xs, rom)
    requires xs[0].started == Success && Good(xs[1]) && Good(xs[2]) && SessionOpen(xs[3])
    requires (c.want.retry || HasData(xs[5])) && Good(xs[6]) && SessionClosed(xs[7])
    ensures var r := Download(c, true, xs);
      !r.cut && r.c.n.writes == c.n.writes + 1 && (r.st == Success <==> Intact(xs[10]))
  {
    OpenUpToWrite(c, xs);
    var o := c.(sess := c.sess.(prevOpen := true));
    Passed(DOWNLOAD_SEQ, 5, o, xs, 6, Wrote(o));
    Passed(DOWNLOAD_SEQ, 6, Wrote(o), xs, 7, Wrote(c));
    Confirmed(c, xs, rom);
  }

  lemma OpenUpToWrite(c: Ctx, xs: seq<Answer>)
    requires Ready(c) && |xs| > 6 && xs[0].started == Success && Good(xs[1]) && Good(xs[2]) && SessionOpen(xs[3])
    requires c.want.retry || HasData(xs[5])
    ensures RunSeq(DOWNLOAD_SEQ, c, xs)
            == RunHandlers(DOWNLOAD_SEQ[5..], c.(sess := c.sess.(prevOpen := true)), xs[6..])
  {
    var o := c.(sess := c.sess.(prevOpen := true));
    assert xs[0..] == xs;
    Started(DOWNLOAD_SEQ, c, xs, 0);
    Passed(DOWNLOAD_SEQ, 0, c, xs, 1, c);
    Passed(DOWNLOAD_SEQ, 1, c, xs, 2, c);
    Passed(DOWNLOAD_SEQ, 2, c, xs, 3, o);
    Passed(DOWNLOAD_SEQ, 3, o, xs, 4, o);
    Passed(DOWNLOAD_SEQ, 4, o, xs, 5, o);
  }

  /* ---- Failures afterwards ---- */

  /** A chip that reports another version after the write has the download end without success,
      whatever is answered from then on. */
  lemma WrongVersionAfterwards(minor: int, major: int, failed: bool, last: Status, xs: seq<Answer>,
                               rom: int, m: int, M: int, rom': int, m': int, M': int)
    requires Begun(xs) && VersionIs(xs[4], rom, m, M) && Newer(minor, major, rom, m, M)
    requires |xs| > 8 && HasData(xs[5]) && Good(xs[6]) && SessionClosed(xs[7])
    requires VersionIs(xs[8], rom', m', M') && !(m' == minor && M' == major)
    ensures var r := Download(Fresh(minor, major, failed, last), true, xs);
      r.st != Success && r.c.n.writes == 1 && (!r.cut ==> r.c.sess.lastStatus == Success)
  {
    var c := Fresh(minor, major, failed, last);
    UpToSecondVersion(c, xs, rom, m, M);
    VersionJudged(Wrote(c), xs[8], rom', m', M');
    Stopped(DOWNLOAD_SEQ, 7, Wrote(c), xs, 8, Outcome(Wrote(c), Failed));
    LogsAndEnds(Wrote(c), xs[9..]);
  }

  /** A failed download that was begun is logged and ended; it is neither recovered nor retried. */
  lemma LogsAndEnds(c: Ctx, rest: seq<Answer>)
    requires c.sess.initiated && !c.want.recovery && !c.want.retry && !c.want.nci && !c.sess.forceDnld
    ensures var r := Complete(c, Failed, rest);
      r.st != Success && r.c.n.writes == c.n.writes && (!r.cut ==> r.c.sess.lastStatus == Success)
  {
    if rest != [] {
      var l := Logging(c, Failed);
      var r := RunSeq(LOG_SEQ, l, rest);
      if rest[0].started == Success && |rest| > 1 { assert rest[1..][0] == rest[1] && LOG_SEQ[1..] == []; }
      assert r.c.want == l.want && r.c.n.writes == c.n.writes && !r.c.sess.initiated;
      if !r.cut { Ends(r.c, Failed, r.rest); }
    }
  }

  /* ---- Writes that the chip refuses ---- */

  /** The chip is ready for the write, and answers it with `st`. */
  predicate WriteAnswered(minor: int, major: int, xs: seq<Answer>, rom: int, m: int, M: int, st: Status) {
    && Begun(xs) && VersionIs(xs[4], rom, m, M) && Newer(minor, major, rom, m, M)
    && |xs| > 6 && HasData(xs[5]) && Good(xs[6].(reply := Success)) && xs[6].reply == st
  }

  lemma WriteStops(c: Ctx, xs: seq<Answer>, rom: int, m: int, M: int, o: Outcome)
    requires Ready(c) && |xs| > 6 && WriteAnswered(c.newMinor, c.newMajor, xs, rom, m, M, xs[6].reply)
    requires o == Write(c, xs[6]) && o.st != Success
    ensures Download(c, true, xs) == Complete(o.c, o.st, xs[7..])
  {
    UpToWrite(c, xs, rom, m, M);
    Stopped(DOWNLOAD_SEQ, 5, c, xs, 6, o);
  }

  /** The two runs come to the same end, up to the status they return. */
  predicate SameEnd(a: Result, b: Result) { a.c == b.c && a.cut == b.cut && a.rest == b.rest }

  lemma LogPasses(c: Ctx, st: Status, xs: seq<Answer>)
    requires c.sess.initiated && !c.sess.forceDnld && st != Success && |xs| > 8 && xs[7].started == Success
    requires c.skip.all || Good(xs[8])
    ensures var r := Complete(c, st, xs[7..]); r.st == st && SameEnd(r, Complete(Logging(c, st), st, xs[9..]))
  {
    var l := Logging(c, st);
    Started(LOG_SEQ, l, xs, 7);
    Passed(LOG_SEQ, 0, l, xs, 8, l);
    AtEnd(LOG_SEQ, 1, l, xs[9..]);
  }

  /** A recovery that succeeds leads back to the main sequence. */
  lemma Recovered(l: Ctx, st: Status, xs: seq<Answer>, f: Ctx)
    requires |xs| > 14 && !l.sess.initiated && l.want.recovery && Judge(l, st) == l
    requires RunSeq(RECOVERY_SEQ, l, xs[9..]) == Result(f, Success, xs[14..], false)
    requires !f.sess.initiated && !f.want.recovery && f.want.retry
    ensures SameEnd(Complete(l, st, xs[9..]), Download(Restarted(f), true, xs[14..]))
  {}

  lemma RecoverySteps(c0: Ctx, xs: seq<Answer>, c1: Ctx, c2: Ctx, c3: Ctx, c4: Ctx)
    requires |xs| > 14 && xs[9].started == Success
    requires Handle(HReset, c0, xs[10]) == Outcome(c1, Success)
    requires Handle(HForce, c1, xs[11]) == Outcome(c2, Success)
    requires Handle(HRecover, c2, xs[12]) == Outcome(c3, Success)
    requires Handle(HSendNci, c3, xs[13]) == Outcome(c4, Success)
    ensures RunSeq(RECOVERY_SEQ, c0, xs[9..]) == Result(c4, Success, xs[14..], false)
  {
    Started(RECOVERY_SEQ, c0, xs, 9);
    Passed(RECOVERY_SEQ, 0, c0, xs, 10, c1);
    Passed(RECOVERY_SEQ, 1, c1, xs, 11, c2);
    Passed(RECOVERY_SEQ, 2, c2, xs, 12, c3);
    Passed(RECOVERY_SEQ, 3, c3, xs, 13, c4);
    AtEnd(RECOVERY_SEQ, 4, c4, xs[14..]);
  }

  /** The recovery sequence with the force command, whose reset is skipped. */
  lemma ForcedRecovery(l: Ctx, xs: seq<Answer>)
    requires l.want == Wants(true, false, false) && l.skip.all && !l.skip.force && l.n.attempts < 2
    requires |xs| > 14 && xs[9].started == Success && Good(xs[11])
    ensures RunSeq(RECOVERY_SEQ, l, xs[9..]) == Result(Forced(l), Success, xs[14..], false)
  {
    var r, f := l.(skip := l.skip.(reset := false)), Forced(l);
    RecoverySteps(l, xs, r, f, f, f);
  }

  function Forced(l: Ctx): Ctx { Tick(l).(want := Wants(false, true, false), skip := l.skip.(reset := true)) }

  /** After a PLL error the driver forces the chip and tries again: the image is written twice.  The
      status returned is still that of the first write, whatever the second one comes to. */
  lemma PllErrorIsForced(minor: int, major: int, failed: bool, last: Status, xs: seq<Answer>,
                         rom: int, m: int, M: int, rom2: int, m2: int, M2: int, rom3: int)
    requires WriteAnswered(minor, major, xs, rom, m, M, WriteFailed)
    requires |xs| > 14 && xs[7].started == Success && xs[9].started == Success && Good(xs[11])
    requires Installs(minor, major, xs[14..], rom2, m2, M2, rom3)
    ensures var r := Download(Fresh(minor, major, failed, last), true, xs);
      !r.cut && r.st == WriteFailed && r.c.n.writes == 2 && r.c.sess.lastStatus == WriteFailed
  {
    var c := Fresh(minor, major, failed, last);
    var o := Write(c, xs[6]);
    WriteStops(c, xs, rom, m, M, o);
    var l := Logging(o.c, WriteFailed);
    LogPasses(o.c, WriteFailed, xs);
    ForcedRecovery(l, xs);
    Recovered(l, WriteFailed, xs, Forced(l));
    PassInstalls(Restarted(Forced(l)), xs[14..], rom2, m2, M2, rom3);
  }

  /** The recovery sequence that bypasses the force command: a reset, the recovery image, and an NCI
      reset in normal mode. */
  lemma RecoveryWithImage(l: Ctx, xs: seq<Answer>)
    requires l.want == Wants(true, false, false) && l.skip == Skips(false, false, true) && l.n.attempts < 2
    requires |xs| > 14 && xs[9].started == Success && Good(xs[10]) && Good(xs[12]) && Good(xs[13])
    ensures RunSeq(RECOVERY_SEQ, l, xs[9..]) == Result(Patched(l), Success, xs[14..], false)
  {
    var p := Tick(l).(want := Wants(false, false, true), skip := Skips(false, false, false));
    RecoverySteps(l, xs, l, l, p, Patched(l));
  }

  function Patched(l: Ctx): Ctx { Tick(l).(want := Wants(false, true, false), skip := Skips(false, false, false)) }

  /** After a signature error the driver bypasses the force command, writes the recovery image and
      tries again, with the status as before. */
  lemma SignatureErrorIsPatched(minor: int, major: int, failed: bool, last: Status, xs: seq<Answer>,
                                rom: int, m: int, M: int, rom2: int, m2: int, M2: int, rom3: int)
    requires WriteAnswered(minor, major, xs, rom, m, M, Rejected)
    requires |xs| > 14 && xs[7].started == Success && Good(xs[8])
    requires xs[9].started == Success && Good(xs[10]) && Good(xs[12]) && Good(xs[13])
    requires Installs(minor, major, xs[14..], rom2, m2, M2, rom3)
    ensures var r := Download(Fresh(minor, major, failed, last), true, xs);
      !r.cut && r.st == Rejected && r.c.n.writes == 2 && r.c.sess.lastStatus == Rejected
  {
    var c := Fresh(minor, major, failed, last);
    var o := Write(c, xs[6]);
    WriteStops(c, xs, rom, m, M, o);
    var l := Logging(o.c, Rejected);
    LogPasses(o.c, Rejected, xs);
    RecoveryWithImage(l, xs);
    Recovered(l, Rejected, xs, Patched(l));
    PassInstalls(Restarted(Patched(l)), xs[14..], rom2, m2, M2, rom3);
  }

  /** A recovery image that the chip does not take, or a chip that does not go back to normal mode
      for the NCI reset, ends the download without another write.  `end` is where in the answers. */
  lemma FailedRecoveryEnds(minor: int, major: int, failed: bool, last: Status, xs: seq<Answer>,
                           rom: int, m: int, M: int, end: nat)
    requires WriteAnswered(minor, major, xs, rom, m, M, Rejected)
    requires |xs| > 14 && xs[7].started == Success && Good(xs[8])
    requires xs[9].started == Success && Good(xs[10]) && Good(xs[12].(reply := Success))
    requires if xs[12].reply != Success then end == 14
             else end == 15 && xs[13].toNormal !in {Success, WriteFailed, Rejected}
    ensures var r := Download(Fresh(minor, major, failed, last), true, xs);
      !r.cut && r.st == Rejected && r.c.n.writes == 1 && r.rest == xs[end..]
  {
    var c := Fresh(minor, major, failed, last);
    var o := Write(c, xs[6]);
    WriteStops(c, xs, rom, m, M, o);
    var l := Logging(o.c, Rejected);
    LogPasses(o.c, Rejected, xs);
    RecoveryStops(l, xs);
    NotRecovered(l, xs, end - 1);
  }

  lemma NotRecovered(l: Ctx, xs: seq<Answer>, k: nat)
    requires k < |xs| && 9 < |xs| && !l.sess.initiated && l.want.recovery && Judge(l, Rejected) == l
    requires var r := RunSeq(RECOVERY_SEQ, l, xs[9..]);
      && !r.cut && r.rest == xs[k..] && r.st != WriteFailed && r.st != Rejected
      && !r.c.sess.initiated && r.c.want == Wants(false, false, false) && r.c.n.writes == l.n.writes
    ensures var r := Complete(l, Rejected, xs[9..]); !r.cut && r.c.n.writes == l.n.writes && r.rest == xs[k + 1..]
  {
    var r := RunSeq(RECOVERY_SEQ, l, xs[9..]);
    assert Complete(r.c, r.st, r.rest).rest == xs[k + 1..];
  }

  lemma RecoveryStops(l: Ctx, xs: seq<Answer>)
    requires l.want == Wants(true, false, false) && l.skip == Skips(false, false, true) && l.n.attempts < 2
    requires |xs| > 14 && xs[9].started == Success && Good(xs[10]) && Good(xs[12].(reply := Success))
    requires xs[12].reply == Success ==> xs[13].toNormal != Success
    ensures var r := RunSeq(RECOVERY_SEQ, l, xs[9..]);
      && r.c == Tick(l).(want := Wants(false, false, false), skip := Skips(false, false, false)) && !r.cut
      && if xs[12].reply == Success then r.st == xs[13].toNormal && r.rest == xs[14..]
         else r.st == Failed && r.rest == xs[13..]
  {
    var d := Tick(l).(want := Wants(false, false, false), skip := Skips(false, false, false));
    var p := d.(want := Wants(false, false, true));
    Started(RECOVERY_SEQ, l, xs, 9);
    Passed(RECOVERY_SEQ, 0, l, xs, 10, l);
    Passed(RECOVERY_SEQ, 1, l, xs, 11, l);
    if xs[12].reply == Success {
      Passed(RECOVERY_SEQ, 2, l, xs, 12, p);
      Stopped(RECOVERY_SEQ, 3, p, xs, 13, Outcome(d, xs[13].toNormal));
    } else {
      Stopped(RECOVERY_SEQ, 2, l, xs, 12, Outcome(d, Failed));
    }
  }

  /* ---- The end of every download ---- */

  /** As at the start of a download. */
  predicate Clean(c: Ctx) {
    && c.n.attempts == 0
    && !c.skip.all && !c.skip.reset && !c.skip.force && !c.want.recovery && !c.want.retry && !c.want.nci
    && !c.sess.prevOpen && !c.sess.initiated && !c.sess.forceDnld && !c.sess.attemptFailed
  }

  lemma {:induction false} CompletionCleans(c: Ctx, st: Status, answers: seq<Answer>)
    ensures var r := Complete(c, st, answers); !r.cut ==> Clean(r.c)
    decreases |answers|
  {
    var j := Judge(c, st);
    if answers == [] {
    } else if j.sess.initiated {
      var r := RunSeq(LOG_SEQ, Logging(c, st), answers);
      CompletionCleans(r.c, if st != Success then st else r.st, r.rest);
    } else if j.want.recovery {
      var r := RunSeq(RECOVERY_SEQ, j, answers);
      CompletionCleans(r.c, r.st, r.rest);
    } else if j.want.retry {
      var r := RunSeq(DOWNLOAD_SEQ, Restarted(j), answers);
      CompletionCleans(r.c, r.st, r.rest);
    }
  }

  /** However a download goes, it leaves nothing behind that would change the next one. */
  lemma DownloadCleans(c: Ctx, imageOpens: bool, xs: seq<Answer>)
    ensures var r := Download(c, imageOpens, xs); !r.cut ==> Clean(r.c)
  {
    var r := RunSeq(DOWNLOAD_SEQ, c, xs);
    if !imageOpens { CompletionCleans(c, Failed, xs); } else { CompletionCleans(r.c, r.st, r.rest); }
  }

  /** Without an image nothing is written, and that is not a success. */
  lemma NoImageFails(minor: int, major: int, failed: bool, last: Status, xs: seq<Answer>)
    ensures var r := Download(Fresh(minor, major, failed, last), false, xs); r.st != Success && r.c.n.writes == 0
  {
    Ends(Fresh(minor, major, failed, last), Failed, xs);
  }
}
