/**
  The firmware-download driver as it runs: the global context changed in place by the sequence
  handler's loop and by the completion that calls itself.  `answers` is what the chip and the
  system still have to say.
 */
module FwDownload {
  import opened FwDriver

  class Driver {
    var ctx: Ctx
    var answers: seq<Answer>

    constructor (script: seq<Answer>, attemptFailed: bool, last: Status)
      ensures answers == script && ctx == Fresh(0, 0, attemptFailed, last)
    {
      ctx, answers := Fresh(0, 0, attemptFailed, last), script;
    }

    /** Runs the handlers of a sequence in order until one does not succeed. */
    method SeqHandler(handlers: seq<Handler>) returns (status: Status, cut: bool)
      requires handlers != []
      modifies this
      ensures Result(ctx, status, answers, cut) == RunSeq(handlers, old(ctx), old(answers))
    {
      cut := false;
      if answers == [] {
        return Failed, true;
      }
      status, answers := answers[0].started, answers[1..];
      if status != Success {
        return;
      }
      var i := 0;
      while i < |handlers|
        invariant 0 <= i <= |handlers| && status == Success && !cut
        invariant RunSeq(handlers, old(ctx), old(answers)) == RunHandlers(handlers[i..], ctx, answers)
      {
        if answers == [] {
          return Failed, true;
        }
        var done := Handle(handlers[i], ctx, answers[0]);
        ctx, status, answers := done.c, done.st, answers[1..];
        if status != Success {
          return;
        }
        i := i + 1;
      }
    }

    /** Completes a sequence that ended with `status`. */
    method CompleteSeq(status: Status) returns (own: Status, cut: bool)
      modifies this
      ensures Result(ctx, own, answers, cut) == Complete(old(ctx), status, old(answers))
      decreases |answers|, 1
    {
      ctx := Judge(ctx, status);
      own, cut := status, false;
      if answers == [] {
        cut := true;
      } else if ctx.sess.initiated {
        ctx := ctx.(sess := ctx.sess.(lastStatus := status, attemptFailed := true, initiated := false));
        own, cut := RunThenComplete(LOG_SEQ, status);
      } else if ctx.want.recovery {
        own, cut := RunThenComplete(RECOVERY_SEQ, Success);
      } else if ctx.want.retry {
        ctx := Restarted(ctx);
        own, cut := RunThenComplete(DOWNLOAD_SEQ, Success);
      } else {
        own := Success;
        if !ctx.want.nci {
          own := if answers[0].toNormal != Success then answers[0].toNormal else status;
        }
        ctx, answers := Cleared(ctx), answers[1..];
      }
    }

    /** Runs a sequence and completes it in turn.  The status passed on and returned is `before` if
        that is an error, and otherwise the sequence's own; what the inner completion returns is
        not used. */
    method RunThenComplete(handlers: seq<Handler>, before: Status) returns (own: Status, cut: bool)
      requires handlers != [] && answers != []
      modifies this
      ensures var r := RunSeq(handlers, old(ctx), old(answers));
        var st := if before != Success then before else r.st;
        Result(ctx, own, answers, cut) == if r.cut then r else Complete(r.c, st, r.rest).(st := st)
      decreases |answers|, 0
    {
      own, cut := SeqHandler(handlers);
      if !cut {
        if before != Success {
          own := before;
        }
        var inner;
        inner, cut := CompleteSeq(own);
      }
    }

    /** One download of the image with version `major`.`minor`.  Whatever is answered, the image
        is written at most three times while counter and semaphores behave. */
    method DownloadImage(imageOpens: bool, minor: int, major: int) returns (status: Status, cut: bool)
      modifies this
      ensures Result(ctx, status, answers, cut)
              == Download(Fresh(minor, major, old(ctx.sess.attemptFailed), old(ctx.sess.lastStatus)), imageOpens,
                old(answers))
      ensures ctx.n.wrapped || ctx.n.waitFailed || ctx.n.writes <= 3
    {
      AtMostThreeWrites(minor, major, ctx.sess.attemptFailed, ctx.sess.lastStatus, imageOpens, answers);
      ctx := Fresh(minor, major, ctx.sess.attemptFailed, ctx.sess.lastStatus);
      status, cut := Failed, false;
      if imageOpens {
        status, cut := SeqHandler(DOWNLOAD_SEQ);
      }
      if !cut {
        status, cut := CompleteSeq(status);
      }
    }
  }
}
