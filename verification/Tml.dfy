/**
  The transport layer's write path: a client asks for a write, the writer thread carries it out
  on the bus, and the callback thread reports the outcome.  The three share the request record,
  the transaction record, a busy flag and an enable flag, and their steps interleave freely.

  Every store to and every load from what they share is a step of its own, with three exceptions:
  the client's test and set of the busy flag is one step (clients do not race each other), buffer
  and length are stored together (only the writer reads them), and so are the fields of the
  transaction record, which the callback reads together.  Retransmission is off and nothing is
  aborted.
 */
module Tml {

  const MAX_RETRIES := 3

  /** What a caller passes: the bytes to write, and whom to call with what.  The shared request
      record holds the same three. */
  datatype Request = Request(bytes: seq<int>, callback: int, context: int)

  /** The transaction record that the callback is handed a pointer to. */
  datatype Transaction = Transaction(bytes: seq<int>, ok: bool)

  /** What a callback sees: which one is called with which context, and the transaction record
      as it reads it. */
  datatype Report = Report(callback: int, context: int, seen: Transaction)

  /* ---- Trying to write ---- */

  /** The bus's answer to one try, and the download flag right after it. */
  datatype Answer = Answer(ok: bool, downloading: bool)

  /** After `failures` failed tries before this one, does the writer try once more? */
  predicate TriesAgain(a: Answer, failures: nat) { !a.ok && a.downloading && failures < MAX_RETRIES }

  ghost predicate Repeats(answers: seq<Answer>) {
    forall i :: 0 <= i < |answers| ==> TriesAgain(answers[i], i)
  }

  /** All answers to one request: every try but the last was repeated, and the last was not. */
  ghost predicate Attempt(answers: seq<Answer>) {
    answers != [] && Repeats(answers[..|answers| - 1]) && !TriesAgain(answers[|answers| - 1], |answers| - 1)
  }

  lemma Repeated(answers: seq<Answer>, i: nat)
    requires Attempt(answers)
    ensures i < |answers| - 1 ==> TriesAgain(answers[i], i)
  {
    if i < |answers| - 1 { assert answers[i] == answers[..|answers| - 1][i]; }
  }

  /** What it takes for a request to be over: at most four tries, one outside download mode, all
      but the last failed, and in download mode a failure only after four of them. */
  lemma AttemptBounded(answers: seq<Answer>)
    requires Attempt(answers)
    ensures |answers| <= 4
    ensures !answers[0].downloading ==> |answers| == 1
    ensures forall i :: 0 <= i < |answers| - 1 ==> !answers[i].ok
    ensures (forall i :: 0 <= i < |answers| ==> answers[i].downloading) && !answers[|answers| - 1].ok ==>
              |answers| == 4
  {
    Repeated(answers, MAX_RETRIES);
    forall i | 0 <= i < |answers| - 1 ensures !answers[i].ok && (i == 0 ==> answers[0].downloading) {
      Repeated(answers, i);
    }
  }

  /** The writer's retry loop; the bus gives the answers `bus`, the flag is read after each. */
  method WriteOut(bus: seq<Answer>) returns (ok: bool, tries: nat)
    requires |bus| > MAX_RETRIES
    ensures 1 <= tries && tries <= |bus| && Attempt(bus[..tries])
    ensures ok == bus[tries - 1].ok
  {
    var retryCount := 0;
    tries := 0;
    ok := false;
    var again := true;
    while again
      invariant tries == retryCount <= MAX_RETRIES + 1
      invariant again ==> tries <= MAX_RETRIES
      invariant forall i :: 0 <= i < tries - 1 ==> TriesAgain(bus[i], i)
      invariant tries > 0 ==> ok == bus[tries - 1].ok && again == TriesAgain(bus[tries - 1], tries - 1)
      invariant tries == 0 ==> again
      decreases MAX_RETRIES + 1 - tries, again
    {
      ok := bus[tries].ok;
      again := !ok && bus[tries].downloading && retryCount < MAX_RETRIES;
      retryCount := retryCount + 1;
      tries := tries + 1;
    }
    assert bus[..tries][..tries - 1] == bus[..tries - 1];
  }

  /* ---- The threads ---- */

  datatype Client = Ready | Claimed(r: Request) | HasBytes(r: Request) | HasCallback(r: Request) | Filled | Enabled

  datatype Writer = Waiting | Woken | Trying(answers: seq<Answer>) | Finished(ok: bool) | Recorded

  /** What the callback thread has loaded from the request record on its way to the call. */
  datatype Loaded = Nothing | One(callback: int) | Both(callback: int, context: int)

  /** Which of the shared values were replaced by the next request's between the clearing of the
      busy flag and the moment they were read. */
  datatype Late = Late(callback: bool, context: bool, record: bool)

  const ON_TIME := Late(false, false, false)

  datatype Caller = Idle | Received | Calling(loaded: Loaded, late: Late)

  /** What has happened so far. */
  datatype Past = Past(accepted: seq<Request>, tries: seq<seq<Answer>>, wire: seq<seq<int>>,
                       reports: seq<Report>, late: seq<Late>)

  datatype Sys = Sys(client: Client, writer: Writer, caller: Caller, busy: bool, enable: bool,
                     request: Request, record: Transaction, tx: nat, posted: nat, past: Past)

  datatype Step =
    | Write(r: Request)       // a caller finds the busy flag clear and sets it
    | FillBytes
    | FillCallback
    | FillContext
    | Enable                  // sets the enable flag
    | Post                    // posts the writer's semaphore
    | Wake                    // the writer passes its semaphore
    | Look                    // tests the enable flag
    | Try(answer: Answer)
    | Record                  // fills the transaction record
    | Send                    // sends the message to the callback thread
    | Receive
    | Clear                   // clears the busy flag
    | LoadCallback
    | LoadContext
    | Tell                    // the callback reads the transaction record

  predicate Can(s: Sys, a: Step) {
    match a
    case Write(_) => s.client.Ready? && !s.busy
    case FillBytes => s.client.Claimed?
    case FillCallback => s.client.HasBytes?
    case FillContext => s.client.HasCallback?
    case Enable => s.client.Filled?
    case Post => s.client.Enabled?
    case Wake => s.writer.Waiting? && s.tx > 0
    case Look => s.writer.Woken?
    case Try(_) => s.writer.Trying?
    case Record => s.writer.Finished?
    case Send => s.writer.Recorded?
    case Receive => s.caller.Idle? && s.posted > 0
    case Clear => s.caller.Received?
    case LoadCallback => s.caller.Calling? && s.caller.loaded.Nothing?
    case LoadContext => s.caller.Calling? && s.caller.loaded.One?
    case Tell => s.caller.Calling? && s.caller.loaded.Both?
  }

  function Delayed(c: Caller, callback: bool, context: bool, record: bool): Caller {
    if c.Calling?
    then c.(late := Late(c.late.callback || callback, c.late.context || context, c.late.record || record))
    else c
  }

  /** One try: a success puts the bytes on the wire; the request is over unless tried again. */
  function Tried(s: Sys, a: Answer): Sys
    requires s.writer.Trying?
  {
    var answers := s.writer.answers + [a];
    var wire := if a.ok then s.past.wire + [s.request.bytes] else s.past.wire;
    if TriesAgain(a, |s.writer.answers|)
    then s.(enable := false, writer := Trying(answers), past := s.past.(wire := wire))
    else s.(enable := false, writer := Finished(a.ok), past := s.past.(wire := wire, tries := s.past.tries + [answers]))
  }

  function Told(s: Sys): Sys
    requires s.caller.Calling? && s.caller.loaded.Both?
  {
    s.(caller := Idle,
       past := s.past.(reports := s.past.reports
                                  + [Report(s.caller.loaded.callback, s.caller.loaded.context, s.record)],
                       late := s.past.late + [s.caller.late]))
  }

  function Next(s: Sys, a: Step): Sys
    requires Can(s, a)
  {
    match a
    case Write(r) => s.(client := Claimed(r), busy := true, past := s.past.(accepted := s.past.accepted + [r]))
    case FillBytes => s.(client := HasBytes(s.client.r), request := s.request.(bytes := s.client.r.bytes))
    case FillCallback =>
      s.(client := HasCallback(s.client.r), request := s.request.(callback := s.client.r.callback),
         caller := Delayed(s.caller, s.caller.Calling? && s.caller.loaded.Nothing?, false, false))
    case FillContext =>
      s.(client := Filled, request := s.request.(context := s.client.r.context),
         caller := Delayed(s.caller, false, s.caller.Calling? && !s.caller.loaded.Both?, false))
    case Enable => s.(client := Enabled, enable := true)
    case Post => s.(client := Ready, tx := s.tx + 1)
    case Wake => s.(writer := Woken, tx := s.tx - 1)
    case Look => s.(writer := if s.enable then Trying([]) else Waiting)
    case Try(answer) => Tried(s, answer)
    case Record => s.(writer := Recorded, record := Transaction(s.request.bytes, s.writer.ok),
                      caller := Delayed(s.caller, false, false, true))
    case Send => s.(writer := Waiting, posted := s.posted + 1)
    case Receive => s.(caller := Received, posted := s.posted - 1)
    case Clear => s.(caller := Calling(Nothing, ON_TIME), busy := false)
    case LoadCallback => s.(caller := s.caller.(loaded := One(s.request.callback)))
    case LoadContext => s.(caller := s.caller.(loaded := Both(s.caller.loaded.callback, s.request.context)))
    case Tell => Told(s)
  }

  /* ---- Who holds the request ---- */

  function Num(b: bool): nat { if b then 1 else 0 }

  /** How many requests are on their way round: in the client's hands, announced to the writer,
      in the writer's hands, announced to the callback thread, or received there. */
  function OnTheWay(s: Sys): nat {
    Num(!s.client.Ready?) + s.tx + Num(!s.writer.Waiting?) + s.posted + Num(s.caller.Received?)
  }

  ghost predicate Control(s: Sys) {
    && OnTheWay(s) == Num(s.busy)
    && (s.enable <==> s.client.Enabled? || s.tx > 0 || s.writer.Woken? || s.writer == Trying([]))
    && |s.past.accepted| == |s.past.reports| + Num(s.caller.Calling?) + Num(s.busy)
    && |s.past.late| == |s.past.reports|
  }

  lemma ControlKept(s: Sys, a: Step)
    requires Control(s) && Can(s, a)
    ensures Control(Next(s, a))
  {}

  /* ---- What the shared records hold ---- */

  /** The request under way has left the bus. */
  predicate BusDone(s: Sys) { s.writer.Finished? || s.writer.Recorded? || s.posted > 0 || s.caller.Received? }

  /** No accepted request is still without its outcome in the transaction record. */
  predicate RecordFresh(s: Sys) { !s.busy || s.writer.Recorded? || s.posted > 0 || s.caller.Received? }

  /** How many accepted requests have been copied into the request record, field by field, and
      how many outcomes into the transaction record. */
  function BytesOf(s: Sys): int { |s.past.accepted| - Num(s.client.Claimed?) }

  function CallbackOf(s: Sys): int { BytesOf(s) - Num(s.client.HasBytes?) }

  function ContextOf(s: Sys): int { CallbackOf(s) - Num(s.client.HasCallback?) }

  function RecordOf(s: Sys): int { |s.past.accepted| - Num(!RecordFresh(s)) }

  predicate Holding(c: Client) { c.Claimed? || c.HasBytes? || c.HasCallback? }

  ghost predicate RequestRecord(s: Sys) {
    var acc := s.past.accepted;
    && (Holding(s.client) ==> acc != [] && s.client.r == acc[|acc| - 1])
    && (0 < BytesOf(s) <= |acc| ==> s.request.bytes == acc[BytesOf(s) - 1].bytes)
    && (0 < CallbackOf(s) <= |acc| ==> s.request.callback == acc[CallbackOf(s) - 1].callback)
    && (0 < ContextOf(s) <= |acc| ==> s.request.context == acc[ContextOf(s) - 1].context)
  }

  /** Whether a request succeeded: the answer to its last try. */
  function Succeeded(answers: seq<Answer>): bool { answers != [] && answers[|answers| - 1].ok }

  function Outcome(p: Past, k: nat): Transaction
    requires k < |p.accepted| && k < |p.tries|
  {
    Transaction(p.accepted[k].bytes, Succeeded(p.tries[k]))
  }

  ghost predicate TransactionRecord(s: Sys) {
    && |s.past.tries| == |s.past.accepted| - Num(s.busy && !BusDone(s))
    && (s.writer.Finished? ==> s.past.tries != [] && s.writer.ok == Succeeded(s.past.tries[|s.past.tries| - 1]))
    && (0 < RecordOf(s) <= |s.past.tries| ==> s.record == Outcome(s.past, RecordOf(s) - 1))
  }

  lemma ClientKeepsRequest(s: Sys, a: Step)
    requires Control(s) && RequestRecord(s) && Can(s, a) && OfClient(a)
    ensures RequestRecord(Next(s, a))
  {}

  lemma RequestRecordKept(s: Sys, a: Step)
    requires Control(s) && RequestRecord(s) && Can(s, a)
    ensures RequestRecord(Next(s, a))
  {
    if OfClient(a) { ClientKeepsRequest(s, a); }
  }

  predicate OfClient(a: Step) { a.Write? || a.FillBytes? || a.FillCallback? || a.FillContext? || a.Enable? || a.Post? }

  predicate OfWriter(a: Step) { a.Wake? || a.Look? || a.Try? || a.Record? || a.Send? }

  lemma ClientKeepsTransaction(s: Sys, a: Step)
    requires Control(s) && TransactionRecord(s) && Can(s, a) && OfClient(a)
    ensures TransactionRecord(Next(s, a))
  {}

  lemma TryKeepsTransaction(s: Sys, a: Answer)
    requires Control(s) && TransactionRecord(s) && s.writer.Trying?
    ensures TransactionRecord(Tried(s, a))
  {}

  lemma WriterKeepsTransaction(s: Sys, a: Step)
    requires Control(s) && RequestRecord(s) && TransactionRecord(s) && Can(s, a) && OfWriter(a)
    ensures TransactionRecord(Next(s, a))
  {
    if a.Try? { TryKeepsTransaction(s, a.answer); }
  }

  lemma TransactionRecordKept(s: Sys, a: Step)
    requires Control(s) && RequestRecord(s) && TransactionRecord(s) && Can(s, a)
    ensures TransactionRecord(Next(s, a))
  {
    if OfClient(a) { ClientKeepsTransaction(s, a); } else if OfWriter(a) { WriterKeepsTransaction(s, a); }
  }

  /* ---- The bus ---- */

  /** The bytes of the requests that succeeded, in order. */
  function OnTheWire(rs: seq<Request>, tries: seq<seq<Answer>>): seq<seq<int>>
    requires |tries| <= |rs|
    decreases |tries|
  {
    if tries == [] then []
    else
      var n := |tries| - 1;
      OnTheWire(rs, tries[..n]) + if Succeeded(tries[n]) then [rs[n].bytes] else []
  }

  ghost predicate Bus(s: Sys) {
    && |s.past.tries| <= |s.past.accepted| && s.past.wire == OnTheWire(s.past.accepted, s.past.tries)
    && (s.writer.Trying? ==> Repeats(s.writer.answers))
    && forall k :: 0 <= k < |s.past.tries| ==> Attempt(s.past.tries[k])
  }

  lemma {:induction false} OnTheWirePrefix(rs: seq<Request>, more: seq<Request>, tries: seq<seq<Answer>>)
    requires |tries| <= |rs|
    ensures OnTheWire(rs + more, tries) == OnTheWire(rs, tries)
    decreases |tries|
  {
    if tries != [] { OnTheWirePrefix(rs, more, tries[..|tries| - 1]); }
  }

  lemma OnTheWireExtends(rs: seq<Request>, tries: seq<seq<Answer>>, answers: seq<Answer>)
    requires |tries| < |rs|
    ensures OnTheWire(rs, tries + [answers])
         == OnTheWire(rs, tries) + if Succeeded(answers) then [rs[|tries|].bytes] else []
  {
    assert (tries + [answers])[..|tries|] == tries;
  }

  lemma AnswerAdded(answers: seq<Answer>, a: Answer)
    requires Repeats(answers)
    ensures if TriesAgain(a, |answers|) then Repeats(answers + [a]) else Attempt(answers + [a])
    ensures Succeeded(answers + [a]) == a.ok
  {
    assert (answers + [a])[..|answers|] == answers;
  }

  lemma TryKeepsBus(s: Sys, a: Answer)
    requires Control(s) && RequestRecord(s) && TransactionRecord(s) && Bus(s) && s.writer.Trying?
    ensures Bus(Tried(s, a))
  {
    AnswerAdded(s.writer.answers, a);
    if !TriesAgain(a, |s.writer.answers|) {
      assert BytesOf(s) - 1 == |s.past.tries| == |s.past.accepted| - 1;
      TryEnds(s.past, s.writer.answers + [a], s.request.bytes);
      TryEndsBus(s, a);
    }
  }

  lemma TryEndsBus(s: Sys, a: Answer)
    requires s.writer.Trying? && !TriesAgain(a, |s.writer.answers|) && |s.past.tries| < |s.past.accepted|
    requires var answers := s.writer.answers + [a]; var p := s.past;
      && Succeeded(answers) == a.ok
      && p.wire + (if Succeeded(answers) then [s.request.bytes] else []) == OnTheWire(p.accepted, p.tries + [answers])
      && forall k :: 0 <= k < |p.tries + [answers]| ==> Attempt((p.tries + [answers])[k])
    ensures Bus(Tried(s, a))
  {}

  lemma TryEnds(p: Past, answers: seq<Answer>, bytes: seq<int>)
    requires |p.tries| == |p.accepted| - 1 && p.wire == OnTheWire(p.accepted, p.tries) && Attempt(answers)
    requires (forall k :: 0 <= k < |p.tries| ==> Attempt(p.tries[k])) && bytes == p.accepted[|p.tries|].bytes
    ensures p.wire + (if Succeeded(answers) then [bytes] else []) == OnTheWire(p.accepted, p.tries + [answers])
    ensures forall k :: 0 <= k < |p.tries + [answers]| ==> Attempt((p.tries + [answers])[k])
  {
    OnTheWireExtends(p.accepted, p.tries, answers);
  }

  lemma BusKept(s: Sys, a: Step)
    requires Control(s) && RequestRecord(s) && TransactionRecord(s) && Bus(s) && Can(s, a)
    ensures Bus(Next(s, a))
  {
    match a
    case Write(r) => OnTheWirePrefix(s.past.accepted, [r], s.past.tries);
    case Try(answer) => TryKeepsBus(s, answer);
    case _ =>
  }

  /* ---- The calls ---- */

  /** While a call is being prepared: what was loaded is the own request's or, where marked, the
      next one's; and a mark is set exactly when the shared value has been replaced. */
  ghost predicate Loading(s: Sys) {
    s.caller.Calling? ==>
      var k, acc, late := |s.past.reports|, s.past.accepted, s.caller.late;
      && k < |acc|
      && (late.callback || late.context || late.record ==> k + 1 < |acc|)
      && (late.record <==> s.busy && RecordFresh(s))
      && (late.record ==> k + 1 < |s.past.tries|)
      && match s.caller.loaded
         case Nothing => (late.callback <==> CallbackOf(s) == k + 2) && (late.context <==> ContextOf(s) == k + 2)
         case One(cb) => (late.context <==> ContextOf(s) == k + 2) && cb == acc[k + Num(late.callback)].callback
         case Both(cb, ctx) => cb == acc[k + Num(late.callback)].callback && ctx == acc[k + Num(late.context)].context
  }

  /** Call number `k` has seen the own request's values or, where marked, the next one's. */
  ghost predicate Seen(p: Past, k: nat) {
    && k < |p.reports| && k < |p.late| && k < |p.accepted| && k < |p.tries|
    && (p.late[k].callback || p.late[k].context || p.late[k].record ==> k + 1 < |p.accepted|)
    && (p.late[k].record ==> k + 1 < |p.tries|)
    && p.reports[k].callback == p.accepted[k + Num(p.late[k].callback)].callback
    && p.reports[k].context == p.accepted[k + Num(p.late[k].context)].context
    && p.reports[k].seen == Outcome(p, k + Num(p.late[k].record))
  }

  ghost predicate Calls(s: Sys) { forall k :: 0 <= k < |s.past.reports| ==> Seen(s.past, k) }

  ghost predicate Inv(s: Sys) {
    Control(s) && RequestRecord(s) && TransactionRecord(s) && Bus(s) && Loading(s) && Calls(s)
  }

  lemma ClientKeepsLoading(s: Sys, a: Step)
    requires Control(s) && TransactionRecord(s) && Loading(s) && Can(s, a) && OfClient(a)
    ensures Loading(Next(s, a))
  {}

  lemma WriterKeepsLoading(s: Sys, a: Step)
    requires Control(s) && TransactionRecord(s) && Loading(s) && Can(s, a) && OfWriter(a)
    ensures Loading(Next(s, a))
  {}

  lemma LoadingKept(s: Sys, a: Step)
    requires Control(s) && RequestRecord(s) && TransactionRecord(s) && Loading(s) && Can(s, a)
    ensures Loading(Next(s, a))
  {
    if OfClient(a) { ClientKeepsLoading(s, a); } else if OfWriter(a) { WriterKeepsLoading(s, a); }
  }

  lemma TellSeesIt(s: Sys)
    requires Control(s) && RequestRecord(s) && TransactionRecord(s) && Loading(s) && Can(s, Tell)
    ensures Seen(Told(s).past, |s.past.reports|)
  {}

  lemma SeenStays(p: Past, q: Past, k: nat)
    requires Seen(p, k)
    requires p.reports <= q.reports && p.late <= q.late && p.accepted <= q.accepted && p.tries <= q.tries
    ensures Seen(q, k)
  {}

  lemma PastGrows(s: Sys, a: Step)
    requires Can(s, a)
    ensures var p, q := s.past, Next(s, a).past;
      && p.reports <= q.reports && p.late <= q.late && p.accepted <= q.accepted && p.tries <= q.tries
      && (!a.Tell? ==> q.reports == p.reports)
  {}

  lemma CallsKept(s: Sys, a: Step)
    requires Control(s) && RequestRecord(s) && TransactionRecord(s) && Loading(s) && Calls(s) && Can(s, a)
    ensures Calls(Next(s, a))
  {
    var p, q := s.past, Next(s, a).past;
    PastGrows(s, a);
    if a.Tell? { TellSeesIt(s); }
    forall k | 0 <= k < |q.reports| ensures Seen(q, k) {
      if k < |p.reports| { SeenStays(p, q, k); }
    }
  }

  lemma StepKeepsInv(s: Sys, a: Step)
    requires Inv(s) && Can(s, a)
    ensures Inv(Next(s, a))
  {
    ControlKept(s, a);
    RequestRecordKept(s, a);
    TransactionRecordKept(s, a);
    BusKept(s, a);
    LoadingKept(s, a);
    CallsKept(s, a);
  }

  /* ---- Runs ---- */

  ghost predicate Initial(s: Sys) {
    && s.client.Ready? && s.writer.Waiting? && s.caller.Idle? && !s.busy && !s.enable && s.tx == 0 && s.posted == 0
    && s.past == Past([], [], [], [], [])
  }

  ghost predicate Run(s: Sys, steps: seq<Step>, t: Sys)
    decreases |steps|
  {
    if steps == [] then s == t else Can(s, steps[0]) && Run(Next(s, steps[0]), steps[1..], t)
  }

  lemma {:induction false} RunKeepsInv(s: Sys, steps: seq<Step>, t: Sys)
    requires Inv(s) && Run(s, steps, t)
    ensures Inv(t)
    decreases |steps|
  {
    if steps != [] {
      StepKeepsInv(s, steps[0]);
      RunKeepsInv(Next(s, steps[0]), steps[1..], t);
    }
  }

  lemma Reachable(s: Sys, steps: seq<Step>, t: Sys)
    requires Initial(s) && Run(s, steps, t)
    ensures Inv(t)
  {
    RunKeepsInv(s, steps, t);
  }

  /** Every accepted write is completed once: the accepted writes are the reported ones, the one
      whose call is being prepared and the one under way; the bytes of each successful one went
      over the bus exactly once, in order; each was tried as often as the retry rule says; and
      the writer never wakes for nothing. */
  lemma ExactlyOnce(s: Sys, steps: seq<Step>, t: Sys)
    requires Initial(s) && Run(s, steps, t)
    ensures |t.past.accepted| == |t.past.reports| + Num(t.caller.Calling?) + Num(t.busy)
    ensures |t.past.tries| <= |t.past.accepted| && t.past.wire == OnTheWire(t.past.accepted, t.past.tries)
    ensures forall k :: 0 <= k < |t.past.tries| ==> Attempt(t.past.tries[k])
    ensures t.writer.Woken? ==> t.enable
  {
    Reachable(s, steps, t);
  }

  /** The message is never overwritten before it is received, nor a record while the request that
      owns it is under way; but nothing guards the records between the clearing of the busy flag
      and the end of the call.  In that time one more request can be accepted and no further one,
      so that each value is replaced once at most. */
  lemma RecordsGuardedUntilClear(s: Sys, steps: seq<Step>, t: Sys)
    requires Initial(s) && Run(s, steps, t)
    ensures Can(t, Record) || Can(t, FillBytes) || Can(t, FillCallback) || Can(t, FillContext) ==>
              t.posted == 0 && !t.caller.Received?
    ensures t.caller.Calling? ==> |t.past.accepted| <= |t.past.reports| + 2
    ensures t.caller.Calling? && |t.past.accepted| == |t.past.reports| + 2 ==> forall r :: !Can(t, Write(r))
    ensures t.caller.Calling? && t.caller.late.record ==> !Can(t, Record)
    ensures t.caller.Calling? && t.caller.loaded.Nothing? && t.caller.late.callback ==> !Can(t, FillCallback)
    ensures t.caller.Calling? && t.caller.loaded.Nothing? && t.caller.late.context ==> !Can(t, FillContext)
  {
    Reachable(s, steps, t);
  }

  /** Exactly when a call is about its own request.  Callback and context are the own ones if and
      only if the next request's were not stored before they were loaded, or are the same; buffer
      and status are the own ones if and only if the next outcome was not recorded before they
      were read, or is the same. */
  lemma ReportsOwnIff(s: Sys, steps: seq<Step>, t: Sys, k: nat)
    requires Initial(s) && Run(s, steps, t) && k < |t.past.reports|
    ensures Seen(t.past, k)
    ensures var p := t.past;
      && (p.reports[k].callback == p.accepted[k].callback
          <==> !p.late[k].callback || p.accepted[k + 1].callback == p.accepted[k].callback)
      && (p.reports[k].context == p.accepted[k].context
          <==> !p.late[k].context || p.accepted[k + 1].context == p.accepted[k].context)
      && (p.reports[k].seen == Outcome(p, k) <==> !p.late[k].record || Outcome(p, k + 1) == Outcome(p, k))
  {
    Reachable(s, steps, t);
    assert Seen(t.past, k);
  }

  /** Callers that wait for the call: every write is asked for while the callback thread is idle. */
  predicate Patient(s: Sys, steps: seq<Step>)
    decreases |steps|
  {
    steps == []
    || (Can(s, steps[0]) && (steps[0].Write? ==> s.caller.Idle?) && Patient(Next(s, steps[0]), steps[1..]))
  }

  ghost predicate Punctual(s: Sys) {
    && (s.caller.Calling? ==> !s.busy && s.caller.late == ON_TIME)
    && forall k :: 0 <= k < |s.past.late| ==> s.past.late[k] == ON_TIME
  }

  lemma PatientStep(s: Sys, a: Step)
    requires Control(s) && Punctual(s) && Can(s, a) && (a.Write? ==> s.caller.Idle?)
    ensures Punctual(Next(s, a))
  {}

  lemma {:induction false} PatientRun(s: Sys, steps: seq<Step>, t: Sys)
    requires Inv(s) && Punctual(s) && Run(s, steps, t) && Patient(s, steps)
    ensures Punctual(t)
    decreases |steps|
  {
    if steps != [] {
      PatientStep(s, steps[0]);
      StepKeepsInv(s, steps[0]);
      PatientRun(Next(s, steps[0]), steps[1..], t);
    }
  }

  /** The discipline that keeps every report about its own request: no write is asked for between
      the arrival of a completion and the end of its call. */
  lemma PatientReportsOwn(s: Sys, steps: seq<Step>, t: Sys, k: nat)
    requires Initial(s) && Run(s, steps, t) && Patient(s, steps) && k < |t.past.reports|
    ensures k < |t.past.accepted| && k < |t.past.tries|
    ensures var r := t.past.accepted[k];
      t.past.reports[k] == Report(r.callback, r.context, Transaction(r.bytes, Succeeded(t.past.tries[k])))
  {
    PatientRun(s, steps, t);
    ReportsOwnIff(s, steps, t, k);
  }

  /* ---- Runs in which a call is late ---- */

  lemma {:induction false} RunExtends(s: Sys, steps: seq<Step>, t: Sys, a: Step)
    requires Run(s, steps, t) && Can(t, a)
    ensures Run(s, steps + [a], Next(t, a))
    decreases |steps|
  {
    if steps == [] {
      assert (steps + [a])[1..] == [];
    } else {
      assert (steps + [a])[1..] == steps[1..] + [a];
      RunExtends(Next(s, steps[0]), steps[1..], t, a);
    }
  }

  lemma Then(s: Sys, steps: seq<Step>, t: Sys, a: Step) returns (steps': seq<Step>, t': Sys)
    requires Run(s, steps, t) && Can(t, a)
    ensures t' == Next(t, a) && Run(s, steps', t')
  {
    RunExtends(s, steps, t, a);
    steps', t' := steps + [a], Next(t, a);
  }

  /** The client's part of a write. */
  lemma Asked(s: Sys, steps: seq<Step>, t: Sys, r: Request) returns (steps': seq<Step>, t': Sys)
    requires Run(s, steps, t) && t.client.Ready? && !t.busy
    ensures Run(s, steps', t') && t'.client.Filled? && t'.request == r && t'.busy
    ensures t' == t.(client := Filled, request := r, busy := true, caller := t'.caller,
                     past := t.past.(accepted := t.past.accepted + [r]))
    ensures t'.caller == Delayed(t.caller, t.caller.Calling? && t.caller.loaded.Nothing?,
                                 t.caller.Calling? && !t.caller.loaded.Both?, false)
  {
    steps', t' := Then(s, steps, t, Write(r));
    steps', t' := Then(s, steps', t', FillBytes);
    steps', t' := Then(s, steps', t', FillCallback);
    steps', t' := Then(s, steps', t', FillContext);
  }

  /** From there until the outcome is recorded; the single try is answered `ok`. */
  lemma WrittenOut(s: Sys, steps: seq<Step>, t: Sys, ok: bool) returns (steps': seq<Step>, t': Sys)
    requires Run(s, steps, t) && t.client.Filled? && t.tx == 0 && t.writer.Waiting?
    ensures Run(s, steps', t') && t'.writer.Recorded? && t'.client.Ready?
    ensures t' == t.(client := Ready, enable := false, writer := Recorded, past := t'.past,
                     record := Transaction(t.request.bytes, ok), caller := Delayed(t.caller, false, false, true))
    ensures t'.past.accepted == t.past.accepted && t'.past.reports == t.past.reports
    ensures t'.past.tries == t.past.tries + [[Answer(ok, false)]]
  {
    steps', t' := Then(s, steps, t, Enable);
    steps', t' := Then(s, steps', t', Post);
    steps', t' := Then(s, steps', t', Wake);
    steps', t' := Then(s, steps', t', Look);
    steps', t' := Then(s, steps', t', Try(Answer(ok, false)));
    var none: seq<Answer> := [];
    assert none + [Answer(ok, false)] == [Answer(ok, false)];
    steps', t' := Then(s, steps', t', Record);
  }

  lemma LoadedBoth(s: Sys, steps: seq<Step>, t: Sys) returns (steps': seq<Step>, t': Sys)
    requires Run(s, steps, t) && t.caller.Calling? && t.caller.loaded.Nothing?
    ensures Run(s, steps', t') && t' == t.(caller := t.caller.(loaded := Both(t.request.callback, t.request.context)))
  {
    steps', t' := Then(s, steps, t, LoadCallback);
    steps', t' := Then(s, steps', t', LoadContext);
  }

  /** A successful write up to the clearing of the busy flag. */
  lemma UpToClear(s: Sys, r: Request) returns (steps: seq<Step>, t: Sys)
    requires Initial(s)
    ensures Run(s, steps, t) && t.caller == Calling(Nothing, ON_TIME) && t.client.Ready? && !t.busy && t.tx == 0
    ensures t.writer.Waiting? && t.request == r && t.record == Transaction(r.bytes, true)
    ensures t.past.accepted == [r] && t.past.tries == [[Answer(true, false)]] && t.past.reports == []
  {
    steps, t := Asked(s, [], s, r);
    steps, t := WrittenOut(s, steps, t, true);
    steps, t := PassedOn(s, steps, t);
  }

  /** From the recorded outcome to the clearing of the busy flag. */
  lemma PassedOn(s: Sys, steps: seq<Step>, t: Sys) returns (steps': seq<Step>, t': Sys)
    requires Run(s, steps, t) && t.writer.Recorded? && t.posted == 0 && t.caller.Idle?
    ensures Run(s, steps', t')
    ensures t' == t.(writer := Waiting, caller := Calling(Nothing, ON_TIME), busy := false)
  {
    steps', t' := Then(s, steps, t, Send);
    steps', t' := Then(s, steps', t', Receive);
    steps', t' := Then(s, steps', t', Clear);
  }

  /** A second caller's request, stored before the loads: the second one's callback is called with
      the first one's buffer and status. */
  lemma LateCallGoesToNext(s: Sys, a: Request, b: Request) returns (steps: seq<Step>, t: Sys)
    requires Initial(s)
    ensures Run(s, steps, t) && t.past.accepted == [a, b]
    ensures t.past.reports == [Report(b.callback, b.context, Transaction(a.bytes, true))]
  {
    steps, t := UpToClear(s, a);
    steps, t := Asked(s, steps, t, b);
    steps, t := LoadedBoth(s, steps, t);
    steps, t := Then(s, steps, t, Tell);
  }

  /** A second caller's outcome, recorded before the callback reads it: the first one's callback is
      told the second one's buffer and failure, although its own write succeeded. */
  lemma LateCallTellsNext(s: Sys, a: Request, b: Request) returns (steps: seq<Step>, t: Sys)
    requires Initial(s)
    ensures Run(s, steps, t) && t.past.accepted == [a, b]
      && t.past.tries == [[Answer(true, false)], [Answer(false, false)]]
    ensures t.past.reports == [Report(a.callback, a.context, Transaction(b.bytes, false))]
  {
    steps, t := UpToClear(s, a);
    steps, t := LoadedBoth(s, steps, t);
    steps, t := Asked(s, steps, t, b);
    steps, t := WrittenOut(s, steps, t, false);
    steps, t := Then(s, steps, t, Tell);
  }
}
