/**
  The sensor multi-HAL as a system of threads: one writer per sub-HAL that fills its own ring,
  and one poller that merges all rings.  Every locked section, every single write into a granted
  slot, every sleep and every wake-up is a step of its own, and steps of different threads
  interleave freely as far as the lock allows.
 */
module SensorSystem {
  import opened SensorQueue

  /** A sensor event: its `sensor` field, or for meta-data events the nested one, is a handle. */
  datatype Event = Event(meta: bool, sensor: int, metaSensor: int, payload: int)

  /** Global handles by module and local handle. */
  type Handles = map<(nat, int), int>

  function GlobalHandle(h: Handles, m: nat, local: int): int {
    if (m, local) in h then h[(m, local)] else -1
  }

  function Remap(h: Handles, m: nat, e: Event): Event {
    if e.meta then e.(metaSensor := GlobalHandle(h, m, e.metaSensor))
    else e.(sensor := GlobalHandle(h, m, e.sensor))
  }

  predicate Dropped(h: Handles, m: nat, e: Event) { Remap(h, m, e).sensor == -1 }

  /** What becomes of the events dequeued from module `m`: remapped in order, bad ones left out. */
  function Kept(h: Handles, m: nat, taken: seq<Event>): seq<Event> {
    if taken == [] then []
    else
      var e := taken[|taken| - 1];
      Kept(h, m, taken[..|taken| - 1]) + if Dropped(h, m, e) then [] else [Remap(h, m, e)]
  }

  /** The same, told by the handle map alone.  A normal event goes on exactly if its sensor has a
      global handle, which replaces the local one; a meta-data event goes on with its sensor field
      as it is, unless that is -1, and its nested handle replaced, by -1 if it is unknown. */
  function HandedOn(h: Handles, m: nat, es: seq<Event>): seq<Event> {
    if es == [] then []
    else
      var e := es[0];
      var first :=
        if e.meta && e.sensor == -1 then []
        else if e.meta then
          [Event(true, e.sensor, if (m, e.metaSensor) in h then h[(m, e.metaSensor)] else -1, e.payload)]
        else if (m, e.sensor) !in h || h[(m, e.sensor)] == -1 then []
        else [Event(false, h[(m, e.sensor)], e.metaSensor, e.payload)];
      first + HandedOn(h, m, es[1..])
  }

  lemma {:induction false} HandedOnExtends(h: Handles, m: nat, es: seq<Event>, e: Event)
    ensures HandedOn(h, m, es + [e]) == HandedOn(h, m, es) + HandedOn(h, m, [e])
  {
    if es == [] {
      assert es + [e] == [e];
    } else {
      assert (es + [e])[0] == es[0] && (es + [e])[1..] == es[1..] + [e];
      HandedOnExtends(h, m, es[1..], e);
    }
  }

  lemma {:induction false} KeptIsHandedOn(h: Handles, m: nat, es: seq<Event>)
    ensures Kept(h, m, es) == HandedOn(h, m, es)
  {
    if es != [] {
      var e := es[|es| - 1];
      KeptIsHandedOn(h, m, es[..|es| - 1]);
      HandedOnExtends(h, m, es[..|es| - 1], e);
      assert es == es[..|es| - 1] + [e];
      assert [e][1..] == [];
    }
  }

  datatype Upstream = Upstream(m: nat, event: Event)

  /** The events of one module among those handed upstream. */
  function OfModule(out: seq<Upstream>, m: nat): seq<Event> {
    if out == [] then []
    else
      var u := out[|out| - 1];
      OfModule(out[..|out| - 1], m) + if u.m == m then [u.event] else []
  }

  datatype Writer =
    | AtTop                              // about to take the lock
    | Asleep(woken: bool)                // waiting for space
    | Polling(first: nat, len: nat)      // the device fills the granted region, lock released
    | Polled(first: nat, count: nat)     // about to mark what was written

  datatype Cell = Cell(ring: Ring<Event>, writer: Writer, taken: seq<Event>)

  datatype Reader =
    | Away
    | Scanning(empties: nat, read: nat, max: nat)   // holds the lock
    | Waiting(woken: bool, max: nat)                // waiting for data

  datatype Sys = Sys(cells: seq<Cell>, reader: Reader, next: nat, waitingForData: bool, out: seq<Upstream>,
                     handles: Handles)

  datatype Step =
    | Enter(i: nat, first: nat, len: nat)
    | WriteSlot(i: nat, k: nat, v: Event)
    | PollReturns(i: nat, count: int)
    | Mark(i: nat)
    | WriterWakesAlone(i: nat)
    | BeginPoll(max: nat)
    | ScanOne
    | EndScan
    | ReaderResumes
    | ReaderWakesAlone

  predicate LockFree(s: Sys) { !s.reader.Scanning? }

  ghost predicate Enabled(s: Sys, t: Step) {
    match t
    case Enter(i, first, len) =>
      && i < |s.cells| && LockFree(s) && (s.cells[i].writer.AtTop? || s.cells[i].writer == Asleep(true))
      && (s.cells[i].ring.size < s.cells[i].ring.cap ==> len >= 1 && Granted(s.cells[i].ring, first, len))
    case WriteSlot(i, k, v) => i < |s.cells| && s.cells[i].writer.Polling? && k < s.cells[i].writer.len
    case PollReturns(i, count) => i < |s.cells| && s.cells[i].writer.Polling? && count <= s.cells[i].writer.len
    case Mark(i) => i < |s.cells| && LockFree(s) && s.cells[i].writer.Polled?
    case WriterWakesAlone(i) => i < |s.cells| && s.cells[i].writer.Asleep?
    case BeginPoll(max) => s.reader.Away? && max >= 1
    case ScanOne => s.reader.Scanning? && s.reader.empties < |s.cells| && s.reader.read < s.reader.max
      && s.next < |s.cells|
    case EndScan => s.reader.Scanning? && !(s.reader.empties < |s.cells| && s.reader.read < s.reader.max)
    case ReaderResumes => s.reader.Waiting? && s.reader.woken
    case ReaderWakesAlone => s.reader.Waiting?
  }

  /** The writer's first locked section: sleep while the ring is full, else take a region. */
  function Entered(c: Cell, first: nat, len: nat): Cell {
    c.(writer := if c.ring.size == c.ring.cap then Asleep(false) else Polling(first, len))
  }

  function Written(c: Cell, k: nat, v: Event): Cell
    requires c.writer.Polling? && c.writer.first + k < |c.ring.data|
  {
    c.(ring := c.ring.(data := c.ring.data[c.writer.first + k := v]))
  }

  function Returned(c: Cell, count: int): Cell
    requires c.writer.Polling?
  {
    c.(writer := if count <= 0 then AtTop else Polled(c.writer.first, count))
  }

  /** The writer's second locked section. */
  function Marked(c: Cell): Cell
    requires c.writer.Polled? && c.writer.first + c.writer.count <= |c.ring.data|
  {
    c.(ring := c.ring.(size := c.ring.size + c.writer.count), writer := AtTop)
  }

  /** The reader takes the oldest event; a full ring wakes its writer. */
  function Taken(c: Cell): Cell
    requires 0 < c.ring.cap && c.ring.start < |c.ring.data|
  {
    c.(ring := c.ring.(size := if c.ring.size > 0 then c.ring.size - 1 else 0,
                       start := (c.ring.start + 1) % c.ring.cap),
       writer := if c.ring.size == c.ring.cap && c.writer.Asleep? then Asleep(true) else c.writer,
       taken := c.taken + [c.ring.data[c.ring.start]])
  }

  ghost predicate CellInv(c: Cell) {
    && Valid(c.ring)
    && (c.writer.Polling? ==> Granted(c.ring, c.writer.first, c.writer.len))
    && (c.writer.Polled? ==> Granted(c.ring, c.writer.first, c.writer.count))
    && (c.writer == Asleep(false) ==> c.ring.size == c.ring.cap)
  }

  /** How many places before the next one to be read queue `j` was last looked at. */
  function Back(n: nat, next: nat, j: nat): int { if j < next then next - 1 - j else next - 1 - j + n }

  ghost predicate LastLooksEmpty(s: Sys, empties: nat) {
    forall j :: 0 <= j < |s.cells| && Back(|s.cells|, s.next, j) < empties ==> s.cells[j].ring.size == 0
  }

  ghost predicate AllEmpty(s: Sys) { forall j :: 0 <= j < |s.cells| ==> s.cells[j].ring.size == 0 }

  ghost predicate ReaderInv(s: Sys) {
    && (s.waitingForData <==> s.reader.Waiting?)
    && (s.cells != [] ==> s.next < |s.cells|)
    && (s.reader.Scanning? ==>
       s.reader.max >= 1 && s.reader.empties <= |s.cells| && LastLooksEmpty(s, s.reader.empties))
    && (s.reader.Waiting? ==> s.reader.max >= 1 && (!s.reader.woken ==> AllEmpty(s)))
  }

  ghost predicate MergeInv(s: Sys) {
    forall m :: 0 <= m < |s.cells| ==> OfModule(s.out, m) == Kept(s.handles, m, s.cells[m].taken)
  }

  ghost predicate Inv(s: Sys) {
    && (forall i :: 0 <= i < |s.cells| ==> CellInv(s.cells[i]))
    && ReaderInv(s)
    && MergeInv(s)
  }

  function SetCell(s: Sys, i: nat, c: Cell): Sys
    requires i < |s.cells|
  {
    s.(cells := s.cells[i := c])
  }

  function ScanNext(s: Sys): Sys
    requires s.reader.Scanning? && s.next < |s.cells|
    requires 0 < s.cells[s.next].ring.cap && s.cells[s.next].ring.start < |s.cells[s.next].ring.data|
  {
    var c := s.cells[s.next];
    var r := s.reader;
    var t :=
      if c.ring.size == 0 then s.(reader := r.(empties := r.empties + 1))
      else
        var e := c.ring.data[c.ring.start];
        var up := Remap(s.handles, s.next, e);
        if up.sensor == -1 then SetCell(s, s.next, Taken(c)).(reader := r.(empties := 0))
        else SetCell(s, s.next, Taken(c)).(reader := r.(empties := 0, read := r.read + 1),
                                           out := s.out + [Upstream(s.next, up)]);
    t.(next := (s.next + 1) % |s.cells|)
  }

  function Next(s: Sys, t: Step): Sys
    requires Inv(s) && Enabled(s, t)
  {
    match t
    case Enter(i, first, len) => SetCell(s, i, Entered(s.cells[i], first, len))
    case WriteSlot(i, k, v) => SetCell(s, i, Written(s.cells[i], k, v))
    case PollReturns(i, count) => SetCell(s, i, Returned(s.cells[i], count))
    case Mark(i) =>
      var m := SetCell(s, i, Marked(s.cells[i]));
      if s.waitingForData && m.reader.Waiting? then m.(reader := m.reader.(woken := true)) else m
    case WriterWakesAlone(i) => SetCell(s, i, s.cells[i].(writer := Asleep(true)))
    case BeginPoll(max) => s.(reader := Scanning(0, 0, max))
    case ScanOne => ScanNext(s)
    case EndScan =>
      if s.reader.read == 0 then s.(waitingForData := true, reader := Waiting(false, s.reader.max))
      else s.(reader := Away)
    case ReaderResumes => s.(waitingForData := false, reader := Scanning(0, 0, s.reader.max))
    case ReaderWakesAlone => s.(reader := s.reader.(woken := true))
  }

  ghost predicate Initial(s: Sys) {
    && (forall i :: 0 <= i < |s.cells| ==>
          Valid(s.cells[i].ring) && s.cells[i].ring.size == 0 && s.cells[i].writer == AtTop
          && s.cells[i].taken == [])
    && s.reader == Away && s.next == 0 && !s.waitingForData && s.out == []
  }

  /* ---- Every step keeps the invariant ---- */

  lemma InitialInv(s: Sys)
    requires Initial(s)
    ensures Inv(s)
  {
  }

  lemma WrittenKeeps(c: Cell, k: nat, v: Event)
    requires CellInv(c) && c.writer.Polling? && k < c.writer.len
    ensures CellInv(Written(c, k, v)) && Written(c, k, v).ring.size == c.ring.size
    ensures Contents(Written(c, k, v).ring) == Contents(c.ring)
  {
    GrantedIsDisjoint(c.ring, c.writer.first, c.writer.len, k, v);
  }

  lemma MarkedKeeps(c: Cell)
    requires CellInv(c) && c.writer.Polled?
    ensures CellInv(Marked(c)) && Marked(c).taken == c.taken
    ensures Contents(Marked(c).ring) == Contents(c.ring) + c.ring.data[c.writer.first..c.writer.first + c.writer.count]
  {
    MarkAppends(c.ring, c.writer.first, c.writer.count);
  }

  lemma TakenKeeps(c: Cell)
    requires CellInv(c) && c.ring.size > 0
    ensures CellInv(Taken(c)) && Taken(c).ring.size == c.ring.size - 1
    ensures Taken(c).ring.data == c.ring.data && Taken(c).taken + Contents(Taken(c).ring) == c.taken + Contents(c.ring)
  {
    var (first, n) := if c.writer.Polling? then (c.writer.first, c.writer.len)
                      else if c.writer.Polled? then (c.writer.first, c.writer.count) else (0, 0);
    DequeueKeepsGrant(c.ring, first, n);
    assert Taken(c).ring == Dequeued(c.ring);
    var e := c.ring.data[c.ring.start];
    assert c.taken + ([e] + Contents(Dequeued(c.ring))) == (c.taken + [e]) + Contents(Dequeued(c.ring));
  }

  /** A step of one cell that neither takes events nor changes how many are readable. */
  lemma CellStepKeeps(s: Sys, i: nat, c: Cell)
    requires Inv(s) && i < |s.cells| && CellInv(c) && c.taken == s.cells[i].taken && c.ring.size == s.cells[i].ring.size
    ensures Inv(SetCell(s, i, c))
  {}

  lemma MarkKeeps(s: Sys, i: nat)
    requires Inv(s) && Enabled(s, Mark(i))
    ensures Inv(Next(s, Mark(i)))
  {
    MarkedKeeps(s.cells[i]);
  }

  lemma KeptExtends(h: Handles, m: nat, taken: seq<Event>, e: Event)
    ensures Kept(h, m, taken + [e]) == Kept(h, m, taken) + if Dropped(h, m, e) then [] else [Remap(h, m, e)]
  {
    assert (taken + [e])[..|taken + [e]| - 1] == taken;
  }

  lemma OfModuleExtends(out: seq<Upstream>, u: Upstream, m: nat)
    ensures OfModule(out + [u], m) == OfModule(out, m) + if u.m == m then [u.event] else []
  {
    assert (out + [u])[..|out + [u]| - 1] == out;
  }

  lemma NextIndex(n: nat, next: nat, j: nat)
    requires next < n && j < n
    ensures var next' := (next + 1) % n;
      next' < n && Back(n, next', j) == if j == next then 0 else Back(n, next, j) + 1
  {
    ModIsSlot(next + 1, n);
  }

  lemma ScanEmptyKeeps(s: Sys)
    requires Inv(s) && Enabled(s, ScanOne) && s.cells[s.next].ring.size == 0
    ensures Inv(Next(s, ScanOne))
  {
    var t := Next(s, ScanOne);
    forall j | 0 <= j < |t.cells| && Back(|t.cells|, t.next, j) < t.reader.empties
      ensures t.cells[j].ring.size == 0
    {
      NextIndex(|s.cells|, s.next, j);
    }
    NextIndex(|s.cells|, s.next, s.next);
  }

  lemma ScanTakesKeeps(s: Sys)
    requires Inv(s) && Enabled(s, ScanOne) && s.cells[s.next].ring.size > 0
    ensures Inv(Next(s, ScanOne))
  {
    var t := Next(s, ScanOne);
    var c := s.cells[s.next];
    var e := c.ring.data[c.ring.start];
    TakenKeeps(c);
    NextIndex(|s.cells|, s.next, s.next);
    forall m | 0 <= m < |t.cells|
      ensures OfModule(t.out, m) == Kept(t.handles, m, t.cells[m].taken)
    {
      OfModuleExtends(s.out, Upstream(s.next, Remap(s.handles, s.next, e)), m);
      if m == s.next { KeptExtends(s.handles, m, c.taken, e); }
    }
  }

  /** A scan that ends without an event has seen every queue empty. */
  lemma EndScanKeeps(s: Sys)
    requires Inv(s) && Enabled(s, EndScan)
    ensures Inv(Next(s, EndScan))
  {
    forall j | 0 <= j < |s.cells|
      ensures Back(|s.cells|, s.next, j) < |s.cells|
    {}
  }

  lemma StepKeepsInv(s: Sys, t: Step)
    requires Inv(s) && Enabled(s, t)
    ensures Inv(Next(s, t))
  {
    match t
    case Enter(i, first, len) => CellStepKeeps(s, i, Entered(s.cells[i], first, len));
    case WriteSlot(i, k, v) =>
      WrittenKeeps(s.cells[i], k, v);
      CellStepKeeps(s, i, Written(s.cells[i], k, v));
    case PollReturns(i, count) => CellStepKeeps(s, i, Returned(s.cells[i], count));
    case Mark(i) => MarkKeeps(s, i);
    case WriterWakesAlone(i) => CellStepKeeps(s, i, s.cells[i].(writer := Asleep(true)));
    case ScanOne => if s.cells[s.next].ring.size == 0 { ScanEmptyKeeps(s); } else { ScanTakesKeeps(s); }
    case EndScan => EndScanKeeps(s);
    case _ =>
  }

  /* ---- Runs ---- */

  ghost predicate Run(s: Sys, ts: seq<Step>, t: Sys)
    requires Inv(s)
    decreases |ts|
  {
    if ts == [] then s == t
    else Enabled(s, ts[0]) && (StepKeepsInv(s, ts[0]); Run(Next(s, ts[0]), ts[1..], t))
  }

  lemma {:induction false} RunKeepsInv(s: Sys, ts: seq<Step>, t: Sys)
    requires Inv(s) && Run(s, ts, t)
    ensures Inv(t)
    decreases |ts|
  {
    if ts != [] {
      StepKeepsInv(s, ts[0]);
      RunKeepsInv(Next(s, ts[0]), ts[1..], t);
    }
  }

  /* ---- What the device delivers ---- */

  /** The device's own account of one sub-HAL: the region it may write, and the events that its
      polls have returned so far. */
  datatype Device = Device(region: seq<Event>, delivered: seq<Event>)

  /** The account after step `t`; `c` is the cell before it.  A granted region holds what it held
      before, a write changes one of its slots, and a poll that returns `count` delivers the first
      `count` of them. */
  function Noted(v: Device, c: Cell, t: Step, i: nat): Device {
    match t
    case Enter(j, first, len) =>
      if j == i && c.ring.size < c.ring.cap && first + len <= |c.ring.data|
      then v.(region := c.ring.data[first..first + len]) else v
    case WriteSlot(j, k, e) => if j == i && k < |v.region| then v.(region := v.region[k := e]) else v
    case PollReturns(j, count) =>
      if j == i && 0 < count <= |v.region| then v.(delivered := v.delivered + v.region[..count]) else v
    case _ => v
  }

  /** What sub-HAL `i` has delivered in a run. */
  ghost function Account(s: Sys, ts: seq<Step>, i: nat, v: Device): Device
    requires Inv(s)
    decreases |ts|
  {
    if ts == [] || i >= |s.cells| || !Enabled(s, ts[0]) then v
    else
      StepKeepsInv(s, ts[0]);
      Account(Next(s, ts[0]), ts[1..], i, Noted(v, s.cells[i], ts[0], i))
  }

  /** The events that a poll has returned and that are not marked yet. */
  function Unmarked(c: Cell): seq<Event> {
    if c.writer.Polled? && c.writer.first + c.writer.count <= |c.ring.data|
    then c.ring.data[c.writer.first..c.writer.first + c.writer.count] else []
  }

  ghost predicate Tallies(c: Cell, v: Device)
    requires CellInv(c)
  {
    && v.delivered == c.taken + Contents(c.ring) + Unmarked(c)
    && (c.writer.Polling? ==> v.region == c.ring.data[c.writer.first..c.writer.first + c.writer.len])
  }

  lemma WrittenTallies(c: Cell, k: nat, e: Event, v: Device)
    requires CellInv(c) && c.writer.Polling? && k < c.writer.len && Tallies(c, v)
    ensures CellInv(Written(c, k, e)) && Tallies(Written(c, k, e), v.(region := v.region[k := e]))
  {
    WrittenKeeps(c, k, e);
    var d := Written(c, k, e).ring.data;
    assert d[c.writer.first..c.writer.first + c.writer.len]
        == c.ring.data[c.writer.first..c.writer.first + c.writer.len][k := e];
  }

  lemma ReturnedTallies(c: Cell, count: int, v: Device)
    requires CellInv(c) && c.writer.Polling? && count <= c.writer.len && Tallies(c, v)
    ensures CellInv(Returned(c, count))
    ensures Tallies(Returned(c, count), if count > 0 then v.(delivered := v.delivered + v.region[..count]) else v)
  {
    if count > 0 {
      assert v.region[..count] == c.ring.data[c.writer.first..c.writer.first + count];
    } else {
      assert c.taken + Contents(c.ring) + [] == c.taken + Contents(c.ring);
    }
  }

  lemma MarkedTallies(c: Cell, v: Device)
    requires CellInv(c) && c.writer.Polled? && Tallies(c, v)
    ensures CellInv(Marked(c)) && Tallies(Marked(c), v)
  {
    MarkedKeeps(c);
    assert c.taken + Contents(c.ring) + Unmarked(c) == c.taken + (Contents(c.ring) + Unmarked(c)) + [];
  }

  lemma TakenTallies(c: Cell, v: Device)
    requires CellInv(c) && c.ring.size > 0 && Tallies(c, v)
    ensures CellInv(Taken(c)) && Tallies(Taken(c), v)
  {
    TakenKeeps(c);
  }

  lemma EnteredTallies(c: Cell, first: nat, len: nat, v: Device)
    requires CellInv(c) && (c.writer.AtTop? || c.writer.Asleep?) && Tallies(c, v)
    requires c.ring.size < c.ring.cap ==> len >= 1 && Granted(c.ring, first, len)
    ensures CellInv(Entered(c, first, len))
    ensures Tallies(Entered(c, first, len),
                    if c.ring.size < c.ring.cap then v.(region := c.ring.data[first..first + len]) else v)
  {}

  lemma ScanTallies(s: Sys, i: nat, v: Device)
    requires Inv(s) && Enabled(s, ScanOne) && i < |s.cells| && Tallies(s.cells[i], v) && Inv(Next(s, ScanOne))
    ensures i < |Next(s, ScanOne).cells| && Tallies(Next(s, ScanOne).cells[i], v)
  {
    if s.next == i && s.cells[i].ring.size > 0 {
      TakenTallies(s.cells[i], v);
      assert Next(s, ScanOne).cells[i] == Taken(s.cells[i]);
    } else {
      assert Next(s, ScanOne).cells[i] == s.cells[i];
    }
  }

  /** A step of writer `j` as its own cell sees it. */
  lemma WriterTallies(s: Sys, t: Step, i: nat, v: Device)
    requires Inv(s) && Enabled(s, t) && i < |s.cells| && Tallies(s.cells[i], v) && Inv(Next(s, t))
    requires (t.Enter? || t.WriteSlot? || t.PollReturns? || t.Mark? || t.WriterWakesAlone?) && t.i == i
    ensures i < |Next(s, t).cells| && Tallies(Next(s, t).cells[i], Noted(v, s.cells[i], t, i))
  {
    var c := s.cells[i];
    match t
    case Enter(_, first, len) => EnteredTallies(c, first, len, v);
    case WriteSlot(_, k, e) => WrittenTallies(c, k, e, v);
    case PollReturns(_, count) => ReturnedTallies(c, count, v);
    case Mark(_) => MarkedTallies(c, v);
    case _ =>
  }

  lemma StepTallies(s: Sys, t: Step, i: nat, v: Device)
    requires Inv(s) && Enabled(s, t) && i < |s.cells| && Tallies(s.cells[i], v)
    ensures Inv(Next(s, t)) && i < |Next(s, t).cells|
    ensures Tallies(Next(s, t).cells[i], Noted(v, s.cells[i], t, i))
  {
    StepKeepsInv(s, t);
    if t == ScanOne {
      ScanTallies(s, i, v);
    } else if (t.Enter? || t.WriteSlot? || t.PollReturns? || t.Mark? || t.WriterWakesAlone?) && t.i == i {
      WriterTallies(s, t, i, v);
    } else {
      assert Next(s, t).cells[i] == s.cells[i];
    }
  }

  lemma {:induction false} RunTallies(s: Sys, ts: seq<Step>, t: Sys, i: nat, v: Device)
    requires Inv(s) && Run(s, ts, t) && i < |s.cells| && Tallies(s.cells[i], v)
    ensures Inv(t) && i < |t.cells| && Tallies(t.cells[i], Account(s, ts, i, v))
    decreases |ts|
  {
    if ts != [] {
      StepTallies(s, ts[0], i, v);
      RunTallies(Next(s, ts[0]), ts[1..], t, i, Noted(v, s.cells[i], ts[0], i));
    }
  }

  /** Under every interleaving each ring is a first-in first-out queue: what the device's polls have
      returned, by the device's own account, is what has been taken, followed by what is readable,
      followed by what was returned and is not marked yet; and the ring never overflows. */
  lemma RingIsFifo(s: Sys, ts: seq<Step>, t: Sys, i: nat)
    requires Initial(s) && (InitialInv(s); Run(s, ts, t)) && i < |s.cells|
    ensures i < |t.cells| && Valid(t.cells[i].ring)
    ensures Account(s, ts, i, Device([], [])).delivered
         == t.cells[i].taken + Contents(t.cells[i].ring) + Unmarked(t.cells[i])
  {
    InitialInv(s);
    assert Contents(s.cells[i].ring) == [];
    RunTallies(s, ts, t, i, Device([], []));
  }

  /** Under every interleaving, what goes upstream from a module is exactly what was taken from
      its ring, in order, with handles remapped, without the events of unknown sensors. */
  lemma MergeIsLossless(s: Sys, ts: seq<Step>, t: Sys, m: nat)
    requires Initial(s) && (InitialInv(s); Run(s, ts, t)) && m < |t.cells|
    ensures OfModule(t.out, m) == HandedOn(t.handles, m, t.cells[m].taken)
  {
    InitialInv(s);
    RunKeepsInv(s, ts, t);
    KeptIsHandedOn(t.handles, m, t.cells[m].taken);
  }

  /* ---- What a poll returns ---- */

  /** How many events had gone upstream when the latest poll began, and how many it asked for. */
  datatype Call = Call(start: nat, max: nat)

  ghost function LatestCall(s: Sys, ts: seq<Step>, p: Call): Call
    requires Inv(s)
    decreases |ts|
  {
    if ts == [] || !Enabled(s, ts[0]) then p
    else
      StepKeepsInv(s, ts[0]);
      LatestCall(Next(s, ts[0]), ts[1..], if ts[0].BeginPoll? then Call(|s.out|, ts[0].max) else p)
  }

  /** The reader's count is that of the events handed upstream since the poll began. */
  predicate Counts(s: Sys, p: Call) {
    && (s.reader.Scanning? ==> s.reader.max == p.max && s.reader.read <= p.max && |s.out| == p.start + s.reader.read)
    && (s.reader.Waiting? ==> s.reader.max == p.max && |s.out| == p.start)
  }

  lemma {:induction false} RunCounts(s: Sys, ts: seq<Step>, t: Sys, p: Call)
    requires Inv(s) && Run(s, ts, t) && Counts(s, p)
    ensures Counts(t, LatestCall(s, ts, p))
    decreases |ts|
  {
    if ts != [] {
      StepKeepsInv(s, ts[0]);
      RunCounts(Next(s, ts[0]), ts[1..], t, if ts[0].BeginPoll? then Call(|s.out|, ts[0].max) else p);
    }
  }

  /** Under every interleaving a poll returns with at least one event and no more than it asked for,
      and goes to sleep exactly when it has found none. */
  lemma PollBringsEvents(s: Sys, ts: seq<Step>, t: Sys)
    requires Initial(s) && (InitialInv(s); Run(s, ts, t)) && Enabled(t, EndScan)
    ensures Inv(t)
    ensures var p, u := LatestCall(s, ts, Call(0, 0)), Next(t, EndScan);
      if u.reader == Away then p.start < |u.out| <= p.start + p.max
      else u.reader == Waiting(false, p.max) && u.waitingForData && |u.out| == p.start && AllEmpty(u)
  {
    InitialInv(s);
    RunKeepsInv(s, ts, t);
    RunCounts(s, ts, t, Call(0, 0));
    EndScanKeeps(t);
  }

  ghost predicate WriterStuck(s: Sys, i: nat) { i < |s.cells| && s.cells[i].writer == Asleep(false) }

  ghost predicate ReaderStuck(s: Sys) { s.reader.Waiting? && !s.reader.woken }

  /** No wake-up is lost: a thread that sleeps unsignalled has good reason to, so the reader and
      a writer never wait for each other, and some thread can always take a step. */
  lemma NoLostWakeup(s: Sys, ts: seq<Step>, t: Sys)
    requires Initial(s) && (InitialInv(s); Run(s, ts, t))
    ensures forall i: nat :: WriterStuck(t, i) ==> t.cells[i].ring.size == t.cells[i].ring.cap
    ensures ReaderStuck(t) ==> AllEmpty(t)
    ensures ReaderStuck(t) ==> forall i: nat :: !WriterStuck(t, i)
    ensures t.cells != [] ==> exists u :: Enabled(t, u) && !u.WriterWakesAlone? && !u.ReaderWakesAlone?
  {
    InitialInv(s);
    RunKeepsInv(s, ts, t);
    forall i: nat | WriterStuck(t, i)
      ensures t.cells[i].ring.size == t.cells[i].ring.cap > 0
    {
      assert CellInv(t.cells[i]);
    }
    if t.cells != [] { SomethingEnabled(t); }
  }

  /** Some thread can take a step without help from a spurious wake-up. */
  lemma SomethingEnabled(s: Sys)
    requires Inv(s) && s.cells != []
    ensures exists u :: Enabled(s, u) && !u.WriterWakesAlone? && !u.ReaderWakesAlone?
  {
    match s.reader
    case Away => assert Enabled(s, BeginPoll(1));
    case Scanning(e, r, max) => assert Enabled(s, ScanOne) || Enabled(s, EndScan);
    case Waiting(woken, max) =>
      if woken {
        assert Enabled(s, ReaderResumes);
      } else {
        var c := s.cells[0];
        match c.writer
        case AtTop =>
          var first := Slot(c.ring, c.ring.size);
          assert Enabled(s, Enter(0, first, 1));
        case Asleep(w) =>
          assert w;
          var first := Slot(c.ring, c.ring.size);
          assert Enabled(s, Enter(0, first, 1));
        case Polling(first, len) => assert Enabled(s, PollReturns(0, 0));
        case Polled(first, count) => assert Enabled(s, Mark(0));
      }
  }
}
