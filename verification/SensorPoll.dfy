/**
  One scan of the sensor multi-HAL's poll: the loop that goes round the queues, takes one event
  at a time, renumbers its handle and fills the caller's array.  The lock is held throughout, so
  the queues are seen as the sequences that SensorQueue shows the rings to be.
 */
module SensorPoll {
  import opened SensorQueue
  import opened SensorSystem

  function Total(qs: seq<seq<Event>>): nat {
    if qs == [] then 0 else |qs[0]| + Total(qs[1..])
  }

  lemma {:induction false} TotalDrops(qs: seq<seq<Event>>, i: nat)
    requires i < |qs| && qs[i] != []
    ensures Total(qs[i := qs[i][1..]]) == Total(qs) - 1
  {
    var rs := qs[i := qs[i][1..]];
    if i == 0 {
      assert rs[1..] == qs[1..];
    } else {
      assert rs[1..] == qs[1..][i - 1 := qs[1..][i - 1][1..]];
      TotalDrops(qs[1..], i - 1);
    }
  }

  /** How far after `first`, going round, queue `j` comes. */
  function Ahead(n: nat, first: nat, j: nat): int { if first <= j then j - first else j - first + n }

  /** Going round `n` queues from `first`: `rounds` full rounds and then the next `pos` queues. */
  function Turns(n: nat, first: nat, rounds: nat, pos: nat, j: nat): nat {
    rounds + if Ahead(n, first, j) < pos then 1 else 0
  }

  function Successor(n: nat, i: nat): nat { if i + 1 == n then 0 else i + 1 }

  lemma TurnTaken(n: nat, first: nat, rounds: nat, pos: nat, next: nat, j: nat)
    requires first < n && j < n && pos < n && next < n && Ahead(n, first, next) == pos
    ensures var next' := Successor(n, next); var wrap := pos + 1 == n;
      && Ahead(n, first, next') == (if wrap then 0 else pos + 1)
      && Turns(n, first, if wrap then rounds + 1 else rounds, if wrap then 0 else pos + 1, j)
         == Turns(n, first, rounds, pos, j) + if j == next then 1 else 0
  {}

  /** A queue that still holds events was served as often as any other, up to one; two such
      queues therefore differ by at most one, and nobody starves. */
  ghost predicate Balanced(taken: seq<seq<Event>>, after: seq<seq<Event>>) {
    && |taken| == |after|
    && forall i, j :: 0 <= i < |after| && 0 <= j < |after| && after[i] != [] ==> |taken[j]| <= |taken[i]| + 1
  }

  /** What is left is the original queue without the events taken from its head. */
  ghost predicate Split(before: seq<seq<Event>>, taken: seq<seq<Event>>, after: seq<seq<Event>>) {
    && |before| == |taken| == |after|
    && forall m :: 0 <= m < |before| ==> before[m] == taken[m] + after[m]
  }

  ghost predicate Merged(h: Handles, taken: seq<seq<Event>>, out: seq<Upstream>) {
    forall m :: 0 <= m < |taken| ==> OfModule(out, m) == HandedOn(h, m, taken[m])
  }

  /** A queue is served once each time its turn comes, until it is empty. */
  ghost predicate Fair(first: nat, rounds: nat, pos: nat, taken: seq<seq<Event>>, after: seq<seq<Event>>) {
    && |taken| == |after|
    && forall j :: 0 <= j < |after| ==>
         && |taken[j]| <= Turns(|after|, first, rounds, pos, j)
         && (after[j] != [] ==> |taken[j]| == Turns(|after|, first, rounds, pos, j))
  }

  ghost predicate LastSeenEmpty(qs: seq<seq<Event>>, next: nat, empties: nat) {
    forall j :: 0 <= j < |qs| && Back(|qs|, next, j) < empties ==> qs[j] == []
  }

  ghost predicate Filled(data: seq<Event>, out: seq<Upstream>) {
    |out| <= |data| && forall k :: 0 <= k < |out| ==> data[k] == out[k].event
  }

  /** The output when event `e` of module `i` has been handed on, or left out. */
  function Extended(h: Handles, out: seq<Upstream>, i: nat, e: Event): seq<Upstream> {
    var on := HandedOn(h, i, [e]);
    if on == [] then out else out + [Upstream(i, on[0])]
  }

  /** The code's renumbering is what the handle map says. */
  lemma RemapIsHandedOn(h: Handles, i: nat, e: Event)
    ensures HandedOn(h, i, [e]) == if Remap(h, i, e).sensor == -1 then [] else [Remap(h, i, e)]
  {
    assert [e][1..] == [];
  }

  lemma MergedExtends(h: Handles, taken: seq<seq<Event>>, out: seq<Upstream>, i: nat, e: Event)
    requires Merged(h, taken, out) && i < |taken|
    ensures Merged(h, taken[i := taken[i] + [e]], Extended(h, out, i, e))
  {
    var taken' := taken[i := taken[i] + [e]];
    RemapIsHandedOn(h, i, e);
    forall m | 0 <= m < |taken|
      ensures OfModule(Extended(h, out, i, e), m) == HandedOn(h, m, taken'[m])
    {
      OfModuleExtends(out, Upstream(i, Remap(h, i, e)), m);
      HandedOnExtends(h, i, taken[i], e);
    }
  }

  lemma SplitExtends(before: seq<seq<Event>>, taken: seq<seq<Event>>, after: seq<seq<Event>>, i: nat)
    requires Split(before, taken, after) && i < |after| && after[i] != []
    ensures Split(before, taken[i := taken[i] + [after[i][0]]], after[i := after[i][1..]])
  {
    assert taken[i] + after[i] == (taken[i] + [after[i][0]]) + after[i][1..];
  }

  lemma FairStep(first: nat, rounds: nat, pos: nat, next: nat, taken: seq<seq<Event>>, after: seq<seq<Event>>)
    requires Fair(first, rounds, pos, taken, after)
    requires first < |after| && pos < |after| && next < |after| && Ahead(|after|, first, next) == pos
    ensures var wrap := pos + 1 == |after|;
      var (r, p) := if wrap then (rounds + 1, 0) else (rounds, pos + 1);
      if after[next] == [] then Fair(first, r, p, taken, after)
      else Fair(first, r, p, taken[next := taken[next] + [after[next][0]]], after[next := after[next][1..]])
  {
    forall j | 0 <= j < |after|
      ensures var wrap := pos + 1 == |after|;
        Turns(|after|, first, if wrap then rounds + 1 else rounds, if wrap then 0 else pos + 1, j)
         == Turns(|after|, first, rounds, pos, j) + if j == next then 1 else 0
    {
      TurnTaken(|after|, first, rounds, pos, next, j);
    }
  }

  lemma EmptySeen(qs: seq<seq<Event>>, next: nat, empties: nat)
    requires next < |qs| && LastSeenEmpty(qs, next, empties)
    ensures qs[next] == [] ==> LastSeenEmpty(qs, Successor(|qs|, next), empties + 1)
  {}

  /** How far a scan has come: what it took from each queue, what it handed on, whose turn is next. */
  datatype Progress = Progress(queues: seq<seq<Event>>, taken: seq<seq<Event>>, out: seq<Upstream>,
                               next: nat, empties: nat, rounds: nat, pos: nat)

  function Turned(p: Progress): Progress
    requires p.queues != []
  {
    p.(next := Successor(|p.queues|, p.next), rounds := if p.pos + 1 == |p.queues| then p.rounds + 1 else p.rounds,
       pos := if p.pos + 1 == |p.queues| then 0 else p.pos + 1)
  }

  /** One look at the queue whose turn it is. */
  function Looked(h: Handles, p: Progress): Progress
    requires p.next < |p.queues| == |p.taken|
  {
    var i := p.next;
    if p.queues[i] == [] then Turned(p).(empties := p.empties + 1)
    else
      var e := p.queues[i][0];
      Turned(p).(empties := 0,
                 queues := p.queues[i := p.queues[i][1..]],
                 taken := p.taken[i := p.taken[i] + [e]],
                 out := Extended(h, p.out, i, e))
  }

  ghost predicate InTurn(first: nat, p: Progress) {
    p.queues != [] ==>
      && first < |p.queues| && p.next < |p.queues| && p.pos < |p.queues|
      && Ahead(|p.queues|, first, p.next) == p.pos
      && Fair(first, p.rounds, p.pos, p.taken, p.queues)
  }

  ghost predicate ScanInv(before: seq<seq<Event>>, first: nat, h: Handles, p: Progress) {
    && Split(before, p.taken, p.queues)
    && Merged(h, p.taken, p.out)
    && InTurn(first, p)
    && p.empties <= |p.queues|
    && LastSeenEmpty(p.queues, p.next, p.empties)
  }

  lemma FairIsBalanced(first: nat, p: Progress)
    requires InTurn(first, p) && |p.taken| == |p.queues|
    ensures Balanced(p.taken, p.queues)
  {}

  lemma LookedTakes(before: seq<seq<Event>>, h: Handles, p: Progress)
    requires Split(before, p.taken, p.queues) && Merged(h, p.taken, p.out) && p.next < |p.queues|
    ensures Split(before, Looked(h, p).taken, Looked(h, p).queues) && Merged(h, Looked(h, p).taken, Looked(h, p).out)
  {
    if p.queues[p.next] != [] {
      SplitExtends(before, p.taken, p.queues, p.next);
      MergedExtends(h, p.taken, p.out, p.next, p.queues[p.next][0]);
    }
  }

  lemma LookedInTurn(first: nat, h: Handles, p: Progress)
    requires InTurn(first, p) && p.queues != []  && |p.taken| == |p.queues|
    ensures InTurn(first, Looked(h, p))
  {
    TurnTaken(|p.queues|, first, p.rounds, p.pos, p.next, p.next);
    FairStep(first, p.rounds, p.pos, p.next, p.taken, p.queues);
  }

  /** Each look takes an event or adds to the empty ones in a row. */
  lemma LookedLess(h: Handles, p: Progress)
    requires p.next < |p.queues| == |p.taken|
    ensures var q := Looked(h, p);
      if p.queues[p.next] == [] then q.queues == p.queues && q.empties == p.empties + 1
      else Total(q.queues) < Total(p.queues)
  {
    if p.queues[p.next] != [] { TotalDrops(p.queues, p.next); }
  }

  lemma LookedKeeps(before: seq<seq<Event>>, first: nat, h: Handles, p: Progress)
    requires ScanInv(before, first, h, p) && p.empties < |p.queues|
    ensures ScanInv(before, first, h, Looked(h, p))
  {
    LookedTakes(before, h, p);
    LookedInTurn(first, h, p);
    EmptySeen(p.queues, p.next, p.empties);
    assert LastSeenEmpty(Looked(h, p).queues, Looked(h, p).next, Looked(h, p).empties);
  }

  /** The poll context's part that a scan changes. */
  class PollContext {
    var queues: seq<seq<Event>>
    var nextReadIndex: nat
    var handles: Handles

    constructor (qs: seq<seq<Event>>, h: Handles)
      ensures queues == qs && nextReadIndex == 0 && handles == h
    {
      queues, nextReadIndex, handles := qs, 0, h;
    }

    /** The body of the scan loop. */
    method Look(data: array<Event>, read: nat, empties: nat, ghost p: Progress) returns (read': nat, empties': nat)
      requires nextReadIndex < |queues| == |p.taken| && read == |p.out| < data.Length && Filled(data[..], p.out)
      requires p.queues == queues && p.next == nextReadIndex && p.empties == empties
      modifies this`queues, this`nextReadIndex, data
      ensures queues == Looked(handles, p).queues && nextReadIndex == Looked(handles, p).next
      ensures empties' == Looked(handles, p).empties
      ensures read' == |Looked(handles, p).out| <= read + 1 && Filled(data[..], Looked(handles, p).out)
    {
      read', empties' := read, empties;
      var i := nextReadIndex;
      ModIsSlot(i + 1, |queues|);
      if queues[i] == [] {
        empties' := empties + 1;
      } else {
        empties' := 0;
        RemapIsHandedOn(handles, i, queues[i][0]);
        data[read] := Remap(handles, i, queues[i][0]);
        if data[read].sensor != -1 {
          read' := read + 1;
        }
        queues := queues[i := queues[i][1..]];
      }
      nextReadIndex := (i + 1) % |queues|;
    }

    /** One scan.  Per module it hands on exactly what it took, renumbered and in order; it stops
        early only when every queue is empty; and it goes round the queues in turn. */
    method Scan(data: array<Event>, maxReads: nat) returns (eventsRead: nat, ghost p: Progress)
      requires maxReads <= data.Length
      requires queues != [] ==> nextReadIndex < |queues|
      modifies this`queues, this`nextReadIndex, data
      ensures p.queues == queues && p.next == nextReadIndex
      ensures eventsRead == |p.out| <= maxReads && Filled(data[..], p.out)
      ensures Split(old(queues), p.taken, queues)
      ensures Merged(handles, p.taken, p.out)
      ensures InTurn(old(nextReadIndex), p)
      ensures Balanced(p.taken, queues)
      ensures eventsRead < maxReads ==> forall j :: 0 <= j < |queues| ==> queues[j] == []
    {
      var empties, queueCount := 0, |queues|;
      eventsRead := 0;
      ghost var before, first := queues, nextReadIndex;
      p := Progress(queues, seq(|queues|, _ => []), [], nextReadIndex, 0, 0, 0);
      while empties < queueCount && eventsRead < maxReads
        invariant ScanInv(before, first, handles, p)
        invariant p.queues == queues && p.next == nextReadIndex && p.empties == empties
        invariant |queues| == queueCount && eventsRead == |p.out| <= maxReads && Filled(data[..], p.out)
        decreases Total(queues), queueCount - empties
      {
        LookedKeeps(before, first, handles, p);
        LookedLess(handles, p);
        eventsRead, empties := Look(data, eventsRead, empties, p);
        p := Looked(handles, p);
      }
      FairIsBalanced(first, p);
    }
  }
}
