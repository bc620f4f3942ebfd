/**
  The message queue between the transport threads and the callback thread: a linked list that is
  changed under a mutex, and a semaphore that counts its messages.
 */
module MessageQueue {

  class Item<T> {
    const msg: T     // never changed once the node is filled
    var prev: Item?<T>
    var next: Item?<T>

    constructor (m: T)
      ensures msg == m && prev == null && next == null
    {
      msg, prev, next := m, null, null;
    }
  }

  ghost function Messages<T>(items: seq<Item<T>>): (s: seq<T>)
    ensures |s| == |items|
  {
    seq(|items|, i requires 0 <= i < |items| => items[i].msg)
  }

  /** The list between its two locked sections.  `items` names the nodes in order. */
  class Queue<T> {
    var head: Item?<T>
    ghost var items: seq<Item<T>>

    /** The nodes are distinct and linked in order.  The back link of the first node is not
        constrained: receiving leaves it pointing at the node that was removed. */
    ghost predicate Valid()
      reads this, items
    {
      && (forall i, j :: 0 <= i < j < |items| ==> items[i] != items[j])
      && head == (if items == [] then null else items[0])
      && (items != [] ==> items[|items| - 1].next == null)
      && (forall i, j :: 0 <= i < |items| && j == i + 1 && j < |items| ==>
         items[i].next == items[j] && items[j].prev == items[i])
    }

    ghost function Contents(): (s: seq<T>)
      reads this
    {
      Messages(items)
    }

    constructor ()
      ensures Valid() && Contents() == [] && items == []
    {
      head, items := null, [];
    }

    /** A send up to its post: walk to the last node and link the new one behind it.  Without
        memory for a node (`room`) nothing happens. */
    method Link(m: T, room: bool) returns (ok: bool)
      requires Valid()
      modifies this, items
      ensures Valid() && ok == room
      ensures Contents() == if ok then old(Contents()) + [m] else old(Contents())
      ensures ok ==> |items| == old(|items|) + 1 && items[..old(|items|)] == old(items) && fresh(items[old(|items|)])
      ensures !ok ==> items == old(items)
    {
      if !room {
        return false;
      }
      var node := new Item(m);
      if head != null {
        var p := head;
        ghost var k := 0;
        while p.next != null
          invariant 0 <= k < |items| && p == items[k]
          decreases |items| - k
        {
          assert k + 1 < |items| && p.next == items[k + 1];
          p := p.next;
          k := k + 1;
        }
        assert k == |items| - 1;
        p.next := node;
        node.prev := p;
      } else {
        head := node;
      }
      items := items + [node];
      assert Contents() == old(Contents()) + [m];
      return true;
    }

    /** The locked section of a receive: unlink the first node, if there is one. */
    method Unlink() returns (m: Maybe<T>)
      requires Valid()
      modifies this
      ensures Valid()
      ensures m == (if old(Contents()) == [] then Nothing else Just(old(Contents())[0]))
      ensures Contents() == (if old(Contents()) == [] then [] else old(Contents())[1..])
      ensures items == (if old(items) == [] then [] else old(items)[1..])
    {
      m := Nothing;
      if head != null {
        m := Just(head.msg);
        assert |items| > 1 ==> head.next == items[1];
        head := head.next;
        items := items[1..];
        assert Contents() == old(Contents())[1..];
      }
    }
  }

  datatype Maybe<T> = Nothing | Just(value: T)

  /* ---- Threads ---- */

  /** What a thread that uses the queue is about to do. */
  datatype Thread<T> =
    | Outside
    | Sending(msg: T)       // about to enter the locked section of a send
    | Posting               // has linked its message, about to post the semaphore
    | Waiting               // about to pass the semaphore of a receive
    | Receiving             // past the semaphore, about to enter the locked section
    | Returned(got: Maybe<T>)

  datatype Sys<T> = Sys(threads: seq<Thread<T>>, list: seq<T>, sem: nat, sent: seq<T>, received: seq<T>)

  datatype Step<T> = BeginSend(t: nat, msg: T) | BeginReceive(t: nat) | NoMemory(t: nat) | Go(t: nat)

  /** A waiting thread can go on only when the semaphore is positive. */
  predicate Enabled<T>(s: Sys<T>, a: Step<T>) {
    && a.t < |s.threads|
    && match a
       case BeginSend(t, m) => s.threads[t].Outside? || s.threads[t].Returned?
       case BeginReceive(t) => s.threads[t].Outside? || s.threads[t].Returned?
       case NoMemory(t) => s.threads[t].Sending?
       case Go(t) =>
         match s.threads[t]
         case Waiting => s.sem > 0
         case Outside => false
         case Returned(_) => false
         case _ => true
  }

  function Next<T>(s: Sys<T>, a: Step<T>): Sys<T>
    requires Enabled(s, a)
  {
    match a
    case BeginSend(t, m) => s.(threads := s.threads[t := Sending(m)])
    case BeginReceive(t) => s.(threads := s.threads[t := Waiting])
    case NoMemory(t) => s.(threads := s.threads[t := Outside])
    case Go(t) =>
      match s.threads[t]
      case Sending(m) => s.(threads := s.threads[t := Posting], list := s.list + [m], sent := s.sent + [m])
      case Posting => s.(threads := s.threads[t := Outside], sem := s.sem + 1)
      case Waiting => s.(threads := s.threads[t := Receiving], sem := s.sem - 1)
      case Receiving =>
        if s.list == [] then s.(threads := s.threads[t := Returned(Nothing)])
        else s.(threads := s.threads[t := Returned(Just(s.list[0]))], list := s.list[1..],
          received := s.received + [s.list[0]])
  }

  predicate InMidst<T>(t: Thread<T>) { t.Posting? || t.Receiving? }

  /** How many threads are between linking a message and posting it, or between passing the
      semaphore and taking a message. */
  function InBetween<T>(ts: seq<Thread<T>>): nat {
    if ts == [] then 0 else (if ts[0].Posting? || ts[0].Receiving? then 1 else 0) + InBetween(ts[1..])
  }

  lemma {:induction false} InBetweenUpdate<T>(ts: seq<Thread<T>>, t: nat, u: Thread<T>)
    requires t < |ts|
    ensures InBetween(ts[t := u]) == InBetween(ts) - (if ts[t].Posting? || ts[t].Receiving? then 1 else 0)
                                     + (if u.Posting? || u.Receiving? then 1 else 0)
    ensures ts[t].Posting? || ts[t].Receiving? ==> InBetween(ts) >= 1
  {
    if t == 0 {
      assert ts[t := u][1..] == ts[1..];
    } else {
      assert ts[t := u][1..] == ts[1..][t - 1 := u];
      InBetweenUpdate(ts[1..], t - 1, u);
    }
  }

  /** The list is what was sent and not yet received, and every message in it is announced by
      the semaphore, is about to be, or is owed to a thread past the semaphore. */
  ghost predicate Inv<T>(s: Sys<T>) {
    && s.sent == s.received + s.list
    && |s.list| == s.sem + InBetween(s.threads)
    && forall t :: 0 <= t < |s.threads| ==> s.threads[t] != Returned(Nothing)
  }

  lemma StepKeepsInv<T>(s: Sys<T>, a: Step<T>)
    requires Inv(s) && Enabled(s, a)
    ensures Inv(Next(s, a))
  {
    InBetweenUpdate(s.threads, a.t, Next(s, a).threads[a.t]);
  }

  ghost predicate Run<T>(s: Sys<T>, steps: seq<Step<T>>, t: Sys<T>)
    decreases |steps|
  {
    if steps == [] then s == t else Enabled(s, steps[0]) && Run(Next(s, steps[0]), steps[1..], t)
  }

  ghost predicate Initial<T>(s: Sys<T>) {
    && s.list == [] && s.sem == 0 && s.sent == [] && s.received == []
    && forall t :: 0 <= t < |s.threads| ==> s.threads[t] == Outside
  }

  lemma {:induction false} NoneInBetween<T>(ts: seq<Thread<T>>)
    requires forall t :: 0 <= t < |ts| ==> ts[t] == Outside
    ensures InBetween(ts) == 0
  {
    if ts != [] { NoneInBetween(ts[1..]); }
  }

  lemma {:induction false} RunKeepsInv<T>(s: Sys<T>, steps: seq<Step<T>>, t: Sys<T>)
    requires Inv(s) && Run(s, steps, t)
    ensures Inv(t)
    decreases |steps|
  {
    if steps != [] {
      StepKeepsInv(s, steps[0]);
      RunKeepsInv(Next(s, steps[0]), steps[1..], t);
    }
  }

  /** Under every interleaving of any number of senders and receivers: messages come out in the
      order in which they went in, none is lost or doubled, a receiver past the semaphore finds
      a message, and no receive has come back empty-handed. */
  lemma QueueIsFifo<T>(s: Sys<T>, steps: seq<Step<T>>, t: Sys<T>)
    requires Initial(s) && Run(s, steps, t)
    ensures t.sent == t.received + t.list
    ensures forall k :: 0 <= k < |t.threads| && t.threads[k].Receiving? ==> t.list != []
    ensures forall k :: 0 <= k < |t.threads| ==> t.threads[k] != Returned(Nothing)
  {
    NoneInBetween(s.threads);
    RunKeepsInv(s, steps, t);
    forall k | 0 <= k < |t.threads| && t.threads[k].Receiving?
      ensures t.list != []
    {
      InBetweenUpdate(t.threads, k, Outside);
    }
  }

  lemma {:induction false} SomeInBetween<T>(ts: seq<Thread<T>>) returns (t: nat)
    requires InBetween(ts) > 0
    ensures t < |ts| && (ts[t].Posting? || ts[t].Receiving?)
  {
    if ts[0].Posting? || ts[0].Receiving? {
      t := 0;
    } else {
      t := SomeInBetween(ts[1..]);
      t := t + 1;
    }
  }

  /** No message is forgotten: while one is in the list, a thread that waits for one can go on,
      or some other thread is about to post or about to take one. */
  lemma WaiterIsServed<T>(s: Sys<T>, steps: seq<Step<T>>, t: Sys<T>, k: nat)
    requires Initial(s) && Run(s, steps, t) && k < |t.threads| && t.threads[k].Waiting? && t.list != []
    ensures exists j :: 0 <= j < |t.threads| && Enabled(t, Go(j)) && (j == k || InMidst(t.threads[j]))
  {
    NoneInBetween(s.threads);
    RunKeepsInv(s, steps, t);
    if t.sem > 0 {
      assert Enabled(t, Go(k));
    } else {
      var j := SomeInBetween(t.threads);
      assert Enabled(t, Go(j));
    }
  }
}
