/**
  The event queue between one sub-HAL and the multi-HAL: a ring of fixed capacity.  The writer
  is granted a contiguous region of free slots and fills it without holding the lock, while the
  reader may dequeue; only then is the region marked as written.
 */
module SensorQueue {

  datatype Ring<T> = Ring(cap: nat, start: nat, size: nat, data: seq<T>)

  ghost predicate Valid<T>(r: Ring<T>) {
    0 < r.cap == |r.data| && r.start < r.cap && r.size <= r.cap
  }

  /** The slot `i` places behind the start. */
  function Slot<T>(r: Ring<T>, i: nat): nat {
    if r.start + i < r.cap then r.start + i else r.start + i - r.cap
  }

  /** The readable events, oldest first. */
  ghost function Contents<T>(r: Ring<T>): (s: seq<T>)
    requires Valid(r)
    ensures |s| == r.size
  {
    seq(r.size, i requires 0 <= i < r.size => r.data[Slot(r, i)])
  }

  /** The `n` slots from `first` on are free, contiguous, and next in order. */
  ghost predicate Granted<T>(r: Ring<T>, first: nat, n: nat) {
    n <= r.cap - r.size && first + n <= r.cap && (n > 0 ==> first == Slot(r, r.size))
  }

  function Dequeued<T>(r: Ring<T>): Ring<T>
    requires Valid(r)
  {
    if r.size == 0 then r else r.(size := r.size - 1, start := (r.start + 1) % r.cap)
  }

  lemma ModIsSlot(a: nat, cap: nat)
    requires 0 < cap && a < 2 * cap
    ensures a % cap == if a < cap then a else a - cap
  {
    if a >= cap { assert a % cap == (a - cap) % cap; }
  }

  /** A write into a granted slot leaves the readable events as they are. */
  lemma GrantedIsDisjoint<T>(r: Ring<T>, first: nat, n: nat, k: nat, v: T)
    requires Valid(r) && Granted(r, first, n) && k < n
    ensures Valid(r.(data := r.data[first + k := v])) && Contents(r.(data := r.data[first + k := v])) == Contents(r)
  {
    var w := r.(data := r.data[first + k := v]);
    forall i | 0 <= i < r.size
      ensures Contents(w)[i] == Contents(r)[i]
    {
      assert Slot(r, i) != first + k;
    }
  }

  /** Dequeuing removes the oldest event and leaves the granted region granted. */
  lemma DequeueKeepsGrant<T>(r: Ring<T>, first: nat, n: nat)
    requires Valid(r) && Granted(r, first, n)
    ensures var d := Dequeued(r);
      && Valid(d) && Granted(d, first, n)
      && (r.size > 0 ==> Contents(r) == [r.data[r.start]] + Contents(d))
  {
    if r.size > 0 {
      ModIsSlot(r.start + 1, r.cap);
      var d := Dequeued(r);
      forall i | 0 <= i < r.size
        ensures Contents(r)[i] == ([r.data[r.start]] + Contents(d))[i]
      {
        if i > 0 { assert Slot(r, i) == Slot(d, i - 1); }
      }
    }
  }

  /** Marking `n` granted slots as written appends what they hold. */
  lemma MarkAppends<T>(r: Ring<T>, first: nat, n: nat)
    requires Valid(r) && Granted(r, first, n)
    ensures var w := r.(size := r.size + n);
      Valid(w) && Contents(w) == Contents(r) + r.data[first..first + n]
  {
    var w := r.(size := r.size + n);
    forall i | 0 <= i < r.size + n
      ensures Contents(w)[i] == (Contents(r) + r.data[first..first + n])[i]
    {
      if i >= r.size { assert Slot(r, i) == first + (i - r.size); }
    }
  }

  class SensorEventQueue<T(0)> {
    const capacity: nat
    const data: array<T>
    var start: nat
    var size: nat

    ghost predicate Ok()
      reads this, data
    {
      capacity == data.Length && Valid(View())
    }

    ghost function View(): Ring<T>
      reads this, data
    {
      Ring(capacity, start, size, data[..])
    }

    constructor (cap: nat)
      requires cap > 0
      ensures Ok() && fresh(data) && capacity == cap && Contents(View()) == []
    {
      capacity := cap;
      data := new T[cap];
      start := 0;
      size := 0;
    }

    /** The longest region, up to the requested length, that is free, contiguous and next in
        order; empty only when the queue is full or nothing was asked for. */
    method GetWritableRegion(requested: int) returns (first: nat, len: nat)
      requires Ok()
      ensures Granted(View(), first, len)
      ensures len == 0 <==> size == capacity || requested <= 0
      ensures len > 0 ==> len <= requested
      ensures 0 < len < requested ==> first + len == capacity || first + len == start
    {
      if size == capacity || requested <= 0 {
        return 0, 0;
      }
      ModIsSlot(start + size, capacity);
      first := (start + size) % capacity;
      var last := first + requested - 1;
      if last > capacity - 1 {
        last := capacity - 1;
      }
      if first < start && last >= start {
        last := start - 1;
      }
      len := last - first + 1;
    }

    /** Appends the events that were written into the granted region. */
    method MarkAsWritten(count: nat, ghost first: nat)
      requires Ok() && Granted(View(), first, count)
      modifies this`size
      ensures Ok() && Contents(View()) == old(Contents(View())) + old(data[..])[first..first + count]
      ensures size == old(size) + count
    {
      MarkAppends(View(), first, count);
      size := size + count;
    }

    method Peek() returns (found: bool, at: nat)
      requires Ok()
      ensures found <==> size > 0
      ensures found ==> at < capacity && Contents(View()) != [] && data[at] == Contents(View())[0]
    {
      if size == 0 { return false, 0; }
      return true, start;
    }

    /** Drops the oldest event; tells whether writers that wait for space are woken. */
    method Dequeue(ghost first: nat, ghost n: nat) returns (wake: bool)
      requires Ok() && Granted(View(), first, n)
      modifies this`start, this`size
      ensures Ok() && View() == Dequeued(old(View())) && Granted(View(), first, n)
      ensures wake <==> old(size) == capacity
      ensures old(size) > 0 ==> old(Contents(View())) == [old(data[start])] + Contents(View())
      ensures old(size) == 0 ==> Contents(View()) == []
    {
      DequeueKeepsGrant(View(), first, n);
      wake := false;
      if size == 0 { return; }
      if size == capacity { wake := true; }
      size := size - 1;
      start := (start + 1) % capacity;
    }
  }
}
