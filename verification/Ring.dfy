/** Index arithmetic shared by the ring buffers, and the ring queue as one thread sees it. */
module Ring {
  import opened Bits

  /** The index after i; for a power-of-two capacity this is the code's `(i + 1) & mask` (NextIsMask). */
  function Next(i: nat, cap: nat): nat
    requires cap > 0
  {
    (i + 1) % cap
  }

  lemma NextIsMask(i: nat, cap: nat)
    requires IsPow2(cap)
    ensures cap >= 1 && BitAnd(i + 1, cap - 1) == Next(i, cap)
  {
    MaskIsMod(i + 1, cap);
  }

  /** Comparing wrapped indices decides fullness of the unwrapped counters. */
  lemma FullTest(m: nat, seen: nat, cap: nat)
    requires IsPow2(cap) && cap > 0 && seen <= m < seen + cap
    ensures Next(m % cap, cap) == (m + 1) % cap
    ensures Next(m % cap, cap) == seen % cap <==> m + 1 == seen + cap
  {
    NextIndex(m, 1, cap);
    AddCap(seen, cap);
    if m + 1 < seen + cap && (m + 1) % cap == seen % cap {
      ModShift(seen, m + 1, cap);
    }
  }

  /** Equal wrapped indices decide emptiness of the unwrapped counters. */
  lemma EmptyTest(n: nat, len: nat, cap: nat)
    requires len < cap
    ensures n % cap == (n + len) % cap <==> len == 0
  {
    if n % cap == (n + len) % cap { ModShift(n, n + len, cap); }
  }

  /** Number of items between two ring indices. */
  function Distance(head: nat, tail: nat, cap: nat): nat
    requires head < cap && tail < cap
  {
    if tail >= head then tail - head else tail + cap - head
  }

  /** The ring index i places after head. */
  function Slot(head: nat, i: nat, cap: nat): nat
    requires cap > 0
  {
    (head + i) % cap
  }

  lemma NextCases(i: nat, cap: nat)
    requires i < cap
    ensures Next(i, cap) == if i + 1 == cap then 0 else i + 1
  {
    if i + 1 < cap { ModSmall(i + 1, cap); }
  }

  lemma DistanceNext(head: nat, tail: nat, cap: nat)
    requires head < cap && tail < cap
    ensures Next(tail, cap) < cap && Next(head, cap) < cap
    ensures Next(tail, cap) == head <==> Distance(head, tail, cap) == cap - 1
    ensures Next(tail, cap) != head ==> Distance(head, Next(tail, cap), cap) == Distance(head, tail, cap) + 1
    ensures head != tail ==> Distance(Next(head, cap), tail, cap) == Distance(head, tail, cap) - 1
  {
    NextCases(tail, cap);
    NextCases(head, cap);
  }

  lemma SlotAtEnd(head: nat, tail: nat, cap: nat)
    requires head < cap && tail < cap
    ensures Slot(head, Distance(head, tail, cap), cap) == tail
  {
    ModSmall(tail, cap);
    AddCap(tail, cap);
  }

  /** The write position is none of the occupied slots. */
  lemma SlotFree(head: nat, tail: nat, i: nat, cap: nat)
    requires head < cap && tail < cap && i < Distance(head, tail, cap)
    ensures Slot(head, i, cap) != tail
  {
    var d := Distance(head, tail, cap);
    SlotAtEnd(head, tail, cap);
    if Slot(head, i, cap) == tail { ModShift(head + i, head + d, cap); }
  }

  /** The n items from head on, read round the end of the buffer. */
  ghost function Items<T>(buf: seq<T>, head: nat, n: nat): (w: seq<T>)
    requires |buf| > 0
    ensures |w| == n
  {
    seq(n, i requires 0 <= i => buf[Slot(head, i, |buf|)])
  }

  lemma SlotMoved(head: nat, k: nat, i: nat, cap: nat)
    requires cap > 0
    ensures Slot((head + k) % cap, i, cap) == Slot(head, k + i, cap)
  {
    ModStep(head + k, i, cap);
  }

  lemma ItemsTake<T>(buf: seq<T>, head: nat, n: nat, k: nat)
    requires |buf| > 0 && k <= n
    ensures Items(buf, head, n)[..k] == Items(buf, head, k)
  {
  }

  lemma ItemsDrop<T>(buf: seq<T>, head: nat, n: nat, k: nat)
    requires |buf| > 0 && k <= n
    ensures Items(buf, head, n)[k..] == Items(buf, (head + k) % |buf|, n - k)
  {
    var a, b := Items(buf, head, n)[k..], Items(buf, (head + k) % |buf|, n - k);
    forall i | 0 <= i < n - k ensures a[i] == b[i] {
      SlotMoved(head, k, i, |buf|);
    }
  }

  /** Storing at the tail of a ring that is not full appends. */
  lemma ItemsAppend<T>(buf: seq<T>, head: nat, tail: nat, x: T)
    requires head < |buf| && tail < |buf| && Distance(head, tail, |buf|) + 1 < |buf|
    ensures var n := Distance(head, tail, |buf|);
            Items(buf[tail := x], head, n + 1) == Items(buf, head, n) + [x]
  {
    var n := Distance(head, tail, |buf|);
    var a, b := Items(buf[tail := x], head, n + 1), Items(buf, head, n) + [x];
    SlotAtEnd(head, tail, |buf|);
    forall i: nat | i < n + 1 ensures a[i] == b[i] {
      if i < n { SlotFree(head, tail, i, |buf|); }
    }
  }

  /** The queue macros with one thread at a time: push and pop on the same fields. */
  class RingQueue<T(0)> {
    const buffer: array<T>
    const mask: nat
    var head: nat
    var tail: nat

    ghost predicate Valid()
      reads this
    {
      IsPow2(buffer.Length) && mask + 1 == buffer.Length && head < buffer.Length && tail < buffer.Length
    }

    ghost function Contents(): (c: seq<T>)
      reads this, buffer
      requires Valid()
      ensures |c| < buffer.Length
    {
      Items(buffer[..], head, Distance(head, tail, buffer.Length))
    }

    constructor (capacity: nat)
      requires IsPow2(capacity) && capacity > 0
      ensures Valid() && fresh(buffer) && buffer.Length == capacity && Contents() == []
    {
      buffer := new T[capacity];
      mask := capacity - 1;
      head, tail := 0, 0;
    }

    method Push(item: T) returns (ret: int)
      requires Valid()
      modifies this, buffer
      ensures Valid() && head == old(head)
      ensures ret == if |old(Contents())| < mask then 1 else 0
      ensures Contents() == if ret == 1 then old(Contents()) + [item] else old(Contents())
    {
      ret := 0;
      var h, t := head, tail;
      var next := BitAnd(t + 1, mask);
      NextIsMask(t, buffer.Length);
      DistanceNext(h, t, buffer.Length);
      if next != h {
        ItemsAppend(buffer[..], h, t, item);
        ghost var was := buffer[..];
        buffer[t] := item;
        assert buffer[..] == was[t := item];
        tail := next;
        ret := 1;
      }
    }

    /** fallback stands for what the caller's variable held; it is returned when the queue is empty. */
    method Pop(fallback: T) returns (ret: int, out: T)
      requires Valid()
      modifies this`head
      ensures Valid()
      ensures ret == if old(Contents()) != [] then 1 else 0
      ensures ret == 1 ==> old(Contents()) == [out] + Contents()
      ensures ret == 0 ==> out == fallback && Contents() == old(Contents()) == []
    {
      ret, out := 0, fallback;
      var h, t := head, tail;
      DistanceNext(h, t, buffer.Length);
      if h != t {
        ghost var n := Distance(h, t, buffer.Length);
        out := buffer[h];
        ModSmall(h, buffer.Length);
        NextIsMask(h, buffer.Length);
        ItemsDrop(buffer[..], h, n, 1);
        assert Contents()[0] == out;
        head := BitAnd(h + 1, mask);
        ret := 1;
      }
    }
  }
}
