/** The object pool: a list threaded through the objects' own headers, with single and bulk free. Object 0 is NULL. */
module ObjectPool {
  import opened Sets

  /** The head of the list and the link in each object's header. */
  datatype Memory = Memory(head: nat, next: map<nat, nat>)

  /** bt_lfpool_free of one object. */
  function PushOne(m: Memory, b: nat): Memory {
    Memory(b, m.next[b := m.head])
  }

  /** The objects of ptrs freed one by one, the last one first. */
  function PushEach(m: Memory, ptrs: seq<nat>): Memory {
    if ptrs == [] then m else PushOne(PushEach(m, ptrs[1..]), ptrs[0])
  }

  /** Following links from the head visits exactly chain. */
  ghost predicate Lists(m: Memory, chain: seq<nat>)
    decreases |chain|
  {
    if chain == [] then m.head == 0
    else chain[0] != 0 && m.head == chain[0] && chain[0] in m.next
         && Lists(Memory(m.next[chain[0]], m.next), chain[1..])
  }

  /** The links of ptrs set to run through it and on to head. */
  function LinkAll(next: map<nat, nat>, ptrs: seq<nat>, head: nat): map<nat, nat> {
    if ptrs == [] then next
    else LinkAll(next, ptrs[1..], head)[ptrs[0] := if |ptrs| > 1 then ptrs[1] else head]
  }

  /** What single frees in reverse order leave in memory. */
  lemma {:induction false} PushEachLinks(m: Memory, ptrs: seq<nat>)
    ensures PushEach(m, ptrs) == Memory(if ptrs == [] then m.head else ptrs[0], LinkAll(m.next, ptrs, m.head))
    decreases |ptrs|
  {
    if ptrs != [] { PushEachLinks(m, ptrs[1..]); }
  }

  /** A link outside ptrs may be set before or after. */
  lemma {:induction false} LinkCommutes(next: map<nat, nat>, ptrs: seq<nat>, head: nat, b: nat, x: nat)
    requires b !in ptrs
    ensures LinkAll(next[b := x], ptrs, head) == LinkAll(next, ptrs, head)[b := x]
    decreases |ptrs|
  {
    if ptrs != [] { LinkCommutes(next, ptrs[1..], head, b, x); }
  }

  lemma {:induction false} ListsFrame(m: Memory, next: map<nat, nat>, chain: seq<nat>)
    requires Lists(m, chain) && forall b :: b in chain && b in m.next ==> b in next && next[b] == m.next[b]
    ensures Lists(Memory(m.head, next), chain)
    decreases |chain|
  {
    if chain != [] {
      assert chain[0] in chain;
      ListsFrame(Memory(m.next[chain[0]], m.next), next, chain[1..]);
    }
  }

  /** Freeing objects that are not on the list puts them in front of it, in order. */
  lemma {:induction false} PushEachLists(m: Memory, ptrs: seq<nat>, chain: seq<nat>)
    requires Lists(m, chain) && Distinct(ptrs) && forall b :: b in ptrs ==> b != 0 && b !in chain
    ensures Lists(PushEach(m, ptrs), ptrs + chain)
    decreases |ptrs|
  {
    if ptrs == [] {
      assert ptrs + chain == chain;
    } else {
      var rest, b := ptrs[1..], ptrs[0];
      assert forall x :: x in rest ==> x in ptrs;
      PushEachLists(m, rest, chain);
      var r := PushEach(m, rest);
      assert b !in rest + chain;
      ListsFrame(r, r.next[b := r.head], rest + chain);
      assert (ptrs + chain)[1..] == rest + chain;
    }
  }

  class Pool {
    var head: nat
    var next: map<nat, nat>
    var allocs: nat
    var frees: nat

    constructor ()
      ensures View() == Memory(0, map[]) && allocs == frees == 0
    {
      head, next, allocs, frees := 0, map[], 0, 0;
    }

    ghost function View(): Memory
      reads this
    {
      Memory(head, next)
    }

    /** bt_lfpool_alloc with one thread. */
    method Alloc(ghost chain: seq<nat>) returns (ptr: nat)
      requires Lists(View(), chain)
      modifies this
      ensures ptr == 0 <==> chain == []
      ensures chain == [] ==> View() == old(View()) && allocs == old(allocs)
      ensures chain != [] ==> ptr == chain[0] && Lists(View(), chain[1..]) && allocs == old(allocs) + 1
      ensures next == old(next) && frees == old(frees)
    {
      ptr := head;
      if ptr == 0 { return; }
      head := next[ptr];
      allocs := allocs + 1;
    }

    /** bt_lfpool_free with one thread; NULL is ignored. */
    method Free(ptr: nat)
      modifies this
      ensures View() == if ptr == 0 then old(View()) else PushOne(old(View()), ptr)
      ensures frees == old(frees) + (if ptr == 0 then 0 else 1) && allocs == old(allocs)
    {
      if ptr == 0 { return; }
      next := next[ptr := head];
      head := ptr;
      frees := frees + 1;
    }

    /** bt_lfpool_bulk_free leaves exactly the memory that single frees in reverse order leave. */
    method BulkFree(ptrs: seq<nat>)
      requires Distinct(ptrs)
      modifies this
      ensures View() == PushEach(old(View()), ptrs)
      ensures frees == old(frees) + |ptrs| && allocs == old(allocs)
    {
      if |ptrs| == 0 { return; }
      ghost var m := View();
      PushEachLinks(m, ptrs);
      var i := 0;
      assert ptrs[0..] == ptrs;
      while i < |ptrs| - 1
        invariant 0 <= i <= |ptrs| - 1 && head == m.head && frees == old(frees) && allocs == old(allocs)
        invariant LinkAll(m.next, ptrs, m.head) == LinkAll(next, ptrs[i..], m.head)
      {
        assert ptrs[i..][1..] == ptrs[i + 1..] && ptrs[i] !in ptrs[i + 1..];
        LinkCommutes(next, ptrs[i + 1..], head, ptrs[i], ptrs[i + 1]);
        next := next[ptrs[i] := ptrs[i + 1]];
        i := i + 1;
      }
      assert ptrs[i..] == [ptrs[i]];
      next := next[ptrs[|ptrs| - 1] := head];
      head := ptrs[0];
      frees := frees + |ptrs|;
    }
  }
}
