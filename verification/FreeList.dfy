/**
 The CAS free list behind the slab allocator and the object pool, as a step
 machine: any number of allocating and freeing threads, one memory access or
 compare-and-swap per step, sequentially consistent. Block 0 is NULL. The first
 word of a block is its link while the block is free and belongs to its owner
 otherwise, so owners may overwrite it at any time.
 */
module FreeList {
  import opened Sets

  /** Where a block is: on the list, with its owner, or in the hands of freeing thread t. */
  datatype Place = Free | Owned | Flight(t: nat)

  /** At AStart a thread is outside a call, or about to load the head again after a lost swap. */
  datatype Allocator =
    | AStart
    | ALoaded(h: nat)
    | ARead(h: nat, n: nat)

  /** A free of one or several blocks: link them, load the head, link the last one, swap. */
  datatype Freer =
    | FIdle
    | FLinking(ptrs: seq<nat>, i: nat)
    | FLoad(ptrs: seq<nat>)
    | FWrite(ptrs: seq<nat>, seen: nat)
    | FSwap(ptrs: seq<nat>, seen: nat)

  /** chain and place are history: the list, head first, and where each block is. */
  datatype Pool = Pool(
    head: nat, next: seq<nat>, allocs: seq<Allocator>, freers: seq<Freer>,
    chain: seq<nat>, place: seq<Place>)

  datatype Action =
    | AllocLoad(t: nat) | AllocRead(t: nat) | AllocCas(t: nat)
    | FreeBegin(t: nat, ptrs: seq<nat>) | FreeLink(t: nat) | FreeLoad(t: nat) | FreeWrite(t: nat)
    | FreeCas(t: nat, reload: bool)
    | OwnerWrite(b: nat, v: nat)

  /** What a thread can do where it stands. */
  predicate Ready(q: Pool, a: Action) {
    match a
    case AllocLoad(t) => t < |q.allocs| && q.allocs[t].AStart?
    case AllocRead(t) => t < |q.allocs| && q.allocs[t].ALoaded? && q.allocs[t].h < |q.next|
    case AllocCas(t) => t < |q.allocs| && q.allocs[t].ARead?
    case FreeBegin(t, ptrs) =>
      && t < |q.freers| && q.freers[t].FIdle? && ptrs != [] && Distinct(ptrs)
      && forall i :: 0 <= i < |ptrs| ==> 0 < ptrs[i] < |q.place|
    case FreeLink(t) => t < |q.freers| && q.freers[t].FLinking?
    case FreeLoad(t) => t < |q.freers| && q.freers[t].FLoad?
    case FreeWrite(t) => t < |q.freers| && q.freers[t].FWrite?
    case FreeCas(t, _) => t < |q.freers| && q.freers[t].FSwap?
    case OwnerWrite(b, _) => 0 < b < |q.place|
  }

  /** Callers give back and write only blocks that are with them. */
  predicate Owning(q: Pool, a: Action) {
    && (a.FreeBegin? ==> forall i :: 0 <= i < |a.ptrs| ==> a.ptrs[i] < |q.place| && q.place[a.ptrs[i]].Owned?)
    && (a.OwnerWrite? ==> a.b < |q.place| && q.place[a.b].Owned?)
  }

  predicate Enabled(q: Pool, a: Action) {
    Ready(q, a) && Owning(q, a)
  }

  function Update(s: seq<nat>, i: nat, v: nat): (r: seq<nat>)
    ensures |r| == |s| && forall j :: 0 <= j < |s| ==> r[j] == if j == i then v else s[j]
  {
    if i < |s| then s[i := v] else s
  }

  function Move(place: seq<Place>, ptrs: seq<nat>, p: Place): (r: seq<Place>)
    ensures |r| == |place| && forall b :: 0 <= b < |place| ==> r[b] == if b in ptrs then p else place[b]
  {
    seq(|place|, b requires 0 <= b < |place| => if b in ptrs then p else place[b])
  }

  /** A compare-and-swap succeeds exactly when the head is the expected one. */
  predicate Wins(q: Pool, a: Action) {
    && Ready(q, a)
    && (if a.AllocCas? then q.head == q.allocs[a.t].h else a.FreeCas? && q.head == q.freers[a.t].seen)
  }

  function Step(q: Pool, a: Action): Pool
    requires Ready(q, a)
  {
    match a
    case AllocLoad(t) => q.(allocs := q.allocs[t := if q.head == 0 then AStart else ALoaded(q.head)])
    case AllocRead(t) =>
      var h := q.allocs[t].h;
      q.(allocs := q.allocs[t := ARead(h, q.next[h])])
    case AllocCas(t) =>
      if Wins(q, a) then
        q.(head := q.allocs[t].n, allocs := q.allocs[t := AStart],
           chain := if q.chain == [] then [] else q.chain[1..], place := Move(q.place, [q.allocs[t].h], Owned))
      else q.(allocs := q.allocs[t := AStart])
    case FreeBegin(t, ptrs) =>
      q.(freers := q.freers[t := FLinking(ptrs, 0)], place := Move(q.place, ptrs, Flight(t)))
    case FreeLink(t) =>
      var FLinking(ptrs, i) := q.freers[t];
      if i + 1 < |ptrs| then
        q.(next := Update(q.next, ptrs[i], ptrs[i + 1]), freers := q.freers[t := FLinking(ptrs, i + 1)])
      else q.(freers := q.freers[t := FLoad(ptrs)])
    case FreeLoad(t) => q.(freers := q.freers[t := FWrite(q.freers[t].ptrs, q.head)])
    case FreeWrite(t) =>
      var FWrite(ptrs, seen) := q.freers[t];
      q.(next := if ptrs != [] then Update(q.next, ptrs[|ptrs| - 1], seen) else q.next,
         freers := q.freers[t := FSwap(ptrs, seen)])
    case FreeCas(t, reload) =>
      var FSwap(ptrs, seen) := q.freers[t];
      if Wins(q, a) && ptrs != [] then
        q.(head := ptrs[0], freers := q.freers[t := FIdle],
           chain := ptrs + q.chain, place := Move(q.place, ptrs, Free))
      else if reload then q.(freers := q.freers[t := FWrite(ptrs, q.head)])  // the pool keeps the head the swap saw
      else q.(freers := q.freers[t := FLoad(ptrs)])                          // the slab loads it again
    case OwnerWrite(b, v) => q.(next := Update(q.next, b, v))
  }

  // ---------------------------------------------------------------------
  // Invariant
  // ---------------------------------------------------------------------

  /** The i-th block of a list, NULL past its end. */
  function Nth(chain: seq<nat>, i: nat): nat {
    if i < |chain| then chain[i] else 0
  }

  /** Following links from head visits exactly chain and then stops. */
  ghost predicate Linked(head: nat, next: seq<nat>, chain: seq<nat>) {
    && head == Nth(chain, 0)
    && (forall i :: 0 <= i < |chain| ==> 0 < chain[i] < |next| && next[chain[i]] == Nth(chain, i + 1))
  }

  /** The blocks a freeing thread holds, and how far it has linked them. */
  ghost predicate FreerOk(q: Pool, t: nat)
    requires t < |q.freers|
  {
    match q.freers[t]
    case FIdle => true
    case FLinking(ptrs, i) => Holds(q, t, ptrs) && i < |ptrs| && LinkedUpTo(q.next, ptrs, i)
    case FLoad(ptrs) => Holds(q, t, ptrs) && LinkedUpTo(q.next, ptrs, |ptrs| - 1)
    case FWrite(ptrs, _) => Holds(q, t, ptrs) && LinkedUpTo(q.next, ptrs, |ptrs| - 1)
    case FSwap(ptrs, seen) =>
      Holds(q, t, ptrs) && LinkedUpTo(q.next, ptrs, |ptrs| - 1) && q.next[ptrs[|ptrs| - 1]] == seen
  }

  ghost predicate Holds(q: Pool, t: nat, ptrs: seq<nat>) {
    && ptrs != [] && Distinct(ptrs) && |q.next| == |q.place|
    && forall i :: 0 <= i < |ptrs| ==> 0 < ptrs[i] < |q.place| && q.place[ptrs[i]] == Flight(t)
  }

  ghost predicate LinkedUpTo(next: seq<nat>, ptrs: seq<nat>, n: int)
    requires forall i :: 0 <= i < |ptrs| ==> ptrs[i] < |next|
  {
    forall i :: 0 <= i < n < |ptrs| ==> next[ptrs[i]] == ptrs[i + 1]
  }

  function Hand(f: Freer): seq<nat> {
    if f.FIdle? then [] else f.ptrs
  }

  /** The list, and which blocks are on it. */
  ghost predicate ListOk(q: Pool) {
    && |q.next| == |q.place| && Linked(q.head, q.next, q.chain) && Distinct(q.chain)
    && (forall b :: 0 < b < |q.place| ==> (q.place[b].Free? <==> b in q.chain))
  }

  ghost predicate FlightOk(q: Pool, b: nat)
    requires b < |q.place|
  {
    q.place[b].Flight? ==> q.place[b].t < |q.freers| && b in Hand(q.freers[q.place[b].t])
  }

  ghost predicate FreersOk(q: Pool) {
    && (forall t :: 0 <= t < |q.freers| ==> FreerOk(q, t))
    && (forall b :: 0 < b < |q.place| ==> FlightOk(q, b))
  }

  ghost predicate Inv(q: Pool) {
    ListOk(q) && FreersOk(q)
  }

  /** While nobody frees, the list is all there is to say. */
  lemma IdleInv(q: Pool)
    requires ListOk(q) && (forall t :: 0 <= t < |q.freers| ==> q.freers[t].FIdle?)
    requires forall b :: 0 < b < |q.place| ==> !q.place[b].Flight?
    ensures Inv(q)
  {
    assert forall t :: 0 <= t < |q.freers| ==> FreerOk(q, t);
    assert forall b :: 0 < b < |q.place| ==> FlightOk(q, b);
  }

  /** The blocks of a hand are in flight with that thread. */
  lemma HandInFlight(q: Pool, t: nat, b: nat)
    requires t < |q.freers| && FreerOk(q, t) && b in Hand(q.freers[t])
    ensures 0 < b < |q.place| && |q.next| == |q.place| && q.place[b] == Flight(t)
  {
  }

  lemma HoldsFrame(q: Pool, q': Pool, t: nat, ptrs: seq<nat>)
    requires Holds(q, t, ptrs) && |q'.next| == |q.next| && |q'.place| == |q.place|
    requires forall b :: b in ptrs && b < |q.place| ==> q'.place[b] == q.place[b]
    ensures Holds(q', t, ptrs)
  {
    forall i | 0 <= i < |ptrs| ensures 0 < ptrs[i] < |q'.place| && q'.place[ptrs[i]] == Flight(t) {
      assert ptrs[i] in ptrs;
    }
  }

  lemma LinksFrame(next: seq<nat>, next': seq<nat>, ptrs: seq<nat>, n: int)
    requires |next'| == |next| && forall i :: 0 <= i < |ptrs| ==> ptrs[i] < |next|
    requires LinkedUpTo(next, ptrs, n)
    requires forall b :: b in ptrs && b < |next| ==> next'[b] == next[b]
    ensures LinkedUpTo(next', ptrs, n)
  {
    forall i | 0 <= i < n < |ptrs| ensures next'[ptrs[i]] == ptrs[i + 1] {
      assert ptrs[i] in ptrs;
    }
  }

  /** A freeing thread is not affected by changes outside its own blocks. */
  lemma FreerFrame(q: Pool, q': Pool, t: nat)
    requires t < |q.freers| && t < |q'.freers| && q'.freers[t] == q.freers[t] && FreerOk(q, t)
    requires |q'.next| == |q.next| && |q'.place| == |q.place|
    requires forall b :: b in Hand(q.freers[t]) && b < |q.place| && b < |q.next| ==>
               q'.place[b] == q.place[b] && q'.next[b] == q.next[b]
    ensures FreerOk(q', t)
  {
    var f := q.freers[t];
    if !f.FIdle? {
      HoldsFrame(q, q', t, f.ptrs);
      LinksFrame(q.next, q'.next, f.ptrs, if f.FLinking? then f.i else |f.ptrs| - 1);
      assert f.ptrs[|f.ptrs| - 1] in f.ptrs;
    }
  }

  lemma LinkedFrame(head: nat, next: seq<nat>, next': seq<nat>, chain: seq<nat>)
    requires Linked(head, next, chain) && |next'| == |next|
    requires forall i :: 0 <= i < |chain| && chain[i] < |next| ==> next'[chain[i]] == next[chain[i]]
    ensures Linked(head, next', chain)
  {
  }

  /** Writing the link of a block that is not free leaves the list alone. */
  lemma ListFrame(q: Pool, q': Pool, b: nat, v: nat)
    requires ListOk(q) && 0 < b < |q.place| && !q.place[b].Free?
    requires q'.next == Update(q.next, b, v) && q'.place == q.place && q'.chain == q.chain && q'.head == q.head
    ensures ListOk(q')
  {
    assert b !in q.chain;
    assert forall i :: 0 <= i < |q.chain| ==> q.chain[i] in q.chain;
    LinkedFrame(q.head, q.next, q'.next, q.chain);
  }

  /** ... and so it leaves the freeing threads that do not hold it. */
  lemma OthersFrame(q: Pool, q': Pool, b: nat, v: nat, t: nat)
    requires FreersOk(q) && |q.next| == |q.place| && 0 < b < |q.place|
    requires q'.next == Update(q.next, b, v) && q'.place == q.place
    requires t < |q.freers| && t < |q'.freers| && q'.freers[t] == q.freers[t] && q.place[b] != Flight(t)
    ensures FreerOk(q', t)
  {
    assert FreerOk(q, t);
    if b in Hand(q.freers[t]) { HandInFlight(q, t, b); }
    FreerFrame(q, q', t);
  }

  lemma FlightFrame(q: Pool, q': Pool)
    requires FreersOk(q) && q'.place == q.place && |q'.freers| == |q.freers|
    requires forall t :: 0 <= t < |q.freers| ==> Hand(q'.freers[t]) == Hand(q.freers[t])
    ensures forall b :: 0 < b < |q'.place| ==> FlightOk(q', b)
  {
    forall b | 0 < b < |q'.place| ensures FlightOk(q', b) { assert FlightOk(q, b); }
  }

  lemma OwnerWriteKeeps(q: Pool, b: nat, v: nat)
    requires Inv(q) && Enabled(q, OwnerWrite(b, v))
    ensures Inv(Step(q, OwnerWrite(b, v)))
  {
    var q' := Step(q, OwnerWrite(b, v));
    ListFrame(q, q', b, v);
    FlightFrame(q, q');
    forall t | 0 <= t < |q'.freers| ensures FreerOk(q', t) { OthersFrame(q, q', b, v, t); }
  }

  lemma LinkOne(next: seq<nat>, ptrs: seq<nat>, i: nat)
    requires Distinct(ptrs) && i + 1 < |ptrs| && forall j :: 0 <= j < |ptrs| ==> ptrs[j] < |next|
    requires LinkedUpTo(next, ptrs, i)
    ensures LinkedUpTo(Update(next, ptrs[i], ptrs[i + 1]), ptrs, i + 1)
  {
  }

  lemma LinkNextKeeps(q: Pool, t: nat)
    requires Inv(q) && Enabled(q, FreeLink(t)) && q.freers[t].i + 1 < |q.freers[t].ptrs|
    ensures Inv(Step(q, FreeLink(t)))
  {
    var q' := Step(q, FreeLink(t));
    var FLinking(ptrs, i) := q.freers[t];
    assert FreerOk(q, t);
    FlightFrame(q, q');
    LinkOne(q.next, ptrs, i);
    ListFrame(q, q', ptrs[i], ptrs[i + 1]);
    assert FreerOk(q', t);
    forall u | 0 <= u < |q'.freers| && u != t ensures FreerOk(q', u) {
      OthersFrame(q, q', ptrs[i], ptrs[i + 1], u);
    }
  }

  /** A thread moves on with the same blocks in hand; list, links and places stay. */
  lemma HandKeeps(q: Pool, q': Pool, t: nat)
    requires Inv(q) && t < |q.freers| == |q'.freers| && q' == q.(freers := q.freers[t := q'.freers[t]])
    requires Hand(q'.freers[t]) == Hand(q.freers[t]) && FreerOk(q', t)
    ensures Inv(q')
  {
    FlightFrame(q, q');
    forall u | 0 <= u < |q'.freers| && u != t ensures FreerOk(q', u) {
      assert FreerOk(q, u);
      FreerFrame(q, q', u);
    }
  }

  /** The last block is linked to nothing yet. */
  lemma LinkEndKeeps(q: Pool, t: nat)
    requires Inv(q) && Enabled(q, FreeLink(t)) && q.freers[t].i + 1 >= |q.freers[t].ptrs|
    ensures Inv(Step(q, FreeLink(t)))
  {
    assert FreerOk(q, t);
    HandKeeps(q, Step(q, FreeLink(t)), t);
  }

  lemma LinkKeeps(q: Pool, t: nat)
    requires Inv(q) && Enabled(q, FreeLink(t))
    ensures Inv(Step(q, FreeLink(t)))
  {
    if q.freers[t].i + 1 < |q.freers[t].ptrs| { LinkNextKeeps(q, t); } else { LinkEndKeeps(q, t); }
  }

  lemma LinkLast(next: seq<nat>, ptrs: seq<nat>, seen: nat)
    requires ptrs != [] && Distinct(ptrs) && forall j :: 0 <= j < |ptrs| ==> ptrs[j] < |next|
    requires LinkedUpTo(next, ptrs, |ptrs| - 1)
    ensures var next' := Update(next, ptrs[|ptrs| - 1], seen);
            LinkedUpTo(next', ptrs, |ptrs| - 1) && next'[ptrs[|ptrs| - 1]] == seen
  {
  }

  /** The thread's own state after it has linked its last block. */
  lemma WriteOwn(q: Pool, t: nat)
    requires Inv(q) && Enabled(q, FreeWrite(t))
    ensures q.freers[t].ptrs != [] && FreerOk(Step(q, FreeWrite(t)), t)
    ensures var ptrs := q.freers[t].ptrs;
            && 0 < ptrs[|ptrs| - 1] < |q.place| && q.place[ptrs[|ptrs| - 1]] == Flight(t)
  {
    assert FreerOk(q, t);
    WriteLinks(q, t);
  }

  lemma WriteLinks(q: Pool, t: nat)
    requires Ready(q, FreeWrite(t)) && FreerOk(q, t)
    ensures FreerOk(Step(q, FreeWrite(t)), t)
  {
    var q' := Step(q, FreeWrite(t));
    var FWrite(ptrs, seen) := q.freers[t];
    LinkLast(q.next, ptrs, seen);
    assert q'.freers[t] == FSwap(ptrs, seen) && q'.next == Update(q.next, ptrs[|ptrs| - 1], seen);
    HoldsFrame(q, q', t, ptrs);
  }

  lemma WriteKeeps(q: Pool, t: nat)
    requires Inv(q) && Enabled(q, FreeWrite(t))
    ensures Inv(Step(q, FreeWrite(t)))
  {
    var q' := Step(q, FreeWrite(t));
    var FWrite(ptrs, seen) := q.freers[t];
    WriteOwn(q, t);
    FlightFrame(q, q');
    ListFrame(q, q', ptrs[|ptrs| - 1], seen);
    forall u | 0 <= u < |q'.freers| && u != t ensures FreerOk(q', u) {
      OthersFrame(q, q', ptrs[|ptrs| - 1], seen, u);
    }
  }

  lemma BeginKeeps(q: Pool, t: nat, ptrs: seq<nat>)
    requires Inv(q) && Enabled(q, FreeBegin(t, ptrs))
    ensures Inv(Step(q, FreeBegin(t, ptrs)))
  {
    var q' := Step(q, FreeBegin(t, ptrs));
    forall u | 0 <= u < |q'.freers| && u != t ensures FreerOk(q', u) {
      assert FreerOk(q, u);
      forall b | b in Hand(q.freers[u]) && b in ptrs ensures false { HandInFlight(q, u, b); }
      FreerFrame(q, q', u);
    }
    assert forall i :: 0 <= i < |ptrs| ==> ptrs[i] in ptrs;
    assert FreerOk(q', t);
    forall b | 0 < b < |q'.place| ensures FlightOk(q', b) { assert FlightOk(q, b); }
  }

  /** Pushing the linked blocks puts them, in order, in front of the list. */
  lemma PushLinks(head: nat, next: seq<nat>, chain: seq<nat>, ptrs: seq<nat>)
    requires Linked(head, next, chain) && ptrs != []
    requires forall i :: 0 <= i < |ptrs| ==> 0 < ptrs[i] < |next|
    requires LinkedUpTo(next, ptrs, |ptrs| - 1) && next[ptrs[|ptrs| - 1]] == head
    ensures Linked(ptrs[0], next, ptrs + chain)
  {
    var c := ptrs + chain;
    forall i | 0 <= i < |c| ensures 0 < c[i] < |next| && next[c[i]] == Nth(c, i + 1) {
      if i >= |ptrs| { assert chain[i - |ptrs|] == c[i]; }
    }
  }

  lemma DistinctPush(ptrs: seq<nat>, chain: seq<nat>)
    requires Distinct(ptrs) && Distinct(chain) && forall b :: b in ptrs ==> b !in chain
    ensures Distinct(ptrs + chain)
  {
    var c := ptrs + chain;
    forall i, j | 0 <= i < j < |c| ensures c[i] != c[j] {
      assert i < |ptrs| ==> c[i] in ptrs;
      assert j >= |ptrs| ==> c[j] in chain;
    }
  }

  lemma PushKeepsList(q: Pool, a: Action)
    requires Inv(q) && a.FreeCas? && Wins(q, a)
    ensures q.freers[a.t].ptrs != [] && ListOk(Step(q, a))
  {
    var q' := Step(q, a);
    var ptrs := q.freers[a.t].ptrs;
    assert FreerOk(q, a.t);
    PushLinks(q.head, q.next, q.chain, ptrs);
    forall b | b in ptrs ensures b !in q.chain { HandInFlight(q, a.t, b); }
    DistinctPush(ptrs, q.chain);
    assert forall b :: b in ptrs + q.chain <==> b in ptrs || b in q.chain;
  }

  /** A push leaves the hands of the other freeing threads alone. */
  lemma PushOthers(q: Pool, a: Action, u: nat)
    requires Inv(q) && a.FreeCas? && Wins(q, a) && u < |q.freers| && u != a.t
    ensures u < |Step(q, a).freers| && FreerOk(Step(q, a), u)
  {
    assert FreerOk(q, u) && FreerOk(q, a.t);
    forall b | b in Hand(q.freers[u]) && b in q.freers[a.t].ptrs ensures false {
      HandInFlight(q, u, b);
      HandInFlight(q, a.t, b);
    }
    FreerFrame(q, Step(q, a), u);
  }

  lemma PushKeeps(q: Pool, a: Action)
    requires Inv(q) && a.FreeCas? && Wins(q, a)
    ensures Inv(Step(q, a))
  {
    var q' := Step(q, a);
    var ptrs := q.freers[a.t].ptrs;
    PushKeepsList(q, a);
    assert FreerOk(q, a.t);
    forall u | 0 <= u < |q'.freers| && u != a.t ensures FreerOk(q', u) { PushOthers(q, a, u); }
    forall b | 0 < b < |q'.place| ensures FlightOk(q', b) { assert FlightOk(q, b); }
  }

  /** What a winning allocation needs: the link it read is still the link of the head. */
  predicate Current(q: Pool, a: Action) {
    a.AllocCas? && Wins(q, a) ==> 0 < q.head < |q.next| && q.allocs[a.t].n == q.next[q.head]
  }

  lemma PopLinks(head: nat, next: seq<nat>, chain: seq<nat>)
    requires Linked(head, next, chain) && chain != []
    ensures Linked(next[head], next, chain[1..])
  {
    var c := chain[1..];
    forall i | 0 <= i < |c| ensures 0 < c[i] < |next| && next[c[i]] == Nth(c, i + 1) {
      assert c[i] == chain[i + 1];
    }
  }

  lemma PopKeepsList(q: Pool, a: Action)
    requires ListOk(q) && a.AllocCas? && Wins(q, a) && Current(q, a)
    ensures q.chain != [] && q.place[q.head].Free? && ListOk(Step(q, a))
    ensures Step(q, a).place == Move(q.place, [q.head], Owned)
  {
    var c := q.chain[1..];
    PopLinks(q.head, q.next, q.chain);
    assert q.chain == [q.head] + c;
    assert q.head in q.chain && q.head !in c;
    assert forall b :: b in q.chain <==> b == q.head || b in c;
  }

  lemma PopKeeps(q: Pool, a: Action)
    requires Inv(q) && a.AllocCas? && Wins(q, a) && Current(q, a)
    ensures Inv(Step(q, a))
  {
    var q' := Step(q, a);
    PopKeepsList(q, a);
    forall u | 0 <= u < |q'.freers| ensures FreerOk(q', u) {
      assert FreerOk(q, u);
      if q.head in Hand(q.freers[u]) { HandInFlight(q, u, q.head); }
      FreerFrame(q, q', u);
    }
    forall b | 0 < b < |q'.place| ensures FlightOk(q', b) { assert FlightOk(q, b); }
  }

  /** The invariant does not speak of allocating threads. */
  lemma AllocsAside(q: Pool, q': Pool)
    requires Inv(q) && q' == q.(allocs := q'.allocs)
    ensures Inv(q')
  {
    forall t | 0 <= t < |q'.freers| ensures FreerOk(q', t) {
      assert FreerOk(q, t);
      FreerFrame(q, q', t);
    }
    FlightFrame(q, q');
  }

  /** Loading the head, or losing the swap, keeps the blocks in hand. */
  lemma LoadKeeps(q: Pool, a: Action)
    requires Inv(q) && Enabled(q, a) && !Wins(q, a) && (a.FreeLoad? || a.FreeCas?)
    ensures Inv(Step(q, a))
  {
    assert FreerOk(q, a.t);
    HandKeeps(q, Step(q, a), a.t);
  }

  lemma StepKeeps(q: Pool, a: Action)
    requires Inv(q) && Enabled(q, a) && Current(q, a)
    ensures Inv(Step(q, a))
  {
    match a
    case FreeBegin(t, ptrs) => BeginKeeps(q, t, ptrs);
    case FreeLink(t) => LinkKeeps(q, t);
    case FreeWrite(t) => WriteKeeps(q, t);
    case OwnerWrite(b, v) => OwnerWriteKeeps(q, b, v);
    case AllocCas(_) => if Wins(q, a) { PopKeeps(q, a); } else { AllocsAside(q, Step(q, a)); }
    case FreeCas(_, _) => if Wins(q, a) { PushKeeps(q, a); } else { LoadKeeps(q, a); }
    case FreeLoad(_) => LoadKeeps(q, a);
    case AllocLoad(_) => AllocsAside(q, Step(q, a));
    case AllocRead(_) => AllocsAside(q, Step(q, a));
  }

  /** A winning allocation keeps the list intact exactly when the link it read is current. */
  lemma PopExactly(q: Pool, a: Action)
    requires Inv(q) && a.AllocCas? && Wins(q, a) && q.head != 0
    ensures Inv(Step(q, a)) <==> Current(q, a)
  {
    if Current(q, a) {
      PopKeeps(q, a);
    } else {
      assert q.next[q.chain[0]] == Nth(q.chain, 1);
    }
  }

  // ---------------------------------------------------------------------
  // One allocating thread
  // ---------------------------------------------------------------------

  /** The block allocating thread t looks at stays on the list, with the link it read. */
  ghost predicate Steady(q: Pool, t: nat)
    requires t < |q.allocs|
  {
    match q.allocs[t]
    case AStart => true
    case ALoaded(h) => 0 < h < |q.place| && q.place[h].Free?
    case ARead(h, n) => 0 < h < |q.place| && |q.next| == |q.place| && q.place[h].Free? && q.next[h] == n
  }

  lemma SteadyIsCurrent(q: Pool, a: Action)
    requires Inv(q) && Ready(q, a) && (a.AllocCas? ==> Steady(q, a.t))
    ensures Current(q, a)
  {
  }

  /** Only a pop by another thread can take the block away that t looks at. */
  lemma SteadyKeeps(q: Pool, a: Action, t: nat)
    requires Inv(q) && Enabled(q, a) && t < |q.allocs| && Steady(q, t)
    requires a.AllocCas? && a.t != t ==> q.allocs[t].AStart?
    ensures Steady(Step(q, a), t)
  {
    if a.FreeLink? || a.FreeWrite? { assert FreerOk(q, a.t); }
    if a.AllocLoad? && q.head != 0 { assert q.head == q.chain[0]; }
  }

  ghost predicate Solo(q: Pool) {
    |q.allocs| == 1 && Steady(q, 0)
  }

  // ---------------------------------------------------------------------
  // Every interleaving
  // ---------------------------------------------------------------------

  ghost predicate IsRun(q: Pool, run: seq<Action>)
    decreases |run|
  {
    run != [] ==> Enabled(q, run[0]) && IsRun(Step(q, run[0]), run[1..])
  }

  ghost function Final(q: Pool, run: seq<Action>): Pool
    requires IsRun(q, run)
    decreases |run|
  {
    if run == [] then q else Final(Step(q, run[0]), run[1..])
  }

  lemma {:induction false} SoloRun(q: Pool, run: seq<Action>)
    requires Inv(q) && Solo(q) && IsRun(q, run)
    ensures Inv(Final(q, run)) && Solo(Final(q, run))
    decreases |run|
  {
    if run != [] {
      SteadyIsCurrent(q, run[0]);
      StepKeeps(q, run[0]);
      SteadyKeeps(q, run[0], 0);
      SoloRun(Step(q, run[0]), run[1..]);
    }
  }

  /** All n blocks on the list, in the given order; one allocator and any number of freeing threads. */
  predicate Initial(q: Pool) {
    && |q.allocs| == 1 && q.allocs[0].AStart? && |q.next| == |q.place|
    && (forall t :: 0 <= t < |q.freers| ==> q.freers[t].FIdle?)
    && (forall b :: 0 < b < |q.place| ==> q.place[b].Free? && b in q.chain)
    && Distinct(q.chain) && q.head == Nth(q.chain, 0)
    && (forall i :: 0 <= i < |q.chain| ==> 0 < q.chain[i] < |q.next| && q.next[q.chain[i]] == Nth(q.chain, i + 1))
  }

  /** Block b is on the list, with its owner, or held by exactly the thread its place names. */
  ghost predicate InOnePlace(q: Pool, b: nat)
    requires b < |q.place|
  {
    && (b in q.chain <==> q.place[b].Free?)
    && (forall t: nat :: t < |q.freers| ==> (b in Hand(q.freers[t]) <==> q.place[b] == Flight(t)))
    && (q.place[b].Flight? ==> q.place[b].t < |q.freers|)
  }

  lemma InvPlaces(q: Pool, b: nat)
    requires Inv(q) && 0 < b < |q.place|
    ensures InOnePlace(q, b)
  {
    assert FlightOk(q, b);
    forall t: nat | t < |q.freers| ensures b in Hand(q.freers[t]) <==> q.place[b] == Flight(t) {
      assert FreerOk(q, t);
      if b in Hand(q.freers[t]) { HandInFlight(q, t, b); }
    }
  }

  lemma InitialInv(q: Pool)
    requires Initial(q)
    ensures Inv(q) && Solo(q)
  {
  }

  /**
   With one allocating thread, in every interleaving: following the links from the head visits each free
   block once and ends, and every block is on the list, with its owner or held by one freeing thread,
   and in only one of these places.
   */
  lemma BlocksArePartitioned(q0: Pool, run: seq<Action>)
    requires Initial(q0) && IsRun(q0, run)
    ensures var q := Final(q0, run);
            && Linked(q.head, q.next, q.chain) && Distinct(q.chain)
            && forall b :: 0 < b < |q.place| ==> InOnePlace(q, b)
  {
    InitialInv(q0);
    SoloRun(q0, run);
    var q := Final(q0, run);
    forall b | 0 < b < |q.place| ensures InOnePlace(q, b) { InvPlaces(q, b); }
  }

  // ---------------------------------------------------------------------
  // Why one allocating thread
  // ---------------------------------------------------------------------

  lemma {:induction false} RunSnoc(q: Pool, run: seq<Action>, a: Action)
    requires IsRun(q, run) && Enabled(Final(q, run), a)
    ensures IsRun(q, run + [a]) && Final(q, run + [a]) == Step(Final(q, run), a)
    decreases |run|
  {
    if run != [] {
      assert (run + [a])[1..] == run[1..] + [a];
      RunSnoc(Step(q, run[0]), run[1..], a);
    }
  }

  lemma Play(q: Pool, done: seq<Action>, a: Action, b: Action, c: Action)
    requires IsRun(q, done)
    requires var q1 := Final(q, done);
             && Enabled(q1, a) && Enabled(Step(q1, a), b) && Enabled(Step(Step(q1, a), b), c)
    ensures IsRun(q, done + [a, b, c])
    ensures Final(q, done + [a, b, c]) == Step(Step(Step(Final(q, done), a), b), c)
  {
    RunSnoc(q, done, a);
    RunSnoc(q, done + [a], b);
    RunSnoc(q, done + [a] + [b], c);
    assert done + [a] + [b] + [c] == done + [a, b, c];
  }

  /** Three free blocks, two allocating threads, one freeing thread. */
  const TWO: Pool := Pool(1, [0, 2, 3, 0], [AStart, AStart], [FIdle], [1, 2, 3], [Owned, Free, Free, Free])

  lemma TwoListOk()
    ensures ListOk(TWO)
  {
    var c := TWO.chain;
    assert c[0] == 1 && c[1] == 2 && c[2] == 3;
    forall b | 0 < b < |TWO.place| ensures TWO.place[b].Free? <==> b in c { assert c[b - 1] == b; }
  }

  /** Thread 0 reads head 1 and its link 2; thread 1 takes block 1. */
  const READ_ONE: seq<Action> :=
    [AllocLoad(0), AllocRead(0), AllocLoad(1)] + [AllocRead(1), AllocCas(1), AllocLoad(1)]

  lemma ReadOneReaches()
    ensures IsRun(TWO, READ_ONE)
    ensures Final(TWO, READ_ONE) ==
            Pool(2, [0, 2, 3, 0], [ARead(1, 2), ALoaded(2)], [FIdle], [2, 3], [Owned, Owned, Free, Free])
  {
    var r: seq<Action> := [];
    Play(TWO, r, AllocLoad(0), AllocRead(0), AllocLoad(1));
    r := r + [AllocLoad(0), AllocRead(0), AllocLoad(1)];
    assert Final(TWO, r) == TWO.(allocs := [ARead(1, 2), ALoaded(1)]);
    Play(TWO, r, AllocRead(1), AllocCas(1), AllocLoad(1));
    assert r + [AllocRead(1), AllocCas(1), AllocLoad(1)] == READ_ONE;
  }

  /** Thread 1 takes block 2 as well and starts to give block 1 back. */
  const TAKE_TWO: seq<Action> := READ_ONE + [AllocRead(1), AllocCas(1), FreeBegin(0, [1])]

  lemma TakeTwoReaches()
    ensures IsRun(TWO, TAKE_TWO)
    ensures Final(TWO, TAKE_TWO) ==
            Pool(3, [0, 2, 3, 0], [ARead(1, 2), AStart], [FLinking([1], 0)], [3], [Owned, Flight(0), Owned, Free])
  {
    ReadOneReaches();
    Play(TWO, READ_ONE, AllocRead(1), AllocCas(1), FreeBegin(0, [1]));
  }

  /** Block 1 is linked in front of block 3 ... */
  const GIVE_BACK: seq<Action> := TAKE_TWO + [FreeLink(0), FreeLoad(0), FreeWrite(0)]

  lemma GiveBackReaches()
    ensures IsRun(TWO, GIVE_BACK)
    ensures Final(TWO, GIVE_BACK) ==
            Pool(3, [0, 3, 3, 0], [ARead(1, 2), AStart], [FSwap([1], 3)], [3], [Owned, Flight(0), Owned, Free])
  {
    TakeTwoReaches();
    Play(TWO, TAKE_TWO, FreeLink(0), FreeLoad(0), FreeWrite(0));
  }

  /** ... and thread 0's swap of head 1 for 2 succeeds. */
  const STALE_POP: seq<Action> := GIVE_BACK + [FreeCas(0, false)] + [AllocCas(0)]

  /** With two allocating threads the head names an owned block. */
  lemma TwoAllocatorsBreakIt()
    ensures IsRun(TWO, STALE_POP)
    ensures Final(TWO, STALE_POP) ==
            Pool(2, [0, 3, 3, 0], [AStart, AStart], [FIdle], [3], [Owned, Owned, Owned, Free])
  {
    GiveBackReaches();
    RunSnoc(TWO, GIVE_BACK, FreeCas(0, false));
    RunSnoc(TWO, GIVE_BACK + [FreeCas(0, false)], AllocCas(0));
  }

  /** The next allocation hands block 2 out although its owner still has it. */
  lemma HandedOutTwice()
    ensures var run := STALE_POP + [AllocLoad(0), AllocRead(0)];
            && IsRun(TWO, run)
            && var q := Final(TWO, run);
            && Wins(q, AllocCas(0)) && q.allocs[0].h == 2 && |q.place| == 4 && q.place[2].Owned?
  {
    TwoAllocatorsBreakIt();
    RunSnoc(TWO, STALE_POP, AllocLoad(0));
    RunSnoc(TWO, STALE_POP + [AllocLoad(0)], AllocRead(0));
    assert STALE_POP + [AllocLoad(0)] + [AllocRead(0)] == STALE_POP + [AllocLoad(0), AllocRead(0)];
  }
}
