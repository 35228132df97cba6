/**
 Whole calls on the free list that nobody disturbs: what they leave, that they
 are runs of the list machine, and that the slab object performs them.
 */
module ListCalls {
  import opened Bits
  import opened Sets
  import opened FreeList
  import opened Slab

  /** The list without its head. */
  function Popped(q: Pool): Pool
    requires q.head < |q.next|
  {
    q.(head := q.next[q.head], chain := if q.chain == [] then [] else q.chain[1..],
       place := Move(q.place, [q.head], Owned))
  }

  /** The list with b in front. */
  function Given(q: Pool, b: nat): Pool {
    q.(head := b, next := Update(q.next, b, q.head), chain := [b] + q.chain,
       place := Move(q.place, [b], Free))
  }

  lemma PopAfterRead(q: Pool, u: nat)
    requires u < |q.allocs| && q.allocs[u].AStart? && 0 < q.head < |q.next|
    ensures var q3 := q.(allocs := q.allocs[u := ARead(q.head, q.next[q.head])]);
            Wins(q3, AllocCas(u)) && Step(q3, AllocCas(u)) == Popped(q)
  {
    assert q.allocs[u := ARead(q.head, q.next[q.head])][u := AStart] == q.allocs;
  }

  /** The list after each step of an undisturbed free of b by thread u. */
  function Freeing(q: Pool, u: nat, b: nat, f: Freer, linked: bool): Pool
    requires u < |q.freers|
  {
    q.(freers := q.freers[u := f], place := Move(q.place, [b], Flight(u)),
       next := if linked then Update(q.next, b, q.head) else q.next)
  }

  lemma FreeSteps(q: Pool, u: nat, b: nat)
    requires u < |q.freers| && q.freers[u].FIdle? && 0 < b < |q.place|
    ensures Ready(q, FreeBegin(u, [b]))
    ensures var q1 := Step(q, FreeBegin(u, [b]));
            var q2 := Freeing(q, u, b, FLoad([b]), false);
            && Ready(q1, FreeLink(u)) && Step(q1, FreeLink(u)) == q2
            && Ready(q2, FreeLoad(u))
            && Step(q2, FreeLoad(u)) == Freeing(q, u, b, FWrite([b], q.head), false)
  {
    assert q.freers[u := FLinking([b], 0)][u := FLoad([b])] == q.freers[u := FLoad([b])];
    assert q.freers[u := FLoad([b])][u := FWrite([b], q.head)]
        == q.freers[u := FWrite([b], q.head)];
  }

  lemma FreeSwaps(q: Pool, u: nat, b: nat)
    requires u < |q.freers| && q.freers[u].FIdle? && 0 < b < |q.place|
    ensures var q3 := Freeing(q, u, b, FWrite([b], q.head), false);
            var q4 := Freeing(q, u, b, FSwap([b], q.head), true);
            && Ready(q3, FreeWrite(u)) && Step(q3, FreeWrite(u)) == q4
            && Wins(q4, FreeCas(u, false))
            && Step(q4, FreeCas(u, false)) == Given(q, b)
  {
    assert q.freers[u := FWrite([b], q.head)][u := FSwap([b], q.head)]
        == q.freers[u := FSwap([b], q.head)];
    assert q.freers[u := FSwap([b], q.head)][u := FIdle] == q.freers;
    assert Move(Move(q.place, [b], Flight(u)), [b], Free)
        == Move(q.place, [b], Free);
  }

  /** An undisturbed alloc is a run of the machine. */
  lemma PopIsRun(q: Pool, u: nat)
    requires u < |q.allocs| && q.allocs[u].AStart? && 0 < q.head < |q.next|
    ensures var run := [] + [AllocLoad(u), AllocRead(u), AllocCas(u)];
            FreeList.IsRun(q, run) && FreeList.Final(q, run) == Popped(q)
  {
    PopAfterRead(q, u);
    assert q.allocs[u := ALoaded(q.head)][u := ARead(q.head, q.next[q.head])]
        == q.allocs[u := ARead(q.head, q.next[q.head])];
    assert FreeList.IsRun(q, []) && FreeList.Final(q, []) == q;
    Play(q, [], AllocLoad(u), AllocRead(u), AllocCas(u));
  }

  /** An undisturbed free of a block that is out is a run of the machine. */
  lemma GiveIsRun(q: Pool, u: nat, b: nat)
    requires u < |q.freers| && q.freers[u].FIdle? && 0 < b < |q.place| && q.place[b].Owned?
    ensures var run := [] + [FreeBegin(u, [b]), FreeLink(u), FreeLoad(u)] + [FreeWrite(u)] + [FreeCas(u, false)];
            FreeList.IsRun(q, run) && FreeList.Final(q, run) == Given(q, b)
  {
    var ptrs := [b];
    assert ptrs[0] == b;
    FreeSteps(q, u, b);
    FreeSwaps(q, u, b);
    assert FreeList.IsRun(q, []) && FreeList.Final(q, []) == q;
    Play(q, [], FreeBegin(u, [b]), FreeLink(u), FreeLoad(u));
    var r := [] + [FreeBegin(u, [b]), FreeLink(u), FreeLoad(u)];
    RunSnoc(q, r, FreeWrite(u));
    RunSnoc(q, r + [FreeWrite(u)], FreeCas(u, false));
  }

  // ---------------------------------------------------------------------
  // The slab object as a state of the machine
  // ---------------------------------------------------------------------

  /** The block number the machine has for an address; NULL is 0. */
  function Number(base: nat, size: nat, a: nat): nat
    requires size > 0
  {
    if a < base then 0 else (a - base) / size + 1
  }

  lemma NumberOfBlock(base: nat, size: nat, b: nat)
    requires size > 0
    ensures Number(base, size, BlockAt(base, size, b)) == b + 1
  {
    BlockNumber(base, size, b);
  }

  function Up(chain: seq<nat>): (r: seq<nat>)
    ensures |r| == |chain| && forall i :: 0 <= i < |chain| ==> r[i] == chain[i] + 1
  {
    seq(|chain|, i requires 0 <= i < |chain| => chain[i] + 1)
  }

  function Words(base: nat, size: nat, links: seq<nat>): (r: seq<nat>)
    requires size > 0
    ensures |r| == |links| + 1 && r[0] == 0 && forall b :: 0 <= b < |links| ==> r[b + 1] == Number(base, size, links[b])
  {
    [0] + seq(|links|, b requires 0 <= b < |links| => Number(base, size, links[b]))
  }

  function Places(n: nat, chain: seq<nat>): (r: seq<Place>)
    ensures |r| == n + 1 && r[0] == Owned && forall b :: 0 <= b < n ==> r[b + 1] == if b in chain then Free else Owned
  {
    [Owned] + seq(n, b requires 0 <= b < n => if b in chain then Free else Owned)
  }

  /** A slab between calls, with one allocating and one freeing thread. */
  function Image(base: nat, size: nat, head: nat, links: seq<nat>, chain: seq<nat>): Pool
    requires size > 0
  {
    Pool(Number(base, size, head), Words(base, size, links), [AStart], [FIdle], Up(chain), Places(|links|, chain))
  }

  lemma AddressNumber(base: nat, size: nat, chain: seq<nat>, i: nat)
    requires base > 0 && size > 0
    ensures Number(base, size, Address(base, size, chain, i)) == Nth(Up(chain), i)
  {
    if i < |chain| { NumberOfBlock(base, size, chain[i]); }
  }

  lemma ImageLinked(base: nat, size: nat, head: nat, links: seq<nat>, chain: seq<nat>)
    requires base > 0 && size > 0 && Threaded(base, size, head, links, chain)
    ensures Linked(Number(base, size, head), Words(base, size, links), Up(chain))
  {
    var c, w := Up(chain), Words(base, size, links);
    AddressNumber(base, size, chain, 0);
    forall i | 0 <= i < |c| ensures 0 < c[i] < |w| && w[c[i]] == Nth(c, i + 1) {
      AddressNumber(base, size, chain, i + 1);
    }
  }

  lemma ImagePlaces(n: nat, chain: seq<nat>)
    ensures forall b :: 0 < b < n + 1 ==> (Places(n, chain)[b].Free? <==> b in Up(chain))
  {
    var c := Up(chain);
    forall b | 0 < b < n + 1 ensures b - 1 in chain <==> b in c {
      if b - 1 in chain {
        var i :| 0 <= i < |chain| && chain[i] == b - 1;
        assert c[i] == b;
      }
    }
  }

  /** What the slab's list is in memory is what the machine's list is: the same links, the same places. */
  lemma ImageInv(base: nat, size: nat, head: nat, links: seq<nat>, chain: seq<nat>)
    requires base > 0 && size > 0 && Threaded(base, size, head, links, chain) && Distinct(chain)
    ensures FreeList.Inv(Image(base, size, head, links, chain))
  {
    ImageListOk(base, size, head, links, chain);
    IdleInv(Image(base, size, head, links, chain));
  }

  lemma ImageListOk(base: nat, size: nat, head: nat, links: seq<nat>, chain: seq<nat>)
    requires base > 0 && size > 0 && Threaded(base, size, head, links, chain) && Distinct(chain)
    ensures ListOk(Image(base, size, head, links, chain))
  {
    ImageLinked(base, size, head, links, chain);
    ImagePlaces(|links|, chain);
  }

  lemma PopImage(base: nat, size: nat, head: nat, links: seq<nat>, chain: seq<nat>)
    requires base > 0 && size > 0 && Threaded(base, size, head, links, chain) && Distinct(chain) && chain != []
    ensures var q := Image(base, size, head, links, chain);
            && 0 < q.head < |q.next|
            && Image(base, size, links[chain[0]], links, chain[1..]) == Popped(q)
  {
    var q, c := Image(base, size, head, links, chain), chain[1..];
    AddressNumber(base, size, chain, 0);
    assert Up(c) == q.chain[1..];
    PopPlaces(|links|, chain);
  }

  lemma PopPlaces(n: nat, chain: seq<nat>)
    requires chain != [] && Distinct(chain) && chain[0] < n
    ensures Places(n, chain[1..]) == Move(Places(n, chain), [chain[0] + 1], Owned)
  {
    var c, p, r := chain[1..], Places(n, chain[1..]), Move(Places(n, chain), [chain[0] + 1], Owned);
    assert chain == [chain[0]] + c && chain[0] !in c;
    forall b | 0 <= b < n + 1 ensures p[b] == r[b] {
      assert b in [chain[0] + 1] <==> b == chain[0] + 1;
      if b > 0 { assert b - 1 in chain <==> b - 1 == chain[0] || b - 1 in c; }
    }
  }

  lemma GiveImage(base: nat, size: nat, head: nat, links: seq<nat>, chain: seq<nat>, b: nat)
    requires base > 0 && size > 0 && b < |links| && b !in chain
    ensures Image(base, size, BlockAt(base, size, b), links[b := head], [b] + chain) ==
            Given(Image(base, size, head, links, chain), b + 1)
  {
    NumberOfBlock(base, size, b);
    assert Up([b] + chain) == [b + 1] + Up(chain);
    GiveWords(base, size, head, links, b);
    GivePlaces(|links|, chain, b);
  }

  lemma GiveWords(base: nat, size: nat, head: nat, links: seq<nat>, b: nat)
    requires size > 0 && b < |links|
    ensures Words(base, size, links[b := head]) == Update(Words(base, size, links), b + 1, Number(base, size, head))
  {
  }

  lemma GivePlaces(n: nat, chain: seq<nat>, b: nat)
    requires b < n
    ensures Places(n, [b] + chain) == Move(Places(n, chain), [b + 1], Free)
  {
    var p, r := Places(n, [b] + chain), Move(Places(n, chain), [b + 1], Free);
    forall i | 0 <= i < n + 1 ensures p[i] == r[i] {
      assert i in [b + 1] <==> i == b + 1;
      if i > 0 { assert i - 1 in [b] + chain <==> i - 1 == b || i - 1 in chain; }
    }
  }

  /** The same, from what bt_slab_free leaves; its first block is the one that was freed. */
  lemma FreedImage(base: nat, size: nat, head: nat, links: seq<nat>, chain: seq<nat>, b: nat,
                   ptr: nat, links': seq<nat>, chain': seq<nat>)
    requires base > 0 && size > 0 && b < |links| && b !in chain && ptr == BlockAt(base, size, b)
    requires chain' != [] && chain'[1..] == chain && ptr == BlockAt(base, size, chain'[0]) && chain'[0] < |links|
    requires links' == links[chain'[0] := head]
    ensures Image(base, size, ptr, links', chain') == Given(Image(base, size, head, links, chain), b + 1)
  {
    BlockNumber(base, size, b);
    BlockNumber(base, size, chain'[0]);
    assert chain' == [b] + chain;
    GiveImage(base, size, head, links, chain, b);
  }

  ghost function ImageOf(s: Slab): Pool
    reads s, s.links
    requires s.alignedSize > 0
  {
    Image(s.base, s.alignedSize, s.freeList, s.links[..], s.chain)
  }

  /** bt_slab_alloc on the object is an undisturbed alloc of the machine; nothing happens on an empty list. */
  method AllocTracked(s: Slab) returns (ptr: nat)
    requires s.Valid()
    modifies s
    ensures s.Valid() && s.alignedSize == old(s.alignedSize)
    ensures var q := old(ImageOf(s));
            && FreeList.Inv(q)
            && if old(s.chain) == [] then ptr == 0 && ImageOf(s) == q
               else
                 && Number(s.base, s.alignedSize, ptr) == q.head
                 && var run := [] + [AllocLoad(0), AllocRead(0), AllocCas(0)];
                 FreeList.IsRun(q, run) && FreeList.Final(q, run) == ImageOf(s)
  {
    ImageInv(s.base, s.alignedSize, s.freeList, s.links[..], s.chain);
    if s.chain != [] {
      PopImage(s.base, s.alignedSize, s.freeList, s.links[..], s.chain);
      PopIsRun(ImageOf(s), 0);
    }
    ptr := s.Alloc();
  }

  /** bt_slab_free of a block that is out is an undisturbed free of the machine. */
  method FreeTracked(s: Slab, ptr: nat, ghost b: nat)
    requires s.Valid() && b < s.numBlocks && b !in s.chain && ptr == BlockAt(s.base, s.alignedSize, b)
    requires InRange(s.base, s.alignedSize, s.numBlocks, ptr)
    modifies s, s.links
    ensures s.Valid() && s.alignedSize == old(s.alignedSize)
    ensures var q := old(ImageOf(s));
            var run := [] + [FreeBegin(0, [b + 1]), FreeLink(0), FreeLoad(0)] + [FreeWrite(0)] + [FreeCas(0, false)];
            FreeList.IsRun(q, run) && FreeList.Final(q, run) == ImageOf(s)
  {
    ghost var head, links, chain := s.freeList, s.links[..], s.chain;
    GiveIsRun(ImageOf(s), 0, b + 1);
    s.Free(ptr);
    FreedImage(s.base, s.alignedSize, head, links, chain, b, ptr, s.links[..], s.chain);
  }
}
