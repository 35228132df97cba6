/** The slab allocator: block layout over a memory region, and the free list threaded through the blocks. */
module Slab {
  import opened Bits
  import opened Sets

  const LINK_SIZE: nat := 8  // sizeof(void *)

  /** The aligned_size computation of bt_slab_init. */
  function AlignedSize(blockSize: nat): nat {
    var a := RoundLine(blockSize);
    if a < LINK_SIZE then LINK_SIZE else a
  }

  /** Blocks are as large as requested exactly when the rounding does not wrap; then they are whole cache lines. */
  lemma AlignedSizeCovers(blockSize: nat)
    requires 0 < blockSize < WORD
    ensures AlignedSize(blockSize) >= LINK_SIZE
    ensures AlignedSize(blockSize) >= blockSize <==> blockSize <= WORD - CACHE_LINE
    ensures blockSize <= WORD - CACHE_LINE ==>
              AlignedSize(blockSize) % CACHE_LINE == 0 && AlignedSize(blockSize) < blockSize + CACHE_LINE
    ensures blockSize > WORD - CACHE_LINE ==> AlignedSize(blockSize) == LINK_SIZE
  {
    RoundLineCovers(blockSize);
  }

  /** The address of block i. */
  function BlockAt(base: nat, size: nat, i: nat): nat {
    base + i * size
  }

  lemma BlockFits(base: nat, size: nat, region: nat, i: nat)
    requires size > 0 && i < region / size
    ensures base <= BlockAt(base, size, i) && BlockAt(base, size, i) + size <= base + region
  {
    var n := region / size;
    assert region == size * n + region % size;
    assert (i + 1) * size <= n * size by { MulMonotone(i + 1, n, size); }
    assert (i + 1) * size == i * size + size;
  }

  lemma MulMonotone(a: nat, b: nat, c: nat)
    requires a <= b
    ensures a * c <= b * c
  {
  }

  /** Different blocks do not overlap. */
  lemma BlocksDisjoint(base: nat, size: nat, i: nat, j: nat)
    requires i < j
    ensures BlockAt(base, size, i) + size <= BlockAt(base, size, j)
  {
    MulMonotone(i + 1, j, size);
    assert (i + 1) * size == i * size + size;
  }

  /** The block number is recovered from the address. */
  lemma BlockNumber(base: nat, size: nat, i: nat)
    requires size > 0
    ensures (BlockAt(base, size, i) - base) / size == i && (BlockAt(base, size, i) - base) % size == 0
  {
    assert i * size == size * i;
    DivModUnique(i * size, size, i, 0);
  }

  /** A run of block numbers, highest first: the order in which init leaves the list. */
  function Descending(n: nat): (s: seq<nat>)
    ensures |s| == n && forall i :: 0 <= i < n ==> s[i] == n - 1 - i
  {
    if n == 0 then [] else [n - 1] + Descending(n - 1)
  }

  /** The address of the i-th block of a list, NULL past its end. */
  ghost function Address(base: nat, size: nat, chain: seq<nat>, i: nat): nat {
    if i < |chain| then BlockAt(base, size, chain[i]) else 0
  }

  /** head and the first words of the blocks thread exactly the blocks of chain. */
  ghost predicate Threaded(base: nat, size: nat, head: nat, links: seq<nat>, chain: seq<nat>) {
    && head == Address(base, size, chain, 0)
    && (forall i :: 0 <= i < |chain| ==> chain[i] < |links| && links[chain[i]] == Address(base, size, chain, i + 1))
  }

  lemma ThreadPush(base: nat, size: nat, head: nat, links: seq<nat>, chain: seq<nat>, b: nat)
    requires Threaded(base, size, head, links, chain) && b < |links| && b !in chain
    ensures Threaded(base, size, BlockAt(base, size, b), links[b := head], [b] + chain)
  {
    var c, l := [b] + chain, links[b := head];
    forall i | 0 <= i < |c| ensures c[i] < |l| && l[c[i]] == Address(base, size, c, i + 1) {
      if i > 0 {
        assert c[i] == chain[i - 1] && chain[i - 1] in chain;
        assert Address(base, size, c, i + 1) == Address(base, size, chain, i);
      } else {
        assert Address(base, size, c, 1) == Address(base, size, chain, 0);
      }
    }
  }

  lemma ThreadPop(base: nat, size: nat, head: nat, links: seq<nat>, chain: seq<nat>)
    requires Threaded(base, size, head, links, chain) && chain != []
    ensures Threaded(base, size, links[chain[0]], links, chain[1..])
  {
    var c := chain[1..];
    forall i: nat ensures Address(base, size, c, i) == Address(base, size, chain, i + 1) {}
    forall i | 0 <= i < |c| ensures c[i] < |links| && links[c[i]] == Address(base, size, c, i + 1) {
      assert c[i] == chain[i + 1];
    }
  }

  class Slab {
    var base: nat
    var blockSize: nat
    var alignedSize: nat
    var numBlocks: nat
    var freeList: nat
    var links: array<nat>   // the first word of each block
    var allocCount: nat
    var freeCount: nat
    ghost var chain: seq<nat>  // numbers of the free blocks, head first

    constructor ()
      ensures numBlocks == 0 && chain == []
    {
      base, blockSize, alignedSize, numBlocks, freeList, allocCount, freeCount := 0, 0, 0, 0, 0, 0, 0;
      links := new nat[0];
      chain := [];
    }

    ghost predicate Layout()
      reads this
    {
      base > 0 && alignedSize >= LINK_SIZE && links.Length == numBlocks
    }

    ghost predicate Counted()
      reads this
    {
      && freeCount == |chain| % HALF
      && (numBlocks < HALF ==> |chain| <= numBlocks && allocCount == numBlocks - |chain|)
    }

    ghost predicate Valid()
      reads this, links
    {
      && Layout() && Counted() && Distinct(chain)
      && Threaded(base, alignedSize, freeList, links[..], chain)
    }

    /** The linking loop of bt_slab_init and bt_slab_reset. */
    method Relink()
      requires Layout()
      modifies this`freeList, this`freeCount, this`allocCount, this`chain, links
      ensures Valid() && chain == Descending(numBlocks)
    {
      freeList, allocCount, freeCount, chain := 0, 0, 0, [];
      var i := 0;
      while i < numBlocks
        invariant 0 <= i <= numBlocks && chain == Descending(i) && freeCount == i % HALF && allocCount == 0
        invariant Threaded(base, alignedSize, freeList, links[..], chain)
      {
        ThreadPush(base, alignedSize, freeList, links[..], chain, i);
        CountUp(i);
        ghost var l := links[..];
        links[i] := freeList;
        assert links[..] == l[i := freeList];
        freeList := BlockAt(base, alignedSize, i);
        freeCount := (freeCount + 1) % HALF;
        chain := [i] + chain;
        i := i + 1;
      }
    }

    /** bt_slab_init once the aligned size is known. */
    method Setup(memory: nat, memorySize: nat, size: nat, aligned: nat) returns (ret: int)
      requires memory > 0 && aligned >= LINK_SIZE
      modifies this
      ensures ret == if memorySize / aligned == 0 then -1 else 0
      ensures ret == 0 ==> Valid() && fresh(links) && base == memory && alignedSize == aligned
                           && numBlocks == memorySize / aligned && chain == Descending(numBlocks)
    {
      var n := memorySize / aligned;
      if n == 0 { return -1; }
      alignedSize, numBlocks := aligned, n;
      base, blockSize := memory, size;
      links := new nat[n];
      Relink();
      return 0;
    }

    /** bt_slab_init. */
    method Init(memory: nat, memorySize: nat, size: nat) returns (ret: int)
      requires memorySize < WORD && size < WORD
      modifies this
      ensures ret == 0 || ret == -1
      ensures ret == 0 <==> memory != 0 && size != 0 && memorySize >= AlignedSize(size)
      ensures ret == 0 ==> Valid() && fresh(links) && base == memory && alignedSize == AlignedSize(size)
                           && numBlocks == memorySize / AlignedSize(size) && chain == Descending(numBlocks)
    {
      if size == 0 { return -1; }
      AlignedSizeCovers(size);
      if memory == 0 || memorySize == 0 { return -1; }
      var aligned := AlignedSize(size);
      FullBlocks(memorySize, aligned);
      ret := Setup(memory, memorySize, size, aligned);
    }

    /** bt_slab_alloc with one thread. */
    method Alloc() returns (ptr: nat)
      requires Valid()
      modifies this`freeList, this`allocCount, this`freeCount, this`chain
      ensures Valid()
      ensures old(chain) == [] ==> ptr == 0 && chain == []
      ensures old(chain) == [] ==> freeList == old(freeList)
      ensures old(chain) != [] ==>
                && chain == old(chain)[1..] && ptr == BlockAt(base, alignedSize, old(chain)[0])
                && old(chain)[0] < links.Length && freeList == links[old(chain)[0]]
    {
      if freeList == 0 {
        assert chain == [];
        return 0;
      }
      ptr := freeList;
      ThreadPop(base, alignedSize, freeList, links[..], chain);
      TakeHead();
    }

    /** The winning swap of bt_slab_alloc and the counters behind it. */
    method TakeHead()
      requires Layout() && Counted() && chain != [] && chain[0] < numBlocks
      requires freeList == BlockAt(base, alignedSize, chain[0])
      modifies this`freeList, this`allocCount, this`freeCount, this`chain
      ensures Layout() && Counted() && chain == old(chain)[1..] && freeList == links[old(chain)[0]]
    {
      BlockNumber(base, alignedSize, chain[0]);
      var b := (freeList - base) / alignedSize;
      assert b == chain[0];
      freeList := links[b];
      CountTaken();
    }

    /** The two counter updates of bt_slab_alloc. */
    method CountTaken()
      requires Counted() && chain != []
      modifies this`allocCount, this`freeCount, this`chain
      ensures Counted() && chain == old(chain)[1..]
    {
      CountDown(|chain|);
      if numBlocks < HALF { ModSmall(allocCount + 1, HALF); }
      allocCount := (allocCount + 1) % HALF;
      freeCount := (freeCount + HALF - 1) % HALF;
      chain := chain[1..];
    }

    /** The push of bt_slab_free: block b, which is out, becomes the head. */
    method PushBlock(b: nat, ptr: nat)
      requires Valid() && b < numBlocks && b !in chain && ptr == BlockAt(base, alignedSize, b)
      modifies this`freeList, this`allocCount, this`freeCount, this`chain, links
      ensures Valid() && chain == [b] + old(chain)
      ensures freeList == ptr && links[..] == old(links[..])[b := old(freeList)]
    {
      ThreadPush(base, alignedSize, freeList, links[..], chain, b);
      MembersBelow(chain, numBlocks, b);
      CountUp(|chain|);
      ghost var l := links[..];
      links[b] := freeList;
      assert links[..] == l[b := freeList];
      freeList := ptr;
      freeCount := (freeCount + 1) % HALF;
      if allocCount > 0 { allocCount := allocCount - 1; }
      chain := [b] + chain;
    }

    /** bt_slab_free with one thread: pointers outside the slab are ignored; others must be blocks that are out. */
    method Free(ptr: nat)
      requires Valid()
      requires InRange(base, alignedSize, numBlocks, ptr) ==>
                 exists b :: 0 <= b < numBlocks && ptr == BlockAt(base, alignedSize, b) && b !in chain
      modifies this`freeList, this`allocCount, this`freeCount, this`chain, links
      ensures Valid()
      ensures !InRange(base, alignedSize, numBlocks, ptr) ==> chain == old(chain)
      ensures InRange(base, alignedSize, numBlocks, ptr) ==>
                && chain != [] && chain[1..] == old(chain) && ptr == BlockAt(base, alignedSize, chain[0])
                && freeList == ptr && chain[0] < numBlocks && links[..] == old(links[..])[chain[0] := old(freeList)]
    {
      if !InRange(base, alignedSize, numBlocks, ptr) { return; }
      ghost var k :| 0 <= k < numBlocks && ptr == BlockAt(base, alignedSize, k) && k !in chain;
      BlockNumber(base, alignedSize, k);
      PushBlock((ptr - base) / alignedSize, ptr);
    }

    /** bt_slab_reset. */
    method Reset()
      requires Valid()
      modifies this`freeList, this`freeCount, this`allocCount, this`chain, links
      ensures Valid() && chain == Descending(numBlocks)
    {
      Relink();
    }
  }

  /** The range check of bt_slab_free and of the tier lookup. */
  predicate InRange(base: nat, size: nat, blocks: nat, ptr: nat) {
    base <= ptr < base + blocks * size
  }

  lemma FullBlocks(region: nat, size: nat)
    requires size > 0
    ensures region / size == 0 <==> region < size
  {
    if region < size { DivModUnique(region, size, 0, region); }
  }

  lemma CountUp(n: nat)
    ensures (n % HALF + 1) % HALF == (n + 1) % HALF
  {
  }

  lemma CountDown(n: nat)
    requires n > 0
    ensures (n % HALF + HALF - 1) % HALF == (n - 1) % HALF
  {
  }
}
