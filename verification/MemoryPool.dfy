/** The memory pool's arenas as objects: bump offset, counters and the free list threaded through the nodes. */
module MemoryPool {
  import opened Bits
  import opened Sets
  import opened ObjectPool
  import Arena

  /** The addresses of offsets in an arena. */
  function Addresses(base: nat, offs: seq<nat>): (r: seq<nat>)
    ensures |r| == |offs| && forall i :: 0 <= i < |offs| ==> r[i] == base + offs[i]
  {
    seq(|offs|, i requires 0 <= i < |offs| => base + offs[i])
  }

  class ArenaObject {
    const base: nat
    const size: nat
    var offset: nat
    var freeOrders: nat
    var next: map<nat, nat>  // the next field of each node, by address
    var allocCount: nat
    var freeCount: nat
    ghost var state: Arena.Arena

    constructor (base: nat, size: nat)
      requires base > 0 && size <= WORD - Arena.PAGE
      ensures Valid() && this.base == base && this.size == size
      ensures state == Arena.Arena(size, 0, [], 0, 0, [])
    {
      this.base, this.size := base, size;
      offset, freeOrders, next, allocCount, freeCount := 0, 0, map[], 0, 0;
      state := Arena.Arena(size, 0, [], 0, 0, []);
    }

    ghost predicate Valid()
      reads this
    {
      && base > 0 && Arena.Inv(state)
      && state.size == size && state.offset == offset && state.allocs == allocCount && state.frees == freeCount
      && Lists(Memory(freeOrders, next), Addresses(base, state.free))
    }

    /** bt_mempool_alloc; 0 is NULL. The arena stays valid for every request that cannot wrap. */
    method Allocate(request: nat) returns (ptr: nat)
      requires Valid() && request < WORD
      modifies this
      ensures state == Arena.Alloc(old(state), request).0 && offset == state.offset
      ensures ptr == match Arena.Alloc(old(state), request).1 case None => 0 case Some(off) => base + off
      ensures Arena.Sound(old(offset), request, size) ==> Valid()
    {
      ghost var a := state;
      if Arena.Sound(offset, request, size) { Arena.AllocKeeps(a, request); }
      var rounded := RoundLine(request);
      var end := (offset + rounded) % WORD;
      state := Arena.Alloc(a, request).0;
      if end > size { return 0; }
      ptr := base + offset;
      offset := end;
      allocCount := (allocCount + 1) % HALF;
    }

    /** The recycling branch of bt_mempool_alloc_order: the head of the list, cleared. */
    method Recycle() returns (ptr: nat)
      requires Valid() && freeOrders != 0
      modifies this
      ensures old(state).free != [] && Valid() && state == Arena.AllocOrder(old(state)).0
      ensures ptr == base + old(state).free[0]
    {
      RecycleHead(base, state.free, freeOrders, next);
      Arena.AllocOrderKeeps(state);
      state := Arena.AllocOrder(state).0;
      ptr := freeOrders;
      freeOrders := next[ptr];
      next := next[ptr := 0];
      allocCount := (allocCount + 1) % HALF;
      freeCount := (freeCount + HALF - 1) % HALF;
    }

    /** The bump branch of bt_mempool_alloc_order. */
    method CarveNode() returns (ptr: nat)
      requires Valid() && state.free == []
      modifies this
      ensures Valid() && state == Arena.AllocOrder(old(state)).0
      ensures ptr == match Arena.AllocOrder(old(state)).1 case None => 0 case Some(off) => base + off
    {
      Arena.AllocOrderKeeps(state);
      state := Arena.AllocOrder(state).0;
      var end := (offset + RoundLine(Arena.NODE)) % WORD;
      if end > size { return 0; }
      ptr := base + offset;
      offset, allocCount := end, (allocCount + 1) % HALF;
    }

    /** bt_mempool_alloc_order: a recycled node first, else a fresh one. */
    method AllocateOrder() returns (ptr: nat)
      requires Valid()
      modifies this
      ensures Valid() && state == Arena.AllocOrder(old(state)).0
      ensures ptr == match Arena.AllocOrder(old(state)).1 case None => 0 case Some(off) => base + off
    {
      if freeOrders != 0 {
        ptr := Recycle();
      } else {
        EmptyList(base, state.free, freeOrders, next);
        ptr := CarveNode();
      }
    }

    /** The push of bt_mempool_free_order; off is the node's offset. */
    method LinkNode(node: nat, ghost off: nat)
      requires Valid() && node == base + off && Arena.NodeAt(state.pieces, off, true)
      modifies this
      ensures Valid() && state == Arena.FreeOrder(old(state), off)
    {
      FreedState(state, off);
      ReturnNode(base, state.free, freeOrders, next, off);
      state := Arena.FreeOrder(state, off);
      next, freeOrders, freeCount := next[node := freeOrders], node, (freeCount + 1) % HALF;
    }

    /** bt_mempool_free_order of a live node of this arena; NULL is ignored. */
    method ReleaseOrder(node: nat)
      requires Valid()
      requires node != 0 ==> node >= base && Arena.NodeAt(state.pieces, node - base, true)
      modifies this
      ensures Valid() && state == if node == 0 then old(state) else Arena.FreeOrder(old(state), node - base)
    {
      if node != 0 { LinkNode(node, node - base); }
    }

    /** bt_mempool_arena_reset. */
    method Clear()
      requires Valid()
      modifies this
      ensures Valid() && state == Arena.Reset(old(state))
    {
      offset, freeOrders, allocCount, freeCount := 0, 0, 0, 0;
      state := Arena.Reset(state);
    }
  }

  lemma FreedState(a: Arena.Arena, off: nat)
    requires Arena.Inv(a) && Arena.NodeAt(a.pieces, off, true)
    ensures var b := Arena.FreeOrder(a, off);
            && Arena.Inv(b) && b.free == [off] + a.free && Distinct(b.free) && b.frees == (a.frees + 1) % HALF
            && b.size == a.size && b.offset == a.offset && b.allocs == a.allocs
  {
    Arena.FreeOrderKeeps(a, off);
  }

  lemma AddressesTail(base: nat, offs: seq<nat>)
    requires offs != []
    ensures Addresses(base, offs)[1..] == Addresses(base, offs[1..])
  {
  }

  lemma EmptyList(base: nat, free: seq<nat>, head: nat, next: map<nat, nat>)
    requires base > 0 && Lists(Memory(head, next), Addresses(base, free)) && head == 0
    ensures free == []
  {
  }

  /** Taking the head of the list and clearing its link leaves the rest of the list. */
  lemma RecycleHead(base: nat, free: seq<nat>, head: nat, next: map<nat, nat>)
    requires base > 0 && Distinct(free) && Lists(Memory(head, next), Addresses(base, free)) && head != 0
    ensures free != [] && head == base + free[0] && head in next
    ensures Lists(Memory(next[head], next[head := 0]), Addresses(base, free[1..]))
  {
    var c := Addresses(base, free[1..]);
    AddressesTail(base, free);
    assert head !in c;
    ListsFrame(Memory(next[head], next), next[head := 0], c);
  }

  /** Linking a node that is not on the list in front of it. */
  lemma ReturnNode(base: nat, free: seq<nat>, head: nat, next: map<nat, nat>, off: nat)
    requires base > 0 && Lists(Memory(head, next), Addresses(base, free)) && Distinct([off] + free)
    ensures Lists(Memory(base + off, next[base + off := head]), Addresses(base, [off] + free))
  {
    var c, l := Addresses(base, free), [off] + free;
    forall i | 0 <= i < |c| ensures c[i] != base + off {
      assert l[0] != l[i + 1];
    }
    ListsFrame(Memory(head, next), next[base + off := head], c);
    AddressesTail(base, l);
    assert l[1..] == free;
  }

  /** An arena object set up as arena i of the carved slab. */
  ghost predicate Carved(a: ArenaObject, base: nat, total: nat, n: nat, i: nat)
    requires n > 0
    reads a
  {
    && a.Valid() && a.base == base + Arena.ArenaBase(total, n, i)
    && a.state == Arena.Arena(Arena.ArenaSize(total, n), 0, [], 0, 0, [])
  }

  class MemPool {
    var arenas: seq<ArenaObject>
    var counter: nat

    constructor ()
      ensures arenas == [] && counter == 0
    {
      arenas, counter := [], 0;
    }

    /** The carving loop. */
    method CarveAll(base: nat, total: nat, n: nat) returns (made: seq<ArenaObject>)
      requires base > 0 && n > 0 && Arena.ArenaSize(total, n) <= WORD - Arena.PAGE
      ensures |made| == n
      ensures forall i: nat :: i < n ==> fresh(made[i]) && Carved(made[i], base, total, n, i)
    {
      var size := Arena.PageFloor(Arena.Share(Arena.UsableSize(total, n), n));
      made := [];
      while |made| < n
        invariant |made| <= n
        invariant forall j: nat :: j < |made| ==> fresh(made[j]) && Carved(made[j], base, total, n, j)
      {
        var i := |made|;
        var a := new ArenaObject(base + i * size, size);
        assert Carved(a, base, total, n, i);
        made := made + [a];
      }
    }

    /** bt_mempool_init over a slab at base that holds the arena table; memory is whether the slab was obtained. */
    method Init(base: nat, total: nat, n: int, memory: bool) returns (ret: int)
      requires base > 0 && total < WORD && (n > 0 ==> n * Arena.TABLE_ENTRY <= total)
      modifies this
      ensures ret == 0 <==> total > 0 && n >= 1 && memory
      ensures ret == 0 || ret == -1
      ensures total == 0 || n < 1 ==> arenas == old(arenas) && counter == old(counter)
      ensures total > 0 && n >= 1 && !memory ==> arenas == [] && counter == 0
      ensures ret == 0 ==>
                && |arenas| == n && counter == 0
                && forall i: nat :: i < n ==> fresh(arenas[i]) && Carved(arenas[i], base, total, n, i)
    {
      if total == 0 || n < 1 { return -1; }
      arenas, counter := [], 0;
      if !memory { return -1; }
      Arena.ArenaSizeIs(total, n);
      arenas := CarveAll(base, total, n);
      ret := 0;
    }

    /** bt_mempool_assign_arena: round robin over the arenas. */
    method Assign() returns (id: nat)
      requires arenas != []
      modifies this`counter
      ensures id == old(counter) % |arenas| && counter == (old(counter) + 1) % WORD
    {
      id := counter % |arenas|;
      counter := (counter + 1) % WORD;
    }
  }
}
