/**
 The memory pool: a slab carved into arenas with their table at the end, a bump
 allocator per arena with 64-bit arithmetic, and recycling of order nodes.
 Addresses inside an arena are offsets from its base.
 */
module Arena {
  import opened Bits
  import opened Sets
  import opened Options

  const TABLE_ENTRY: nat := 64   // sizeof(bt_mempool_arena_t)
  const NODE: nat := 80          // sizeof(bt_order_node_t)
  const NODE_LINES: nat := 128   // a node rounded to cache lines
  const PAGE: nat := 4096

  // ---------------------------------------------------------------------
  // Carving
  // ---------------------------------------------------------------------

  /** total_size - num_arenas * sizeof(arena), in size_t. */
  function UsableSize(total: nat, n: nat): nat {
    if total >= n * TABLE_ENTRY then total - n * TABLE_ENTRY else (total + WORD - n * TABLE_ENTRY % WORD) % WORD
  }

  function Share(usable: nat, n: nat): nat
    requires n > 0
  {
    usable / n
  }

  function PageFloor(size: nat): nat {
    BitAnd(size, Complement(PAGE - 1))
  }

  function ArenaSize(total: nat, n: nat): nat
    requires n > 0
  {
    PageFloor(Share(UsableSize(total, n), n))
  }

  /** Arenas are whole pages that together fit in front of the table; with one page more each they would not. */
  lemma ArenaSizeIs(total: nat, n: nat)
    requires 0 < n && total < WORD && n * TABLE_ENTRY <= total
    ensures ArenaSize(total, n) % PAGE == 0
    ensures n * ArenaSize(total, n) <= UsableSize(total, n) == total - n * TABLE_ENTRY
    ensures ArenaSize(total, n) <= WORD - PAGE
    ensures n * (ArenaSize(total, n) + PAGE) > UsableSize(total, n)
  {
    var u := UsableSize(total, n);
    QuotientBound(u, n);
    AlignDown(u / n, 12);
    Pow2Word();
    PageShare(u, n, ArenaSize(total, n));
  }

  /** An equal share of u rounded down to pages. */
  lemma PageShare(u: nat, n: nat, a: nat)
    requires n > 0 && u < WORD && u / n <= u && n * (u / n) <= u && a == u / n - u / n % PAGE
    ensures a % PAGE == 0 && n * a <= u && a <= WORD - PAGE && n * (a + PAGE) > u
  {
    Scale(n, u / n + 1, a + PAGE);
    assert n * (u / n + 1) == n * (u / n) + n && u == n * (u / n) + u % n;
    Scale(n, a, u / n);
    assert WORD % PAGE == 0;
  }

  lemma PageMultiple(i: nat, a: nat)
    requires a % PAGE == 0
    ensures i * a % PAGE == 0
  {
    var k := a / PAGE;
    assert a == PAGE * k;
    MulAssoc(PAGE, k, i);
    assert i * a == a * i;
    DivModUnique(i * a, PAGE, k * i, 0);
  }

  lemma QuotientBound(u: nat, n: nat)
    requires n > 0
    ensures u / n <= u && n * (u / n) <= u
  {
    var q := u / n;
    assert u == n * q + u % n;
    if q > 0 { assert n * q >= q by { Scale(q, 1, n); assert q * n == n * q; } }
  }

  lemma Scale(n: nat, a: nat, b: nat)
    requires a <= b
    ensures n * a <= n * b
  {
  }

  /** The arena of number i, as a range of offsets in the slab. */
  function ArenaBase(total: nat, n: nat, i: nat): nat
    requires n > 0
  {
    i * ArenaSize(total, n)
  }

  /** Arenas do not overlap each other or the table, and start on page boundaries. */
  lemma ArenasDisjoint(total: nat, n: nat, i: nat, j: nat)
    requires 0 < n && total < WORD && n * TABLE_ENTRY <= total && i < j < n
    ensures var a := ArenaSize(total, n);
            && ArenaBase(total, n, i) + a <= ArenaBase(total, n, j)
            && ArenaBase(total, n, j) + a <= UsableSize(total, n)
            && UsableSize(total, n) + n * TABLE_ENTRY == total
  {
    var a := ArenaSize(total, n);
    ArenaSizeIs(total, n);
    ShareInside(a, j, i);
    ShareInside(a, n, j);
  }

  lemma ArenaInside(total: nat, n: nat, i: nat)
    requires 0 < n && total < WORD && n * TABLE_ENTRY <= total && i < n
    ensures ArenaBase(total, n, i) + ArenaSize(total, n) <= UsableSize(total, n)
    ensures ArenaBase(total, n, i) % PAGE == 0
  {
    var a := ArenaSize(total, n);
    ArenaSizeIs(total, n);
    ShareInside(a, n, i);
    PageMultiple(i, a);
  }

  lemma ShareInside(a: nat, n: nat, i: nat)
    requires i < n
    ensures i * a + a <= n * a
  {
    Scale(a, i + 1, n);
    assert a * (i + 1) == i * a + a && a * n == n * a;
  }

  /** The table lies inside the slab exactly when the slab holds it. */
  lemma TableInside(total: nat, n: nat)
    requires 0 < n && total < WORD && n * TABLE_ENTRY < WORD
    ensures UsableSize(total, n) + n * TABLE_ENTRY <= total <==> n * TABLE_ENTRY <= total
  {
    var t := n * TABLE_ENTRY;
    if total < t {
      assert t % WORD == t;
      assert (total + WORD - t) % WORD == total + WORD - t;
    }
  }

  /** Round robin: fewer than n assignments apart, the arenas differ, unless the counter wraps. */
  lemma AssignmentsDistinct(first: nat, i: nat, j: nat, n: nat)
    requires 0 < n && i < j < i + n && first + j < WORD
    ensures (first + i) % WORD % n != (first + j) % WORD % n
  {
    if (first + i) % n == (first + j) % n { ModShift(first + i, first + j, n); }
  }

  // ---------------------------------------------------------------------
  // One arena
  // ---------------------------------------------------------------------

  /** A piece handed out by the bump pointer since the last reset. */
  datatype Piece = Piece(off: nat, len: nat, node: bool, live: bool)

  /** free lists the offsets of recycled nodes, head first; pieces is history. */
  datatype Arena = Arena(size: nat, offset: nat, free: seq<nat>, allocs: nat, frees: nat, pieces: seq<Piece>)

  /** bt_mempool_alloc: the offset of the piece, and the new bump offset. */
  function Bump(offset: nat, size: nat, limit: nat): Option<(nat, nat)> {
    var end := (offset + RoundLine(size)) % WORD;
    if end > limit then None else Some((offset, end))
  }

  /** A refusal, or a piece of at least the requested size inside the arena past everything handed out before. */
  predicate Sound(offset: nat, size: nat, limit: nat) {
    var r := Bump(offset, size, limit);
    r.Some? ==> r.value.0 + size <= r.value.1 <= limit
  }

  /** Exactly when a request is served soundly or refused: neither the rounding nor the sum wraps. */
  lemma SoundExactly(offset: nat, size: nat, limit: nat)
    requires offset <= limit < WORD && size < WORD
    ensures Sound(offset, size, limit) <==> size <= WORD - CACHE_LINE && offset + RoundLine(size) < WORD
  {
    RoundLineCovers(size);
    var s := RoundLine(size);
    if offset + s < WORD { ModSmall(offset + s, WORD); } else { DivModUnique(offset + s, WORD, 1, offset + s - WORD); }
  }

  lemma SoundBump(offset: nat, size: nat, limit: nat)
    requires offset <= limit < WORD && size < WORD && Sound(offset, size, limit)
    ensures var s := RoundLine(size);
            && s % CACHE_LINE == 0 && s >= size
            && (Bump(offset, size, limit).Some? <==> offset + s <= limit)
            && (offset + s <= limit ==> Bump(offset, size, limit).value == (offset, offset + s))
  {
    SoundExactly(offset, size, limit);
    RoundLineCovers(size);
    ModSmall(offset + RoundLine(size), WORD);
  }

  function Alloc(a: Arena, size: nat): (Arena, Option<nat>) {
    match Bump(a.offset, size, a.size)
    case None => (a, None)
    case Some((off, end)) =>
      (a.(offset := end, allocs := (a.allocs + 1) % HALF,
          pieces := a.pieces + [Piece(off, RoundLine(size), false, true)]), Some(off))
  }

  /** Sets the live flag of the node at off. */
  function Mark(ps: seq<Piece>, off: nat, live: bool): (r: seq<Piece>)
    ensures |r| == |ps|
    ensures forall i :: 0 <= i < |ps| ==>
              r[i] == if ps[i].node && ps[i].off == off then ps[i].(live := live) else ps[i]
  {
    seq(|ps|, i requires 0 <= i < |ps| =>
      if ps[i].node && ps[i].off == off then ps[i].(live := live) else ps[i])
  }

  function AllocOrder(a: Arena): (Arena, Option<nat>) {
    if a.free != [] then
      (a.(free := a.free[1..], allocs := (a.allocs + 1) % HALF, frees := (a.frees + HALF - 1) % HALF,
          pieces := Mark(a.pieces, a.free[0], true)), Some(a.free[0]))
    else
      match Bump(a.offset, NODE, a.size)
      case None => (a, None)
      case Some((off, end)) =>
        (a.(offset := end, allocs := (a.allocs + 1) % HALF,
            pieces := a.pieces + [Piece(off, RoundLine(NODE), true, true)]), Some(off))
  }

  function FreeOrder(a: Arena, off: nat): Arena {
    a.(free := [off] + a.free, frees := (a.frees + 1) % HALF, pieces := Mark(a.pieces, off, false))
  }

  function Reset(a: Arena): Arena {
    a.(offset := 0, free := [], allocs := 0, frees := 0, pieces := [])
  }

  /** A request that wraps is served, and the next one gets the first piece again. */
  lemma WrappedRequestOverlaps()
    ensures var (a, first) := Alloc(Arena(PAGE, 0, [], 0, 0, []), 64);
            var (b, second) := Alloc(a, WORD - 64);
            var (_, third) := Alloc(b, 64);
            first == third == Some(0) && second == Some(64)
  {
    RoundLineCovers(64);
    ModShift(64, RoundLine(64), CACHE_LINE);
    RoundLineCovers(WORD - 64);
    ModShift(WORD - 64, RoundLine(WORD - 64), CACHE_LINE);
  }

  // ---------------------------------------------------------------------
  // Invariant of an arena
  // ---------------------------------------------------------------------

  /** Pieces lie end to end from 0 to the bump offset, in whole cache lines. */
  ghost predicate EndToEnd(ps: seq<Piece>, offset: nat)
    decreases |ps|
  {
    if ps == [] then offset == 0
    else
      var p := ps[|ps| - 1];
      && p.off + p.len == offset && p.len % CACHE_LINE == 0 && (p.node ==> p.len == NODE_LINES)
      && EndToEnd(ps[..|ps| - 1], p.off)
  }

  /** The free list holds exactly the nodes that are not live, each once. */
  ghost predicate ListOk(a: Arena) {
    && Distinct(a.free) && a.frees == |a.free| % HALF
    && (forall o :: o in a.free ==> NodeAt(a.pieces, o, false))
    && (forall i :: 0 <= i < |a.pieces| && !a.pieces[i].live ==> a.pieces[i].node && a.pieces[i].off in a.free)
  }

  ghost predicate NodeAt(ps: seq<Piece>, off: nat, live: bool) {
    exists i :: 0 <= i < |ps| && ps[i].node && ps[i].off == off && ps[i].live == live
  }

  ghost predicate Inv(a: Arena) {
    && a.size <= WORD - PAGE && a.offset <= a.size && EndToEnd(a.pieces, a.offset) && ListOk(a)
  }

  lemma {:induction false} PieceBounds(ps: seq<Piece>, offset: nat, i: nat)
    requires EndToEnd(ps, offset) && i < |ps|
    ensures ps[i].off + ps[i].len <= offset && ps[i].off % CACHE_LINE == 0 && ps[i].len % CACHE_LINE == 0
    ensures ps[i].node ==> ps[i].len == NODE_LINES
    ensures offset % CACHE_LINE == 0
    decreases |ps|
  {
    var n := |ps| - 1;
    EndAligned(ps, offset);
    EndAligned(ps[..n], ps[n].off);
    if i < n { PieceBounds(ps[..n], ps[n].off, i); }
  }

  lemma {:induction false} EndAligned(ps: seq<Piece>, offset: nat)
    requires EndToEnd(ps, offset)
    ensures offset % CACHE_LINE == 0
    decreases |ps|
  {
    if ps != [] { EndAligned(ps[..|ps| - 1], ps[|ps| - 1].off); }
  }

  /** Pieces handed out at different times do not overlap. */
  lemma {:induction false} PiecesDisjoint(ps: seq<Piece>, offset: nat, i: nat, j: nat)
    requires EndToEnd(ps, offset) && i < j < |ps|
    ensures ps[i].off + ps[i].len <= ps[j].off
    decreases |ps|
  {
    var n := |ps| - 1;
    if j < n { PiecesDisjoint(ps[..n], ps[n].off, i, j); } else { PieceBounds(ps[..n], ps[n].off, i); }
  }

  /** So a node is found at one place only. */
  lemma NodeUnique(ps: seq<Piece>, offset: nat, i: nat, j: nat)
    requires EndToEnd(ps, offset) && i < |ps| && j < |ps| && ps[i].node && ps[j].node && ps[i].off == ps[j].off
    ensures i == j
  {
    PieceBounds(ps, offset, i);
    PieceBounds(ps, offset, j);
    if i < j { PiecesDisjoint(ps, offset, i, j); }
    if j < i { PiecesDisjoint(ps, offset, j, i); }
  }

  lemma EndToEndSnoc(ps: seq<Piece>, offset: nat, p: Piece)
    requires EndToEnd(ps, offset) && p.off == offset && p.len % CACHE_LINE == 0 && (p.node ==> p.len == NODE_LINES)
    ensures EndToEnd(ps + [p], offset + p.len)
  {
    assert (ps + [p])[..|ps|] == ps;
  }

  lemma {:induction false} EndToEndMark(ps: seq<Piece>, offset: nat, off: nat, live: bool)
    requires EndToEnd(ps, offset)
    ensures EndToEnd(Mark(ps, off, live), offset)
    decreases |ps|
  {
    if ps != [] {
      var n := |ps| - 1;
      EndToEndMark(ps[..n], ps[n].off, off, live);
      assert Mark(ps, off, live)[..n] == Mark(ps[..n], off, live);
    }
  }

  lemma ListOkSnoc(a: Arena, a': Arena, p: Piece)
    requires ListOk(a) && a'.free == a.free && a'.frees == a.frees && a'.pieces == a.pieces + [p] && p.live
    ensures ListOk(a')
  {
    forall o | o in a'.free ensures NodeAt(a'.pieces, o, false) {
      assert NodeAt(a.pieces, o, false);
      var i :| 0 <= i < |a.pieces| && a.pieces[i].node && a.pieces[i].off == o && a.pieces[i].live == false;
      assert a'.pieces[i] == a.pieces[i];
    }
  }

  lemma NodeIsTwoLines()
    ensures RoundLine(NODE) == NODE_LINES
  {
    RoundLineCovers(NODE);
  }

  lemma AllocKeeps(a: Arena, size: nat)
    requires Inv(a) && size < WORD && Sound(a.offset, size, a.size)
    ensures Inv(Alloc(a, size).0) && size <= RoundLine(size)
    ensures Alloc(a, size).1.Some? <==> a.offset + RoundLine(size) <= a.size
  {
    SoundBump(a.offset, size, a.size);
    if a.offset + RoundLine(size) <= a.size {
      var p := Piece(a.offset, RoundLine(size), false, true);
      EndToEndSnoc(a.pieces, a.offset, p);
      ListOkSnoc(a, Alloc(a, size).0, p);
    }
  }

  /** An arena stays intact with a piece that holds its request exactly when the request does not wrap. */
  lemma AllocKeepsExactly(a: Arena, size: nat)
    requires Inv(a) && size < WORD
    ensures Inv(Alloc(a, size).0) && size <= RoundLine(size) <==> Sound(a.offset, size, a.size)
  {
    if Sound(a.offset, size, a.size) {
      AllocKeeps(a, size);
    } else {
      SoundExactly(a.offset, size, a.size);
      RoundLineCovers(size);
      var s := RoundLine(size);
      if s >= size {
        DivModUnique(a.offset + s, WORD, 1, a.offset + s - WORD);
        assert Alloc(a, size).0.pieces[|a.pieces|] == Piece(a.offset, s, false, true);
      }
    }
  }

  /** Marking the only node at off moves it between live and recycled and touches nothing else. */
  lemma MarkNode(ps: seq<Piece>, offset: nat, off: nat, live: bool)
    requires EndToEnd(ps, offset) && NodeAt(ps, off, !live)
    ensures NodeAt(Mark(ps, off, live), off, live)
    ensures forall i :: 0 <= i < |ps| && ps[i].node && ps[i].off == off ==> ps[i].live == !live
  {
    var i :| 0 <= i < |ps| && ps[i].node && ps[i].off == off && ps[i].live == !live;
    assert Mark(ps, off, live)[i].live == live;
    forall j | 0 <= j < |ps| && ps[j].node && ps[j].off == off ensures ps[j].live == !live {
      NodeUnique(ps, offset, i, j);
    }
  }

  lemma MarkOthers(ps: seq<Piece>, off: nat, live: bool, o: nat, l: bool)
    requires NodeAt(ps, o, l) && o != off
    ensures NodeAt(Mark(ps, off, live), o, l)
  {
    var i :| 0 <= i < |ps| && ps[i].node && ps[i].off == o && ps[i].live == l;
    assert Mark(ps, off, live)[i] == ps[i];
  }

  /** The rest of the list still holds recycled nodes after its head was marked live. */
  lemma RestStaysFree(ps: seq<Piece>, free: seq<nat>)
    requires free != [] && Distinct(free) && forall o :: o in free ==> NodeAt(ps, o, false)
    ensures forall x :: x in free[1..] ==> NodeAt(Mark(ps, free[0], true), x, false)
  {
    forall x | x in free[1..] ensures NodeAt(Mark(ps, free[0], true), x, false) {
      var k :| 0 <= k < |free[1..]| && free[1..][k] == x;
      assert free[k + 1] == x && x in free;
      MarkOthers(ps, free[0], true, x, false);
    }
  }

  lemma RecycleKeeps(a: Arena)
    requires Inv(a) && a.free != []
    ensures Inv(AllocOrder(a).0)
  {
    var a' := AllocOrder(a).0;
    var o := a.free[0];
    assert o in a.free && NodeAt(a.pieces, o, false);
    EndToEndMark(a.pieces, a.offset, o, true);
    MarkNode(a.pieces, a.offset, o, true);
    RestStaysFree(a.pieces, a.free);
    assert a.free == [o] + a'.free;
  }

  lemma FreeOrderKeeps(a: Arena, off: nat)
    requires Inv(a) && NodeAt(a.pieces, off, true)
    ensures Inv(FreeOrder(a, off))
  {
    var a' := FreeOrder(a, off);
    EndToEndMark(a.pieces, a.offset, off, false);
    MarkNode(a.pieces, a.offset, off, false);
    assert off !in a.free;
    forall x | x in a'.free ensures NodeAt(a'.pieces, x, false) {
      if x != off { MarkOthers(a.pieces, off, false, x, false); }
    }
  }

  lemma AllocOrderKeeps(a: Arena)
    requires Inv(a)
    ensures Inv(AllocOrder(a).0)
  {
    if a.free != [] {
      RecycleKeeps(a);
    } else {
      NodeIsTwoLines();
      SoundExactly(a.offset, NODE, a.size);
      SoundBump(a.offset, NODE, a.size);
      if a.offset + NODE_LINES <= a.size {
        var p := Piece(a.offset, NODE_LINES, true, true);
        EndToEndSnoc(a.pieces, a.offset, p);
        ListOkSnoc(a, AllocOrder(a).0, p);
      }
    }
  }

  /** A node is handed out only when it is not live: freshly carved, or freed before. */
  lemma OrderIsNew(a: Arena)
    requires Inv(a) && AllocOrder(a).1.Some?
    ensures var (a', r) := AllocOrder(a);
            && !NodeAt(a.pieces, r.value, true) && NodeAt(a'.pieces, r.value, true)
            && (NodeAt(a.pieces, r.value, false) <==> r.value in a.free)
  {
    var (a', r) := AllocOrder(a);
    var o := r.value;
    if a.free != [] {
      assert o in a.free && NodeAt(a.pieces, o, false);
      MarkNode(a.pieces, a.offset, o, true);
    } else {
      NodeIsTwoLines();
      assert a'.pieces[|a.pieces|] == Piece(o, NODE_LINES, true, true);
      forall i | 0 <= i < |a.pieces| && a.pieces[i].node ensures a.pieces[i].off != o {
        PieceBounds(a.pieces, a.offset, i);
      }
    }
  }

  // ---------------------------------------------------------------------
  // The whole pool
  // ---------------------------------------------------------------------

  datatype Pool = Pool(total: nat, n: nat, arenas: seq<Arena>)

  datatype Op =
    | OpAlloc(a: nat, size: nat)
    | OpAllocOrder(a: nat)
    | OpFreeOrder(a: nat, off: nat)
    | OpReset(a: nat)

  function Carve(total: nat, n: nat): Pool
    requires n > 0
  {
    Pool(total, n, seq(n, _ => Arena(ArenaSize(total, n), 0, [], 0, 0, [])))
  }

  ghost predicate Legal(p: Pool, op: Op) {
    && op.a < |p.arenas|
    && (op.OpAlloc? ==> op.size < WORD && Sound(p.arenas[op.a].offset, op.size, p.arenas[op.a].size))
    && (op.OpFreeOrder? ==> NodeAt(p.arenas[op.a].pieces, op.off, true))
  }

  function Exec(p: Pool, op: Op): Pool
    requires op.a < |p.arenas|
  {
    var a := p.arenas[op.a];
    var a' := match op
      case OpAlloc(_, size) => Alloc(a, size).0
      case OpAllocOrder(_) => AllocOrder(a).0
      case OpFreeOrder(_, off) => FreeOrder(a, off)
      case OpReset(_) => Reset(a);
    p.(arenas := p.arenas[op.a := a'])
  }

  ghost predicate PoolInv(p: Pool) {
    && 0 < p.n == |p.arenas| && p.total < WORD && p.n * TABLE_ENTRY <= p.total
    && (forall i :: 0 <= i < p.n ==> Inv(p.arenas[i]) && p.arenas[i].size == ArenaSize(p.total, p.n))
  }

  lemma ArenaStep(a: Arena, op: Op)
    requires Inv(a) && (op.OpAlloc? ==> op.size < WORD && Sound(a.offset, op.size, a.size))
    requires op.OpFreeOrder? ==> NodeAt(a.pieces, op.off, true)
    ensures Inv(Exec(Pool(0, 1, [a]), op.(a := 0)).arenas[0])
    ensures Exec(Pool(0, 1, [a]), op.(a := 0)).arenas[0].size == a.size
  {
    match op
    case OpAlloc(_, size) => AllocKeeps(a, size);
    case OpAllocOrder(_) => AllocOrderKeeps(a);
    case OpFreeOrder(_, off) => FreeOrderKeeps(a, off);
    case OpReset(_) =>
  }

  lemma ExecKeeps(p: Pool, op: Op)
    requires PoolInv(p) && Legal(p, op)
    ensures PoolInv(Exec(p, op))
  {
    ArenaStep(p.arenas[op.a], op);
    var p' := Exec(p, op);
    assert p'.arenas[op.a] == Exec(Pool(0, 1, [p.arenas[op.a]]), op.(a := 0)).arenas[0];
  }

  ghost predicate IsRun(p: Pool, run: seq<Op>)
    decreases |run|
  {
    run != [] ==> Legal(p, run[0]) && IsRun(Exec(p, run[0]), run[1..])
  }

  ghost function Final(p: Pool, run: seq<Op>): Pool
    requires IsRun(p, run)
    decreases |run|
  {
    if run == [] then p else Final(Exec(p, run[0]), run[1..])
  }

  lemma {:induction false} RunKeeps(p: Pool, run: seq<Op>)
    requires PoolInv(p) && IsRun(p, run)
    ensures PoolInv(Final(p, run)) && Final(p, run).total == p.total && Final(p, run).n == p.n
    decreases |run|
  {
    if run != [] {
      ExecKeeps(p, run[0]);
      RunKeeps(Exec(p, run[0]), run[1..]);
    }
  }

  /** The slab offset of piece i of arena a. */
  ghost function Start(p: Pool, a: nat, i: nat): nat
    requires p.n > 0 && a < |p.arenas| && i < |p.arenas[a].pieces|
  {
    ArenaBase(p.total, p.n, a) + p.arenas[a].pieces[i].off
  }

  /** Piece i of arena a is on cache lines, inside its arena and clear of the table. */
  ghost predicate AtHome(p: Pool, a: nat, i: nat)
    requires p.n > 0 && a < |p.arenas| && i < |p.arenas[a].pieces|
  {
    var end := Start(p, a, i) + p.arenas[a].pieces[i].len;
    && Start(p, a, i) % CACHE_LINE == 0
    && ArenaBase(p.total, p.n, a) <= Start(p, a, i)
    && end <= ArenaBase(p.total, p.n, a) + ArenaSize(p.total, p.n) && end <= UsableSize(p.total, p.n)
  }

  ghost predicate Apart(p: Pool, a: nat, i: nat, b: nat, j: nat)
    requires p.n > 0 && a < |p.arenas| && i < |p.arenas[a].pieces| && b < |p.arenas| && j < |p.arenas[b].pieces|
  {
    || Start(p, a, i) + p.arenas[a].pieces[i].len <= Start(p, b, j)
    || Start(p, b, j) + p.arenas[b].pieces[j].len <= Start(p, a, i)
  }

  lemma PieceAtHome(p: Pool, a: nat, i: nat)
    requires PoolInv(p) && a < p.n && i < |p.arenas[a].pieces|
    ensures AtHome(p, a, i)
  {
    var x := p.arenas[a];
    PieceBounds(x.pieces, x.offset, i);
    ArenaInside(p.total, p.n, a);
    LinesAdd(ArenaBase(p.total, p.n, a), x.pieces[i].off);
  }

  lemma LinesAdd(x: nat, y: nat)
    requires x % PAGE == 0 && y % CACHE_LINE == 0
    ensures (x + y) % CACHE_LINE == 0
  {
  }

  lemma PiecesApart(p: Pool, a: nat, i: nat, b: nat, j: nat)
    requires PoolInv(p) && a <= b < p.n && i < |p.arenas[a].pieces| && j < |p.arenas[b].pieces|
    requires a == b ==> i < j
    ensures Apart(p, a, i, b, j)
  {
    if a == b {
      PiecesDisjoint(p.arenas[a].pieces, p.arenas[a].offset, i, j);
    } else {
      PieceAtHome(p, a, i);
      PieceAtHome(p, b, j);
      ArenasDisjoint(p.total, p.n, a, b);
    }
  }

  /**
   In every run, all pieces handed out since their arena's reset, live ones among them, lie on cache lines
   inside their own arena, clear of the arena table, and are pairwise disjoint across all arenas.
   */
  lemma AllocationsDisjoint(total: nat, n: nat, run: seq<Op>)
    requires 0 < n && total < WORD && n * TABLE_ENTRY <= total && IsRun(Carve(total, n), run)
    ensures var p := Final(Carve(total, n), run);
            && p.n == n == |p.arenas| && p.total == total
            && (forall a: nat, i: nat :: a < n && i < |p.arenas[a].pieces| ==> AtHome(p, a, i))
            && (forall a: nat, i: nat, b: nat, j: nat ::
                  a <= b < n && i < |p.arenas[a].pieces| && j < |p.arenas[b].pieces| && (a == b ==> i < j) ==>
                    Apart(p, a, i, b, j))
  {
    CarveInv(total, n);
    RunKeeps(Carve(total, n), run);
    var p := Final(Carve(total, n), run);
    forall a: nat, i: nat | a < n && i < |p.arenas[a].pieces| ensures AtHome(p, a, i) { PieceAtHome(p, a, i); }
    forall a: nat, i: nat, b: nat, j: nat |
      a <= b < n && i < |p.arenas[a].pieces| && j < |p.arenas[b].pieces| && (a == b ==> i < j)
      ensures Apart(p, a, i, b, j)
    {
      PiecesApart(p, a, i, b, j);
    }
  }

  lemma CarveInv(total: nat, n: nat)
    requires 0 < n && total < WORD && n * TABLE_ENTRY <= total
    ensures PoolInv(Carve(total, n))
  {
    ArenaSizeIs(total, n);
  }

  /** free_count is the length of the free list and the list holds exactly the recycled nodes, each once. */
  ghost predicate Accounted(a: Arena) {
    a.frees == |a.free| % HALF && Distinct(a.free) && forall o :: o in a.free <==> NodeAt(a.pieces, o, false)
  }

  lemma FreeListAccounts(total: nat, n: nat, run: seq<Op>)
    requires 0 < n && total < WORD && n * TABLE_ENTRY <= total && IsRun(Carve(total, n), run)
    ensures forall x :: x in Final(Carve(total, n), run).arenas ==> Accounted(x)
  {
    CarveInv(total, n);
    RunKeeps(Carve(total, n), run);
  }
}
