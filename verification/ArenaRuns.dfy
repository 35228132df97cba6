/** What the pool's calls return along a run, and that no two of them return memory that overlaps. */
module ArenaRuns {
  import opened Bits
  import opened Sets
  import opened Options
  import opened Arena

  /** What a call returns: the offset of a piece in its arena, or nothing. */
  function Reply(p: Pool, op: Op): Option<nat>
    requires op.a < |p.arenas|
  {
    match op
    case OpAlloc(_, size) => Alloc(p.arenas[op.a], size).1
    case OpAllocOrder(_) => AllocOrder(p.arenas[op.a]).1
    case OpFreeOrder(_, _) => None
    case OpReset(_) => None
  }

  /** The bytes a call asks for. */
  function Need(op: Op): nat {
    match op
    case OpAlloc(_, size) => size
    case OpAllocOrder(_) => NODE
    case OpFreeOrder(_, _) => 0
    case OpReset(_) => 0
  }

  // ---------------------------------------------------------------------
  // When a call is served
  // ---------------------------------------------------------------------

  /** A request that does not wrap is served exactly when its cache lines fit behind what is handed out. */
  lemma ServedExactly(a: Arena, size: nat)
    requires Inv(a) && size < WORD && Sound(a.offset, size, a.size)
    ensures Alloc(a, size).1 == if a.offset + RoundLine(size) <= a.size then Some(a.offset) else None
  {
    SoundBump(a.offset, size, a.size);
  }

  /** An order node is refused exactly when none is recycled and none fits; the one freed last is handed out first. */
  lemma OrderServedExactly(a: Arena, off: nat)
    requires Inv(a)
    ensures AllocOrder(a).1 == None <==> a.free == [] && a.offset + NODE_LINES > a.size
    ensures NodeAt(a.pieces, off, true) ==>
              var (b, r) := AllocOrder(FreeOrder(a, off));
              r == Some(off) && b == a.(allocs := (a.allocs + 1) % HALF)
  {
    NodeIsTwoLines();
    SoundExactly(a.offset, NODE, a.size);
    SoundBump(a.offset, NODE, a.size);
    if NodeAt(a.pieces, off, true) {
      MarkNode(a.pieces, a.offset, off, false);
      var back := Mark(Mark(a.pieces, off, false), off, true);
      assert back == a.pieces;
      assert ([off] + a.free)[1..] == a.free;
      Wraps(a.frees);
      assert a.frees < HALF;
    }
  }

  lemma Wraps(x: nat)
    ensures ((x + 1) % HALF + HALF - 1) % HALF == x % HALF
  {
  }

  // ---------------------------------------------------------------------
  // A piece stands until it is given back
  // ---------------------------------------------------------------------

  /** A live piece at off holds at least need bytes. */
  ghost predicate Stands(a: Arena, off: nat, need: nat, node: bool) {
    exists i :: PieceIs(a.pieces, i, off, need, node)
  }

  ghost predicate PieceIs(ps: seq<Piece>, i: int, off: nat, need: nat, node: bool) {
    0 <= i < |ps| && ps[i].off == off && need <= ps[i].len && ps[i].node == node && ps[i].live
  }

  /** The reply of a call is the offset of such a piece. */
  lemma ReplyStands(p: Pool, op: Op)
    requires PoolInv(p) && Legal(p, op) && Reply(p, op).Some?
    ensures Stands(Exec(p, op).arenas[op.a], Reply(p, op).value, Need(op), op.OpAllocOrder?)
  {
    var a := p.arenas[op.a];
    if op.OpAlloc? {
      AllocKeeps(a, op.size);
      assert PieceIs(Exec(p, op).arenas[op.a].pieces, |a.pieces|, Reply(p, op).value, op.size, false);
    } else {
      NodeStands(a);
    }
  }

  lemma NodeStands(a: Arena)
    requires Inv(a) && AllocOrder(a).1.Some?
    ensures Stands(AllocOrder(a).0, AllocOrder(a).1.value, NODE, true)
  {
    var (b, r) := AllocOrder(a);
    NodeIsTwoLines();
    OrderIsNew(a);
    AllocOrderKeeps(a);
    var i :| 0 <= i < |b.pieces| && b.pieces[i].node && b.pieces[i].off == r.value && b.pieces[i].live;
    PieceBounds(b.pieces, b.offset, i);
    assert PieceIs(b.pieces, i, r.value, NODE, true);
  }

  /** What ends a piece: a reset of its arena, and for a node its free. */
  predicate Ends(op: Op, x: nat, off: nat, node: bool) {
    op.a == x && (op.OpReset? || (node && op.OpFreeOrder? && op.off == off))
  }

  /** Marking another node, or making a node live, leaves a live piece. */
  lemma MarkLeaves(ps: seq<Piece>, o: nat, live: bool, i: nat, off: nat, need: nat, node: bool)
    requires PieceIs(ps, i, off, need, node) && (live || !node || o != off)
    ensures PieceIs(Mark(ps, o, live), i, off, need, node)
  {
  }

  lemma StandsOn(p: Pool, op: Op, x: nat, off: nat, need: nat, node: bool)
    requires Legal(p, op) && x < |p.arenas| && Stands(p.arenas[x], off, need, node) && !Ends(op, x, off, node)
    ensures x < |Exec(p, op).arenas| && Stands(Exec(p, op).arenas[x], off, need, node)
  {
    var a := p.arenas[x];
    var b := Exec(p, op).arenas[x];
    var i :| PieceIs(a.pieces, i, off, need, node);
    if op.a == x && op.OpFreeOrder? {
      MarkLeaves(a.pieces, op.off, false, i, off, need, node);
    } else if op.a == x && op.OpAllocOrder? && a.free != [] {
      MarkLeaves(a.pieces, a.free[0], true, i, off, need, node);
    }
    assert PieceIs(b.pieces, i, off, need, node);
  }

  /** Two ranges of an arena do not overlap. */
  predicate Clear(x: nat, m: nat, y: nat, n: nat) {
    x + m <= y || y + n <= x
  }

  /** What a call returns overlaps no standing piece of its arena. */
  lemma NewIsClear(p: Pool, op: Op, off: nat, need: nat, node: bool)
    requires PoolInv(p) && Legal(p, op) && Reply(p, op).Some? && Stands(p.arenas[op.a], off, need, node)
    ensures Clear(off, need, Reply(p, op).value, Need(op))
  {
    var a := p.arenas[op.a];
    var i :| PieceIs(a.pieces, i, off, need, node);
    if op.OpAllocOrder? && a.free != [] {
      var o := a.free[0];
      assert o in a.free && NodeAt(a.pieces, o, false);
      var k :| 0 <= k < |a.pieces| && a.pieces[k].node && a.pieces[k].off == o && !a.pieces[k].live;
      PieceBounds(a.pieces, a.offset, k);
      if i < k { PiecesDisjoint(a.pieces, a.offset, i, k); } else { PiecesDisjoint(a.pieces, a.offset, k, i); }
    } else {
      PieceBounds(a.pieces, a.offset, i);
    }
  }

  // ---------------------------------------------------------------------
  // Runs
  // ---------------------------------------------------------------------

  /** No call of the run ends the piece. */
  predicate Spared(run: seq<Op>, x: nat, off: nat, node: bool) {
    forall k :: 0 <= k < |run| ==> !Ends(run[k], x, off, node)
  }

  lemma {:induction false} StandsAlong(p: Pool, run: seq<Op>, x: nat, off: nat, need: nat, node: bool)
    requires PoolInv(p) && IsRun(p, run) && Spared(run, x, off, node)
    requires x < |p.arenas| && Stands(p.arenas[x], off, need, node)
    ensures x < |Final(p, run).arenas| && Stands(Final(p, run).arenas[x], off, need, node)
    decreases |run|
  {
    if run != [] {
      StandsOn(p, run[0], x, off, need, node);
      ExecKeeps(p, run[0]);
      StandsAlong(Exec(p, run[0]), run[1..], x, off, need, node);
    }
  }

  lemma {:induction false} RunSplits(p: Pool, run: seq<Op>, more: seq<Op>)
    requires IsRun(p, run + more)
    ensures IsRun(p, run) && IsRun(Final(p, run), more) && Final(p, run + more) == Final(Final(p, run), more)
    decreases |run|
  {
    if run == [] {
      assert run + more == more;
    } else {
      assert (run + more)[0] == run[0] && (run + more)[1..] == run[1..] + more;
      RunSplits(Exec(p, run[0]), run[1..], more);
    }
  }

  /** The state before call i of a run, and what that call returns. */
  ghost function Before(p: Pool, run: seq<Op>, i: nat): (r: Pool)
    requires IsRun(p, run) && i < |run|
    ensures Legal(r, run[i])
  {
    Cut(p, run, i);
    Final(p, run[..i])
  }

  lemma Cut(p: Pool, run: seq<Op>, i: nat)
    requires IsRun(p, run) && i < |run|
    ensures IsRun(p, run[..i]) && Legal(Final(p, run[..i]), run[i])
  {
    assert run == run[..i] + run[i..];
    RunSplits(p, run[..i], run[i..]);
  }

  ghost function ReplyAt(p: Pool, run: seq<Op>, i: nat): Option<nat>
    requires IsRun(p, run) && i < |run|
  {
    Reply(Before(p, run, i), run[i])
  }

  lemma FromTo(p: Pool, run: seq<Op>, i: nat, j: nat)
    requires IsRun(p, run) && i < j < |run|
    ensures var q := Exec(Before(p, run, i), run[i]);
            IsRun(q, run[i + 1..j]) && Final(q, run[i + 1..j]) == Before(p, run, j)
  {
    Cut(p, run, i);
    Cut(p, run, j);
    var mid := run[i..j];
    assert run[..j] == run[..i] + mid;
    RunSplits(p, run[..i], mid);
    assert mid[0] == run[i] && mid[1..] == run[i + 1..j];
  }

  lemma BeforeInv(total: nat, n: nat, run: seq<Op>, i: nat)
    requires 0 < n && total < WORD && n * TABLE_ENTRY <= total && IsRun(Carve(total, n), run) && i < |run|
    ensures var p := Before(Carve(total, n), run, i); PoolInv(p) && p.total == total && p.n == n
  {
    Cut(Carve(total, n), run, i);
    CarveInv(total, n);
    RunKeeps(Carve(total, n), run[..i]);
  }

  /** What a call returns, and what a later one returns if nothing ends the piece in between. */
  lemma LaterIsClear(p: Pool, op: Op, mid: seq<Op>, op': Op)
    requires PoolInv(p) && Legal(p, op) && Reply(p, op).Some?
    requires IsRun(Exec(p, op), mid) && Spared(mid, op.a, Reply(p, op).value, op.OpAllocOrder?)
    requires var q := Final(Exec(p, op), mid); Legal(q, op') && Reply(q, op').Some? && op'.a == op.a
    ensures Clear(Reply(p, op).value, Need(op), Reply(Final(Exec(p, op), mid), op').value, Need(op'))
  {
    var off := Reply(p, op).value;
    ReplyStands(p, op);
    ExecKeeps(p, op);
    RunKeeps(Exec(p, op), mid);
    StandsAlong(Exec(p, op), mid, op.a, off, Need(op), op.OpAllocOrder?);
    NewIsClear(Final(Exec(p, op), mid), op', off, Need(op), op.OpAllocOrder?);
  }

  /** Both calls were served, and no call in between ends what the first one returned. */
  ghost predicate BothStand(p: Pool, run: seq<Op>, i: nat, j: nat)
    requires IsRun(p, run) && i < j < |run|
  {
    && ReplyAt(p, run, i).Some? && ReplyAt(p, run, j).Some?
    && Spared(run[i + 1..j], run[i].a, ReplyAt(p, run, i).value, run[i].OpAllocOrder?)
  }

  /**
   In every run, what one call returned overlaps nothing that a later call on the same arena returns, until the
   arena is reset or, for an order node, the node is freed.
   */
  lemma RepliesDisjoint(total: nat, n: nat, run: seq<Op>, i: nat, j: nat)
    requires 0 < n && total < WORD && n * TABLE_ENTRY <= total && IsRun(Carve(total, n), run)
    requires i < j < |run| && run[i].a == run[j].a && BothStand(Carve(total, n), run, i, j)
    ensures Clear(ReplyAt(Carve(total, n), run, i).value, Need(run[i]),
                  ReplyAt(Carve(total, n), run, j).value, Need(run[j]))
  {
    var p0 := Carve(total, n);
    BeforeInv(total, n, run, i);
    FromTo(p0, run, i, j);
    LaterIsClear(Before(p0, run, i), run[i], run[i + 1..j], run[j]);
  }

  /** What a call returns lies inside its arena, so that calls on different arenas are apart too (ArenasDisjoint). */
  lemma RepliesInside(total: nat, n: nat, run: seq<Op>, i: nat)
    requires 0 < n && total < WORD && n * TABLE_ENTRY <= total && IsRun(Carve(total, n), run)
    requires i < |run| && ReplyAt(Carve(total, n), run, i).Some?
    ensures ReplyAt(Carve(total, n), run, i).value + Need(run[i]) <= ArenaSize(total, n)
    ensures ReplyAt(Carve(total, n), run, i).value % CACHE_LINE == 0
  {
    BeforeInv(total, n, run, i);
    var p := Before(Carve(total, n), run, i);
    ReplyStands(p, run[i]);
    ExecKeeps(p, run[i]);
    var b := Exec(p, run[i]).arenas[run[i].a];
    var k :| PieceIs(b.pieces, k, Reply(p, run[i]).value, Need(run[i]), run[i].OpAllocOrder?);
    PieceBounds(b.pieces, b.offset, k);
  }

  /** The count of arena x after one more call. */
  function CountOne(p: Pool, op: Op, x: nat, c: nat): nat
    requires op.a < |p.arenas|
  {
    if op.a != x then c else if op.OpReset? then 0 else if Reply(p, op).Some? then c + 1 else c
  }

  /** Replies since the last reset of arena x, counted from c. */
  ghost function Successes(p: Pool, run: seq<Op>, x: nat, c: nat): nat
    requires IsRun(p, run)
    decreases |run|
  {
    if run == [] then c else Successes(Exec(p, run[0]), run[1..], x, CountOne(p, run[0], x, c))
  }

  lemma OneCounted(p: Pool, op: Op, x: nat, c: nat)
    requires op.a < |p.arenas| && x < |p.arenas| && p.arenas[x].allocs == c % HALF
    ensures Exec(p, op).arenas[x].allocs == CountOne(p, op, x, c) % HALF
  {
  }

  /** alloc_count is the number of calls served since the last reset, modulo 2^32. */
  lemma {:induction false} AllocsCounted(p: Pool, run: seq<Op>, x: nat, c: nat)
    requires IsRun(p, run) && x < |p.arenas| && p.arenas[x].allocs == c % HALF
    ensures |Final(p, run).arenas| == |p.arenas|
    ensures Final(p, run).arenas[x].allocs == Successes(p, run, x, c) % HALF
    decreases |run|
  {
    if run != [] {
      OneCounted(p, run[0], x, c);
      AllocsCounted(Exec(p, run[0]), run[1..], x, CountOne(p, run[0], x, c));
    }
  }
}
