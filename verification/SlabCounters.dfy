/**
 The slab's two statistics counters under concurrency. A call is the list
 operation of FreeList, step by step, followed by its counter updates; every
 update is a separate atomic step, and the last one of a free is guarded by a
 separate load. Counters are 32-bit and wrap.
 */
module SlabCounters {
  import opened Bits
  import opened Sets
  import opened FreeList

  /** An allocating thread that holds a popped block but has not returned it yet. */
  datatype Caller =
    | Back
    | Popped(b: nat)       // alloc_count not yet raised
    | Raised(b: nat)       // free_count not yet lowered

  /** A freeing thread whose block is on the list but whose call has not returned. */
  datatype Giver =
    | Done
    | Pushed               // free_count not yet raised
    | Noted                // alloc_count not yet loaded
    | Passed               // alloc_count seen above zero, not yet lowered

  /** held is history: the blocks that were returned to a caller and not given back. */
  datatype Slab = Slab(
    pool: Pool, callers: seq<Caller>, givers: seq<Giver>, allocCount: nat, freeCount: nat, held: set<nat>)

  datatype Move = List(a: Action) | Count(t: nat) | Discount(t: nat)

  predicate Allowed(s: Slab, m: Move) {
    match m
    case List(a) =>
      && Enabled(s.pool, a)
      && (a.AllocLoad? || a.AllocRead? || a.AllocCas? ==> a.t < |s.callers| && s.callers[a.t].Back?)
      && (a.FreeBegin? ==> a.t < |s.givers| && s.givers[a.t].Done? && |a.ptrs| == 1 && a.ptrs[0] in s.held)
      && (a.FreeCas? ==> a.t < |s.givers| && !a.reload)
      && (a.OwnerWrite? ==> a.b in s.held)
    case Count(t) => t < |s.callers| && !s.callers[t].Back?
    case Discount(t) => t < |s.givers| && !s.givers[t].Done?
  }

  function Add(x: nat, d: int): nat {
    (x + d) % HALF
  }

  function ListStep(s: Slab, a: Action): Slab
    requires Allowed(s, List(a))
  {
    var s' := s.(pool := FreeList.Step(s.pool, a));
    if a.AllocCas? && Wins(s.pool, a) then s'.(callers := s.callers[a.t := Popped(s.pool.allocs[a.t].h)])
    else if a.FreeBegin? then s'.(held := s.held - {a.ptrs[0]})
    else if a.FreeCas? && Wins(s.pool, a) then s'.(givers := s.givers[a.t := Pushed])
    else s'
  }

  function Next(s: Slab, m: Move): Slab
    requires Allowed(s, m)
  {
    match m
    case List(a) => ListStep(s, a)
    case Count(t) =>
      if s.callers[t].Popped? then
        s.(allocCount := Add(s.allocCount, 1), callers := s.callers[t := Raised(s.callers[t].b)])
      else
        s.(freeCount := Add(s.freeCount, -1), callers := s.callers[t := Back], held := s.held + {s.callers[t].b})
    case Discount(t) =>
      match s.givers[t]
      case Pushed => s.(freeCount := Add(s.freeCount, 1), givers := s.givers[t := Noted])
      case Noted => s.(givers := s.givers[t := if s.allocCount > 0 then Passed else Done])
      case Passed => s.(allocCount := Add(s.allocCount, -1), givers := s.givers[t := Done])
      case Done => s
  }

  // ---------------------------------------------------------------------
  // What the counters are at every moment
  // ---------------------------------------------------------------------

  predicate IsPopped(x: Caller) { x.Popped? }

  predicate IsRaised(x: Caller) { x.Raised? }

  predicate IsPushed(x: Giver) { x.Pushed? }

  predicate IsNoted(x: Giver) { x.Noted? }

  predicate IsPassed(x: Giver) { x.Passed? }

  predicate IsHolding(f: Freer) { !f.FIdle? }

  /** Blocks off the list, less allocs not counted yet, plus frees not discounted yet. */
  function AllocValue(s: Slab): int {
    |s.pool.place| - 1 - |s.pool.chain| - CountIf(IsPopped, s.callers)
      + CountIf(IsPushed, s.givers) + CountIf(IsNoted, s.givers) + CountIf(IsPassed, s.givers)
  }

  /** Blocks on the list, plus allocs not discounted yet, less frees not counted yet. */
  function FreeValue(s: Slab): int {
    |s.pool.chain| + CountIf(IsPopped, s.callers) + CountIf(IsRaised, s.callers) - CountIf(IsPushed, s.givers)
  }

  /** Every block is on the list, on its way out, with its owner, or on its way back. */
  ghost predicate Conserved(s: Slab) {
    |s.pool.chain| + CountIf(IsPopped, s.callers) + CountIf(IsRaised, s.callers)
      + |s.held| + CountIf(IsHolding, s.pool.freers) == |s.pool.place| - 1
  }

  ghost predicate OwnedBlock(s: Slab, b: nat) {
    0 < b < |s.pool.place| && s.pool.place[b].Owned?
  }

  ghost predicate Threads(s: Slab) {
    && |s.callers| == |s.pool.allocs| && |s.givers| == |s.pool.freers|
    && (forall t :: 0 <= t < |s.givers| && !s.pool.freers[t].FIdle? ==>
          s.givers[t].Done? && |s.pool.freers[t].ptrs| == 1)
  }

  /** The blocks that are out, each known to one caller only. */
  ghost predicate Owners(s: Slab) {
    && (forall b :: b in s.held ==> OwnedBlock(s, b))
    && (forall t :: 0 <= t < |s.callers| && !s.callers[t].Back? ==>
          OwnedBlock(s, s.callers[t].b) && s.callers[t].b !in s.held)
    && (forall t, u :: 0 <= t < u < |s.callers| && !s.callers[t].Back? && !s.callers[u].Back? ==>
          s.callers[t].b != s.callers[u].b)
  }

  ghost predicate Counters(s: Slab) {
    s.allocCount == AllocValue(s) && s.freeCount == FreeValue(s) % HALF
  }

  /** Blocks and freeing threads together stay below 2^32, so that alloc_count itself does not wrap. */
  ghost predicate Books(s: Slab) {
    && Threads(s) && Owners(s) && Conserved(s) && Counters(s)
    && 0 < |s.pool.place| && |s.pool.place| + |s.givers| < HALF
  }

  ghost predicate Sane(s: Slab) {
    FreeList.Inv(s.pool) && Books(s)
  }

  // ---------------------------------------------------------------------
  // Counting
  // ---------------------------------------------------------------------

  function Bit(b: bool): int {
    if b then 1 else 0
  }

  lemma CallerMoves(cs: seq<Caller>, t: nat, x: Caller)
    requires t < |cs|
    ensures var cs' := cs[t := x];
            && CountIf(IsPopped, cs') == CountIf(IsPopped, cs) - Bit(cs[t].Popped?) + Bit(x.Popped?)
            && CountIf(IsRaised, cs') == CountIf(IsRaised, cs) - Bit(cs[t].Raised?) + Bit(x.Raised?)
  {
    CountUpdate(IsPopped, cs, t, x);
    CountUpdate(IsRaised, cs, t, x);
  }

  lemma GiverMoves(gs: seq<Giver>, t: nat, x: Giver)
    requires t < |gs|
    ensures var gs' := gs[t := x];
            && CountIf(IsPushed, gs') == CountIf(IsPushed, gs) - Bit(gs[t].Pushed?) + Bit(x.Pushed?)
            && CountIf(IsNoted, gs') == CountIf(IsNoted, gs) - Bit(gs[t].Noted?) + Bit(x.Noted?)
            && CountIf(IsPassed, gs') == CountIf(IsPassed, gs) - Bit(gs[t].Passed?) + Bit(x.Passed?)
  {
    CountUpdate(IsPushed, gs, t, x);
    CountUpdate(IsNoted, gs, t, x);
    CountUpdate(IsPassed, gs, t, x);
  }

  /** Threads waiting to discount a free are at most all threads. */
  lemma {:induction false} WaitingBound(gs: seq<Giver>)
    ensures CountIf(IsPushed, gs) + CountIf(IsNoted, gs) + CountIf(IsPassed, gs) <= |gs|
  {
    if gs != [] { WaitingBound(gs[1..]); }
  }

  lemma {:induction false} Counted<T>(p: T -> bool, xs: seq<T>, t: nat)
    requires t < |xs| && p(xs[t])
    ensures CountIf(p, xs) >= 1
    decreases |xs|
  {
    if t > 0 { Counted(p, xs[1..], t - 1); }
  }

  lemma AddWraps(v: int, d: int)
    ensures (v % HALF + d) % HALF == (v + d) % HALF
  {
  }

  lemma AddExact(x: nat, d: int)
    requires 0 <= x + d < HALF
    ensures Add(x, d) == x + d
  {
  }

  /** Raising and lowering free_count follows its value modulo 2^32. */
  lemma FreeFollows(s: Slab, s': Slab, d: int)
    requires s.freeCount == FreeValue(s) % HALF && s'.freeCount == Add(s.freeCount, d)
    requires FreeValue(s') == FreeValue(s) + d
    ensures s'.freeCount == FreeValue(s') % HALF
  {
    AddWraps(FreeValue(s), d);
  }

  /** The guard of free never skips its decrement: the free under way still counts as allocated. */
  lemma GuardPasses(s: Slab, t: nat)
    requires Books(s) && t < |s.givers| && (s.givers[t].Noted? || s.givers[t].Passed?)
    ensures s.allocCount > 0
  {
    if s.givers[t].Noted? { Counted(IsNoted, s.givers, t); } else { Counted(IsPassed, s.givers, t); }
  }

  // ---------------------------------------------------------------------
  // Every step keeps it
  // ---------------------------------------------------------------------

  lemma RaiseKeeps(s: Slab, t: nat)
    requires Books(s) && t < |s.callers| && s.callers[t].Popped?
    ensures Books(Next(s, Count(t)))
  {
    CallerMoves(s.callers, t, Raised(s.callers[t].b));
    WaitingBound(s.givers);
    Counted(IsPopped, s.callers, t);
    AddExact(s.allocCount, 1);
  }

  lemma ReturnKeeps(s: Slab, t: nat)
    requires Books(s) && t < |s.callers| && s.callers[t].Raised?
    ensures Books(Next(s, Count(t)))
  {
    CallerMoves(s.callers, t, Back);
    FreeFollows(s, Next(s, Count(t)), -1);
  }

  lemma NoteKeeps(s: Slab, t: nat)
    requires Books(s) && t < |s.givers| && s.givers[t].Pushed?
    ensures Books(Next(s, Discount(t)))
  {
    GiverMoves(s.givers, t, Noted);
    FreeFollows(s, Next(s, Discount(t)), 1);
  }

  lemma GuardKeeps(s: Slab, t: nat)
    requires Books(s) && t < |s.givers| && s.givers[t].Noted?
    ensures Books(Next(s, Discount(t)))
  {
    GuardPasses(s, t);
    GiverMoves(s.givers, t, Passed);
    assert FreeValue(Next(s, Discount(t))) == FreeValue(s);
  }

  lemma LowerKeeps(s: Slab, t: nat)
    requires Books(s) && t < |s.givers| && s.givers[t].Passed?
    ensures Books(Next(s, Discount(t)))
  {
    GuardPasses(s, t);
    GiverMoves(s.givers, t, Done);
    WaitingBound(s.givers);
    AddExact(s.allocCount, -1);
    assert FreeValue(Next(s, Discount(t))) == FreeValue(s);
  }

  /** Owners are untouched while places of owned blocks, callers and held blocks stay. */
  lemma OwnersFrame(s: Slab, s': Slab)
    requires Owners(s) && s'.callers == s.callers && s'.held == s.held && |s'.pool.place| == |s.pool.place|
    requires forall b :: OwnedBlock(s, b) ==> OwnedBlock(s', b)
    ensures Owners(s')
  {
  }

  lemma PopKeeps(s: Slab, a: Action)
    requires Sane(s) && Allowed(s, List(a)) && a.AllocCas? && Wins(s.pool, a) && Current(s.pool, a)
    ensures Sane(Next(s, List(a)))
  {
    var s' := Next(s, List(a));
    FreeList.StepKeeps(s.pool, a);
    PopKeepsList(s.pool, a);
    var h := s.pool.head;
    assert s.pool.place[h].Free?;
    CallerMoves(s.callers, a.t, Popped(h));
    assert |s'.pool.chain| == |s.pool.chain| - 1;
    assert FreeValue(s') == FreeValue(s);
  }

  /** The begin of a free takes its one block from its owner. */
  lemma BeginMoves(q: Pool, a: Action)
    requires Ready(q, a) && a.FreeBegin? && |a.ptrs| == 1
    ensures var q' := FreeList.Step(q, a);
            && q'.chain == q.chain && |q'.place| == |q.place|
            && q'.allocs == q.allocs && q'.freers == q.freers[a.t := FLinking(a.ptrs, 0)]
            && forall b :: 0 <= b < |q.place| && q.place[b].Owned? && b != a.ptrs[0] ==> q'.place[b].Owned?
  {
    assert forall b :: b in a.ptrs <==> b == a.ptrs[0];
  }

  lemma BeginKeeps(s: Slab, a: Action)
    requires Sane(s) && Allowed(s, List(a)) && a.FreeBegin?
    ensures Sane(Next(s, List(a)))
  {
    var s' := Next(s, List(a));
    FreeList.StepKeeps(s.pool, a);
    BeginMoves(s.pool, a);
    CountUpdate(IsHolding, s.pool.freers, a.t, FLinking(a.ptrs, 0));
    assert FreeValue(s') == FreeValue(s);
  }

  /** A winning push moves its one block to the front of the list. */
  lemma PushMoves(q: Pool, a: Action)
    requires FreeList.Inv(q) && a.FreeCas? && Wins(q, a) && |q.freers[a.t].ptrs| == 1
    ensures var q' := FreeList.Step(q, a);
            && FreeList.Inv(q') && |q'.chain| == |q.chain| + 1
            && |q'.place| == |q.place| && q'.allocs == q.allocs && q'.freers == q.freers[a.t := FIdle]
            && forall b :: 0 <= b < |q.place| && q.place[b].Owned? ==> q'.place[b].Owned?
  {
    FreeList.StepKeeps(q, a);
    assert FreerOk(q, a.t);
    var ptrs := q.freers[a.t].ptrs;
    assert forall b :: b in ptrs <==> b == ptrs[0];
  }

  lemma PushKeeps(s: Slab, a: Action)
    requires Sane(s) && Allowed(s, List(a)) && a.FreeCas? && Wins(s.pool, a)
    ensures Sane(Next(s, List(a)))
  {
    var s' := Next(s, List(a));
    PushMoves(s.pool, a);
    CountUpdate(IsHolding, s.pool.freers, a.t, FIdle);
    GiverMoves(s.givers, a.t, Pushed);
    OwnersFrame(s, s');
    assert FreeValue(s') == FreeValue(s);
  }

  /** The other list steps move no block and leave every hand as it is. */
  lemma QuietMoves(q: Pool, a: Action)
    requires FreeList.Inv(q) && Enabled(q, a) && !a.FreeBegin? && !Wins(q, a)
    ensures var q' := FreeList.Step(q, a);
            && FreeList.Inv(q') && q'.chain == q.chain && q'.place == q.place
            && |q'.allocs| == |q.allocs| && |q'.freers| == |q.freers|
            && (forall t :: 0 <= t < |q.freers| ==>
                  q'.freers[t].FIdle? == q.freers[t].FIdle? && Hand(q'.freers[t]) == Hand(q.freers[t]))
            && CountIf(IsHolding, q'.freers) == CountIf(IsHolding, q.freers)
  {
    FreeList.StepKeeps(q, a);
    QuietHands(q, a);
  }

  lemma QuietHands(q: Pool, a: Action)
    requires Ready(q, a) && !a.FreeBegin? && !Wins(q, a)
    ensures var q' := FreeList.Step(q, a);
            && |q'.freers| == |q.freers|
            && (forall t :: 0 <= t < |q.freers| ==>
                  q'.freers[t].FIdle? == q.freers[t].FIdle? && Hand(q'.freers[t]) == Hand(q.freers[t]))
            && CountIf(IsHolding, q'.freers) == CountIf(IsHolding, q.freers)
  {
    if a.FreeLink? || a.FreeLoad? || a.FreeWrite? || a.FreeCas? {
      CountUpdate(IsHolding, q.freers, a.t, FreeList.Step(q, a).freers[a.t]);
    }
  }

  lemma QuietKeeps(s: Slab, a: Action)
    requires Sane(s) && Allowed(s, List(a)) && !a.FreeBegin? && !Wins(s.pool, a)
    ensures Sane(Next(s, List(a)))
  {
    var s' := Next(s, List(a));
    QuietMoves(s.pool, a);
    OwnersFrame(s, s');
    forall t | 0 <= t < |s'.givers| && !s'.pool.freers[t].FIdle?
      ensures s'.givers[t].Done? && |s'.pool.freers[t].ptrs| == 1
    {
      assert |Hand(s'.pool.freers[t])| == |Hand(s.pool.freers[t])|;
    }
    assert FreeValue(s') == FreeValue(s);
  }

  lemma NextKeeps(s: Slab, m: Move)
    requires Sane(s) && Allowed(s, m) && (m.List? ==> Current(s.pool, m.a))
    ensures Sane(Next(s, m))
  {
    match m
    case List(a) =>
      if a.AllocCas? && Wins(s.pool, a) { PopKeeps(s, a); }
      else if a.FreeBegin? { BeginKeeps(s, a); }
      else if a.FreeCas? && Wins(s.pool, a) { PushKeeps(s, a); }
      else { QuietKeeps(s, a); }
    case Count(t) => if s.callers[t].Popped? { RaiseKeeps(s, t); } else { ReturnKeeps(s, t); }
    case Discount(t) =>
      if s.givers[t].Pushed? { NoteKeeps(s, t); }
      else if s.givers[t].Noted? { GuardKeeps(s, t); }
      else { LowerKeeps(s, t); }
  }

  // ---------------------------------------------------------------------
  // Every interleaving
  // ---------------------------------------------------------------------

  ghost predicate IsHistory(s: Slab, run: seq<Move>)
    decreases |run|
  {
    run != [] ==> Allowed(s, run[0]) && IsHistory(Next(s, run[0]), run[1..])
  }

  ghost function After(s: Slab, run: seq<Move>): Slab
    requires IsHistory(s, run)
    decreases |run|
  {
    if run == [] then s else After(Next(s, run[0]), run[1..])
  }

  /** Every pop takes the head with its current link, as it must for the list itself to survive. */
  ghost predicate AllCurrent(s: Slab, run: seq<Move>)
    requires IsHistory(s, run)
    decreases |run|
  {
    run != [] ==> (run[0].List? ==> Current(s.pool, run[0].a)) && AllCurrent(Next(s, run[0]), run[1..])
  }

  lemma {:induction false} HistoryKeeps(s: Slab, run: seq<Move>)
    requires Sane(s) && IsHistory(s, run) && AllCurrent(s, run)
    ensures Sane(After(s, run))
    decreases |run|
  {
    if run != [] {
      NextKeeps(s, run[0]);
      HistoryKeeps(Next(s, run[0]), run[1..]);
    }
  }

  /** No call is under way. */
  predicate Quiet(s: Slab) {
    && (forall t :: 0 <= t < |s.callers| ==> s.callers[t].Back?)
    && (forall t :: 0 <= t < |s.givers| ==> s.givers[t].Done?)
    && (forall t :: 0 <= t < |s.pool.freers| ==> s.pool.freers[t].FIdle?)
  }

  /** All blocks on the list, nothing under way, the counters as init leaves them. */
  ghost predicate Start(s: Slab) {
    && Quiet(s) && s.held == {} && s.allocCount == 0 && s.freeCount == |s.pool.chain|
    && |s.callers| == |s.pool.allocs| && |s.givers| == |s.pool.freers|
    && (forall t :: 0 <= t < |s.pool.allocs| ==> s.pool.allocs[t].AStart?)
    && ListOk(s.pool) && |s.pool.chain| == |s.pool.place| - 1 && |s.pool.place| + |s.givers| < HALF
    && (forall b :: 0 < b < |s.pool.place| ==> s.pool.place[b].Free?)
  }

  lemma QuietCounts(s: Slab)
    requires Quiet(s)
    ensures CountIf(IsPopped, s.callers) == CountIf(IsRaised, s.callers) == 0
    ensures CountIf(IsPushed, s.givers) == CountIf(IsNoted, s.givers) == CountIf(IsPassed, s.givers) == 0
    ensures CountIf(IsHolding, s.pool.freers) == 0
  {
    CountNone(IsPopped, s.callers);
    CountNone(IsRaised, s.callers);
    CountNone(IsPushed, s.givers);
    CountNone(IsNoted, s.givers);
    CountNone(IsPassed, s.givers);
    CountNone(IsHolding, s.pool.freers);
  }

  lemma StartSane(s: Slab)
    requires Start(s)
    ensures Sane(s)
  {
    IdleInv(s.pool);
    StartBooks(s);
  }

  lemma StartBooks(s: Slab)
    requires Start(s)
    ensures Books(s)
  {
    QuietCounts(s);
    ModSmall(|s.pool.chain|, HALF);
  }

  /** The counters are the lengths of the two parts the blocks fall into. */
  ghost predicate Exact(s: Slab) {
    && Linked(s.pool.head, s.pool.next, s.pool.chain) && Distinct(s.pool.chain)
    && s.freeCount == |s.pool.chain| && s.allocCount == |s.held|
    && |s.pool.chain| + |s.held| == |s.pool.place| - 1
  }

  lemma QuietExact(s: Slab)
    requires ListOk(s.pool) && Books(s) && Quiet(s)
    ensures Exact(s)
  {
    QuietCounts(s);
    ModSmall(|s.pool.chain|, HALF);
  }

  /**
   In every interleaving of allocs and frees whose pops are current: whenever no call is under way, free_count is
   the length of the list and alloc_count the number of blocks with their owners, and no free ever finds
   alloc_count at zero.
   */
  lemma CountersAreExact(s0: Slab, run: seq<Move>)
    requires Start(s0) && IsHistory(s0, run) && AllCurrent(s0, run)
    ensures var s := After(s0, run);
            && (Quiet(s) ==> Exact(s))
            && (forall t :: 0 <= t < |s.givers| && s.givers[t].Noted? ==> s.allocCount > 0)
  {
    StartSane(s0);
    HistoryKeeps(s0, run);
    var s := After(s0, run);
    if Quiet(s) { QuietExact(s); }
    forall t | 0 <= t < |s.givers| && s.givers[t].Noted? ensures s.allocCount > 0 { GuardPasses(s, t); }
  }

  lemma {:induction false} SoloIsCurrent(s: Slab, run: seq<Move>)
    requires Sane(s) && Solo(s.pool) && IsHistory(s, run)
    ensures AllCurrent(s, run)
    decreases |run|
  {
    if run != [] {
      var m := run[0];
      if m.List? {
        SteadyIsCurrent(s.pool, m.a);
        SteadyKeeps(s.pool, m.a, 0);
      }
      NextKeeps(s, m);
      SoloIsCurrent(Next(s, m), run[1..]);
    }
  }

  /** With one allocating thread and any number of freeing threads every pop is current. */
  lemma OneAllocatorCountsExactly(s0: Slab, run: seq<Move>)
    requires Start(s0) && |s0.callers| == 1 && IsHistory(s0, run)
    ensures AllCurrent(s0, run) && (Quiet(After(s0, run)) ==> Exact(After(s0, run)))
  {
    StartSane(s0);
    SoloIsCurrent(s0, run);
    CountersAreExact(s0, run);
  }

  // ---------------------------------------------------------------------
  // Two allocating threads
  // ---------------------------------------------------------------------

  lemma {:induction false} HistorySnoc(s: Slab, run: seq<Move>, m: Move)
    requires IsHistory(s, run) && Allowed(After(s, run), m)
    ensures IsHistory(s, run + [m]) && After(s, run + [m]) == Next(After(s, run), m)
    decreases |run|
  {
    if run != [] {
      assert (run + [m])[1..] == run[1..] + [m];
      HistorySnoc(Next(s, run[0]), run[1..], m);
    }
  }

  /** Three more moves. */
  lemma PlayMoves(s: Slab, done: seq<Move>, a: Move, b: Move, c: Move)
    requires IsHistory(s, done)
    requires var s1 := After(s, done);
             && Allowed(s1, a) && Allowed(Next(s1, a), b) && Allowed(Next(Next(s1, a), b), c)
    ensures IsHistory(s, done + [a, b, c])
    ensures After(s, done + [a, b, c]) == Next(Next(Next(After(s, done), a), b), c)
  {
    HistorySnoc(s, done, a);
    HistorySnoc(s, done + [a], b);
    HistorySnoc(s, done + [a] + [b], c);
    assert done + [a] + [b] + [c] == done + [a, b, c];
  }

  /** The slab of FreeList's two-allocator run. */
  const SHARED: Slab := Slab(TWO, [Back, Back], [Done], 0, 3, {})

  /** Thread 0 reads head 1 and its link 2 and stalls. */
  const MOVES_0: seq<Move> := [List(AllocLoad(0)), List(AllocRead(0)), List(AllocLoad(1))]

  lemma Moves0()
    ensures IsHistory(SHARED, MOVES_0)
    ensures After(SHARED, MOVES_0) == SHARED.(pool := TWO.(allocs := [ARead(1, 2), ALoaded(1)]))
  {
    PlayMoves(SHARED, [], List(AllocLoad(0)), List(AllocRead(0)), List(AllocLoad(1)));
    assert [] + MOVES_0 == MOVES_0;
  }

  /** Thread 1 takes block 1. */
  const MOVES_A: seq<Move> := MOVES_0 + [List(AllocRead(1)), List(AllocCas(1)), Count(1)]

  lemma MovesA()
    ensures IsHistory(SHARED, MOVES_A)
    ensures After(SHARED, MOVES_A) ==
            Slab(Pool(2, [0, 2, 3, 0], [ARead(1, 2), AStart], [FIdle], [2, 3], [Owned, Owned, Free, Free]),
                 [Back, Raised(1)], [Done], 1, 3, {})
  {
    Moves0();
    PlayMoves(SHARED, MOVES_0, List(AllocRead(1)), List(AllocCas(1)), Count(1));
  }

  /** Thread 1 takes block 2. */
  const MOVES_B: seq<Move> := MOVES_A + [Count(1), List(AllocLoad(1)), List(AllocRead(1))]

  lemma MovesB()
    ensures IsHistory(SHARED, MOVES_B)
    ensures After(SHARED, MOVES_B) ==
            Slab(Pool(2, [0, 2, 3, 0], [ARead(1, 2), ARead(2, 3)], [FIdle], [2, 3], [Owned, Owned, Free, Free]),
                 [Back, Back], [Done], 1, 2, {1})
  {
    MovesA();
    PlayMoves(SHARED, MOVES_A, Count(1), List(AllocLoad(1)), List(AllocRead(1)));
  }

  const MOVES_C: seq<Move> := MOVES_B + [List(AllocCas(1)), Count(1), Count(1)]

  lemma MovesC()
    ensures IsHistory(SHARED, MOVES_C)
    ensures After(SHARED, MOVES_C) ==
            Slab(Pool(3, [0, 2, 3, 0], [ARead(1, 2), AStart], [FIdle], [3], [Owned, Owned, Owned, Free]),
                 [Back, Back], [Done], 2, 1, {1, 2})
  {
    MovesB();
    PlayMoves(SHARED, MOVES_B, List(AllocCas(1)), Count(1), Count(1));
  }

  /** Block 1 is given back. */
  const MOVES_G: seq<Move> := MOVES_C + [List(FreeBegin(0, [1]))]

  lemma MovesG()
    ensures IsHistory(SHARED, MOVES_G)
    ensures After(SHARED, MOVES_G) ==
            Slab(Pool(3, [0, 2, 3, 0], [ARead(1, 2), AStart], [FLinking([1], 0)], [3], [Owned, Flight(0), Owned, Free]),
                 [Back, Back], [Done], 2, 1, {2})
  {
    MovesC();
    HistorySnoc(SHARED, MOVES_C, List(FreeBegin(0, [1])));
  }

  const MOVES_D: seq<Move> := MOVES_G + [List(FreeLink(0)), List(FreeLoad(0)), List(FreeWrite(0))]

  lemma MovesD()
    ensures IsHistory(SHARED, MOVES_D)
    ensures After(SHARED, MOVES_D) ==
            Slab(Pool(3, [0, 3, 3, 0], [ARead(1, 2), AStart], [FSwap([1], 3)], [3], [Owned, Flight(0), Owned, Free]),
                 [Back, Back], [Done], 2, 1, {2})
  {
    MovesG();
    PlayMoves(SHARED, MOVES_G, List(FreeLink(0)), List(FreeLoad(0)), List(FreeWrite(0)));
  }

  const MOVES_E: seq<Move> := MOVES_D + [List(FreeCas(0, false)), Discount(0), Discount(0)]

  lemma MovesE()
    ensures IsHistory(SHARED, MOVES_E)
    ensures After(SHARED, MOVES_E) ==
            Slab(Pool(1, [0, 3, 3, 0], [ARead(1, 2), AStart], [FIdle], [1, 3], [Owned, Free, Owned, Free]),
                 [Back, Back], [Passed], 2, 2, {2})
  {
    MovesD();
    PlayMoves(SHARED, MOVES_D, List(FreeCas(0, false)), Discount(0), Discount(0));
  }

  /** Thread 0 wakes up and its swap of 1 for 2 succeeds. */
  const MOVES_F: seq<Move> := MOVES_E + [Discount(0), List(AllocCas(0)), Count(0)]

  lemma MovesF()
    ensures IsHistory(SHARED, MOVES_F)
    ensures After(SHARED, MOVES_F) ==
            Slab(Pool(2, [0, 3, 3, 0], [AStart, AStart], [FIdle], [3], [Owned, Owned, Owned, Free]),
                 [Raised(1), Back], [Done], 2, 2, {2})
  {
    MovesE();
    PlayMoves(SHARED, MOVES_E, Discount(0), List(AllocCas(0)), Count(0));
  }

  /** With two allocating threads and no call under way the list has two blocks and free_count says one. */
  lemma TwoAllocatorsMiscount()
    ensures var run := MOVES_F + [Count(0)];
            && Start(SHARED) && IsHistory(SHARED, run)
            && var s := After(SHARED, run);
            && Quiet(s) && Linked(s.pool.head, s.pool.next, [2, 3]) && s.freeCount == 1
  {
    TwoListOk();
    MovesF();
    HistorySnoc(SHARED, MOVES_F, Count(0));
  }
}
