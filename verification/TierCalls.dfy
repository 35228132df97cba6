/** The tier calls undisturbed: what one call does from start to end, and the allocator in place. */
module TierCalls {
  import opened Bits
  import opened Slab
  import opened Tier
  import opened ListCalls
  import FreeList

  // ---------------------------------------------------------------------
  // Whole calls
  // ---------------------------------------------------------------------

  function ColdCall(t: Tiers, size: nat, heap: nat): Tiers {
    t.(served := t.served + [Grant(Cold, heap, 0, 0, size)])
  }

  function WarmCall(t: Tiers, size: nat, heap: nat): Tiers {
    if t.warmBase == 0 then ColdCall(t, size, heap)
    else
      var t' := t.(warmOffset := (t.warmOffset + RoundLine(size)) % WORD);
      if WarmServes(t.warmOffset, size, t.warmSize) then
        t'.(served := t'.served + [Grant(Warm, t.warmBase + t.warmOffset, 0, 0, size)])
      else ColdCall(t', size, heap)
  }

  predicate HeadOk(s: HotSlab) {
    s.pool.head < |s.pool.next|
  }

  function HotCall(t: Tiers, size: nat, heap: nat): Tiers
    requires t.hot != [] ==> 0 <= Rem(t.hotNext, |t.hot|) < |t.hot| && HeadOk(t.hot[Rem(t.hotNext, |t.hot|)])
  {
    if t.hot == [] then WarmCall(t, size, heap)
    else
      var i := Rem(t.hotNext, |t.hot|);
      var t' := t.(hotNext := NextInt(t.hotNext));
      var s := t.hot[i];
      if s.pool.head == 0 then WarmCall(t', size, heap)
      else
        t'.(hot := t.hot[i := s.(pool := Popped(s.pool))], out := t.out + multiset{(i, s.pool.head)},
            served := t.served + [Grant(Hot, Addr(s.base, s.pool.head), i, s.pool.head, size)])
  }

  /** bt_tier_alloc. */
  function AllocCall(t: Tiers, level: Level, size: nat, heap: nat): Tiers
    requires level.Hot? && t.hot != [] ==>
               0 <= Rem(t.hotNext, |t.hot|) < |t.hot| && HeadOk(t.hot[Rem(t.hotNext, |t.hot|)])
  {
    match level
    case Hot => HotCall(t, size, heap)
    case Warm => WarmCall(t, size, heap)
    case Cold => ColdCall(t, size, heap)
  }

  /** bt_tier_free with the HOT tier. */
  function FreeCall(t: Tiers, ptr: nat): Tiers {
    var i := OwnerFrom(t.hot, ptr, 0);
    if ptr == 0 || i == |t.hot| then t
    else
      var b := BlockOf(t.hot[i], ptr);
      t.(hot := t.hot[i := t.hot[i].(pool := Given(t.hot[i].pool, b))], out := t.out - multiset{(i, b)})
  }

  // ---------------------------------------------------------------------
  // A call nobody disturbs is a run of the machine
  // ---------------------------------------------------------------------

  function WarmRun(t: Tiers, u: nat, size: nat, heap: nat): seq<Action> {
    if t.warmBase != 0 && WarmServes(t.warmOffset, size, t.warmSize) then [WarmAdd(u)] else [WarmAdd(u), Heap(u, heap)]
  }

  function AllocRun(t: Tiers, u: nat, level: Level, size: nat, heap: nat): seq<Action>
    requires Can(t, Request(u, level, size))
  {
    match level
    case Hot =>
      if t.hot == [] then [Request(u, Hot, size)] + WarmRun(t, u, size, heap)
      else if t.hot[Rem(t.hotNext, |t.hot|)].pool.head == 0 then
        [Request(u, Hot, size), InList(u, FreeList.AllocLoad(u))] + WarmRun(t, u, size, heap)
      else
        [Request(u, Hot, size), InList(u, FreeList.AllocLoad(u)), InList(u, FreeList.AllocRead(u)),
         InList(u, FreeList.AllocCas(u))]
    case Warm => [Request(u, Warm, size)] + WarmRun(t, u, size, heap)
    case Cold => [Request(u, Cold, size), Heap(u, heap)]
  }

  function FreeRun(t: Tiers, u: nat, ptr: nat): seq<Action> {
    if ptr == 0 || OwnerFrom(t.hot, ptr, 0) == |t.hot| then [Release(u, ptr)]
    else
      [Release(u, ptr), InList(u, FreeList.FreeLink(u)), InList(u, FreeList.FreeLoad(u)),
       InList(u, FreeList.FreeWrite(u)), InList(u, FreeList.FreeCas(u, false))]
  }

  lemma RunCons(t: Tiers, x: Action, run: seq<Action>)
    requires Can(t, x) && IsRun(Next(t, x), run)
    ensures IsRun(t, [x] + run) && Final(t, [x] + run) == Final(Next(t, x), run)
  {
    assert ([x] + run)[1..] == run;
  }

  lemma RunOne(t: Tiers, x: Action)
    requires Can(t, x)
    ensures IsRun(t, [x]) && Final(t, [x]) == Next(t, x)
  {
    RunCons(t, x, []);
    assert [x] + [] == [x];
  }

  lemma RunTwo(t: Tiers, x: Action, y: Action)
    requires Can(t, x) && Can(Next(t, x), y)
    ensures IsRun(t, [x, y]) && Final(t, [x, y]) == Next(Next(t, x), y)
  {
    RunOne(Next(t, x), y);
    RunCons(t, x, [y]);
    assert [x] + [y] == [x, y];
  }

  lemma BackOut(ts: seq<Thread>, u: nat, x: Thread)
    requires u < |ts| && ts[u].Out?
    ensures ts[u := x][u := Out] == ts
  {
  }

  lemma Again(ts: seq<Thread>, u: nat, x: Thread, y: Thread)
    requires u < |ts|
    ensures ts[u := x][u := y] == ts[u := y]
  {
  }

  /** From the WARM bump on. */
  lemma WarmIsRun(t: Tiers, u: nat, size: nat, heap: nat)
    requires u < |t.threads| && t.threads[u].Out?
    ensures var t1 := Goto(t, u, AtWarm(size));
            IsRun(t1, WarmRun(t, u, size, heap)) && Final(t1, WarmRun(t, u, size, heap)) == WarmCall(t, size, heap)
  {
    var t1 := Goto(t, u, AtWarm(size));
    BackOut(t.threads, u, AtWarm(size));
    BackOut(t.threads, u, AtCold(size));
    Again(t.threads, u, AtWarm(size), AtCold(size));
    if t.warmBase != 0 && WarmServes(t.warmOffset, size, t.warmSize) {
      RunOne(t1, WarmAdd(u));
    } else {
      RunTwo(t1, WarmAdd(u), Heap(u, heap));
    }
  }

  /** A tier state in which slab i has list q and thread u is allocating there. */
  function Taking(t: Tiers, i: nat, q: FreeList.Pool, u: nat, size: nat): Tiers
    requires i < |t.hot| && u < |t.threads|
  {
    Goto(t, u, InSlab(i, size)).(hotNext := NextInt(t.hotNext), hot := t.hot[i := t.hot[i].(pool := q)])
  }

  lemma TakingStep(t: Tiers, i: nat, q: FreeList.Pool, u: nat, size: nat, a: FreeList.Action)
    requires i < |t.hot| && u < |t.threads| && AllocAction(a, u) && FreeList.Ready(q, a) && !a.AllocCas?
    requires a.AllocLoad? ==> q.head != 0
    ensures var w := Taking(t, i, q, u, size);
            Can(w, InList(u, a)) && Next(w, InList(u, a)) == Taking(t, i, FreeList.Step(q, a), u, size)
  {
  }

  lemma TakingWins(t: Tiers, i: nat, q: FreeList.Pool, u: nat, size: nat)
    requires i < |t.hot| && u < |t.threads| && t.threads[u].Out? && FreeList.Wins(q, FreeList.AllocCas(u))
    ensures var w, a := Taking(t, i, q, u, size), FreeList.AllocCas(u);
            && Can(w, InList(u, a))
            && Next(w, InList(u, a)) ==
               t.(hotNext := NextInt(t.hotNext), hot := t.hot[i := t.hot[i].(pool := FreeList.Step(q, a))],
                  out := t.out + multiset{(i, q.head)},
                  served := t.served + [Grant(Hot, Addr(t.hot[i].base, q.head), i, q.head, size)])
  {
    BackOut(t.threads, u, InSlab(i, size));
  }

  /** The list steps of a pop that nobody disturbs. */
  lemma TakeTail(t: Tiers, i: nat, u: nat, size: nat)
    requires i < |t.hot| && u < |t.threads| && t.threads[u].Out?
    requires var q := t.hot[i].pool; 0 < q.head < |q.next| && u < |q.allocs| && q.allocs[u].AStart?
    ensures var q := t.hot[i].pool;
            var w := Taking(t, i, q, u, size);
            var run := [InList(u, FreeList.AllocLoad(u)), InList(u, FreeList.AllocRead(u))]
                       + [InList(u, FreeList.AllocCas(u))];
            && IsRun(w, run)
            && Final(w, run) ==
               t.(hotNext := NextInt(t.hotNext), hot := t.hot[i := t.hot[i].(pool := Popped(q))],
                  out := t.out + multiset{(i, q.head)},
                  served := t.served + [Grant(Hot, Addr(t.hot[i].base, q.head), i, q.head, size)])
  {
    var q := t.hot[i].pool;
    PopAfterRead(q, u);
    var q2 := FreeList.Step(q, FreeList.AllocLoad(u));
    assert q.allocs[u := FreeList.ALoaded(q.head)][u := FreeList.ARead(q.head, q.next[q.head])]
        == q.allocs[u := FreeList.ARead(q.head, q.next[q.head])];
    var q3 := FreeList.Step(q2, FreeList.AllocRead(u));
    TakingStep(t, i, q, u, size, FreeList.AllocLoad(u));
    TakingStep(t, i, q2, u, size, FreeList.AllocRead(u));
    TakingWins(t, i, q3, u, size);
    RunOne(Taking(t, i, q3, u, size), InList(u, FreeList.AllocCas(u)));
    TwoThen(Taking(t, i, q, u, size), InList(u, FreeList.AllocLoad(u)), InList(u, FreeList.AllocRead(u)),
            [InList(u, FreeList.AllocCas(u))]);
  }

  lemma HotIsRun(t: Tiers, u: nat, size: nat, heap: nat)
    requires Can(t, Request(u, Hot, size)) && t.hot != []
    requires var s := t.hot[Rem(t.hotNext, |t.hot|)];
             HeadOk(s) && s.pool.head != 0 && u < |s.pool.allocs| && s.pool.allocs[u].AStart?
    ensures var run := AllocRun(t, u, Hot, size, heap);
            IsRun(t, run) && Final(t, run) == HotCall(t, size, heap)
  {
    var i := Rem(t.hotNext, |t.hot|);
    TakeTail(t, i, u, size);
    assert t.hot[i := t.hot[i].(pool := t.hot[i].pool)] == t.hot;
    assert Next(t, Request(u, Hot, size)) == Taking(t, i, t.hot[i].pool, u, size);
    var run := [InList(u, FreeList.AllocLoad(u)), InList(u, FreeList.AllocRead(u))]
               + [InList(u, FreeList.AllocCas(u))];
    RunCons(t, Request(u, Hot, size), run);
    assert [Request(u, Hot, size)] + run == AllocRun(t, u, Hot, size, heap);
  }

  /** An undisturbed bt_tier_alloc of any thread, whatever the others have under way, is a run with that effect. */
  lemma AllocIsRun(t: Tiers, u: nat, level: Level, size: nat, heap: nat)
    requires Can(t, Request(u, level, size))
    requires level.Hot? && t.hot != [] ==>
               var s := t.hot[Rem(t.hotNext, |t.hot|)];
               HeadOk(s) && u < |s.pool.allocs| && s.pool.allocs[u].AStart?
    ensures var run := AllocRun(t, u, level, size, heap);
            IsRun(t, run) && Final(t, run) == AllocCall(t, level, size, heap)
  {
    BackOut(t.threads, u, AtCold(size));
    if level.Hot? && t.hot != [] {
      var i := Rem(t.hotNext, |t.hot|);
      if t.hot[i].pool.head == 0 { EmptySlabIsRun(t, u, size, heap); } else { HotIsRun(t, u, size, heap); }
    } else if level.Cold? {
      RunTwo(t, Request(u, Cold, size), Heap(u, heap));
    } else {
      WarmIsRun(t, u, size, heap);
      RunCons(t, Request(u, level, size), WarmRun(t, u, size, heap));
    }
  }

  lemma EmptySlabIsRun(t: Tiers, u: nat, size: nat, heap: nat)
    requires Can(t, Request(u, Hot, size)) && t.hot != []
    requires var s := t.hot[Rem(t.hotNext, |t.hot|)];
             s.pool.head == 0 && HeadOk(s) && u < |s.pool.allocs| && s.pool.allocs[u].AStart?
    ensures var run := AllocRun(t, u, Hot, size, heap);
            IsRun(t, run) && Final(t, run) == HotCall(t, size, heap)
  {
    var i := Rem(t.hotNext, |t.hot|);
    var rest := WarmRun(t, u, size, heap);
    var t' := t.(hotNext := NextInt(t.hotNext));
    assert t.hot[i := t.hot[i].(pool := t.hot[i].pool)] == t.hot;
    assert Next(t, Request(u, Hot, size)) == Taking(t, i, t.hot[i].pool, u, size);
    TakingNothing(t, i, u, size);
    WarmIsRun(t', u, size, heap);
    TwoThen(t, Request(u, Hot, size), InList(u, FreeList.AllocLoad(u)), rest);
  }

  /** The slab has no block. */
  lemma TakingNothing(t: Tiers, i: nat, u: nat, size: nat)
    requires i < |t.hot| && u < |t.threads|
    requires var q := t.hot[i].pool; q.head == 0 && u < |q.allocs| && q.allocs[u].AStart?
    ensures var w := Taking(t, i, t.hot[i].pool, u, size);
            && Can(w, InList(u, FreeList.AllocLoad(u)))
            && Next(w, InList(u, FreeList.AllocLoad(u))) ==
               Goto(t.(hotNext := NextInt(t.hotNext)), u, AtWarm(size))
  {
    var q := t.hot[i].pool;
    assert FreeList.Step(q, FreeList.AllocLoad(u)) == q by { assert q.allocs[u := FreeList.AStart] == q.allocs; }
    Again(t.threads, u, InSlab(i, size), AtWarm(size));
    var w := Taking(t, i, q, u, size);
    assert Next(w, InList(u, FreeList.AllocLoad(u))).hot == t.hot;
  }

  // ---------------------------------------------------------------------
  // The same for free
  // ---------------------------------------------------------------------

  /** A tier state in which slab i has list q and thread u is freeing there. */
  function WithPool(t: Tiers, i: nat, q: FreeList.Pool, u: nat, out: multiset<(nat, nat)>): Tiers
    requires i < |t.hot| && u < |t.threads|
  {
    Goto(t, u, Giving(i)).(hot := t.hot[i := t.hot[i].(pool := q)], out := out)
  }

  lemma GivingStep(t: Tiers, i: nat, q: FreeList.Pool, u: nat, out: multiset<(nat, nat)>, a: FreeList.Action)
    requires i < |t.hot| && u < |t.threads| && FreeAction(a, u) && FreeList.Ready(q, a) && !FreeList.Wins(q, a)
    ensures var w := WithPool(t, i, q, u, out);
            Can(w, InList(u, a)) && Next(w, InList(u, a)) == WithPool(t, i, FreeList.Step(q, a), u, out)
  {
  }

  lemma GivingWins(t: Tiers, i: nat, q: FreeList.Pool, u: nat, out: multiset<(nat, nat)>, a: FreeList.Action)
    requires i < |t.hot| && u < |t.threads| && t.threads[u].Out?
    requires FreeAction(a, u) && a.FreeCas? && FreeList.Wins(q, a)
    ensures var w := WithPool(t, i, q, u, out);
            && Can(w, InList(u, a))
            && Next(w, InList(u, a)) == t.(hot := t.hot[i := t.hot[i].(pool := FreeList.Step(q, a))], out := out)
  {
    BackOut(t.threads, u, Giving(i));
  }

  /** The last four steps of a free. */
  lemma FreeTail(t: Tiers, u: nat, i: nat, b: nat, out: multiset<(nat, nat)>)
    requires i < |t.hot| && u < |t.threads| && t.threads[u].Out?
    requires var q := t.hot[i].pool; u < |q.freers| && q.freers[u].FIdle? && 0 < b < |q.place|
    ensures FreeList.Ready(t.hot[i].pool, FreeList.FreeBegin(u, [b]))
    ensures var q := t.hot[i].pool;
            var w := WithPool(t, i, FreeList.Step(q, FreeList.FreeBegin(u, [b])), u, out);
            var run := [InList(u, FreeList.FreeLink(u)), InList(u, FreeList.FreeLoad(u))]
                       + [InList(u, FreeList.FreeWrite(u)), InList(u, FreeList.FreeCas(u, false))];
            && IsRun(w, run)
            && Final(w, run) == t.(hot := t.hot[i := t.hot[i].(pool := Given(q, b))], out := out)
  {
    var q := t.hot[i].pool;
    FreeSteps(q, u, b);
    FreeSwaps(q, u, b);
    var q1 := FreeList.Step(q, FreeList.FreeBegin(u, [b]));
    var q2, q3 := FreeList.Step(q1, FreeList.FreeLink(u)), Freeing(q, u, b, FreeList.FWrite([b], q.head), false);
    var q4 := FreeList.Step(q3, FreeList.FreeWrite(u));
    GivingStep(t, i, q1, u, out, FreeList.FreeLink(u));
    GivingStep(t, i, q2, u, out, FreeList.FreeLoad(u));
    GivingStep(t, i, q3, u, out, FreeList.FreeWrite(u));
    GivingWins(t, i, q4, u, out, FreeList.FreeCas(u, false));
    var w1, w3 := WithPool(t, i, q1, u, out), WithPool(t, i, q3, u, out);
    RunTwo(w3, InList(u, FreeList.FreeWrite(u)), InList(u, FreeList.FreeCas(u, false)));
    TwoThen(w1, InList(u, FreeList.FreeLink(u)), InList(u, FreeList.FreeLoad(u)),
            [InList(u, FreeList.FreeWrite(u)), InList(u, FreeList.FreeCas(u, false))]);
  }

  lemma TwoThen(t: Tiers, x: Action, y: Action, run: seq<Action>)
    requires Can(t, x) && Can(Next(t, x), y) && IsRun(Next(Next(t, x), y), run)
    ensures IsRun(t, [x, y] + run) && Final(t, [x, y] + run) == Final(Next(Next(t, x), y), run)
  {
    RunCons(Next(t, x), y, run);
    RunCons(t, x, [y] + run);
    assert [x] + ([y] + run) == [x, y] + run;
  }

  /** An undisturbed bt_tier_free is a run that puts the block in front of the list of the slab owning it. */
  lemma FreeIsRun(t: Tiers, u: nat, ptr: nat)
    requires Can(t, Release(u, ptr))
    ensures IsRun(t, FreeRun(t, u, ptr)) && Final(t, FreeRun(t, u, ptr)) == FreeCall(t, ptr)
  {
    var i := OwnerFrom(t.hot, ptr, 0);
    if ptr == 0 || i == |t.hot| {
      RunOne(t, Release(u, ptr));
    } else {
      var b := BlockOf(t.hot[i], ptr);
      var ptrs := [b];
      assert ptrs[0] == b;
      var tail := [InList(u, FreeList.FreeLink(u)), InList(u, FreeList.FreeLoad(u))]
                  + [InList(u, FreeList.FreeWrite(u)), InList(u, FreeList.FreeCas(u, false))];
      FreeTail(t, u, i, b, t.out - multiset{(i, b)});
      RunCons(t, Release(u, ptr), tail);
      assert [Release(u, ptr)] + tail == FreeRun(t, u, ptr);
    }
  }

  // ---------------------------------------------------------------------
  // In place
  // ---------------------------------------------------------------------

  /** A slab between calls of a single thread. */
  ghost predicate Calm(s: HotSlab) {
    SlabOk(s, 1) && s.pool.allocs == [FreeList.AStart] && s.pool.freers == [FreeList.FIdle]
  }

  lemma CalmHead(s: HotSlab)
    requires Calm(s)
    ensures HeadOk(s)
  {
  }

  lemma PoppedCalm(s: HotSlab)
    requires Calm(s) && s.pool.head != 0
    ensures HeadOk(s) && Calm(s.(pool := Popped(s.pool)))
  {
    var q := s.pool;
    var q3 := q.(allocs := q.allocs[0 := FreeList.ARead(q.head, q.next[q.head])]);
    PopAfterRead(q, 0);
    FreeList.AllocsAside(q, q3);
    FreeList.PopKeeps(q3, FreeList.AllocCas(0));
  }

  lemma GivenCalm(s: HotSlab, b: nat)
    requires Calm(s) && 0 < b < |s.pool.place| && s.pool.place[b].Owned?
    ensures Calm(s.(pool := Given(s.pool, b)))
  {
    var q := s.pool;
    var ptrs := [b];
    assert ptrs[0] == b;
    FreeSteps(q, 0, b);
    FreeSwaps(q, 0, b);
    FreeList.StepKeeps(q, FreeList.FreeBegin(0, [b]));
    var q1 := FreeList.Step(q, FreeList.FreeBegin(0, [b]));
    FreeList.StepKeeps(q1, FreeList.FreeLink(0));
    var q2 := FreeList.Step(q1, FreeList.FreeLink(0));
    FreeList.StepKeeps(q2, FreeList.FreeLoad(0));
    var q3 := FreeList.Step(q2, FreeList.FreeLoad(0));
    FreeList.StepKeeps(q3, FreeList.FreeWrite(0));
    FreeList.StepKeeps(FreeList.Step(q3, FreeList.FreeWrite(0)), FreeList.FreeCas(0, false));
  }

  /** The block a release gives back. */
  lemma ReleaseBlock(t: Tiers, ptr: nat)
    requires Can(t, Release(0, ptr)) && ptr != 0 && OwnerFrom(t.hot, ptr, 0) < |t.hot|
    ensures Owns(t.hot[OwnerFrom(t.hot, ptr, 0)], ptr)
    ensures var i := OwnerFrom(t.hot, ptr, 0);
            var b := BlockOf(t.hot[i], ptr);
            && 0 < b < |t.hot[i].pool.place|
            && (Owning(t, Release(0, ptr)) ==> t.hot[i].pool.place[b].Owned?)
            && FreeCall(t, ptr) ==
               t.(hot := t.hot[i := t.hot[i].(pool := Given(t.hot[i].pool, b))], out := t.out - multiset{(i, b)})
  {
    var ptrs := [BlockOf(t.hot[OwnerFrom(t.hot, ptr, 0)], ptr)];
    assert ptrs[0] == ptrs[|ptrs| - 1];
  }

  class TierAllocator {
    const hot: array<HotSlab>
    const warmBase: nat
    const warmSize: nat
    var hotNext: int
    var warmOffset: nat
    ghost var served: seq<Grant>
    ghost var out: multiset<(nat, nat)>

    constructor (hot: array<HotSlab>, warmBase: nat, warmSize: nat)
      ensures View() == Tiers(hot[..], 0, warmBase, warmSize, 0, [Out], [], multiset{}) && this.hot == hot
    {
      this.hot, this.warmBase, this.warmSize := hot, warmBase, warmSize;
      hotNext, warmOffset, served, out := 0, 0, [], multiset{};
    }

    ghost function View(): Tiers
      reads this, hot
    {
      Tiers(hot[..], hotNext, warmBase, warmSize, warmOffset, [Out], served, out)
    }

    /** All lists are intact and no call is under way. */
    ghost predicate Valid()
      reads hot
    {
      forall i :: 0 <= i < hot.Length ==> Calm(hot[i])
    }

    /** The scan that finds the slab owning ptr. */
    method FindOwner(ptr: nat) returns (i: nat)
      ensures i == OwnerFrom(hot[..], ptr, 0)
    {
      i := 0;
      while i < hot.Length
        invariant 0 <= i <= hot.Length && OwnerFrom(hot[..], ptr, 0) == OwnerFrom(hot[..], ptr, i)
      {
        if InRange(hot[i].base, LINE, hot[i].blocks, ptr) { return; }
        i := i + 1;
      }
    }

    /** bt_tier_classify. */
    method LookUp(ptr: nat) returns (level: Level)
      ensures level == Classify(View(), ptr)
    {
      if ptr == 0 { return Cold; }
      var i := FindOwner(ptr);
      if i < hot.Length { return Hot; }
      if warmBase != 0 && warmBase <= ptr < warmBase + warmSize { return Warm; }
      return Cold;
    }

    /** The WARM and COLD branches of bt_tier_alloc; heap is what calloc would return. */
    method AllocWarm(size: nat, heap: nat) returns (ptr: nat)
      modifies this
      ensures View() == WarmCall(old(View()), size, heap) && served != [] && ptr == served[|served| - 1].ptr
    {
      if warmBase != 0 {
        var aligned := RoundLine(size);
        var mine := warmOffset;
        warmOffset := (warmOffset + aligned) % WORD;
        if (mine + aligned) % WORD <= warmSize {
          served := served + [Grant(Warm, warmBase + mine, 0, 0, size)];
          return warmBase + mine;
        }
      }
      served := served + [Grant(Cold, heap, 0, 0, size)];
      return heap;
    }

    /** bt_slab_alloc of slab i; NULL when its list is empty. */
    method AllocFrom(i: nat) returns (b: nat)
      requires i < hot.Length && Calm(hot[i])
      modifies hot
      ensures b == old(hot[i].pool.head) && HeadOk(old(hot[i])) && Calm(hot[i])
      ensures hot[..] == if b == 0 then old(hot[..])
                         else old(hot[..])[i := old(hot[i]).(pool := Popped(old(hot[i].pool)))]
    {
      var q := hot[i].pool;
      CalmHead(hot[i]);
      b := q.head;
      if b != 0 {
        PoppedCalm(hot[i]);
        hot[i] := hot[i].(pool := Popped(q));
      }
    }

    /** The HOT branch of bt_tier_alloc; not found when the slab whose turn it is has no block. */
    method AllocHot(size: nat) returns (found: bool, ptr: nat)
      requires Valid() && hot.Length > 0 && 0 <= Rem(hotNext, hot.Length) < hot.Length
      modifies this, hot
      ensures Valid() && HeadOk(old(hot[Rem(hotNext, hot.Length)]))
      ensures var i, t := Rem(old(hotNext), hot.Length), old(View());
              var b := t.hot[i].pool.head;
              && (found <==> b != 0)
              && (b == 0 ==> View() == t.(hotNext := NextInt(t.hotNext)))
              && (b != 0 ==>
                    && ptr == Addr(t.hot[i].base, b)
                    && View() == t.(hotNext := NextInt(t.hotNext), out := t.out + multiset{(i, b)},
                                    hot := t.hot[i := t.hot[i].(pool := Popped(t.hot[i].pool))],
                                    served := t.served + [Grant(Hot, ptr, i, b, size)]))
    {
      var i := Rem(hotNext, hot.Length);
      hotNext := NextInt(hotNext);
      var b := AllocFrom(i);
      if b == 0 { return false, 0; }
      found, ptr := true, Addr(hot[i].base, b);
      served := served + [Grant(Hot, ptr, i, b, size)];
      out := out + multiset{(i, b)};
    }

    /** bt_tier_alloc. */
    method Alloc(level: Level, size: nat, heap: nat) returns (ptr: nat)
      requires Valid() && (level.Hot? && hot.Length > 0 ==> 0 <= Rem(hotNext, hot.Length) < hot.Length)
      modifies this, hot
      ensures Valid() && (level.Hot? && hot.Length > 0 ==> HeadOk(old(hot[Rem(hotNext, hot.Length)])))
      ensures View() == AllocCall(old(View()), level, size, heap)
      ensures served != [] && ptr == served[|served| - 1].ptr
    {
      if level.Cold? {
        served := served + [Grant(Cold, heap, 0, 0, size)];
        return heap;
      }
      if level.Hot? && hot.Length > 0 {
        var found;
        found, ptr := AllocHot(size);
        if found { return; }
      }
      ptr := AllocWarm(size, heap);
    }

    /** bt_slab_free of slab i. */
    method GiveTo(i: nat, b: nat)
      requires i < hot.Length && Valid() && 0 < b < |hot[i].pool.place|
      modifies this`out, hot
      ensures View() == old(View()).(hot := old(View()).hot[i := old(hot[i]).(pool := Given(old(hot[i].pool), b))],
                                     out := old(out) - multiset{(i, b)})
      ensures old(hot[i].pool.place[b]).Owned? ==> Valid()
    {
      if hot[i].pool.place[b].Owned? { GivenCalm(hot[i], b); }
      hot[i] := hot[i].(pool := Given(hot[i].pool, b));
      out := out - multiset{(i, b)};
    }

    /** The HOT branch of bt_tier_free: a pointer no slab owns is ignored. */
    method FreeHot(ptr: nat)
      requires Valid() && Can(View(), Release(0, ptr))
      modifies this`out, hot
      ensures View() == FreeCall(old(View()), ptr)
      ensures old(Owning(View(), Release(0, ptr))) ==> Valid()
    {
      if ptr == 0 { return; }
      var i := FindOwner(ptr);
      if i < hot.Length {
        ReleaseBlock(View(), ptr);
        GiveTo(i, BlockOf(hot[i], ptr));
      }
    }

    /** bt_tier_free: only the HOT tier gives a block back. */
    method Free(level: Level, ptr: nat)
      requires Valid() && (level.Hot? ==> Can(View(), Release(0, ptr)))
      modifies this`out, hot
      ensures View() == if level.Hot? then FreeCall(old(View()), ptr) else old(View())
      ensures old(level.Hot? ==> Owning(View(), Release(0, ptr))) ==> Valid()
    {
      if level.Hot? { FreeHot(ptr); }
    }
  }
}
