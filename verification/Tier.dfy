/**
 The memory tiers under concurrency: HOT slabs served round robin, the WARM pool
 with one atomic bump, COLD heap memory, falling through from one to the next. Any
 number of threads; every access to shared state is one step: the fetch-and-add
 of the HOT index, each step of a slab's list operation (as in FreeList), the
 fetch-and-add of the WARM pool.
 */
module Tier {
  import opened Bits
  import opened Sets
  import opened Slab
  import FreeList

  const LINE: nat := 64                 // the block size of every HOT slab
  const INT_MAX: int := 0x7fff_ffff

  datatype Level = Hot | Warm | Cold

  /** A HOT slab: its region and its free list; block k of the list, k > 0, is the k-th of the region. */
  datatype HotSlab = HotSlab(base: nat, blocks: nat, pool: FreeList.Pool)

  /** A pointer handed out; slab and block are set for HOT, size is the request. */
  datatype Grant = Grant(level: Level, ptr: nat, slab: nat, block: nat, size: nat)

  /** Where a thread is: outside, in the list operation of slab i, before the WARM bump, before calloc, freeing. */
  datatype Thread = Out | InSlab(i: nat, size: nat) | AtWarm(size: nat) | AtCold(size: nat) | Giving(i: nat)

  /** served and out are history: all grants, and the HOT blocks handed out and not given back, with multiplicity. */
  datatype Tiers = Tiers(
    hot: seq<HotSlab>, hotNext: int, warmBase: nat, warmSize: nat, warmOffset: nat,
    threads: seq<Thread>, served: seq<Grant>, out: multiset<(nat, nat)>)

  // ---------------------------------------------------------------------
  // The arithmetic of one request
  // ---------------------------------------------------------------------

  /** C remainder, truncating toward zero. */
  function Rem(a: int, n: int): int
    requires n > 0
  {
    if a >= 0 then a % n else -((-a) % n)
  }

  /** fetch_add of one on a 32-bit int. */
  function NextInt(c: int): int {
    if c == INT_MAX then -INT_MAX - 1 else c + 1
  }

  /** The slab index is a valid one exactly while the counter has not wrapped, or hits a multiple. */
  lemma HotIndexExactly(c: int, n: int)
    requires n > 0
    ensures 0 <= Rem(c, n) < n <==> c >= 0 || (-c) % n == 0
  {
  }

  /** The counter does wrap: after 2^31 HOT requests the next index is negative. */
  lemma HotIndexWraps()
    ensures NextInt(NextInt(INT_MAX)) < 0 && Rem(NextInt(NextInt(INT_MAX)), 8) < 0
  {
  }

  /** Whether the WARM pool serves a request, after its fetch-and-add. */
  predicate WarmServes(offset: nat, size: nat, limit: nat) {
    (offset + RoundLine(size)) % WORD <= limit
  }

  /** Neither the rounding nor the sum of a request wraps. */
  predicate NoWrap(offset: nat, size: nat) {
    size <= WORD - CACHE_LINE && offset + RoundLine(size) < WORD
  }

  /** A WARM piece that is served lies in the pool and holds the request exactly when nothing wrapped. */
  lemma WarmExactly(offset: nat, size: nat, limit: nat)
    requires offset < WORD && size < WORD && limit < WORD && WarmServes(offset, size, limit)
    ensures offset + RoundLine(size) <= limit && size <= RoundLine(size) <==> NoWrap(offset, size)
  {
    RoundLineCovers(size);
    var s := RoundLine(size);
    if offset + s < WORD { ModSmall(offset + s, WORD); }
  }

  // ---------------------------------------------------------------------
  // The steps
  // ---------------------------------------------------------------------

  predicate Owns(s: HotSlab, ptr: nat) {
    InRange(s.base, LINE, s.blocks, ptr)
  }

  /** First slab from i on that owns ptr; the number of slabs if there is none. */
  function OwnerFrom(hot: seq<HotSlab>, ptr: nat, i: nat): (r: nat)
    requires i <= |hot|
    ensures i <= r <= |hot| && (r < |hot| ==> Owns(hot[r], ptr))
    ensures forall j :: i <= j < r ==> !Owns(hot[j], ptr)
    decreases |hot| - i
  {
    if i == |hot| || Owns(hot[i], ptr) then i else OwnerFrom(hot, ptr, i + 1)
  }

  predicate InWarm(t: Tiers, ptr: nat) {
    t.warmBase != 0 && t.warmBase <= ptr < t.warmBase + t.warmSize
  }

  /** bt_tier_classify. */
  function Classify(t: Tiers, ptr: nat): Level {
    if ptr == 0 then Cold
    else if OwnerFrom(t.hot, ptr, 0) < |t.hot| then Hot
    else if InWarm(t, ptr) then Warm
    else Cold
  }

  /** The address of block b of a slab; block 0 is NULL. */
  function Addr(base: nat, b: nat): nat {
    if b == 0 then 0 else BlockAt(base, LINE, b - 1)
  }

  /** The block whose address ptr is. */
  function BlockOf(s: HotSlab, ptr: nat): nat
    requires Owns(s, ptr)
  {
    (ptr - s.base) / LINE + 1
  }

  datatype Action =
    | Request(u: nat, level: Level, size: nat)    // for HOT the fetch-and-add of the index
    | InList(u: nat, a: FreeList.Action)          // one step of the slab's list operation
    | WarmAdd(u: nat)                             // the fetch-and-add of the WARM pool
    | Heap(u: nat, ptr: nat)                      // calloc returns ptr
    | Release(u: nat, ptr: nat)                   // bt_tier_free with the HOT tier
    | Write(i: nat, b: nat, v: nat)               // an owner writes the first word of its block

  predicate AllocAction(a: FreeList.Action, u: nat) {
    (a.AllocLoad? || a.AllocRead? || a.AllocCas?) && a.t == u
  }

  predicate FreeAction(a: FreeList.Action, u: nat) {
    (a.FreeLink? || a.FreeLoad? || a.FreeWrite? || (a.FreeCas? && !a.reload)) && a.t == u
  }

  predicate Can(t: Tiers, x: Action) {
    match x
    case Request(u, level, size) =>
      && u < |t.threads| && t.threads[u].Out? && size < WORD
      && (level.Hot? && t.hot != [] ==> 0 <= Rem(t.hotNext, |t.hot|) < |t.hot|)
    case InList(u, a) =>
      && u < |t.threads|
      && ((t.threads[u].InSlab? && AllocAction(a, u)) || (t.threads[u].Giving? && FreeAction(a, u)))
      && t.threads[u].i < |t.hot| && FreeList.Ready(t.hot[t.threads[u].i].pool, a)
    case WarmAdd(u) => u < |t.threads| && t.threads[u].AtWarm?
    case Heap(u, _) => u < |t.threads| && t.threads[u].AtCold?
    case Release(u, ptr) =>
      && u < |t.threads| && t.threads[u].Out?
      && var i := OwnerFrom(t.hot, ptr, 0);
         ptr != 0 && i < |t.hot| ==>
           && (ptr - t.hot[i].base) % LINE == 0
           && FreeList.Ready(t.hot[i].pool, FreeList.FreeBegin(u, [BlockOf(t.hot[i], ptr)]))
    case Write(i, b, v) => i < |t.hot| && FreeList.Ready(t.hot[i].pool, FreeList.OwnerWrite(b, v))
  }

  function PoolStep(t: Tiers, i: nat, a: FreeList.Action): Tiers
    requires i < |t.hot| && FreeList.Ready(t.hot[i].pool, a)
  {
    t.(hot := t.hot[i := t.hot[i].(pool := FreeList.Step(t.hot[i].pool, a))])
  }

  function Goto(t: Tiers, u: nat, x: Thread): Tiers
    requires u < |t.threads|
  {
    t.(threads := t.threads[u := x])
  }

  function ListStep(t: Tiers, u: nat, a: FreeList.Action): Tiers
    requires Can(t, InList(u, a))
  {
    var i := t.threads[u].i;
    var q := t.hot[i].pool;
    var t' := PoolStep(t, i, a);
    if a.AllocLoad? && q.head == 0 then Goto(t', u, AtWarm(t.threads[u].size))
    else if a.AllocCas? && FreeList.Wins(q, a) then
      var b := q.allocs[u].h;
      Goto(t', u, Out).(out := t.out + multiset{(i, b)},
        served := t.served + [Grant(Hot, Addr(t.hot[i].base, b), i, b, t.threads[u].size)])
    else if a.FreeCas? && FreeList.Wins(q, a) then Goto(t', u, Out)
    else t'
  }

  function WarmStep(t: Tiers, u: nat): Tiers
    requires Can(t, WarmAdd(u))
  {
    var size := t.threads[u].size;
    if t.warmBase == 0 then Goto(t, u, AtCold(size))
    else
      var t' := t.(warmOffset := (t.warmOffset + RoundLine(size)) % WORD);
      if WarmServes(t.warmOffset, size, t.warmSize) then
        Goto(t', u, Out).(served := t.served + [Grant(Warm, t.warmBase + t.warmOffset, 0, 0, size)])
      else Goto(t', u, AtCold(size))
  }

  function Next(t: Tiers, x: Action): Tiers
    requires Can(t, x)
  {
    match x
    case Request(u, Hot, size) =>
      if t.hot == [] then Goto(t, u, AtWarm(size))
      else Goto(t, u, InSlab(Rem(t.hotNext, |t.hot|), size)).(hotNext := NextInt(t.hotNext))
    case Request(u, Warm, size) => Goto(t, u, AtWarm(size))
    case Request(u, Cold, size) => Goto(t, u, AtCold(size))
    case InList(u, a) => ListStep(t, u, a)
    case WarmAdd(u) => WarmStep(t, u)
    case Heap(u, ptr) => Goto(t, u, Out).(served := t.served + [Grant(Cold, ptr, 0, 0, t.threads[u].size)])
    case Release(u, ptr) =>
      var i := OwnerFrom(t.hot, ptr, 0);
      if ptr == 0 || i == |t.hot| then t
      else
        var b := BlockOf(t.hot[i], ptr);
        Goto(PoolStep(t, i, FreeList.FreeBegin(u, [b])), u, Giving(i)).(out := t.out - multiset{(i, b)})
    case Write(i, b, v) => PoolStep(t, i, FreeList.OwnerWrite(b, v))
  }

  // ---------------------------------------------------------------------
  // What a run may be asked to respect, step by step
  // ---------------------------------------------------------------------

  /** A WARM request that is served has not wrapped; one that is refused may be of any size. */
  predicate WarmSound(t: Tiers, x: Action) {
    x.WarmAdd? && Can(t, x) && t.warmBase != 0 && WarmServes(t.warmOffset, t.threads[x.u].size, t.warmSize) ==>
      NoWrap(t.warmOffset, t.threads[x.u].size)
  }

  /** calloc returns memory outside the pools. */
  predicate HeapApart(t: Tiers, x: Action) {
    x.Heap? ==> OwnerFrom(t.hot, x.ptr, 0) == |t.hot| && !InWarm(t, x.ptr)
  }

  /** Callers give back and write only blocks that are with them. */
  predicate Owning(t: Tiers, x: Action) {
    && (x.Release? && Can(t, x) && x.ptr != 0 ==>
          var i := OwnerFrom(t.hot, x.ptr, 0);
          i < |t.hot| ==> FreeList.Owning(t.hot[i].pool, FreeList.FreeBegin(x.u, [BlockOf(t.hot[i], x.ptr)])))
    && (x.Write? && Can(t, x) ==> FreeList.Owning(t.hot[x.i].pool, FreeList.OwnerWrite(x.b, x.v)))
  }

  /** A slab's winning pop has read the current link of the head. */
  predicate CurrentPop(t: Tiers, x: Action) {
    x.InList? && Can(t, x) ==> FreeList.Current(t.hot[t.threads[x.u].i].pool, x.a)
  }

  /** No request enters a slab while another thread allocates from it. */
  predicate Exclusive(t: Tiers, x: Action) {
    x.Request? && x.level.Hot? && Can(t, x) && t.hot != [] ==>
      forall v :: 0 <= v < |t.threads| && t.threads[v].InSlab? ==> t.threads[v].i != Rem(t.hotNext, |t.hot|)
  }

  // ---------------------------------------------------------------------
  // Runs
  // ---------------------------------------------------------------------

  ghost predicate IsRun(t: Tiers, run: seq<Action>)
    decreases |run|
  {
    run != [] ==> Can(t, run[0]) && IsRun(Next(t, run[0]), run[1..])
  }

  ghost function Final(t: Tiers, run: seq<Action>): Tiers
    requires IsRun(t, run)
    decreases |run|
  {
    if run == [] then t else Final(Next(t, run[0]), run[1..])
  }

  /** p holds of every step of the run. */
  ghost predicate Always(p: (Tiers, Action) -> bool, t: Tiers, run: seq<Action>)
    requires IsRun(t, run)
    decreases |run|
  {
    run != [] ==> p(t, run[0]) && Always(p, Next(t, run[0]), run[1..])
  }

  /** The fixed parts of two states agree. */
  ghost predicate SameRegions(t: Tiers, u: Tiers) {
    && |u.hot| == |t.hot| && u.warmBase == t.warmBase && u.warmSize == t.warmSize && |u.threads| == |t.threads|
    && (forall i :: 0 <= i < |t.hot| ==> u.hot[i].base == t.hot[i].base && u.hot[i].blocks == t.hot[i].blocks)
  }

  lemma PoolStepFixes(t: Tiers, i: nat, a: FreeList.Action)
    requires i < |t.hot| && FreeList.Ready(t.hot[i].pool, a)
    ensures SameRegions(t, PoolStep(t, i, a))
  {
  }

  lemma NextFixes(t: Tiers, x: Action)
    requires Can(t, x)
    ensures SameRegions(t, Next(t, x))
  {
    match x
    case InList(u, a) => PoolStepFixes(t, t.threads[u].i, a);
    case Release(u, ptr) =>
      var i := OwnerFrom(t.hot, ptr, 0);
      if ptr != 0 && i < |t.hot| { PoolStepFixes(t, i, FreeList.FreeBegin(u, [BlockOf(t.hot[i], ptr)])); }
    case Write(i, b, v) => PoolStepFixes(t, i, FreeList.OwnerWrite(b, v));
    case _ =>
  }

  lemma {:induction false} RunFixes(t: Tiers, run: seq<Action>)
    requires IsRun(t, run)
    ensures SameRegions(t, Final(t, run))
    decreases |run|
  {
    if run != [] {
      NextFixes(t, run[0]);
      RunFixes(Next(t, run[0]), run[1..]);
    }
  }

  predicate Apart(a: nat, m: nat, b: nat, n: nat) {
    a + m <= b || b + n <= a
  }

  /** The backing regions are there and do not overlap. */
  ghost predicate Regions(t: Tiers) {
    && (forall i :: 0 <= i < |t.hot| ==> t.hot[i].base > 0)
    && (forall i, j :: 0 <= i < j < |t.hot| ==>
          Apart(t.hot[i].base, t.hot[i].blocks * LINE, t.hot[j].base, t.hot[j].blocks * LINE))
    && (t.warmBase != 0 ==>
          forall i :: 0 <= i < |t.hot| ==> Apart(t.hot[i].base, t.hot[i].blocks * LINE, t.warmBase, t.warmSize))
    && t.warmSize < WORD
  }

  lemma {:induction false} OwnerSame(hot: seq<HotSlab>, hot': seq<HotSlab>, ptr: nat, i: nat)
    requires |hot'| == |hot| && i <= |hot|
    requires forall j :: 0 <= j < |hot| ==> hot'[j].base == hot[j].base && hot'[j].blocks == hot[j].blocks
    ensures OwnerFrom(hot', ptr, i) == OwnerFrom(hot, ptr, i)
    decreases |hot| - i
  {
    if i < |hot| { OwnerSame(hot, hot', ptr, i + 1); }
  }

  // ---------------------------------------------------------------------
  // WARM: whatever the HOT slabs do
  // ---------------------------------------------------------------------

  /** A WARM piece holds its request and lies in the pool below the offset. */
  ghost predicate WarmOk(t: Tiers, g: Grant) {
    g.level.Warm? ==>
      && 0 < t.warmBase <= g.ptr && g.size <= RoundLine(g.size)
      && g.ptr + RoundLine(g.size) <= t.warmBase + t.warmSize
      && g.ptr + RoundLine(g.size) <= t.warmBase + t.warmOffset
  }

  ghost predicate WarmApart(g: Grant, h: Grant) {
    g.level.Warm? && h.level.Warm? ==> g.ptr + RoundLine(g.size) <= h.ptr
  }

  ghost predicate WarmInv(t: Tiers) {
    && t.warmSize < WORD && t.warmOffset < WORD
    && (forall k :: 0 <= k < |t.served| ==> WarmOk(t, t.served[k]))
    && (forall k, l :: 0 <= k < l < |t.served| ==> WarmApart(t.served[k], t.served[l]))
  }

  /** A step that hands out no WARM piece and moves no offset below the pieces. */
  lemma WarmFrame(t: Tiers, t': Tiers)
    requires WarmInv(t) && t'.warmBase == t.warmBase && t'.warmSize == t.warmSize
    requires t.warmOffset <= t'.warmOffset < WORD || t.warmSize <= t'.warmOffset < WORD
    requires t'.served == t.served || (|t'.served| == |t.served| + 1 && t'.served[..|t.served|] == t.served)
    requires |t'.served| > |t.served| ==> !t'.served[|t.served|].level.Warm?
    ensures WarmInv(t')
  {
    forall k | 0 <= k < |t'.served| ensures WarmOk(t', t'.served[k]) {
      if k < |t.served| { assert t'.served[k] == t.served[k] && WarmOk(t, t.served[k]); }
    }
    forall k, l | 0 <= k < l < |t'.served| ensures WarmApart(t'.served[k], t'.served[l]) {
      if l < |t.served| {
        assert t'.served[k] == t.served[k] && t'.served[l] == t.served[l] && WarmApart(t.served[k], t.served[l]);
      }
    }
  }

  lemma WarmGrantKeeps(t: Tiers, t': Tiers, size: nat)
    requires WarmInv(t) && 0 < t.warmBase && size <= RoundLine(size) && t.warmOffset + RoundLine(size) <= t.warmSize
    requires t'.warmBase == t.warmBase && t'.warmSize == t.warmSize && t'.warmOffset == t.warmOffset + RoundLine(size)
    requires t'.served == t.served + [Grant(Warm, t.warmBase + t.warmOffset, 0, 0, size)]
    ensures WarmInv(t')
  {
    forall k | 0 <= k < |t'.served| ensures WarmOk(t', t'.served[k]) {
      if k < |t.served| { assert t'.served[k] == t.served[k] && WarmOk(t, t.served[k]); }
    }
    forall k, l | 0 <= k < l < |t'.served| ensures WarmApart(t'.served[k], t'.served[l]) {
      assert t'.served[k] == t.served[k] && WarmOk(t, t.served[k]);
      if l < |t.served| { assert t'.served[l] == t.served[l] && WarmApart(t.served[k], t.served[l]); }
    }
  }

  lemma WarmAddKeeps(t: Tiers, u: nat)
    requires WarmInv(t) && Can(t, WarmAdd(u)) && WarmSound(t, WarmAdd(u)) && t.warmBase != 0
    ensures WarmInv(Next(t, WarmAdd(u)))
  {
    var size := t.threads[u].size;
    var t' := Next(t, WarmAdd(u));
    if WarmServes(t.warmOffset, size, t.warmSize) {
      RoundLineCovers(size);
      ModSmall(t.warmOffset + RoundLine(size), WORD);
      WarmGrantKeeps(t, t', size);
    } else {
      WarmFrame(t, t');
    }
  }

  lemma NextKeepsWarm(t: Tiers, x: Action)
    requires WarmInv(t) && Can(t, x) && WarmSound(t, x)
    ensures WarmInv(Next(t, x))
  {
    if x.WarmAdd? && t.warmBase != 0 { WarmAddKeeps(t, x.u); } else { WarmFrame(t, Next(t, x)); }
  }

  lemma {:induction false} RunKeepsWarm(t: Tiers, run: seq<Action>)
    requires WarmInv(t) && IsRun(t, run) && Always(WarmSound, t, run)
    ensures WarmInv(Final(t, run))
    decreases |run|
  {
    if run != [] {
      NextKeepsWarm(t, run[0]);
      RunKeepsWarm(Next(t, run[0]), run[1..]);
    }
  }

  /** Nothing served yet, every thread outside, every block of every slab free. */
  ghost predicate Start(t: Tiers) {
    && Regions(t) && t.warmOffset == 0 && t.served == [] && t.out == multiset{}
    && (forall u :: 0 <= u < |t.threads| ==> t.threads[u].Out?)
    && (forall i :: 0 <= i < |t.hot| ==> SlabStart(t.hot[i], |t.threads|))
  }

  ghost predicate SlabStart(s: HotSlab, threads: nat) {
    && |s.pool.place| == s.blocks + 1 && FreeList.ListOk(s.pool)
    && |s.pool.allocs| == |s.pool.freers| == threads
    && (forall u :: 0 <= u < threads ==> s.pool.allocs[u].AStart? && s.pool.freers[u].FIdle?)
    && (forall b :: 0 < b < |s.pool.place| ==> s.pool.place[b].Free?)
  }

  /** Two WARM pieces do not overlap, lie in the pool and hold what was asked for. */
  ghost predicate WarmPair(t: Tiers, g: Grant, h: Grant) {
    g.ptr + g.size <= h.ptr && t.warmBase <= g.ptr && h.ptr + h.size <= t.warmBase + t.warmSize
  }

  /** In every interleaving, whatever the HOT slabs do: WARM pieces are disjoint, in the pool and large enough. */
  lemma WarmDisjoint(t: Tiers, run: seq<Action>)
    requires Start(t) && IsRun(t, run) && Always(WarmSound, t, run)
    ensures var s := Final(t, run).served;
            forall k, l :: 0 <= k < l < |s| && s[k].level.Warm? && s[l].level.Warm? ==> WarmPair(t, s[k], s[l])
  {
    RunKeepsWarm(t, run);
    RunFixes(t, run);
    var u := Final(t, run);
    forall k, l | 0 <= k < l < |u.served| && u.served[k].level.Warm? && u.served[l].level.Warm?
      ensures WarmPair(t, u.served[k], u.served[l])
    {
      assert WarmOk(u, u.served[k]) && WarmOk(u, u.served[l]) && WarmApart(u.served[k], u.served[l]);
    }
  }

  // ---------------------------------------------------------------------
  // COLD
  // ---------------------------------------------------------------------

  ghost predicate ColdOk(t: Tiers, g: Grant) {
    g.level.Cold? ==> OwnerFrom(t.hot, g.ptr, 0) == |t.hot| && !InWarm(t, g.ptr)
  }

  ghost predicate ColdInv(t: Tiers) {
    forall k :: 0 <= k < |t.served| ==> ColdOk(t, t.served[k])
  }

  lemma NextKeepsCold(t: Tiers, x: Action)
    requires ColdInv(t) && Can(t, x) && HeapApart(t, x)
    ensures ColdInv(Next(t, x))
  {
    var t' := Next(t, x);
    NextFixes(t, x);
    forall k | 0 <= k < |t'.served| ensures ColdOk(t', t'.served[k]) {
      OwnerSame(t.hot, t'.hot, t'.served[k].ptr, 0);
      if k < |t.served| { assert t'.served[k] == t.served[k] && ColdOk(t, t.served[k]); }
    }
  }

  lemma {:induction false} RunKeepsCold(t: Tiers, run: seq<Action>)
    requires ColdInv(t) && IsRun(t, run) && Always(HeapApart, t, run)
    ensures ColdInv(Final(t, run))
    decreases |run|
  {
    if run != [] {
      NextKeepsCold(t, run[0]);
      RunKeepsCold(Next(t, run[0]), run[1..]);
    }
  }

  // ---------------------------------------------------------------------
  // HOT: while every pop is current
  // ---------------------------------------------------------------------

  ghost predicate SlabOk(s: HotSlab, threads: nat) {
    && |s.pool.place| == s.blocks + 1 && FreeList.Inv(s.pool)
    && |s.pool.allocs| == |s.pool.freers| == threads
  }

  /** Whether block x.1 of slab x.0 is with an owner. */
  ghost function Times(hot: seq<HotSlab>, x: (nat, nat)): nat {
    if x.0 < |hot| && 0 < x.1 < |hot[x.0].pool.place| && hot[x.0].pool.place[x.1].Owned? then 1 else 0
  }

  ghost predicate HotOk(t: Tiers, g: Grant) {
    g.level.Hot? ==>
      g.slab < |t.hot| && 0 < g.block <= t.hot[g.slab].blocks && g.ptr == Addr(t.hot[g.slab].base, g.block)
  }

  /** The lists are intact, the blocks handed out are the owned ones, each once, and HOT grants are blocks. */
  ghost predicate HotInv(t: Tiers) {
    && (forall i :: 0 <= i < |t.hot| ==> SlabOk(t.hot[i], |t.threads|))
    && (forall x: (nat, nat) :: t.out[x] == Times(t.hot, x))
    && (forall k :: 0 <= k < |t.served| ==> HotOk(t, t.served[k]))
  }

  /** A list step other than a pop and the begin of a free changes no owner. */
  lemma OwnersStay(q: FreeList.Pool, a: FreeList.Action)
    requires FreeList.Inv(q) && FreeList.Enabled(q, a) && !a.FreeBegin? && !(a.AllocCas? && FreeList.Wins(q, a))
    ensures var q' := FreeList.Step(q, a);
            && |q'.place| == |q.place| && |q'.allocs| == |q.allocs| && |q'.freers| == |q.freers|
            && forall b :: 0 <= b < |q.place| ==> (q'.place[b].Owned? <==> q.place[b].Owned?)
  {
    if a.FreeCas? && FreeList.Wins(q, a) {
      assert FreeList.FreerOk(q, a.t);
      forall b | 0 <= b < |q.place| && b in q.freers[a.t].ptrs ensures !q.place[b].Owned? {
        FreeList.HandInFlight(q, a.t, b);
      }
    }
  }

  lemma HotFrame(t: Tiers, t': Tiers, g: Grant)
    requires HotOk(t, g) && SameRegions(t, t')
    ensures HotOk(t', g)
  {
  }

  /** The slabs after one of them took a step. */
  lemma SlabsKeep(t: Tiers, i: nat, a: FreeList.Action)
    requires HotInv(t) && i < |t.hot| && FreeList.Enabled(t.hot[i].pool, a) && FreeList.Current(t.hot[i].pool, a)
    ensures var t' := PoolStep(t, i, a);
            forall j :: 0 <= j < |t'.hot| ==> SlabOk(t'.hot[j], |t.threads|)
  {
    assert SlabOk(t.hot[i], |t.threads|);
    FreeList.StepKeeps(t.hot[i].pool, a);
    StepLengths(t.hot[i].pool, a);
    var t' := PoolStep(t, i, a);
    forall j | 0 <= j < |t'.hot| ensures SlabOk(t'.hot[j], |t.threads|) { assert SlabOk(t.hot[j], |t.threads|); }
  }

  lemma StepLengths(q: FreeList.Pool, a: FreeList.Action)
    requires FreeList.Ready(q, a)
    ensures var q' := FreeList.Step(q, a);
            |q'.place| == |q.place| && |q'.allocs| == |q.allocs| && |q'.freers| == |q.freers|
  {
  }

  /** The same, when the step changes no owner. */
  lemma QuietStepKeeps(t: Tiers, t': Tiers, i: nat, a: FreeList.Action)
    requires HotInv(t) && i < |t.hot| && FreeList.Enabled(t.hot[i].pool, a)
    requires !a.FreeBegin? && !(a.AllocCas? && FreeList.Wins(t.hot[i].pool, a))
    requires t'.hot == PoolStep(t, i, a).hot && t'.out == t.out && t'.served == t.served
    requires |t'.threads| == |t.threads|  && t'.warmBase == t.warmBase && t'.warmSize == t.warmSize
    ensures HotInv(t')
  {
    SlabsKeep(t, i, a);
    assert SlabOk(t.hot[i], |t.threads|);
    OwnersStay(t.hot[i].pool, a);
    forall x: (nat, nat) ensures t'.out[x] == Times(t'.hot, x) { assert t.out[x] == Times(t.hot, x); }
    PoolStepFixes(t, i, a);
    forall k | 0 <= k < |t'.served| ensures HotOk(t', t'.served[k]) { HotFrame(t, t', t.served[k]); }
  }

  lemma PopTimes(t: Tiers, i: nat, a: FreeList.Action, x: (nat, nat))
    requires HotInv(t) && i < |t.hot| && a.AllocCas? && FreeList.Wins(t.hot[i].pool, a)
    requires FreeList.Current(t.hot[i].pool, a)
    ensures var h := t.hot[i].pool.head;
            && 0 < h <= t.hot[i].blocks
            && Times(PoolStep(t, i, a).hot, x) == Times(t.hot, x) + if x == (i, h) then 1 else 0
  {
    assert SlabOk(t.hot[i], |t.threads|);
    FreeList.PopKeepsList(t.hot[i].pool, a);
  }

  /** A pop hands out a block that is not out. */
  lemma PopKeeps(t: Tiers, u: nat, a: FreeList.Action)
    requires HotInv(t) && Can(t, InList(u, a)) && a.AllocCas? && FreeList.Wins(t.hot[t.threads[u].i].pool, a)
    requires CurrentPop(t, InList(u, a))
    ensures HotInv(Next(t, InList(u, a)))
  {
    var i := t.threads[u].i;
    var h := t.hot[i].pool.head;
    var t' := Next(t, InList(u, a));
    SlabsKeep(t, i, a);
    forall x: (nat, nat) ensures t'.out[x] == Times(t'.hot, x) {
      assert t.out[x] == Times(t.hot, x);
      PopTimes(t, i, a, x);
    }
    PoolStepFixes(t, i, a);
    PopTimes(t, i, a, (i, h));
    forall k | 0 <= k < |t'.served| ensures HotOk(t', t'.served[k]) {
      if k < |t.served| { HotFrame(t, t', t.served[k]); }
    }
  }

  lemma BeginTimes(t: Tiers, i: nat, u: nat, b: nat, x: (nat, nat))
    requires HotInv(t) && i < |t.hot| && FreeList.Enabled(t.hot[i].pool, FreeList.FreeBegin(u, [b]))
    ensures var hot' := PoolStep(t, i, FreeList.FreeBegin(u, [b])).hot;
            Times(t.hot, x) == Times(hot', x) + if x == (i, b) then 1 else 0
  {
    assert SlabOk(t.hot[i], |t.threads|);
    var ptrs := [b];
    assert ptrs[0] == b;
    assert forall c :: c in ptrs <==> c == b;
  }

  lemma ReleaseKeeps(t: Tiers, u: nat, ptr: nat)
    requires HotInv(t) && Can(t, Release(u, ptr)) && Owning(t, Release(u, ptr))
    requires ptr != 0 && OwnerFrom(t.hot, ptr, 0) < |t.hot|
    ensures HotInv(Next(t, Release(u, ptr)))
  {
    var i := OwnerFrom(t.hot, ptr, 0);
    var b := BlockOf(t.hot[i], ptr);
    var a := FreeList.FreeBegin(u, [b]);
    var t' := Next(t, Release(u, ptr));
    SlabsKeep(t, i, a);
    forall x: (nat, nat) ensures t'.out[x] == Times(t'.hot, x) {
      assert t.out[x] == Times(t.hot, x);
      BeginTimes(t, i, u, b, x);
    }
    PoolStepFixes(t, i, a);
    forall k | 0 <= k < |t'.served| ensures HotOk(t', t'.served[k]) { HotFrame(t, t', t.served[k]); }
  }

  /** Steps outside the slabs hand out no HOT block. */
  lemma OutsideMoves(t: Tiers, x: Action)
    requires Can(t, x) && (x.Request? || x.WarmAdd? || x.Heap?)
    ensures var t' := Next(t, x);
            && t'.hot == t.hot && t'.out == t.out && |t'.threads| == |t.threads| && t.served <= t'.served
            && forall k :: |t.served| <= k < |t'.served| ==> !t'.served[k].level.Hot?
  {
  }

  lemma OutsideKeeps(t: Tiers, x: Action)
    requires HotInv(t) && Can(t, x) && (x.Request? || x.WarmAdd? || x.Heap?)
    ensures HotInv(Next(t, x))
  {
    var t' := Next(t, x);
    NextFixes(t, x);
    OutsideMoves(t, x);
    forall k | 0 <= k < |t'.served| ensures HotOk(t', t'.served[k]) {
      if k < |t.served| { HotFrame(t, t', t.served[k]); }
    }
  }

  lemma NextKeepsHot(t: Tiers, x: Action)
    requires HotInv(t) && Can(t, x) && Owning(t, x) && CurrentPop(t, x)
    ensures HotInv(Next(t, x))
  {
    match x
    case InList(u, a) =>
      var i := t.threads[u].i;
      if a.AllocCas? && FreeList.Wins(t.hot[i].pool, a) { PopKeeps(t, u, a); }
      else { QuietStepKeeps(t, Next(t, x), i, a); }
    case Release(u, ptr) =>
      if ptr != 0 && OwnerFrom(t.hot, ptr, 0) < |t.hot| { ReleaseKeeps(t, u, ptr); }
    case Write(i, b, v) => QuietStepKeeps(t, Next(t, x), i, FreeList.OwnerWrite(b, v));
    case _ => OutsideKeeps(t, x);
  }

  lemma {:induction false} RunKeepsHot(t: Tiers, run: seq<Action>)
    requires HotInv(t) && IsRun(t, run) && Always(Owning, t, run) && Always(CurrentPop, t, run)
    ensures HotInv(Final(t, run))
    decreases |run|
  {
    if run != [] {
      NextKeepsHot(t, run[0]);
      RunKeepsHot(Next(t, run[0]), run[1..]);
    }
  }

  lemma StartSlab(s: HotSlab, threads: nat)
    requires SlabStart(s, threads)
    ensures SlabOk(s, threads)
  {
    FreeList.IdleInv(s.pool);
  }

  lemma StartHot(t: Tiers)
    requires Start(t)
    ensures HotInv(t)
  {
    forall i | 0 <= i < |t.hot| ensures SlabOk(t.hot[i], |t.threads|) { StartSlab(t.hot[i], |t.threads|); }
    forall x: (nat, nat) ensures t.out[x] == Times(t.hot, x) {
      if x.0 < |t.hot| { assert SlabStart(t.hot[x.0], |t.threads|); }
    }
  }

  /** Blocks x and y of the HOT slabs, a cache line each, do not overlap. */
  ghost predicate HotApart(t: Tiers, x: (nat, nat), y: (nat, nat)) {
    && x.0 < |t.hot| && y.0 < |t.hot|
    && Apart(Addr(t.hot[x.0].base, x.1), LINE, Addr(t.hot[y.0].base, y.1), LINE)
  }

  lemma InRegion(s: HotSlab, b: nat)
    requires 0 < b <= s.blocks
    ensures s.base <= Addr(s.base, b) && Addr(s.base, b) + LINE <= s.base + s.blocks * LINE
  {
  }

  lemma HotPair(t: Tiers, x: (nat, nat), y: (nat, nat))
    requires Regions(t) && x != y && x.0 < |t.hot| && y.0 < |t.hot|
    requires 0 < x.1 <= t.hot[x.0].blocks && 0 < y.1 <= t.hot[y.0].blocks
    ensures HotApart(t, x, y)
  {
    InRegion(t.hot[x.0], x.1);
    InRegion(t.hot[y.0], y.1);
    if x.0 == y.0 {
      if x.1 < y.1 { BlocksDisjoint(t.hot[x.0].base, LINE, x.1 - 1, y.1 - 1); }
      else { BlocksDisjoint(t.hot[x.0].base, LINE, y.1 - 1, x.1 - 1); }
    } else if x.0 < y.0 {
      assert Apart(t.hot[x.0].base, t.hot[x.0].blocks * LINE, t.hot[y.0].base, t.hot[y.0].blocks * LINE);
    } else {
      assert Apart(t.hot[y.0].base, t.hot[y.0].blocks * LINE, t.hot[x.0].base, t.hot[x.0].blocks * LINE);
    }
  }

  /** No HOT block is out twice, and different blocks that are out do not overlap. */
  ghost predicate HotDisjoint(t: Tiers) {
    && (forall x: (nat, nat) :: t.out[x] <= 1)
    && (forall x, y :: x in t.out && y in t.out && x != y ==> HotApart(t, x, y))
  }

  lemma RegionsSame(t: Tiers, u: Tiers)
    requires Regions(t) && SameRegions(t, u)
    ensures Regions(u)
  {
  }

  lemma InvDisjoint(t: Tiers)
    requires HotInv(t) && Regions(t)
    ensures HotDisjoint(t)
  {
    assert forall x: (nat, nat) :: t.out[x] == Times(t.hot, x);
    forall x, y | x in t.out && y in t.out && x != y ensures HotApart(t, x, y) {
      assert Times(t.hot, x) == 1 && Times(t.hot, y) == 1;
      assert SlabOk(t.hot[x.0], |t.threads|) && SlabOk(t.hot[y.0], |t.threads|);
      HotPair(t, x, y);
    }
  }

  /** In every interleaving whose pops are current, HOT blocks out at the same time are disjoint. */
  lemma HotOutDisjoint(t: Tiers, run: seq<Action>)
    requires Start(t) && IsRun(t, run) && Always(Owning, t, run) && Always(CurrentPop, t, run)
    ensures HotDisjoint(Final(t, run))
  {
    StartHot(t);
    RunKeepsHot(t, run);
    RunFixes(t, run);
    RegionsSame(t, Final(t, run));
    InvDisjoint(Final(t, run));
  }

  /** A HOT grant stays clear of all other blocks and of the slab's end exactly when at most 64 bytes were asked for. */
  lemma HotFitsExactly(t: Tiers, g: Grant)
    requires g.level.Hot? && HotOk(t, g)
    ensures var s := t.hot[g.slab];
            (g.ptr + g.size <= s.base + s.blocks * LINE
             && forall c :: 0 < c <= s.blocks && c != g.block ==> Apart(g.ptr, g.size, Addr(s.base, c), LINE)) <==>
            g.size <= LINE
  {
    var s := t.hot[g.slab];
    InRegion(s, g.block);
    if g.size <= LINE {
      forall c | 0 < c <= s.blocks && c != g.block ensures Apart(g.ptr, g.size, Addr(s.base, c), LINE) {
        if c < g.block { BlocksDisjoint(s.base, LINE, c - 1, g.block - 1); }
        else { BlocksDisjoint(s.base, LINE, g.block - 1, c - 1); }
      }
    } else if g.block < s.blocks {
      assert !Apart(g.ptr, g.size, Addr(s.base, g.block + 1), LINE);
    }
  }

  // ---------------------------------------------------------------------
  // One allocating thread at a time in each slab
  // ---------------------------------------------------------------------

  /** Thread u allocates from slab i only while it is in it, and what it looks at stays put. */
  ghost predicate SlotOk(t: Tiers, i: nat, u: nat)
    requires i < |t.hot| && u < |t.threads|
  {
    var q := t.hot[i].pool;
    && u < |q.allocs| && FreeList.Steady(q, u)
    && (q.allocs[u].AStart? || (t.threads[u].InSlab? && t.threads[u].i == i))
  }

  ghost predicate Alone(t: Tiers) {
    && (forall i, u :: 0 <= i < |t.hot| && 0 <= u < |t.threads| ==> SlotOk(t, i, u))
    && (forall u, v :: 0 <= u < v < |t.threads| && t.threads[u].InSlab? && t.threads[v].InSlab? ==>
          t.threads[u].i != t.threads[v].i)
  }

  lemma AloneIsCurrent(t: Tiers, x: Action)
    requires HotInv(t) && Alone(t) && Can(t, x)
    ensures CurrentPop(t, x)
  {
    if x.InList? {
      var i := t.threads[x.u].i;
      assert SlabOk(t.hot[i], |t.threads|) && SlotOk(t, i, x.u);
      FreeList.SteadyIsCurrent(t.hot[i].pool, x.a);
    }
  }

  /** A list step in slab i leaves what thread v looks at there alone. */
  lemma SteadyInSlab(t: Tiers, i: nat, a: FreeList.Action, v: nat)
    requires HotInv(t) && Alone(t) && i < |t.hot| && FreeList.Enabled(t.hot[i].pool, a) && v < |t.threads|
    requires a.AllocCas? ==> a.t < |t.threads| && t.threads[a.t].InSlab? && t.threads[a.t].i == i
    ensures var q' := FreeList.Step(t.hot[i].pool, a);
            v < |q'.allocs| && FreeList.Steady(q', v)
  {
    assert SlabOk(t.hot[i], |t.threads|) && SlotOk(t, i, v);
    FreeList.SteadyKeeps(t.hot[i].pool, a, v);
    StepLengths(t.hot[i].pool, a);
  }

  /** Where a thread is after its list step, and that it leaves a slab only with its slot cleared. */
  lemma ListStepThread(t: Tiers, u: nat, a: FreeList.Action)
    requires HotInv(t) && Can(t, InList(u, a))
    ensures var t' := Next(t, InList(u, a));
            var i := t.threads[u].i;
            var q, q' := t.hot[i].pool, FreeList.Step(t.hot[i].pool, a);
            && t'.hot == t.hot[i := t.hot[i].(pool := q')] && |q'.allocs| == |q.allocs| == |t.threads|
            && t'.threads == t.threads[u := t'.threads[u]]
            && (t'.threads[u] == t.threads[u] || !t'.threads[u].InSlab?)
            && (forall v :: 0 <= v < |q.allocs| && v != u ==> q'.allocs[v] == q.allocs[v])
            && (t.threads[u].Giving? ==> q'.allocs[u] == q.allocs[u])
            && (t.threads[u].InSlab? && !t'.threads[u].InSlab? ==> q'.allocs[u].AStart?)
  {
    assert SlabOk(t.hot[t.threads[u].i], |t.threads|);
  }

  lemma ListKeepsSlot(t: Tiers, u: nat, a: FreeList.Action, j: nat, v: nat)
    requires HotInv(t) && Alone(t) && Can(t, InList(u, a)) && j < |t.hot| && v < |t.threads|
    ensures var t' := Next(t, InList(u, a));
            j < |t'.hot| && v < |t'.threads| && SlotOk(t', j, v)
  {
    ListStepThread(t, u, a);
    assert SlotOk(t, j, v);
    if j == t.threads[u].i { SteadyInSlab(t, j, a, v); }
  }

  lemma ListKeepsAlone(t: Tiers, u: nat, a: FreeList.Action)
    requires HotInv(t) && Alone(t) && Can(t, InList(u, a))
    ensures Alone(Next(t, InList(u, a)))
  {
    var t' := Next(t, InList(u, a));
    ListStepThread(t, u, a);
    forall j, v | 0 <= j < |t'.hot| && 0 <= v < |t'.threads| ensures SlotOk(t', j, v) {
      ListKeepsSlot(t, u, a, j, v);
    }
  }

  lemma OwnersKeepAlone(t: Tiers, t': Tiers, i: nat, a: FreeList.Action)
    requires HotInv(t) && Alone(t) && i < |t.hot| && FreeList.Enabled(t.hot[i].pool, a)
    requires a.FreeBegin? || a.OwnerWrite?
    requires t'.hot == PoolStep(t, i, a).hot && |t'.threads| == |t.threads|
    requires forall v :: 0 <= v < |t.threads| ==>
               t'.threads[v] == t.threads[v] || (t.threads[v].Out? && t'.threads[v].Giving?)
    ensures Alone(t')
  {
    forall j, v | 0 <= j < |t'.hot| && 0 <= v < |t'.threads| ensures SlotOk(t', j, v) {
      assert SlotOk(t, j, v);
      if j == i { SteadyInSlab(t, i, a, v); }
    }
  }

  lemma OutsideKeepsAlone(t: Tiers, x: Action)
    requires Alone(t) && Can(t, x) && Exclusive(t, x) && (x.Request? || x.WarmAdd? || x.Heap?)
    ensures Alone(Next(t, x))
  {
    var t' := Next(t, x);
    assert t'.hot == t.hot;
    forall j, v | 0 <= j < |t'.hot| && 0 <= v < |t'.threads| ensures SlotOk(t', j, v) { assert SlotOk(t, j, v); }
  }

  lemma NextKeepsAlone(t: Tiers, x: Action)
    requires HotInv(t) && Alone(t) && Can(t, x) && Owning(t, x) && Exclusive(t, x)
    ensures Alone(Next(t, x))
  {
    match x
    case InList(u, a) => ListKeepsAlone(t, u, a);
    case Release(u, ptr) =>
      var i := OwnerFrom(t.hot, ptr, 0);
      if ptr != 0 && i < |t.hot| {
        OwnersKeepAlone(t, Next(t, x), i, FreeList.FreeBegin(u, [BlockOf(t.hot[i], ptr)]));
      }
    case Write(i, b, v) => OwnersKeepAlone(t, Next(t, x), i, FreeList.OwnerWrite(b, v));
    case _ => OutsideKeepsAlone(t, x);
  }

  lemma {:induction false} AloneRun(t: Tiers, run: seq<Action>)
    requires HotInv(t) && Alone(t) && IsRun(t, run) && Always(Owning, t, run) && Always(Exclusive, t, run)
    ensures Always(CurrentPop, t, run)
    decreases |run|
  {
    if run != [] {
      AloneIsCurrent(t, run[0]);
      NextKeepsHot(t, run[0]);
      NextKeepsAlone(t, run[0]);
      AloneRun(Next(t, run[0]), run[1..]);
    }
  }

  /** While no two threads allocate from one slab at a time every pop is current, and HOT blocks are disjoint. */
  lemma ExclusiveHotDisjoint(t: Tiers, run: seq<Action>)
    requires Start(t) && IsRun(t, run) && Always(Owning, t, run) && Always(Exclusive, t, run)
    ensures Always(CurrentPop, t, run) && HotDisjoint(Final(t, run))
  {
    StartHot(t);
    forall i, u | 0 <= i < |t.hot| && 0 <= u < |t.threads| ensures SlotOk(t, i, u) {
      assert SlabStart(t.hot[i], |t.threads|);
    }
    AloneRun(t, run);
    HotOutDisjoint(t, run);
  }

  // ---------------------------------------------------------------------
  // Which tier a pointer belongs to
  // ---------------------------------------------------------------------

  lemma OwnerUnique(t: Tiers, i: nat, b: nat)
    requires Regions(t) && i < |t.hot| && 0 < b <= t.hot[i].blocks
    ensures var p := Addr(t.hot[i].base, b);
            p > 0 && OwnerFrom(t.hot, p, 0) == i && BlockOf(t.hot[i], p) == b
            && (p - t.hot[i].base) % LINE == 0 && !InWarm(t, p)
  {
    var p := Addr(t.hot[i].base, b);
    BlockNumber(t.hot[i].base, LINE, b - 1);
    InRegion(t.hot[i], b);
    assert Owns(t.hot[i], p);
    var r := OwnerFrom(t.hot, p, 0);
    assert r != i ==> r < i;
  }

  /** A release of a HOT block starts a free of that block in the slab it came from, whatever state the lists are in. */
  lemma ReleaseReturns(t: Tiers, u: nat, i: nat, b: nat)
    requires Regions(t) && i < |t.hot| && 0 < b <= t.hot[i].blocks
    requires Can(t, Release(u, Addr(t.hot[i].base, b)))
    ensures FreeList.Ready(t.hot[i].pool, FreeList.FreeBegin(u, [b]))
    ensures Next(t, Release(u, Addr(t.hot[i].base, b))) ==
            Goto(PoolStep(t, i, FreeList.FreeBegin(u, [b])), u, Giving(i)).(out := t.out - multiset{(i, b)})
  {
    OwnerUnique(t, i, b);
  }

  /** The tier that served a pointer is the one classify names, except for a WARM grant at the pool's end. */
  ghost predicate NamesServer(t: Tiers, g: Grant) {
    && (Classify(t, g.ptr) == g.level <==> !(g.level.Warm? && g.ptr == t.warmBase + t.warmSize))
    && (g.level.Warm? && g.ptr == t.warmBase + t.warmSize ==> g.size == 0)
  }

  lemma ClassifyOne(t: Tiers, g: Grant)
    requires Regions(t) && HotOk(t, g) && WarmOk(t, g) && ColdOk(t, g)
    ensures NamesServer(t, g)
  {
    match g.level
    case Hot => OwnerUnique(t, g.slab, g.block);
    case Warm =>
      var r := OwnerFrom(t.hot, g.ptr, 0);
      if r < |t.hot| { assert Apart(t.hot[r].base, t.hot[r].blocks * LINE, t.warmBase, t.warmSize); }
    case Cold =>
  }

  /**
   In every interleaving classify names the tier that served a pointer; the exception is made only by empty
   requests. For WARM and COLD pointers this holds whatever the HOT slabs do.
   */
  lemma ClassifyNamesServer(t: Tiers, run: seq<Action>)
    requires Start(t) && IsRun(t, run) && Always(WarmSound, t, run) && Always(HeapApart, t, run)
    ensures var u := Final(t, run);
            forall g :: g in u.served && (g.level.Hot? ==> Always(Owning, t, run) && Always(CurrentPop, t, run)) ==>
              NamesServer(u, g)
  {
    RunKeepsWarm(t, run);
    RunKeepsCold(t, run);
    RunFixes(t, run);
    var u := Final(t, run);
    RegionsSame(t, u);
    forall g | g in u.served && (g.level.Hot? ==> Always(Owning, t, run) && Always(CurrentPop, t, run))
      ensures NamesServer(u, g)
    {
      var k :| 0 <= k < |u.served| && u.served[k] == g;
      assert WarmOk(u, u.served[k]) && ColdOk(u, u.served[k]);
      if g.level.Hot? {
        StartHot(t);
        RunKeepsHot(t, run);
        assert HotOk(u, u.served[k]);
      }
      ClassifyOne(u, g);
    }
  }
}
