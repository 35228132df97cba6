/**
 What becomes of every tier request, read off the run: a request stays with its tier until that tier serves it,
 leaves HOT only for an empty slab list and WARM only for want of room, and ends with a grant of its size.
 */
module TierFlow {
  import opened Bits
  import opened Tier
  import FreeList

  // ---------------------------------------------------------------------
  // Entering and leaving a tier
  // ---------------------------------------------------------------------

  /** Counts are of the requests of one size z. */
  function One(size: nat, z: nat): nat {
    if size == z then 1 else 0
  }

  /** A HOT request finds the list of its slab empty. */
  predicate FindsEmpty(t: Tiers, x: Action) {
    && x.InList? && Can(t, x) && t.threads[x.u].InSlab? && x.a.AllocLoad?
    && t.hot[t.threads[x.u].i].pool.head == 0
  }

  /** A WARM request finds no pool, or no room after its fetch-and-add. */
  predicate FindsNoRoom(t: Tiers, x: Action) {
    && x.WarmAdd? && Can(t, x)
    && (t.warmBase == 0 || (t.warmOffset + RoundLine(t.threads[x.u].size)) % WORD > t.warmSize)
  }

  /** A step takes a request out of a tier without serving it. */
  function Leaves(t: Tiers, x: Action, level: Level, z: nat): nat {
    match level
    case Hot => if FindsEmpty(t, x) then One(t.threads[x.u].size, z) else 0
    case Warm => if FindsNoRoom(t, x) then One(t.threads[x.u].size, z) else 0
    case Cold => 0
  }

  /** A caller asks a tier; HOT requests go to WARM where there are no slabs. */
  function Asks(t: Tiers, x: Action, level: Level, z: nat): nat {
    if !x.Request? then 0
    else if x.level == level && (level.Hot? ==> t.hot != []) then One(x.size, z)
    else if level.Warm? && x.level.Hot? && t.hot == [] then One(x.size, z)
    else 0
  }

  /** What enters a tier: what callers ask of it, and what leaves the tier above. */
  function Enters(t: Tiers, x: Action, level: Level, z: nat): nat {
    Asks(t, x, level, z)
      + match level case Hot => 0 case Warm => Leaves(t, x, Hot, z) case Cold => Leaves(t, x, Warm, z)
  }

  ghost function Entered(t: Tiers, run: seq<Action>, level: Level, z: nat): nat
    requires IsRun(t, run)
    decreases |run|
  {
    if run == [] then 0 else Enters(t, run[0], level, z) + Entered(Next(t, run[0]), run[1..], level, z)
  }

  ghost function Left(t: Tiers, run: seq<Action>, level: Level, z: nat): nat
    requires IsRun(t, run)
    decreases |run|
  {
    if run == [] then 0 else Leaves(t, run[0], level, z) + Left(Next(t, run[0]), run[1..], level, z)
  }

  // ---------------------------------------------------------------------
  // Served and waiting
  // ---------------------------------------------------------------------

  /** The grants of a tier for requests of size z. */
  function ServedAt(served: seq<Grant>, level: Level, z: nat): nat {
    if served == [] then 0
    else
      var g := served[|served| - 1];
      ServedAt(served[..|served| - 1], level, z) + if g.level == level then One(g.size, z) else 0
  }

  lemma ServedSnoc(served: seq<Grant>, g: Grant, level: Level, z: nat)
    ensures ServedAt(served + [g], level, z) ==
            ServedAt(served, level, z) + if g.level == level then One(g.size, z) else 0
  {
    assert (served + [g])[..|served|] == served;
  }

  /** The request a thread has with a tier. */
  function With(th: Thread, level: Level, z: nat): nat {
    match level
    case Hot => if th.InSlab? then One(th.size, z) else 0
    case Warm => if th.AtWarm? then One(th.size, z) else 0
    case Cold => if th.AtCold? then One(th.size, z) else 0
  }

  function Waiting(ts: seq<Thread>, level: Level, z: nat): nat {
    if ts == [] then 0 else With(ts[0], level, z) + Waiting(ts[1..], level, z)
  }

  lemma {:induction false} WaitingMoves(ts: seq<Thread>, u: nat, th: Thread, level: Level, z: nat)
    requires u < |ts|
    ensures Waiting(ts[u := th], level, z) + With(ts[u], level, z) == Waiting(ts, level, z) + With(th, level, z)
    decreases |ts|
  {
    if u == 0 {
      assert ts[u := th][1..] == ts[1..];
    } else {
      assert ts[u := th][1..] == ts[1..][u - 1 := th];
      WaitingMoves(ts[1..], u - 1, th, level, z);
    }
  }

  lemma {:induction false} NobodyWaits(ts: seq<Thread>, level: Level, z: nat)
    requires forall u :: 0 <= u < |ts| ==> ts[u].Out?
    ensures Waiting(ts, level, z) == 0
  {
    if ts != [] { NobodyWaits(ts[1..], level, z); }
  }

  /** What a tier has served or has under way. */
  function Kept(t: Tiers, level: Level, z: nat): nat {
    ServedAt(t.served, level, z) + Waiting(t.threads, level, z)
  }

  // ---------------------------------------------------------------------
  // One step
  // ---------------------------------------------------------------------

  /** Thread u moves to th, and gets what made says. */
  ghost predicate Moves(t: Tiers, t': Tiers, u: nat, th: Thread, made: seq<Grant>) {
    && u < |t.threads| && t'.threads == t.threads[u := th]
    && t'.served == t.served + made && |made| <= 1
  }

  function Made(made: seq<Grant>, level: Level, z: nat): nat {
    if made != [] && made[0].level == level then One(made[0].size, z) else 0
  }

  lemma OneMoves(t: Tiers, t': Tiers, u: nat, th: Thread, made: seq<Grant>, level: Level, z: nat)
    requires Moves(t, t', u, th, made)
    ensures Kept(t', level, z) ==
            Kept(t, level, z) + Made(made, level, z) + With(th, level, z) - With(t.threads[u], level, z)
  {
    WaitingMoves(t.threads, u, th, level, z);
    if made == [] {
      assert t.served + [] == t.served;
    } else {
      assert made == [made[0]];
      ServedSnoc(t.served, made[0], level, z);
    }
  }

  lemma ListMoves(t: Tiers, x: Action) returns (made: seq<Grant>)
    requires x.InList? && Can(t, x)
    ensures Moves(t, Next(t, x), x.u, Next(t, x).threads[x.u], made)
    ensures made == if x.a.AllocCas? && FreeList.Wins(t.hot[t.threads[x.u].i].pool, x.a)
                    then [Grant(Hot, Addr(t.hot[t.threads[x.u].i].base, t.hot[t.threads[x.u].i].pool.allocs[x.u].h),
                                t.threads[x.u].i, t.hot[t.threads[x.u].i].pool.allocs[x.u].h, t.threads[x.u].size)]
                    else []
  {
    assert t.served + [] == t.served;
    assert t.threads[x.u := t.threads[x.u]] == t.threads;
    made := Next(t, x).served[|t.served|..];
  }

  lemma ListFlows(t: Tiers, x: Action, level: Level, z: nat)
    requires x.InList? && Can(t, x)
    ensures Enters(t, x, level, z) + Kept(t, level, z) == Leaves(t, x, level, z) + Kept(Next(t, x), level, z)
  {
    var made := ListMoves(t, x);
    OneMoves(t, Next(t, x), x.u, Next(t, x).threads[x.u], made, level, z);
  }

  lemma RequestMoves(t: Tiers, x: Action) returns (th: Thread)
    requires x.Request? && Can(t, x)
    ensures Moves(t, Next(t, x), x.u, th, [])
    ensures th == if x.level.Cold? then AtCold(x.size)
                  else if x.level.Warm? || t.hot == [] then AtWarm(x.size)
                  else InSlab(Rem(t.hotNext, |t.hot|), x.size)
  {
    assert t.served + [] == t.served;
    th := Next(t, x).threads[x.u];
  }

  lemma RequestFlows(t: Tiers, x: Action, level: Level, z: nat)
    requires x.Request? && Can(t, x)
    ensures Enters(t, x, level, z) + Kept(t, level, z) == Leaves(t, x, level, z) + Kept(Next(t, x), level, z)
  {
    var th := RequestMoves(t, x);
    OneMoves(t, Next(t, x), x.u, th, [], level, z);
  }

  lemma WarmMoves(t: Tiers, x: Action) returns (made: seq<Grant>)
    requires x.WarmAdd? && Can(t, x)
    ensures var size := t.threads[x.u].size;
            && Moves(t, Next(t, x), x.u, if FindsNoRoom(t, x) then AtCold(size) else Out, made)
            && made == if FindsNoRoom(t, x) then [] else [Grant(Warm, t.warmBase + t.warmOffset, 0, 0, size)]
  {
    made := if FindsNoRoom(t, x) then []
            else [Grant(Warm, t.warmBase + t.warmOffset, 0, 0, t.threads[x.u].size)];
    assert t.served + [] == t.served;
  }

  lemma WarmFlows(t: Tiers, x: Action, level: Level, z: nat)
    requires x.WarmAdd? && Can(t, x)
    ensures Enters(t, x, level, z) + Kept(t, level, z) == Leaves(t, x, level, z) + Kept(Next(t, x), level, z)
  {
    var made := WarmMoves(t, x);
    var th := if FindsNoRoom(t, x) then AtCold(t.threads[x.u].size) else Out;
    OneMoves(t, Next(t, x), x.u, th, made, level, z);
  }

  lemma HeapMoves(t: Tiers, x: Action)
    requires x.Heap? && Can(t, x)
    ensures Moves(t, Next(t, x), x.u, Out, [Grant(Cold, x.ptr, 0, 0, t.threads[x.u].size)])
  {
  }

  lemma HeapFlows(t: Tiers, x: Action, level: Level, z: nat)
    requires x.Heap? && Can(t, x)
    ensures Enters(t, x, level, z) + Kept(t, level, z) == Leaves(t, x, level, z) + Kept(Next(t, x), level, z)
  {
    HeapMoves(t, x);
    OneMoves(t, Next(t, x), x.u, Out, [Grant(Cold, x.ptr, 0, 0, t.threads[x.u].size)], level, z);
  }

  lemma ReleaseMoves(t: Tiers, x: Action) returns (th: Thread)
    requires x.Release? && Can(t, x)
    ensures Moves(t, Next(t, x), x.u, th, []) && (th.Out? || th.Giving?)
  {
    assert t.served + [] == t.served;
    assert t.threads[x.u := t.threads[x.u]] == t.threads;
    th := Next(t, x).threads[x.u];
  }

  lemma ReleaseFlows(t: Tiers, x: Action, level: Level, z: nat)
    requires x.Release? && Can(t, x)
    ensures Enters(t, x, level, z) + Kept(t, level, z) == Leaves(t, x, level, z) + Kept(Next(t, x), level, z)
  {
    var th := ReleaseMoves(t, x);
    OneMoves(t, Next(t, x), x.u, th, [], level, z);
  }

  lemma StepFlows(t: Tiers, x: Action, level: Level, z: nat)
    requires Can(t, x)
    ensures Enters(t, x, level, z) + Kept(t, level, z) == Leaves(t, x, level, z) + Kept(Next(t, x), level, z)
  {
    match x
    case Request(_, _, _) => RequestFlows(t, x, level, z);
    case InList(_, _) => ListFlows(t, x, level, z);
    case WarmAdd(_) => WarmFlows(t, x, level, z);
    case Write(_, _, _) =>
    case Heap(_, _) => HeapFlows(t, x, level, z);
    case Release(_, _) => ReleaseFlows(t, x, level, z);
  }

  lemma {:induction false} RunFlows(t: Tiers, run: seq<Action>, level: Level, z: nat)
    requires IsRun(t, run)
    ensures Entered(t, run, level, z) + Kept(t, level, z) == Left(t, run, level, z) + Kept(Final(t, run), level, z)
    decreases |run|
  {
    if run != [] {
      StepFlows(t, run[0], level, z);
      RunFlows(Next(t, run[0]), run[1..], level, z);
    }
  }

  /**
   In every interleaving, whatever the lists are like, and for every size: what enters a tier has been served by
   it, has left it for an empty list or for want of room, or is with a thread that is still there; nothing leaves
   COLD unserved.
   */
  lemma RequestsAreServed(t: Tiers, run: seq<Action>, level: Level, z: nat)
    requires IsRun(t, run) && t.served == [] && forall u :: 0 <= u < |t.threads| ==> t.threads[u].Out?
    ensures var t' := Final(t, run);
            Entered(t, run, level, z) ==
            Left(t, run, level, z) + ServedAt(t'.served, level, z) + Waiting(t'.threads, level, z)
    ensures level.Cold? ==> Left(t, run, level, z) == 0
  {
    RunFlows(t, run, level, z);
    NobodyWaits(t.threads, level, z);
    if level.Cold? { NothingLeavesCold(t, run, z); }
  }

  lemma {:induction false} NothingLeavesCold(t: Tiers, run: seq<Action>, z: nat)
    requires IsRun(t, run)
    ensures Left(t, run, Cold, z) == 0
    decreases |run|
  {
    if run != [] { NothingLeavesCold(Next(t, run[0]), run[1..], z); }
  }

  // ---------------------------------------------------------------------
  // Round robin, releases, and a WARM pool that has refused once
  // ---------------------------------------------------------------------

  /** How many HOT requests of a run fetch an index. */
  function HotRequests(run: seq<Action>): nat {
    if run == [] then 0 else (if run[0].Request? && run[0].level.Hot? then 1 else 0) + HotRequests(run[1..])
  }

  /** A HOT request enters the slab that the index names. */
  lemma EntersSlab(t: Tiers, u: nat, size: nat)
    requires Can(t, Request(u, Hot, size)) && t.hot != []
    ensures Next(t, Request(u, Hot, size)).threads[u] == InSlab(Rem(t.hotNext, |t.hot|), size)
  {
  }

  /** The index counts the HOT requests, so below 2^31 of them the k-th one goes to slab k modulo their number. */
  lemma {:induction false} RoundRobin(t: Tiers, run: seq<Action>)
    requires IsRun(t, run) && t.hot != [] && 0 <= t.hotNext && t.hotNext + HotRequests(run) <= INT_MAX
    ensures |Final(t, run).hot| == |t.hot|
    ensures Final(t, run).hotNext == t.hotNext + HotRequests(run)
    ensures Rem(Final(t, run).hotNext, |t.hot|) == (t.hotNext + HotRequests(run)) % |t.hot|
    decreases |run|
  {
    if run != [] {
      NextFixes(t, run[0]);
      RoundRobin(Next(t, run[0]), run[1..]);
    }
  }

  /** A release that a slab takes, and the swap that ends it. */
  predicate Begins(t: Tiers, x: Action) {
    x.Release? && x.ptr != 0 && OwnerFrom(t.hot, x.ptr, 0) < |t.hot|
  }

  predicate Finishes(t: Tiers, x: Action) {
    && x.InList? && Can(t, x) && t.threads[x.u].Giving? && x.a.FreeCas?
    && FreeList.Wins(t.hot[t.threads[x.u].i].pool, x.a)
  }

  ghost function Begun(t: Tiers, run: seq<Action>): nat
    requires IsRun(t, run)
    decreases |run|
  {
    if run == [] then 0 else (if Begins(t, run[0]) then 1 else 0) + Begun(Next(t, run[0]), run[1..])
  }

  ghost function Finished(t: Tiers, run: seq<Action>): nat
    requires IsRun(t, run)
    decreases |run|
  {
    if run == [] then 0 else (if Finishes(t, run[0]) then 1 else 0) + Finished(Next(t, run[0]), run[1..])
  }

  function Giving(ts: seq<Thread>): nat {
    if ts == [] then 0 else (if ts[0].Giving? then 1 else 0) + Giving(ts[1..])
  }

  lemma {:induction false} GivingMoves(ts: seq<Thread>, u: nat, th: Thread)
    requires u < |ts|
    ensures Giving(ts[u := th]) + (if ts[u].Giving? then 1 else 0) == Giving(ts) + if th.Giving? then 1 else 0
    decreases |ts|
  {
    if u == 0 {
      assert ts[u := th][1..] == ts[1..];
    } else {
      assert ts[u := th][1..] == ts[1..][u - 1 := th];
      GivingMoves(ts[1..], u - 1, th);
    }
  }

  lemma StepGives(t: Tiers, x: Action)
    requires Can(t, x)
    ensures (if Begins(t, x) then 1 else 0) + Giving(t.threads) ==
            (if Finishes(t, x) then 1 else 0) + Giving(Next(t, x).threads)
  {
    if !x.Write? {
      assert t.threads[x.u := t.threads[x.u]] == t.threads;
      assert Next(t, x).threads == t.threads[x.u := Next(t, x).threads[x.u]];
      GivingMoves(t.threads, x.u, Next(t, x).threads[x.u]);
    }
  }

  /** Every release that a slab takes has put its block on the list or is under way. */
  lemma {:induction false} ReleasesFinish(t: Tiers, run: seq<Action>)
    requires IsRun(t, run)
    ensures Begun(t, run) + Giving(t.threads) == Finished(t, run) + Giving(Final(t, run).threads)
    decreases |run|
  {
    if run != [] {
      StepGives(t, run[0]);
      ReleasesFinish(Next(t, run[0]), run[1..]);
    }
  }

  /** The WARM sums of a run do not wrap. */
  ghost predicate NoSumWraps(t: Tiers, run: seq<Action>)
    requires IsRun(t, run)
    decreases |run|
  {
    run != [] ==>
      && (run[0].WarmAdd? ==> NoWrap(t.warmOffset, t.threads[run[0].u].size))
      && NoSumWraps(Next(t, run[0]), run[1..])
  }

  /** A WARM request that does not wrap is served exactly when it fits; a refusal uses up the pool all the same. */
  lemma WarmServedExactly(t: Tiers, u: nat)
    requires Can(t, WarmAdd(u)) && t.warmBase != 0 && NoWrap(t.warmOffset, t.threads[u].size)
    ensures var t', end := Next(t, WarmAdd(u)), t.warmOffset + RoundLine(t.threads[u].size);
            && t'.warmOffset == end
            && t'.threads[u] == (if end <= t.warmSize then Out else AtCold(t.threads[u].size))
            && t'.served == t.served + if end <= t.warmSize
                                       then [Grant(Warm, t.warmBase + t.warmOffset, 0, 0, t.threads[u].size)] else []
  {
    ModSmall(t.warmOffset + RoundLine(t.threads[u].size), WORD);
    assert t.served + [] == t.served;
  }

  /** After one refusal no WARM request is served any more, however small it is. */
  lemma {:induction false} RefusalUsesUp(t: Tiers, run: seq<Action>)
    requires IsRun(t, run) && NoSumWraps(t, run) && t.warmBase != 0 && t.warmOffset > t.warmSize
    ensures forall g :: g in Final(t, run).served && g.level.Warm? ==> g in t.served
    decreases |run|
  {
    if run != [] {
      var x := run[0];
      NextFixes(t, x);
      if x.WarmAdd? { WarmServedExactly(t, x.u); }
      NotWarm(t, x);
      RefusalUsesUp(Next(t, x), run[1..]);
    }
  }

  lemma NotWarm(t: Tiers, x: Action)
    requires Can(t, x) && (x.WarmAdd? ==> FindsNoRoom(t, x))
    ensures forall g :: g in Next(t, x).served && g.level.Warm? ==> g in t.served
    ensures !x.WarmAdd? ==> Next(t, x).warmOffset == t.warmOffset
  {
  }
}
