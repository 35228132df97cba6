/** Concrete runs of the tiers that show each hypothesis of the tier theorems is needed. */
module TierRuns {
  import opened Bits
  import opened Slab
  import opened Tier
  import opened TierCalls
  import opened ListCalls
  import FreeList

  lemma {:induction false} RunSnoc(t: Tiers, run: seq<Action>, x: Action)
    requires IsRun(t, run) && Can(Final(t, run), x)
    ensures IsRun(t, run + [x]) && Final(t, run + [x]) == Next(Final(t, run), x)
    decreases |run|
  {
    if run != [] {
      assert (run + [x])[1..] == run[1..] + [x];
      RunSnoc(Next(t, run[0]), run[1..], x);
    }
  }

  lemma PlayTwo(t: Tiers, done: seq<Action>, x: Action, y: Action)
    requires IsRun(t, done) && Can(Final(t, done), x) && Can(Next(Final(t, done), x), y)
    ensures IsRun(t, done + [x, y]) && Final(t, done + [x, y]) == Next(Next(Final(t, done), x), y)
  {
    RunSnoc(t, done, x);
    RunSnoc(t, done + [x], y);
    assert done + [x] + [y] == done + [x, y];
  }

  lemma Play(t: Tiers, done: seq<Action>, x: Action, y: Action, z: Action)
    requires IsRun(t, done)
    requires var t1 := Final(t, done);
             && Can(t1, x) && Can(Next(t1, x), y) && Can(Next(Next(t1, x), y), z)
    ensures IsRun(t, done + [x, y, z]) && Final(t, done + [x, y, z]) == Next(Next(Next(Final(t, done), x), y), z)
  {
    PlayTwo(t, done, x, y);
    RunSnoc(t, done + [x, y], z);
    assert done + [x, y] + [z] == done + [x, y, z];
  }

  /** Whole lines are not rounded. */
  lemma RoundLineWhole(n: nat)
    requires n % CACHE_LINE == 0 && n <= WORD - CACHE_LINE
    ensures RoundLine(n) == n
  {
    RoundLineCovers(n);
    ModShift(n, RoundLine(n), CACHE_LINE);
  }

  // ---------------------------------------------------------------------
  // WARM
  // ---------------------------------------------------------------------

  /** No HOT slabs, one thread, a WARM pool of one cache line. */
  function Small(offset: nat, thread: Thread, served: seq<Grant>): Tiers {
    Tiers([], 0, 4096, 64, offset, [thread], served, multiset{})
  }

  lemma SmallStarts()
    ensures Start(Small(0, Out, []))
  {
  }

  lemma SmallAdd(offset: nat, served: seq<Grant>, size: nat, next: nat)
    requires (offset + RoundLine(size)) % WORD == next <= 64
    ensures Next(Small(offset, AtWarm(size), served), WarmAdd(0)) ==
            Small(next, Out, served + [Grant(Warm, 4096 + offset, 0, 0, size)])
  {
  }

  /** A WARM request that is served at the given offset. */
  lemma SmallServes(done: seq<Action>, offset: nat, served: seq<Grant>, size: nat, next: nat)
    requires size < WORD && offset < WORD && (offset + RoundLine(size)) % WORD == next <= 64
    requires IsRun(Small(0, Out, []), done) && Final(Small(0, Out, []), done) == Small(offset, Out, served)
    ensures var run := done + [Request(0, Warm, size), WarmAdd(0)];
            && IsRun(Small(0, Out, []), run)
            && Final(Small(0, Out, []), run) == Small(next, Out, served + [Grant(Warm, 4096 + offset, 0, 0, size)])
  {
    assert Next(Small(offset, Out, served), Request(0, Warm, size)) == Small(offset, AtWarm(size), served);
    SmallAdd(offset, served, size, next);
    PlayTwo(Small(0, Out, []), done, Request(0, Warm, size), WarmAdd(0));
  }

  const WRAP_RUN: seq<Action> :=
    [] + [Request(0, Warm, 64), WarmAdd(0)] + [Request(0, Warm, WORD - 64), WarmAdd(0)]
       + [Request(0, Warm, 64), WarmAdd(0)]

  /** A sum that wraps is served past the end, and the next request gets the first piece again. */
  lemma WarmWrapOverlaps()
    ensures Start(Small(0, Out, [])) && IsRun(Small(0, Out, []), WRAP_RUN)
    ensures var s := Final(Small(0, Out, []), WRAP_RUN).served;
            && |s| == 3 && (forall k :: 0 <= k < 3 ==> s[k].level.Warm?)
            && s[0].ptr == s[2].ptr && s[0].size == s[2].size == 64
            && s[1].ptr + s[1].size > 4096 + 64
  {
    RoundLineWhole(64);
    RoundLineWhole(WORD - 64);
    SmallStarts();
    SmallServes([], 0, [], 64, 64);
    SmallServes([] + [Request(0, Warm, 64), WarmAdd(0)], 64, [] + [Grant(Warm, 4096, 0, 0, 64)], WORD - 64, 0);
    SmallServes([] + [Request(0, Warm, 64), WarmAdd(0)] + [Request(0, Warm, WORD - 64), WarmAdd(0)], 0,
                [] + [Grant(Warm, 4096, 0, 0, 64)] + [Grant(Warm, 4160, 0, 0, WORD - 64)], 64, 64);
  }

  /** A rounding that wraps is served with no bytes at all. */
  lemma HugeRequestGetsNothing()
    ensures var run := [] + [Request(0, Warm, WORD - 1), WarmAdd(0)];
            && IsRun(Small(0, Out, []), run)
            && Final(Small(0, Out, []), run) == Small(0, Out, [] + [Grant(Warm, 4096, 0, 0, WORD - 1)])
  {
    RoundLineCovers(WORD - 1);
    SmallServes([], 0, [], WORD - 1, 0);
  }

  /** A full pool serves an empty request at its end, and classify takes that pointer for COLD. */
  lemma EmptyRequestIsCold()
    ensures var run := [] + [Request(0, Warm, 64), WarmAdd(0)] + [Request(0, Warm, 0), WarmAdd(0)];
            && IsRun(Small(0, Out, []), run)
            && var t := Final(Small(0, Out, []), run);
            && |t.served| == 2 && t.served[1].level == Warm && Classify(t, t.served[1].ptr) == Cold
  {
    RoundLineWhole(64);
    RoundLineWhole(0);
    SmallServes([], 0, [], 64, 64);
    SmallServes([] + [Request(0, Warm, 64), WarmAdd(0)], 64, [] + [Grant(Warm, 4096, 0, 0, 64)], 0, 64);
  }

  // ---------------------------------------------------------------------
  // HOT with two threads in one slab
  // ---------------------------------------------------------------------

  /** One slab of three blocks at address 64, two threads, no WARM pool. */
  function Shared(q: FreeList.Pool, next: int, threads: seq<Thread>, served: seq<Grant>,
                  out: multiset<(nat, nat)>): Tiers {
    Tiers([HotSlab(64, 3, q)], next, 0, 0, 0, threads, served, out)
  }

  function Lists(head: nat, next: seq<nat>, allocs: seq<FreeList.Allocator>, freer: FreeList.Freer, chain: seq<nat>,
                 place: seq<FreeList.Place>): FreeList.Pool {
    FreeList.Pool(head, next, allocs, [FreeList.FIdle, freer], chain, [FreeList.Owned] + place)
  }

  const BOTH: Tiers :=
    Shared(Lists(1, [0, 2, 3, 0], [FreeList.AStart, FreeList.AStart], FreeList.FIdle, [1, 2, 3],
                 [FreeList.Free, FreeList.Free, FreeList.Free]), 0, [Out, Out], [], multiset{})

  function Block(b: nat): Grant {
    Grant(Hot, Addr(64, b), 0, b, 8)
  }

  /** Some run leads from the start to this state. */
  ghost predicate Reached(t: Tiers) {
    exists run :: IsRun(BOTH, run) && Final(BOTH, run) == t
  }

  lemma Go(t: Tiers, x: Action)
    requires Reached(t) && Can(t, x)
    ensures Reached(Next(t, x))
  {
    var run :| IsRun(BOTH, run) && Final(BOTH, run) == t;
    RunSnoc(BOTH, run, x);
  }

  /** A list step that neither wins a swap nor finds the list empty. */
  lemma ListMove(q: FreeList.Pool, q': FreeList.Pool, n: int, ts: seq<Thread>, served: seq<Grant>,
                 out: multiset<(nat, nat)>, u: nat, a: FreeList.Action)
    requires Reached(Shared(q, n, ts, served, out)) && Can(Shared(q, n, ts, served, out), InList(u, a))
    requires FreeList.Step(q, a) == q' && !FreeList.Wins(q, a) && q.head != 0
    ensures Reached(Shared(q', n, ts, served, out))
  {
    var t := Shared(q, n, ts, served, out);
    Go(t, InList(u, a));
    assert Next(t, InList(u, a)) == Shared(q', n, ts, served, out);
  }

  lemma TakeNext(q: FreeList.Pool, q': FreeList.Pool, n: int, ts: seq<Thread>, served: seq<Grant>,
                 out: multiset<(nat, nat)>, u: nat)
    requires var t, a := Shared(q, n, ts, served, out), FreeList.AllocCas(u);
             Can(t, InList(u, a)) && FreeList.Wins(q, a) && FreeList.Step(q, a) == q' && ts[u] == InSlab(0, 8)
    ensures Next(Shared(q, n, ts, served, out), InList(u, FreeList.AllocCas(u))) ==
            Shared(q', n, ts[u := Out], served + [Block(q.head)], out + multiset{(0, q.head)})
  {
    assert PoolStep(Shared(q, n, ts, served, out), 0, FreeList.AllocCas(u)).hot == [HotSlab(64, 3, q')];
  }

  /** A winning pop. */
  lemma TakeMove(q: FreeList.Pool, q': FreeList.Pool, n: int, ts: seq<Thread>, served: seq<Grant>,
                 out: multiset<(nat, nat)>, u: nat)
    requires var t, a := Shared(q, n, ts, served, out), FreeList.AllocCas(u);
             && Reached(t) && Can(t, InList(u, a)) && FreeList.Wins(q, a) && FreeList.Step(q, a) == q'
             && ts[u] == InSlab(0, 8)
    ensures Reached(Shared(q', n, ts[u := Out], served + [Block(q.head)], out + multiset{(0, q.head)}))
  {
    Go(Shared(q, n, ts, served, out), InList(u, FreeList.AllocCas(u)));
    TakeNext(q, q', n, ts, served, out, u);
  }

  /** A winning push. */
  lemma GiveMove(q: FreeList.Pool, q': FreeList.Pool, n: int, ts: seq<Thread>, served: seq<Grant>,
                 out: multiset<(nat, nat)>, u: nat)
    requires var t, a := Shared(q, n, ts, served, out), FreeList.FreeCas(u, false);
             Reached(t) && Can(t, InList(u, a)) && FreeList.Wins(q, a) && FreeList.Step(q, a) == q'
    ensures Reached(Shared(q', n, ts[u := Out], served, out))
  {
    var t, a := Shared(q, n, ts, served, out), FreeList.FreeCas(u, false);
    Go(t, InList(u, a));
    assert Next(t, InList(u, a)) == Shared(q', n, ts[u := Out], served, out);
  }

  /** A HOT request fetches its index. */
  lemma AskMove(q: FreeList.Pool, n: nat, ts: seq<Thread>, served: seq<Grant>, out: multiset<(nat, nat)>, u: nat)
    requires Reached(Shared(q, n, ts, served, out)) && u < |ts| && ts[u].Out? && n < INT_MAX
    ensures Reached(Shared(q, n + 1, ts[u := InSlab(0, 8)], served, out))
  {
    var t := Shared(q, n, ts, served, out);
    assert Rem(n, 1) == 0;
    Go(t, Request(u, Hot, 8));
    assert Next(t, Request(u, Hot, 8)) == Shared(q, n + 1, ts[u := InSlab(0, 8)], served, out);
  }

  /** Block 1, at address 64, is released. */
  lemma ReleaseMove(q: FreeList.Pool, q': FreeList.Pool, n: int, ts: seq<Thread>, served: seq<Grant>,
                    out: multiset<(nat, nat)>, u: nat)
    requires Reached(Shared(q, n, ts, served, out)) && u < |ts| && ts[u].Out?
    requires var a := FreeList.FreeBegin(u, [1]); FreeList.Ready(q, a) && FreeList.Step(q, a) == q'
    ensures Reached(Shared(q', n, ts[u := Giving(0)], served, out - multiset{(0, 1)}))
  {
    var t := Shared(q, n, ts, served, out);
    assert Owns(t.hot[0], 64) && OwnerFrom(t.hot, 64, 0) == 0 && BlockOf(t.hot[0], 64) == 1;
    Go(t, Release(u, 64));
    assert Next(t, Release(u, 64)) == Shared(q', n, ts[u := Giving(0)], served, out - multiset{(0, 1)});
  }

  /** Both threads enter the slab. */
  lemma BothAsk()
    ensures Reached(Shared(BOTH.hot[0].pool, 2, [InSlab(0, 8), InSlab(0, 8)], [], multiset{}))
  {
    var q := BOTH.hot[0].pool;
    assert IsRun(BOTH, []) && Final(BOTH, []) == BOTH;
    AskMove(q, 0, [Out, Out], [], multiset{}, 0);
    assert [Out, Out][0 := InSlab(0, 8)] == [InSlab(0, 8), Out];
    AskMove(q, 1, [InSlab(0, 8), Out], [], multiset{}, 1);
    assert [InSlab(0, 8), Out][1 := InSlab(0, 8)] == [InSlab(0, 8), InSlab(0, 8)];
  }

  /** Thread 0 reads head 1 and its link 2. */
  lemma FirstReads()
    ensures Reached(Shared(BOTH.hot[0].pool.(allocs := [FreeList.ARead(1, 2), FreeList.AStart]),
                           2, [InSlab(0, 8), InSlab(0, 8)], [], multiset{}))
  {
    BothAsk();
    var q, ts := BOTH.hot[0].pool, [InSlab(0, 8), InSlab(0, 8)];
    var q1 := q.(allocs := [FreeList.ALoaded(1), FreeList.AStart]);
    ListMove(q, q1, 2, ts, [], multiset{}, 0, FreeList.AllocLoad(0));
    var q2 := q.(allocs := [FreeList.ARead(1, 2), FreeList.AStart]);
    ListMove(q1, q2, 2, ts, [], multiset{}, 0, FreeList.AllocRead(0));
  }

  /** Thread 1 is about to pop. */
  lemma BothInSlab()
    ensures Reached(Shared(Lists(1, [0, 2, 3, 0], [FreeList.ARead(1, 2), FreeList.ARead(1, 2)], FreeList.FIdle,
                                 [1, 2, 3], [FreeList.Free, FreeList.Free, FreeList.Free]),
                           2, [InSlab(0, 8), InSlab(0, 8)], [], multiset{}))
  {
    FirstReads();
    var q, ts := BOTH.hot[0].pool, [InSlab(0, 8), InSlab(0, 8)];
    var q2 := q.(allocs := [FreeList.ARead(1, 2), FreeList.AStart]);
    var q3 := q.(allocs := [FreeList.ARead(1, 2), FreeList.ALoaded(1)]);
    ListMove(q2, q3, 2, ts, [], multiset{}, 1, FreeList.AllocLoad(1));
    var q4 := q.(allocs := [FreeList.ARead(1, 2), FreeList.ARead(1, 2)]);
    ListMove(q3, q4, 2, ts, [], multiset{}, 1, FreeList.AllocRead(1));
  }

  /** Thread 1 gets block 1 and asks for another one. */
  lemma FirstTaken()
    ensures Reached(Shared(Lists(2, [0, 2, 3, 0], [FreeList.ARead(1, 2), FreeList.AStart], FreeList.FIdle,
                                 [2, 3], [FreeList.Owned, FreeList.Free, FreeList.Free]),
                           3, [InSlab(0, 8), InSlab(0, 8)], [Block(1)], multiset{(0, 1)}))
  {
    BothInSlab();
    var ts, one := [InSlab(0, 8), InSlab(0, 8)], [FreeList.Owned, FreeList.Free, FreeList.Free];
    var q := Lists(1, [0, 2, 3, 0], [FreeList.ARead(1, 2), FreeList.ARead(1, 2)], FreeList.FIdle, [1, 2, 3],
                   [FreeList.Free, FreeList.Free, FreeList.Free]);
    var q1 := Lists(2, [0, 2, 3, 0], [FreeList.ARead(1, 2), FreeList.AStart], FreeList.FIdle, [2, 3], one);
    TakeMove(q, q1, 2, ts, [], multiset{}, 1);
    assert ts[1 := Out] == [InSlab(0, 8), Out] && [] + [Block(1)] == [Block(1)];
    assert multiset{} + multiset{(0, 1)} == multiset{(0, 1)};
    AskMove(q1, 2, [InSlab(0, 8), Out], [Block(1)], multiset{(0, 1)}, 1);
    assert [InSlab(0, 8), Out][1 := InSlab(0, 8)] == ts;
  }

  lemma FirstOut()
    ensures Reached(Shared(Lists(2, [0, 2, 3, 0], [FreeList.ARead(1, 2), FreeList.ARead(2, 3)], FreeList.FIdle,
                                 [2, 3], [FreeList.Owned, FreeList.Free, FreeList.Free]),
                           3, [InSlab(0, 8), InSlab(0, 8)], [Block(1)], multiset{(0, 1)}))
  {
    FirstTaken();
    var ts := [InSlab(0, 8), InSlab(0, 8)];
    var q1 := Lists(2, [0, 2, 3, 0], [FreeList.ARead(1, 2), FreeList.AStart], FreeList.FIdle, [2, 3],
                    [FreeList.Owned, FreeList.Free, FreeList.Free]);
    var q2 := q1.(allocs := [FreeList.ARead(1, 2), FreeList.ALoaded(2)]);
    ListMove(q1, q2, 3, ts, [Block(1)], multiset{(0, 1)}, 1, FreeList.AllocLoad(1));
    var q3 := q1.(allocs := [FreeList.ARead(1, 2), FreeList.ARead(2, 3)]);
    ListMove(q2, q3, 3, ts, [Block(1)], multiset{(0, 1)}, 1, FreeList.AllocRead(1));
  }

  /** Thread 1 gets block 2 and starts to give block 1 back. */
  lemma SecondTaken()
    ensures Reached(Shared(Lists(3, [0, 2, 3, 0], [FreeList.ARead(1, 2), FreeList.AStart], FreeList.FIdle, [3],
                                 [FreeList.Owned, FreeList.Owned, FreeList.Free]),
                           3, [InSlab(0, 8), Out], [Block(1), Block(2)], multiset{(0, 1), (0, 2)}))
  {
    FirstOut();
    var ts, two := [InSlab(0, 8), InSlab(0, 8)], [FreeList.Owned, FreeList.Owned, FreeList.Free];
    var q := Lists(2, [0, 2, 3, 0], [FreeList.ARead(1, 2), FreeList.ARead(2, 3)], FreeList.FIdle, [2, 3],
                   [FreeList.Owned, FreeList.Free, FreeList.Free]);
    var q1 := Lists(3, [0, 2, 3, 0], [FreeList.ARead(1, 2), FreeList.AStart], FreeList.FIdle, [3], two);
    TakeMove(q, q1, 3, ts, [Block(1)], multiset{(0, 1)}, 1);
    assert multiset{(0, 1)} + multiset{(0, 2)} == multiset{(0, 1), (0, 2)};
    assert ts[1 := Out] == [InSlab(0, 8), Out] && [Block(1)] + [Block(2)] == [Block(1), Block(2)];
  }

  lemma SecondOut()
    ensures Reached(Shared(Lists(3, [0, 2, 3, 0], [FreeList.ARead(1, 2), FreeList.AStart], FreeList.FLinking([1], 0),
                                 [3], [FreeList.Flight(1), FreeList.Owned, FreeList.Free]),
                           3, [InSlab(0, 8), Giving(0)], [Block(1), Block(2)], multiset{(0, 2)}))
  {
    SecondTaken();
    var both := multiset{(0, 1), (0, 2)};
    var q1 := Lists(3, [0, 2, 3, 0], [FreeList.ARead(1, 2), FreeList.AStart], FreeList.FIdle, [3],
                    [FreeList.Owned, FreeList.Owned, FreeList.Free]);
    var q2 := Lists(3, [0, 2, 3, 0], [FreeList.ARead(1, 2), FreeList.AStart], FreeList.FLinking([1], 0), [3],
                    [FreeList.Flight(1), FreeList.Owned, FreeList.Free]);
    ReleaseMove(q1, q2, 3, [InSlab(0, 8), Out], [Block(1), Block(2)], both, 1);
    assert [InSlab(0, 8), Out][1 := Giving(0)] == [InSlab(0, 8), Giving(0)];
    assert both - multiset{(0, 1)} == multiset{(0, 2)};
  }

  /** The freeing thread sees head 3. */
  lemma HeadSeen()
    ensures Reached(Shared(Lists(3, [0, 2, 3, 0], [FreeList.ARead(1, 2), FreeList.AStart], FreeList.FWrite([1], 3), [3],
                                 [FreeList.Flight(1), FreeList.Owned, FreeList.Free]),
                           3, [InSlab(0, 8), Giving(0)], [Block(1), Block(2)], multiset{(0, 2)}))
  {
    SecondOut();
    var ts, gs, o := [InSlab(0, 8), Giving(0)], [Block(1), Block(2)], multiset{(0, 2)};
    var q := Lists(3, [0, 2, 3, 0], [FreeList.ARead(1, 2), FreeList.AStart], FreeList.FLinking([1], 0), [3],
                   [FreeList.Flight(1), FreeList.Owned, FreeList.Free]);
    var q1 := q.(freers := [FreeList.FIdle, FreeList.FLoad([1])]);
    ListMove(q, q1, 3, ts, gs, o, 1, FreeList.FreeLink(1));
    var q2 := q.(freers := [FreeList.FIdle, FreeList.FWrite([1], 3)]);
    ListMove(q1, q2, 3, ts, gs, o, 1, FreeList.FreeLoad(1));
  }

  /** Block 1 is linked to block 3. */
  lemma FirstLinked()
    ensures Reached(Shared(Lists(3, [0, 3, 3, 0], [FreeList.ARead(1, 2), FreeList.AStart], FreeList.FSwap([1], 3), [3],
                                 [FreeList.Flight(1), FreeList.Owned, FreeList.Free]),
                           3, [InSlab(0, 8), Giving(0)], [Block(1), Block(2)], multiset{(0, 2)}))
  {
    HeadSeen();
    var ts, gs, o := [InSlab(0, 8), Giving(0)], [Block(1), Block(2)], multiset{(0, 2)};
    var q2 := Lists(3, [0, 2, 3, 0], [FreeList.ARead(1, 2), FreeList.AStart], FreeList.FWrite([1], 3), [3],
                    [FreeList.Flight(1), FreeList.Owned, FreeList.Free]);
    var q3 := q2.(freers := [FreeList.FIdle, FreeList.FSwap([1], 3)], next := [0, 3, 3, 0]);
    ListMove(q2, q3, 3, ts, gs, o, 1, FreeList.FreeWrite(1));
  }

  /** It is back in front of block 3. */
  lemma FirstBack()
    ensures Reached(Shared(Lists(1, [0, 3, 3, 0], [FreeList.ARead(1, 2), FreeList.AStart], FreeList.FIdle, [1, 3],
                                 [FreeList.Free, FreeList.Owned, FreeList.Free]),
                           3, [InSlab(0, 8), Out], [Block(1), Block(2)], multiset{(0, 2)}))
  {
    FirstLinked();
    var ts, gs, o := [InSlab(0, 8), Giving(0)], [Block(1), Block(2)], multiset{(0, 2)};
    var q3 := Lists(3, [0, 3, 3, 0], [FreeList.ARead(1, 2), FreeList.AStart], FreeList.FSwap([1], 3), [3],
                    [FreeList.Flight(1), FreeList.Owned, FreeList.Free]);
    var q4 := Lists(1, [0, 3, 3, 0], [FreeList.ARead(1, 2), FreeList.AStart], FreeList.FIdle, [1, 3],
                    [FreeList.Free, FreeList.Owned, FreeList.Free]);
    GiveMove(q3, q4, 3, ts, gs, o, 1);
    assert ts[1 := Out] == [InSlab(0, 8), Out];
  }

  /** Thread 0's stale swap gets block 1 and makes block 2 the head; thread 0 asks again. */
  lemma StaleTaken()
    ensures Reached(Shared(Lists(2, [0, 3, 3, 0], [FreeList.AStart, FreeList.AStart], FreeList.FIdle, [3],
                                 [FreeList.Owned, FreeList.Owned, FreeList.Free]),
                           4, [InSlab(0, 8), Out], [Block(1), Block(2), Block(1)], multiset{(0, 1), (0, 2)}))
  {
    FirstBack();
    var gs, o := [Block(1), Block(2), Block(1)], multiset{(0, 1), (0, 2)};
    var q := Lists(1, [0, 3, 3, 0], [FreeList.ARead(1, 2), FreeList.AStart], FreeList.FIdle, [1, 3],
                   [FreeList.Free, FreeList.Owned, FreeList.Free]);
    var q1 := Lists(2, [0, 3, 3, 0], [FreeList.AStart, FreeList.AStart], FreeList.FIdle, [3],
                    [FreeList.Owned, FreeList.Owned, FreeList.Free]);
    TakeMove(q, q1, 3, [InSlab(0, 8), Out], [Block(1), Block(2)], multiset{(0, 2)}, 0);
    assert [InSlab(0, 8), Out][0 := Out] == [Out, Out] && [Block(1), Block(2)] + [Block(1)] == gs;
    assert multiset{(0, 2)} + multiset{(0, 1)} == o;
    AskMove(q1, 3, [Out, Out], gs, o, 0);
    assert [Out, Out][0 := InSlab(0, 8)] == [InSlab(0, 8), Out];
  }

  lemma StaleSwap()
    ensures Reached(Shared(Lists(2, [0, 3, 3, 0], [FreeList.ARead(2, 3), FreeList.AStart], FreeList.FIdle, [3],
                                 [FreeList.Owned, FreeList.Owned, FreeList.Free]),
                           4, [InSlab(0, 8), Out], [Block(1), Block(2), Block(1)], multiset{(0, 1), (0, 2)}))
  {
    StaleTaken();
    var gs, o := [Block(1), Block(2), Block(1)], multiset{(0, 1), (0, 2)};
    var q1 := Lists(2, [0, 3, 3, 0], [FreeList.AStart, FreeList.AStart], FreeList.FIdle, [3],
                    [FreeList.Owned, FreeList.Owned, FreeList.Free]);
    var q2 := q1.(allocs := [FreeList.ALoaded(2), FreeList.AStart]);
    ListMove(q1, q2, 4, [InSlab(0, 8), Out], gs, o, 0, FreeList.AllocLoad(0));
    var q3 := q1.(allocs := [FreeList.ARead(2, 3), FreeList.AStart]);
    ListMove(q2, q3, 4, [InSlab(0, 8), Out], gs, o, 0, FreeList.AllocRead(0));
  }

  /** Two threads in one slab: block 2 is handed out a second time while its owner has it. */
  lemma SharedSlabHandsOutTwice()
    ensures Start(BOTH) && exists run :: IsRun(BOTH, run) && Final(BOTH, run).out[(0, 2)] == 2
  {
    StaleSwap();
    BothStarts();
    var gs, o := [Block(1), Block(2), Block(1)], multiset{(0, 1), (0, 2)};
    var q := Lists(2, [0, 3, 3, 0], [FreeList.ARead(2, 3), FreeList.AStart], FreeList.FIdle, [3],
                   [FreeList.Owned, FreeList.Owned, FreeList.Free]);
    var q1 := FreeList.Step(q, FreeList.AllocCas(0));
    TakeMove(q, q1, 4, [InSlab(0, 8), Out], gs, o, 0);
    assert (o + multiset{(0, 2)})[(0, 2)] == 2;
  }

  /** One block of 64 bytes granted to a request for 65. */
  const GRANTED: Tiers :=
    Shared(Lists(2, [0, 2, 3, 0], [FreeList.AStart, FreeList.AStart], FreeList.FIdle, [2, 3],
                 [FreeList.Owned, FreeList.Free, FreeList.Free]),
           1, [Out, Out], [Grant(Hot, 64, 0, 1, 65)], multiset{(0, 1)})

  lemma FirstGrant()
    ensures Reached(GRANTED)
  {
    assert IsRun(BOTH, []) && Final(BOTH, []) == BOTH;
    GoCall(BOTH, 0, 65);
    var q := GRANTED.hot[0].pool;
    assert Popped(BOTH.hot[0].pool) == q;
    assert AllocCall(BOTH, Hot, 65, 0).hot == [HotSlab(64, 3, q)];
  }

  /** Two HOT requests for 65 bytes get the blocks at 64 and at 128: the first one runs into the second. */
  lemma HotRequestsOverlap()
    ensures Start(BOTH)
    ensures exists run ::
              IsRun(BOTH, run) && Final(BOTH, run).served == [Grant(Hot, 64, 0, 1, 65), Grant(Hot, 128, 0, 2, 65)]
  {
    BothStarts();
    FirstGrant();
    GoCall(GRANTED, 0, 65);
    assert AllocCall(GRANTED, Hot, 65, 0).served == [Grant(Hot, 64, 0, 1, 65), Grant(Hot, 128, 0, 2, 65)];
  }

  /** An undisturbed HOT request. */
  lemma GoCall(t: Tiers, u: nat, size: nat)
    requires Reached(t) && Can(t, Request(u, Hot, size)) && t.hot != []
    requires var s := t.hot[Rem(t.hotNext, |t.hot|)]; HeadOk(s) && u < |s.pool.allocs| && s.pool.allocs[u].AStart?
    ensures Reached(AllocCall(t, Hot, size, 0))
  {
    AllocIsRun(t, u, Hot, size, 0);
    var run :| IsRun(BOTH, run) && Final(BOTH, run) == t;
    RunAppend(BOTH, run, AllocRun(t, u, Hot, size, 0));
  }

  lemma {:induction false} RunAppend(t: Tiers, run: seq<Action>, more: seq<Action>)
    requires IsRun(t, run) && IsRun(Final(t, run), more)
    ensures IsRun(t, run + more) && Final(t, run + more) == Final(Final(t, run), more)
    decreases |run|
  {
    if run == [] {
      assert run + more == more;
    } else {
      assert (run + more)[0] == run[0] && (run + more)[1..] == run[1..] + more;
      RunAppend(Next(t, run[0]), run[1..], more);
    }
  }

  lemma BothStarts()
    ensures Start(BOTH)
  {
    var q := BOTH.hot[0].pool;
    var c := q.chain;
    assert c[0] == 1 && c[1] == 2 && c[2] == 3;
    forall b | 0 < b < |q.place| ensures q.place[b].Free? <==> b in c { assert c[b - 1] == b; }
  }
}
