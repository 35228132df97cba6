/**
 The single-producer single-consumer ring as a step machine: one load, store or
 buffer access per step, under every interleaving of the two threads. Steps are
 sequentially consistent, which is stronger than the acquire/release orders of
 section 7.17.3 of ISO/IEC 9899:2011.

 `log` records each call at its linearization point; `pushes` and `pops` record
 what the calls returned.
 */
module Spsc {
  import opened Bits
  import opened Ring
  import opened Options

  datatype Event<T> = PushOk(x: T) | PushFull(x: T) | PopOk(x: T) | PopEmpty

  /** Where the producer is inside a push. `seen` is the number of pops when head was loaded. */
  datatype Producer<T> =
    | PIdle
    | PHead(item: T, h: nat, seen: nat)
    | PReady(item: T, t: nat, next: nat)
    | PWritten(item: T, t: nat, next: nat)

  datatype Consumer<T> =
    | CIdle
    | CHead(h: nat)
    | CReady(h: nat)
    | CRead(h: nat, x: T)

  datatype Queue<T> = Queue(
    head: nat, tail: nat, buffer: seq<T>,
    prod: Producer<T>, cons: Consumer<T>,
    log: seq<Event<T>>, pushes: seq<Event<T>>, pops: seq<Event<T>>)

  datatype Action<T> =
    | PushLoadHead(item: T) | PushLoadTail | PushWrite | PushStore
    | PopLoadHead | PopLoadTail | PopRead | PopStore

  predicate Enabled<T>(q: Queue<T>, a: Action<T>) {
    match a
    case PushLoadHead(_) => q.prod.PIdle?
    case PushLoadTail => q.prod.PHead?
    case PushWrite => q.prod.PReady? && q.prod.t < |q.buffer|
    case PushStore => q.prod.PWritten?
    case PopLoadHead => q.cons.CIdle?
    case PopLoadTail => q.cons.CHead?
    case PopRead => q.cons.CReady? && q.cons.h < |q.buffer|
    case PopStore => q.cons.CRead?
  }

  function Step<T>(q: Queue<T>, a: Action<T>): Queue<T>
    requires |q.buffer| > 0 && Enabled(q, a)
  {
    match a
    case PushLoadHead(item) =>
      // The tail belongs to this thread, so a full ring is decided here.
      q.(prod := PHead(item, q.head, Pops(q.log)),
         log := q.log + if Next(q.tail, |q.buffer|) == q.head then [PushFull(item)] else [])
    case PushLoadTail =>
      var next := Next(q.tail, |q.buffer|);
      if next == q.prod.h then q.(prod := PIdle, pushes := q.pushes + [PushFull(q.prod.item)])
      else q.(prod := PReady(q.prod.item, q.tail, next))
    case PushWrite =>
      q.(buffer := q.buffer[q.prod.t := q.prod.item], prod := PWritten(q.prod.item, q.prod.t, q.prod.next))
    case PushStore =>
      q.(tail := q.prod.next, prod := PIdle,
         log := q.log + [PushOk(q.prod.item)], pushes := q.pushes + [PushOk(q.prod.item)])
    case PopLoadHead => q.(cons := CHead(q.head))
    case PopLoadTail =>
      if q.cons.h == q.tail then q.(cons := CIdle, log := q.log + [PopEmpty], pops := q.pops + [PopEmpty])
      else q.(cons := CReady(q.cons.h))
    case PopRead => q.(cons := CRead(q.cons.h, q.buffer[q.cons.h]))
    case PopStore =>
      q.(head := Next(q.cons.h, |q.buffer|), cons := CIdle,
         log := q.log + [PopOk(q.cons.x)], pops := q.pops + [PopOk(q.cons.x)])
  }

  /** The reference object: a FIFO that holds at most cap - 1 items, replayed over a log. */
  function Apply<T(==)>(c: seq<T>, e: Event<T>, cap: nat): Option<seq<T>> {
    match e
    case PushOk(x) => if |c| + 1 < cap then Some(c + [x]) else None
    case PushFull(_) => if |c| + 1 == cap then Some(c) else None
    case PopOk(x) => if c != [] && c[0] == x then Some(c[1..]) else None
    case PopEmpty => if c == [] then Some(c) else None
  }

  function Replay<T(==)>(log: seq<Event<T>>, cap: nat): Option<seq<T>> {
    if log == [] then Some([])
    else
      match Replay(log[..|log| - 1], cap)
      case None => None
      case Some(c) => Apply(c, log[|log| - 1], cap)
  }

  function Pops<T>(log: seq<Event<T>>): nat {
    if log == [] then 0 else Pops(log[..|log| - 1]) + if log[|log| - 1].PopOk? then 1 else 0
  }

  function Pushed<T>(log: seq<Event<T>>): seq<T> {
    if log == [] then []
    else Pushed(log[..|log| - 1]) + if log[|log| - 1].PushOk? then [log[|log| - 1].x] else []
  }

  function Popped<T>(log: seq<Event<T>>): seq<T> {
    if log == [] then []
    else Popped(log[..|log| - 1]) + if log[|log| - 1].PopOk? then [log[|log| - 1].x] else []
  }

  predicate OfPush<T>(e: Event<T>) { e.PushOk? || e.PushFull? }

  /** The events of a log that belong to one of the two threads. */
  function Project<T>(log: seq<Event<T>>, push: bool): seq<Event<T>> {
    if log == [] then []
    else Project(log[..|log| - 1], push) + if OfPush(log[|log| - 1]) == push then [log[|log| - 1]] else []
  }

  lemma Snoc<T>(log: seq<Event<T>>, e: Event<T>, cap: nat)
    ensures Replay(log + [e], cap) == if Replay(log, cap).Some? then Apply(Replay(log, cap).value, e, cap) else None
    ensures Pops(log + [e]) == Pops(log) + if e.PopOk? then 1 else 0
    ensures Project(log + [e], true) == Project(log, true) + if OfPush(e) then [e] else []
    ensures Project(log + [e], false) == Project(log, false) + if OfPush(e) then [] else [e]
  {
    assert (log + [e])[..|log|] == log;
  }

  /** A legal log pops a prefix of what it pushed; the rest is the contents. */
  lemma {:induction false} PoppedIsPrefix<T>(log: seq<Event<T>>, cap: nat)
    requires Replay(log, cap).Some?
    ensures Pushed(log) == Popped(log) + Replay(log, cap).value
    ensures |Popped(log)| == Pops(log)
    ensures cap > 0 ==> |Replay(log, cap).value| < cap
  {
    if log != [] { PoppedIsPrefix(log[..|log| - 1], cap); }
  }

  function Init<T>(buffer: seq<T>): Queue<T> {
    Queue(0, 0, buffer, PIdle, CIdle, [], [], [])
  }

  // ---------------------------------------------------------------------
  // Invariant
  // ---------------------------------------------------------------------

  /** n is the number of pops so far and c the items in the queue. */
  ghost predicate RingHolds<T>(q: Queue<T>, n: nat, c: seq<T>) {
    && |c| < |q.buffer|
    && q.head == n % |q.buffer|
    && q.tail == (n + |c|) % |q.buffer|
    && forall i {:trigger c[i]} :: 0 <= i < |c| ==> q.buffer[(n + i) % |q.buffer|] == c[i]
  }

  ghost predicate ProducerInv<T>(q: Queue<T>, n: nat, c: seq<T>)
    requires |q.buffer| > 0
  {
    match q.prod
    case PIdle => true
    case PHead(_, h, seen) => seen <= n && n + |c| - seen < |q.buffer| && h == seen % |q.buffer|
    case PReady(_, t, next) => t == q.tail && next == (n + |c| + 1) % |q.buffer| && |c| + 1 < |q.buffer|
    case PWritten(x, t, next) =>
      t == q.tail && next == (n + |c| + 1) % |q.buffer| && |c| + 1 < |q.buffer| && t < |q.buffer| && q.buffer[t] == x
  }

  ghost predicate ConsumerInv<T>(q: Queue<T>, n: nat, c: seq<T>) {
    match q.cons
    case CIdle => true
    case CHead(h) => h == q.head
    case CReady(h) => h == q.head && c != []
    case CRead(h, x) => h == q.head && c != [] && x == c[0]
  }

  /** A push that found the ring full when it loaded head has not returned yet. */
  ghost function Pending<T>(q: Queue<T>): seq<Event<T>>
    requires |q.buffer| > 0
  {
    if q.prod.PHead? && Next(q.tail, |q.buffer|) == q.prod.h then [PushFull(q.prod.item)] else []
  }

  ghost predicate Inv<T>(q: Queue<T>) {
    && IsPow2(|q.buffer|) && |q.buffer| > 0
    && Replay(q.log, |q.buffer|).Some?
    && var n, c := Pops(q.log), Replay(q.log, |q.buffer|).value;
    && RingHolds(q, n, c) && ProducerInv(q, n, c) && ConsumerInv(q, n, c)
    && Project(q.log, true) == q.pushes + Pending(q)
    && Project(q.log, false) == q.pops
  }

  lemma InitInv<T>(buffer: seq<T>)
    requires IsPow2(|buffer|) && |buffer| > 0
    ensures Inv(Init(buffer))
  {
    ModSmall(0, |buffer|);
  }

  /** What the log and the ring say when they agree, without replaying the log. */
  ghost predicate Agree<T>(q: Queue<T>, n: nat, c: seq<T>) {
    && |q.buffer| > 0 && Pops(q.log) == n && Replay(q.log, |q.buffer|) == Some(c)
    && RingHolds(q, n, c) && ProducerInv(q, n, c) && ConsumerInv(q, n, c)
  }

  lemma AgreeIsInv<T>(q: Queue<T>, n: nat, c: seq<T>)
    requires IsPow2(|q.buffer|) && Agree(q, n, c)
    requires Project(q.log, true) == q.pushes + Pending(q) && Project(q.log, false) == q.pops
    ensures Inv(q)
  {
  }

  /** The head load of a push that finds room. */
  lemma SeesRoom<T>(q: Queue<T>, item: T)
    requires Inv(q) && Enabled(q, PushLoadHead(item)) && Next(q.tail, |q.buffer|) != q.head
    ensures Inv(Step(q, PushLoadHead(item)))
  {
    var n, c := Pops(q.log), Replay(q.log, |q.buffer|).value;
    assert q.log + [] == q.log;
    AgreeIsInv(Step(q, PushLoadHead(item)), n, c);
  }

  /** ... and of one that finds the ring full. */
  lemma SeesFull<T>(q: Queue<T>, item: T)
    requires Inv(q) && Enabled(q, PushLoadHead(item)) && Next(q.tail, |q.buffer|) == q.head
    ensures Inv(Step(q, PushLoadHead(item)))
  {
    var n, c := Pops(q.log), Replay(q.log, |q.buffer|).value;
    FullTest(n + |c|, n, |q.buffer|);
    Snoc(q.log, PushFull(item), |q.buffer|);
    AgreeIsInv(Step(q, PushLoadHead(item)), n, c);
  }

  lemma PushLoadHeadKeeps<T>(q: Queue<T>, item: T)
    requires Inv(q) && Enabled(q, PushLoadHead(item))
    ensures Inv(Step(q, PushLoadHead(item)))
  {
    if Next(q.tail, |q.buffer|) == q.head { SeesFull(q, item); } else { SeesRoom(q, item); }
  }

  lemma PushLoadTailKeeps<T>(q: Queue<T>)
    requires Inv(q) && Enabled(q, PushLoadTail)
    ensures Inv(Step(q, PushLoadTail))
  {
    FullTest(Pops(q.log) + |Replay(q.log, |q.buffer|).value|, q.prod.seen, |q.buffer|);
  }

  lemma PushWriteKeeps<T>(q: Queue<T>)
    requires Inv(q) && Enabled(q, PushWrite)
    ensures Inv(Step(q, PushWrite))
  {
    var cap := |q.buffer|;
    var q' := Step(q, PushWrite);
    var n, c := Pops(q.log), Replay(q.log, cap).value;
    forall i {:trigger c[i]} | 0 <= i < |c| ensures q'.buffer[(n + i) % cap] == c[i] {
      if (n + i) % cap == (n + |c|) % cap { ModShift(n + i, n + |c|, cap); }
    }
  }

  /** Storing the tail behind a written slot adds its item. */
  lemma RingGrows<T>(q: Queue<T>, n: nat, c: seq<T>, x: T, next: nat)
    requires |q.buffer| > 0 && RingHolds(q, n, c) && |c| + 1 < |q.buffer| && next == (n + |c| + 1) % |q.buffer|
    requires q.tail < |q.buffer| && q.buffer[q.tail] == x
    ensures RingHolds(q.(tail := next), n, c + [x])
  {
    var d := c + [x];
    forall i {:trigger d[i]} | 0 <= i < |d| ensures q.buffer[(n + i) % |q.buffer|] == d[i] {
      if i < |c| { assert c[i] == d[i]; }
    }
  }

  lemma PushStoreKeeps<T>(q: Queue<T>)
    requires Inv(q) && Enabled(q, PushStore)
    ensures Inv(Step(q, PushStore))
  {
    var n, c := Pops(q.log), Replay(q.log, |q.buffer|).value;
    StoreAgrees(q, n, c);
    StoreProjects(q);
    AgreeIsInv(Step(q, PushStore), n, c + [q.prod.item]);
  }

  lemma StoreProjects<T>(q: Queue<T>)
    requires |q.buffer| > 0 && Enabled(q, PushStore)
    requires Project(q.log, true) == q.pushes + Pending(q) && Project(q.log, false) == q.pops
    ensures var r := Step(q, PushStore);
            && |r.buffer| > 0 && Project(r.log, true) == r.pushes + Pending(r) && Project(r.log, false) == r.pops
  {
    Snoc(q.log, PushOk(q.prod.item), |q.buffer|);
    assert Pending(q) == [] && q.pushes + [] == q.pushes;
  }

  lemma StoreAgrees<T>(q: Queue<T>, n: nat, c: seq<T>)
    requires Agree(q, n, c) && Enabled(q, PushStore)
    ensures Agree(Step(q, PushStore), n, c + [q.prod.item])
  {
    var x := q.prod.item;
    Snoc(q.log, PushOk(x), |q.buffer|);
    RingGrows(q, n, c, x, q.prod.next);
    RingSame(q.(tail := q.prod.next), Step(q, PushStore), n, c + [x]);
  }

  lemma RingSame<T>(q: Queue<T>, q': Queue<T>, n: nat, c: seq<T>)
    requires RingHolds(q, n, c) && q'.head == q.head && q'.tail == q.tail && q'.buffer == q.buffer
    ensures RingHolds(q', n, c)
  {
  }

  /** The tail load of a pop that finds the ring empty. */
  lemma SeesEmpty<T>(q: Queue<T>)
    requires Inv(q) && Enabled(q, PopLoadTail) && q.cons.h == q.tail
    ensures Inv(Step(q, PopLoadTail))
  {
    var n, c := Pops(q.log), Replay(q.log, |q.buffer|).value;
    EmptyTest(n, |c|, |q.buffer|);
    Snoc(q.log, PopEmpty, |q.buffer|);
    AgreeIsInv(Step(q, PopLoadTail), n, c);
  }

  /** ... and of one that finds an item. */
  lemma SeesItem<T>(q: Queue<T>)
    requires Inv(q) && Enabled(q, PopLoadTail) && q.cons.h != q.tail
    ensures Inv(Step(q, PopLoadTail))
  {
    var n, c := Pops(q.log), Replay(q.log, |q.buffer|).value;
    EmptyTest(n, |c|, |q.buffer|);
    AgreeIsInv(Step(q, PopLoadTail), n, c);
  }

  lemma PopLoadTailKeeps<T>(q: Queue<T>)
    requires Inv(q) && Enabled(q, PopLoadTail)
    ensures Inv(Step(q, PopLoadTail))
  {
    if q.cons.h == q.tail { SeesEmpty(q); } else { SeesItem(q); }
  }

  lemma PopReadKeeps<T>(q: Queue<T>)
    requires Inv(q) && Enabled(q, PopRead)
    ensures Inv(Step(q, PopRead))
  {
    var c := Replay(q.log, |q.buffer|).value;
    assert q.buffer[(Pops(q.log) + 0) % |q.buffer|] == c[0];
  }

  /** Dropping the first item and stepping the head keeps the ring in step with its contents. */
  lemma RingDrops<T>(q: Queue<T>, n: nat, c: seq<T>)
    requires |q.buffer| > 0 && RingHolds(q, n, c) && c != []
    ensures RingHolds(q.(head := (n + 1) % |q.buffer|), n + 1, c[1..])
  {
    var d := c[1..];
    forall i {:trigger d[i]} | 0 <= i < |d| ensures q.buffer[(n + 1 + i) % |q.buffer|] == d[i] {
      assert q.buffer[(n + (i + 1)) % |q.buffer|] == c[i + 1];
    }
  }

  lemma PopStoreKeeps<T>(q: Queue<T>)
    requires Inv(q) && Enabled(q, PopStore)
    ensures Inv(Step(q, PopStore))
  {
    var n, c := Pops(q.log), Replay(q.log, |q.buffer|).value;
    var q' := Step(q, PopStore);
    Snoc(q.log, PopOk(q.cons.x), |q.buffer|);
    ModStep(n, 1, |q.buffer|);
    RingDrops(q, n, c);
    assert RingHolds(q', n + 1, c[1..]);
  }

  lemma PopLoadHeadKeeps<T>(q: Queue<T>)
    requires Inv(q) && Enabled(q, PopLoadHead)
    ensures Inv(Step(q, PopLoadHead))
  {
  }

  lemma SameCapacity<T>(q: Queue<T>, a: Action<T>)
    requires |q.buffer| > 0 && Enabled(q, a)
    ensures |Step(q, a).buffer| == |q.buffer|
  {
  }

  lemma StepKeeps<T>(q: Queue<T>, a: Action<T>)
    requires Inv(q) && Enabled(q, a)
    ensures Inv(Step(q, a)) && |Step(q, a).buffer| == |q.buffer|
  {
    SameCapacity(q, a);
    match a
    case PushLoadHead(item) => PushLoadHeadKeeps(q, item);
    case PushLoadTail => PushLoadTailKeeps(q);
    case PushWrite => PushWriteKeeps(q);
    case PushStore => PushStoreKeeps(q);
    case PopLoadHead => PopLoadHeadKeeps(q);
    case PopLoadTail => PopLoadTailKeeps(q);
    case PopRead => PopReadKeeps(q);
    case PopStore => PopStoreKeeps(q);
  }

  // ---------------------------------------------------------------------
  // Every interleaving
  // ---------------------------------------------------------------------

  ghost predicate IsRun<T>(q: Queue<T>, run: seq<Action<T>>)
    requires |q.buffer| > 0
    decreases |run|
  {
    run != [] ==> Enabled(q, run[0]) && IsRun(Step(q, run[0]), run[1..])
  }

  ghost function Final<T>(q: Queue<T>, run: seq<Action<T>>): (r: Queue<T>)
    requires |q.buffer| > 0 && IsRun(q, run)
    ensures |r.buffer| == |q.buffer|
    decreases |run|
  {
    if run == [] then q else Final(Step(q, run[0]), run[1..])
  }

  lemma {:induction false} RunKeeps<T>(q: Queue<T>, run: seq<Action<T>>)
    requires Inv(q) && IsRun(q, run)
    ensures Inv(Final(q, run))
    decreases |run|
  {
    if run != [] {
      StepKeeps(q, run[0]);
      RunKeeps(Step(q, run[0]), run[1..]);
    }
  }

  // ---------------------------------------------------------------------
  // What becomes of every call
  // ---------------------------------------------------------------------

  /** The items of the push calls of a run, in order. */
  ghost function Called<T>(run: seq<Action<T>>): seq<T> {
    if run == [] then [] else (if run[0].PushLoadHead? then [run[0].item] else []) + Called(run[1..])
  }

  ghost function PopCalls<T>(run: seq<Action<T>>): nat {
    if run == [] then 0 else (if run[0].PopLoadHead? then 1 else 0) + PopCalls(run[1..])
  }

  /** The items of the pushes that returned, whatever they returned. */
  ghost function Items<T>(pushes: seq<Event<T>>): seq<T>
    requires forall i :: 0 <= i < |pushes| ==> OfPush(pushes[i])
  {
    seq(|pushes|, i requires 0 <= i < |pushes| && OfPush(pushes[i]) => pushes[i].x)
  }

  ghost predicate PushesOnly<T>(q: Queue<T>) {
    forall i :: 0 <= i < |q.pushes| ==> OfPush(q.pushes[i])
  }

  /** The item of the push under way, and the number of pops under way. */
  ghost function Pushing<T>(p: Producer<T>): seq<T> {
    if p.PIdle? then [] else [p.item]
  }

  ghost function Popping<T>(c: Consumer<T>): nat {
    if c.CIdle? then 0 else 1
  }

  lemma StepReturns<T>(q: Queue<T>, a: Action<T>)
    requires |q.buffer| > 0 && PushesOnly(q) && Enabled(q, a)
    ensures PushesOnly(Step(q, a))
    ensures Items(q.pushes) + Pushing(q.prod) + (if a.PushLoadHead? then [a.item] else []) ==
            Items(Step(q, a).pushes) + Pushing(Step(q, a).prod)
    ensures |q.pops| + Popping(q.cons) + (if a.PopLoadHead? then 1 else 0) ==
            |Step(q, a).pops| + Popping(Step(q, a).cons)
  {
  }

  lemma Regroup<T>(a: seq<T>, b: seq<T>, c: seq<T>)
    ensures a + (b + c) == (a + b) + c
  {
  }

  lemma {:induction false} RunReturns<T>(q: Queue<T>, run: seq<Action<T>>)
    requires |q.buffer| > 0 && PushesOnly(q) && IsRun(q, run)
    ensures PushesOnly(Final(q, run))
    ensures Items(q.pushes) + Pushing(q.prod) + Called(run) ==
            Items(Final(q, run).pushes) + Pushing(Final(q, run).prod)
    ensures |q.pops| + Popping(q.cons) + PopCalls(run) == |Final(q, run).pops| + Popping(Final(q, run).cons)
    decreases |run|
  {
    if run == [] {
      assert Items(q.pushes) + Pushing(q.prod) + [] == Items(q.pushes) + Pushing(q.prod);
    } else {
      StepReturns(q, run[0]);
      RunReturns(Step(q, run[0]), run[1..]);
      Regroup(Items(q.pushes) + Pushing(q.prod), if run[0].PushLoadHead? then [run[0].item] else [], Called(run[1..]));
    }
  }

  /** Every push called has returned, in order, except the one under way; so has every pop. */
  ghost predicate Returned<T>(run: seq<Action<T>>, q: Queue<T>) {
    && PushesOnly(q)
    && Called(run) == Items(q.pushes) + Pushing(q.prod)
    && PopCalls(run) == |q.pops| + Popping(q.cons)
  }

  lemma CallsReturn<T>(buffer: seq<T>, run: seq<Action<T>>)
    requires |buffer| > 0 && IsRun(Init(buffer), run)
    ensures Returned(run, Final(Init(buffer), run))
  {
    var q := Init(buffer);
    RunReturns(q, run);
    assert Items(q.pushes) + Pushing(q.prod) + Called(run) == Called(run);
  }

  /**
   Linearizability in every interleaving: every call of the run has returned or is the one under way, and the
   log, in which each call appears once and within its own execution, is a legal history of a FIFO of
   capacity - 1 items; each thread's calls returned what the log says, in its order.
   */
  lemma Linearizable<T>(buffer: seq<T>, run: seq<Action<T>>)
    requires IsPow2(|buffer|) && |buffer| > 0 && IsRun(Init(buffer), run)
    ensures var q := Final(Init(buffer), run);
            && Replay(q.log, |buffer|).Some?
            && Project(q.log, false) == q.pops
            && q.pushes <= Project(q.log, true)
            && (q.prod.PIdle? ==> Project(q.log, true) == q.pushes)
            && Returned(run, q)
  {
    InitInv(buffer);
    RunKeeps(Init(buffer), run);
    CallsReturn(buffer, run);
  }

  /** The items of the calls that succeeded. */
  ghost function Good<T>(es: seq<Event<T>>): seq<T> {
    if es == [] then []
    else
      var e := es[|es| - 1];
      Good(es[..|es| - 1]) + if e.PushOk? || e.PopOk? then [e.x] else []
  }

  lemma GoodSnoc<T>(es: seq<Event<T>>, e: Event<T>)
    ensures Good(es + [e]) == Good(es) + if e.PushOk? || e.PopOk? then [e.x] else []
  {
    assert (es + [e])[..|es|] == es;
  }

  lemma {:induction false} ProjectGood<T>(log: seq<Event<T>>)
    ensures Good(Project(log, true)) == Pushed(log) && Good(Project(log, false)) == Popped(log)
  {
    if log != [] {
      var n := |log| - 1;
      ProjectGood(log[..n]);
      GoodSnoc(Project(log[..n], OfPush(log[n])), log[n]);
      assert Project(log[..n], !OfPush(log[n])) + [] == Project(log[..n], !OfPush(log[n]));
    }
  }

  /**
   The items that pops returned are a prefix of the items of the pushes that returned 1, and the ring never
   holds more than capacity - 1; every push called has returned 1 or 0 or is the one under way.
   */
  lemma NoLossNoDuplication<T>(buffer: seq<T>, run: seq<Action<T>>)
    requires IsPow2(|buffer|) && |buffer| > 0 && IsRun(Init(buffer), run)
    ensures var q := Final(Init(buffer), run);
            && Popped(q.log) <= Pushed(q.log)
            && |Pushed(q.log)| - |Popped(q.log)| < |buffer|
            && Good(q.pushes) == Pushed(q.log) && Good(q.pops) == Popped(q.log)
            && Returned(run, q)
  {
    InitInv(buffer);
    RunKeeps(Init(buffer), run);
    var q := Final(Init(buffer), run);
    PoppedIsPrefix(q.log, |buffer|);
    CallsReturn(buffer, run);
    ProjectGood(q.log);
    if Pending(q) != [] { GoodSnoc(q.pushes, Pending(q)[0]); } else { assert q.pushes + [] == q.pushes; }
  }

  /** No slot is about to be written while it is about to be read, and every access is in bounds. */
  lemma NoTornRead<T>(buffer: seq<T>, run: seq<Action<T>>)
    requires IsPow2(|buffer|) && |buffer| > 0 && IsRun(Init(buffer), run)
    ensures var q := Final(Init(buffer), run);
            && (q.prod.PReady? ==> q.prod.t < |buffer|)
            && (q.cons.CReady? ==> q.cons.h < |buffer|)
            && (q.prod.PReady? && (q.cons.CReady? || q.cons.CRead?) ==> q.prod.t != q.cons.h)
  {
    InitInv(buffer);
    RunKeeps(Init(buffer), run);
    var q := Final(Init(buffer), run);
    var n, c := Pops(q.log), Replay(q.log, |buffer|).value;
    EmptyTest(n, |c|, |buffer|);
  }
}
