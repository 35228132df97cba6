/**
 The multi-producer single-consumer ring as a step machine with any number of
 producers, one atomic access per step, sequentially consistent interleaving.
 A push claims its slot by moving the tail with a compare-and-swap and writes the
 slot afterwards. Claims are numbered; `claimed[k]` is the item of ticket k.

 Two things can go wrong in the code as written, and the theorems name both:
 a swap that wins while the ring is full (`Roomy` excludes it, and only it), which takes a tail that has gone
 once round since the producer loaded it (`Timely` excludes that), and
 a pop that reads a claimed slot its producer has not written (`Orderly` excludes it).
 */
module Mpsc {
  import opened Bits
  import opened Ring

  /** Where a producer is inside a push; `ticket` is the number of claims when it loaded the tail. */
  datatype Producer<T> =
    | Idle
    | Start(item: T)
    | Loaded(item: T, t: nat, ticket: nat)
    | Checked(item: T, t: nat, ticket: nat)
    | Claimed(item: T, t: nat, ticket: nat)

  datatype Consumer<T> =
    | CIdle
    | CHead(h: nat)
    | CReady(h: nat)
    | CRead(h: nat, x: T)

  /** `initial`, `claimed`, `written` and `popped` are history. */
  datatype Queue<T> = Queue(
    head: nat, tail: nat, buffer: seq<T>, prods: seq<Producer<T>>, cons: Consumer<T>,
    initial: seq<T>, claimed: seq<T>, written: set<nat>, popped: seq<T>)

  datatype Action<T> =
    | PushCall(p: nat, item: T) | PushLoadTail(p: nat) | PushLoadHead(p: nat)
    | PushCas(p: nat, spurious: bool) | PushWrite(p: nat)
    | PopLoadHead | PopLoadTail | PopRead | PopStore

  predicate Enabled<T>(q: Queue<T>, a: Action<T>) {
    match a
    case PushCall(p, _) => p < |q.prods| && q.prods[p].Idle?
    case PushLoadTail(p) => p < |q.prods| && q.prods[p].Start?
    case PushLoadHead(p) => p < |q.prods| && q.prods[p].Loaded?
    case PushCas(p, _) => p < |q.prods| && q.prods[p].Checked?
    case PushWrite(p) => p < |q.prods| && q.prods[p].Claimed? && q.prods[p].t < |q.buffer|
    case PopLoadHead => q.cons.CIdle?
    case PopLoadTail => q.cons.CHead?
    case PopRead => q.cons.CReady? && q.cons.h < |q.buffer|
    case PopStore => q.cons.CRead?
  }

  /** A weak compare-and-swap succeeds on equality unless it fails spuriously. */
  predicate Wins<T>(q: Queue<T>, a: Action<T>) {
    a.PushCas? && Enabled(q, a) && !a.spurious && q.tail == q.prods[a.p].t
  }

  function Step<T>(q: Queue<T>, a: Action<T>): Queue<T>
    requires |q.buffer| > 0 && Enabled(q, a)
  {
    match a
    case PushCall(p, item) => q.(prods := q.prods[p := Start(item)])
    case PushLoadTail(p) => q.(prods := q.prods[p := Loaded(q.prods[p].item, q.tail, |q.claimed|)])
    case PushLoadHead(p) =>
      var me := q.prods[p];
      if Next(me.t, |q.buffer|) == q.head then q.(prods := q.prods[p := Idle])
      else q.(prods := q.prods[p := Checked(me.item, me.t, me.ticket)])
    case PushCas(p, _) =>
      var me := q.prods[p];
      if Wins(q, a) then
        q.(tail := Next(me.t, |q.buffer|), claimed := q.claimed + [me.item],
           prods := q.prods[p := Claimed(me.item, me.t, |q.claimed|)])
      else q.(prods := q.prods[p := Start(me.item)])
    case PushWrite(p) =>
      var me := q.prods[p];
      q.(buffer := q.buffer[me.t := me.item], written := q.written + {me.ticket}, prods := q.prods[p := Idle])
    case PopLoadHead => q.(cons := CHead(q.head))
    case PopLoadTail => q.(cons := if q.cons.h == q.tail then CIdle else CReady(q.cons.h))
    case PopRead => q.(cons := CRead(q.cons.h, q.buffer[q.cons.h]))
    case PopStore =>
      q.(head := Next(q.cons.h, |q.buffer|), cons := CIdle, popped := q.popped + [q.cons.x])
  }

  function Init<T>(buffer: seq<T>, producers: nat): Queue<T> {
    Queue(0, 0, buffer, seq(producers, _ => Idle), CIdle, buffer, [], {}, [])
  }

  /** Fewer than capacity claims happened between this producer's tail load and its winning swap. */
  predicate Timely<T>(q: Queue<T>, a: Action<T>) {
    Wins(q, a) ==> |q.claimed| - q.prods[a.p].ticket < |q.buffer|
  }

  /** The test the push made at its head load would still pass at its winning swap: the next index is not the head. */
  predicate Roomy<T>(q: Queue<T>, a: Action<T>) {
    |q.buffer| > 0 && Wins(q, a) ==> Next(q.tail, |q.buffer|) != q.head
  }

  /** The consumer reads a slot only after the producer that claimed it has written it. */
  predicate Orderly<T>(q: Queue<T>, a: Action<T>) {
    a.PopRead? ==> |q.popped| in q.written
  }

  // ---------------------------------------------------------------------
  // Tickets and occupancy: what runs keep whose swaps find room
  // ---------------------------------------------------------------------

  ghost predicate ProducerOk<T>(q: Queue<T>, me: Producer<T>)
    requires |q.buffer| > 0
  {
    match me
    case Idle => true
    case Start(_) => true
    case Loaded(_, t, k) => k <= |q.claimed| && t == k % |q.buffer|
    case Checked(_, t, k) =>
      k <= |q.claimed| && t == k % |q.buffer| && (k == |q.claimed| ==> k + 1 < |q.popped| + |q.buffer|)
    case Claimed(x, t, k) => k < |q.claimed| && t == k % |q.buffer| && q.claimed[k] == x
  }

  ghost predicate ConsumerOk<T>(q: Queue<T>) {
    match q.cons
    case CIdle => true
    case CHead(h) => h == q.head
    case CReady(h) => h == q.head && |q.popped| < |q.claimed|
    case CRead(h, _) => h == q.head && |q.popped| < |q.claimed|
  }

  ghost predicate Tickets<T>(q: Queue<T>) {
    && IsPow2(|q.buffer|) && |q.buffer| > 0 && |q.initial| == |q.buffer|
    && q.tail == |q.claimed| % |q.buffer| && q.head == |q.popped| % |q.buffer|
    && |q.popped| <= |q.claimed| < |q.popped| + |q.buffer|
    && (forall p :: 0 <= p < |q.prods| ==> ProducerOk(q, q.prods[p]))
    && ConsumerOk(q)
  }

  lemma InitTickets<T>(buffer: seq<T>, producers: nat)
    requires IsPow2(|buffer|) && |buffer| > 0
    ensures Tickets(Init(buffer, producers))
  {
    ModSmall(0, |buffer|);
  }

  /** A timely winning swap takes exactly the next ticket, and there is room for it. */
  lemma WinTakesNextTicket<T>(q: Queue<T>, a: Action<T>)
    requires Tickets(q) && Wins(q, a) && Timely(q, a)
    ensures q.prods[a.p].ticket == |q.claimed| && |q.claimed| + 1 < |q.popped| + |q.buffer|
    ensures Step(q, a).claimed == q.claimed + [q.prods[a.p].item]
    ensures Step(q, a).prods[a.p] == Claimed(q.prods[a.p].item, |q.claimed| % |q.buffer|, |q.claimed|)
  {
    assert ProducerOk(q, q.prods[a.p]);
    ModShift(q.prods[a.p].ticket, |q.claimed|, |q.buffer|);
  }

  lemma LoadHeadKeepsTickets<T>(q: Queue<T>, p: nat)
    requires Tickets(q) && Enabled(q, PushLoadHead(p))
    ensures Tickets(Step(q, PushLoadHead(p)))
  {
    assert ProducerOk(q, q.prods[p]);
    if q.prods[p].ticket == |q.claimed| { FullTest(|q.claimed|, |q.popped|, |q.buffer|); }
  }

  /** The two indices tell whether a slot is free. */
  lemma RoomCounted<T>(q: Queue<T>)
    requires Tickets(q)
    ensures Next(q.tail, |q.buffer|) != q.head <==> |q.claimed| + 1 < |q.popped| + |q.buffer|
  {
    FullTest(|q.claimed|, |q.popped|, |q.buffer|);
  }

  /** Every timely swap finds room. */
  lemma TimelyIsRoomy<T>(q: Queue<T>, a: Action<T>)
    requires Tickets(q) && Enabled(q, a) && Timely(q, a)
    ensures Roomy(q, a)
  {
    RoomCounted(q);
    if Wins(q, a) { WinTakesNextTicket(q, a); }
  }

  lemma CasKeepsTickets<T>(q: Queue<T>, a: Action<T>)
    requires Tickets(q) && a.PushCas? && Enabled(q, a) && Roomy(q, a)
    ensures Tickets(Step(q, a))
  {
    if Wins(q, a) {
      RoomCounted(q);
      NextIndex(|q.claimed|, 1, |q.buffer|);
      var q' := Step(q, a);
      forall i | 0 <= i < |q'.prods| ensures ProducerOk(q', q'.prods[i]) {
        if i != a.p { assert ProducerOk(q, q.prods[i]); }
      }
    }
  }

  /**
   A winning swap, late or not, keeps indices, occupancy and tickets exactly when the index after the tail is not
   the head at that moment.
   */
  lemma WinKeepsTicketsExactly<T>(q: Queue<T>, a: Action<T>)
    requires Tickets(q) && Wins(q, a)
    ensures Tickets(Step(q, a)) <==> Next(q.tail, |q.buffer|) != q.head
  {
    RoomCounted(q);
    if Roomy(q, a) { CasKeepsTickets(q, a); }
  }

  lemma PopKeepsTickets<T>(q: Queue<T>, a: Action<T>)
    requires Tickets(q) && (a.PopLoadTail? || a.PopStore?) && Enabled(q, a)
    ensures Tickets(Step(q, a))
  {
    NextIndex(|q.popped|, 1, |q.buffer|);
    if a.PopLoadTail? {
      EmptyTest(|q.popped|, |q.claimed| - |q.popped|, |q.buffer|);
    } else {
      var q' := Step(q, a);
      forall i | 0 <= i < |q'.prods| ensures ProducerOk(q', q'.prods[i]) {
        assert ProducerOk(q, q.prods[i]);
      }
    }
  }

  lemma StepKeepsTickets<T>(q: Queue<T>, a: Action<T>)
    requires Tickets(q) && Enabled(q, a) && Roomy(q, a)
    ensures Tickets(Step(q, a)) && |Step(q, a).buffer| == |q.buffer|
  {
    match a
    case PushLoadHead(p) => LoadHeadKeepsTickets(q, p);
    case PushCas(_, _) => CasKeepsTickets(q, a);
    case PopLoadTail => PopKeepsTickets(q, a);
    case PopStore => PopKeepsTickets(q, a);
    case PushWrite(p) =>
      var q' := Step(q, a);
      forall i | 0 <= i < |q'.prods| ensures ProducerOk(q', q'.prods[i]) {
        if i != p { assert ProducerOk(q, q.prods[i]); }
      }
    case _ =>
  }

  // ---------------------------------------------------------------------
  // Slots: what roomy and orderly runs keep
  // ---------------------------------------------------------------------

  /** What the slot of ticket k holds while k is the ticket the slot stands for. */
  ghost function SlotValue<T>(q: Queue<T>, k: nat): T
    requires k < |q.claimed| + |q.buffer| && |q.initial| == |q.buffer|
    requires k in q.written ==> k < |q.claimed|
  {
    if k in q.written then q.claimed[k]
    else if k >= |q.buffer| then q.claimed[k - |q.buffer|] else q.initial[k]
  }

  ghost predicate WrittenOk<T>(q: Queue<T>) {
    && (forall k :: k in q.written ==> k < |q.claimed|)
    && (forall k: nat :: k < |q.popped| ==> k in q.written)
  }

  ghost predicate BufferOk<T>(q: Queue<T>)
    requires Tickets(q) && WrittenOk(q)
  {
    forall k: nat {:trigger SlotValue(q, k)} ::
      |q.popped| <= k < |q.popped| + |q.buffer| ==> q.buffer[k % |q.buffer|] == SlotValue(q, k)
  }

  /** Each unwritten ticket is held by exactly one producer, which is about to write it. */
  ghost predicate HoldersOk<T>(q: Queue<T>) {
    && (forall p :: 0 <= p < |q.prods| && q.prods[p].Claimed? ==> q.prods[p].ticket !in q.written)
    && (forall p, r :: 0 <= p < r < |q.prods| && q.prods[p].Claimed? && q.prods[r].Claimed? ==>
          q.prods[p].ticket != q.prods[r].ticket)
    && (forall k: nat :: k < |q.claimed| && k !in q.written ==> Held(q, k))
  }

  ghost predicate Held<T>(q: Queue<T>, k: nat) {
    exists p :: 0 <= p < |q.prods| && q.prods[p].Claimed? && q.prods[p].ticket == k
  }

  ghost predicate PoppedOk<T>(q: Queue<T>)
    requires |q.popped| <= |q.claimed|
  {
    && q.popped == q.claimed[..|q.popped|]
    && (q.cons.CRead? && |q.popped| < |q.claimed| ==> q.cons.x == q.claimed[|q.popped|] && |q.popped| in q.written)
  }

  ghost predicate Fifo<T>(q: Queue<T>) {
    Tickets(q) && WrittenOk(q) && BufferOk(q) && HoldersOk(q) && PoppedOk(q)
  }

  lemma InitFifo<T>(buffer: seq<T>, producers: nat)
    requires IsPow2(|buffer|) && |buffer| > 0
    ensures Fifo(Init(buffer, producers))
  {
    InitTickets(buffer, producers);
    var q := Init(buffer, producers);
    forall k: nat | k < |buffer| ensures q.buffer[k % |buffer|] == SlotValue(q, k) {
      ModSmall(k, |buffer|);
    }
  }

  /** Steps of a producer before its swap wins touch nothing the slots depend on. */
  lemma QuietKeepsFifo<T>(q: Queue<T>, a: Action<T>)
    requires Fifo(q) && Enabled(q, a) && !Wins(q, a)
    requires a.PushCall? || a.PushLoadTail? || a.PushLoadHead? || a.PushCas?
    ensures Fifo(Step(q, a))
  {
    var q' := Step(q, a);
    StepKeepsTickets(q, a);
    forall k: nat | k < |q'.claimed| && k !in q'.written ensures Held(q', k) {
      assert Held(q, k);
      var p :| 0 <= p < |q.prods| && q.prods[p].Claimed? && q.prods[p].ticket == k;
      assert q'.prods[p] == q.prods[p];
    }
    SlotsSame(q, q');
  }

  lemma SlotsSame<T>(q: Queue<T>, q': Queue<T>)
    requires Fifo(q) && q'.buffer == q.buffer && q'.claimed == q.claimed && q'.written == q.written
    requires q'.popped == q.popped && q'.initial == q.initial
    ensures |q'.buffer| > 0 && |q'.initial| == |q'.buffer| && |q'.popped| <= |q'.claimed|
    ensures forall k: nat :: |q'.popped| <= k < |q'.popped| + |q'.buffer| ==>
              q'.buffer[k % |q'.buffer|] == SlotValue(q', k)
  {
    forall k: nat | |q'.popped| <= k < |q'.popped| + |q'.buffer|
      ensures q'.buffer[k % |q'.buffer|] == SlotValue(q', k)
    {
      assert q.buffer[k % |q.buffer|] == SlotValue(q, k);
    }
  }

  lemma WinKeepsHolders<T>(q: Queue<T>, a: Action<T>)
    requires Fifo(q) && Wins(q, a)
    ensures HoldersOk(Step(q, a))
  {
    var q' := Step(q, a);
    assert |q.claimed| !in q.written;
    forall p | 0 <= p < |q.prods| && q.prods[p].Claimed? ensures q.prods[p].ticket < |q.claimed| {
      assert ProducerOk(q, q.prods[p]);
    }
    forall k: nat | k < |q'.claimed| && k !in q'.written ensures Held(q', k) {
      if k == |q.claimed| {
        assert q'.prods[a.p].ticket == k;
      } else {
        assert Held(q, k);
        var p :| 0 <= p < |q.prods| && q.prods[p].Claimed? && q.prods[p].ticket == k;
        assert q'.prods[p] == q.prods[p];
      }
    }
  }

  lemma WinKeepsFifo<T>(q: Queue<T>, a: Action<T>)
    requires Fifo(q) && Wins(q, a) && Roomy(q, a)
    ensures Fifo(Step(q, a))
  {
    var q' := Step(q, a);
    RoomCounted(q);
    StepKeepsTickets(q, a);
    WinKeepsHolders(q, a);
    forall k: nat | |q'.popped| <= k < |q'.popped| + |q'.buffer|
      ensures q'.buffer[k % |q'.buffer|] == SlotValue(q', k)
    {
      assert SlotValue(q', k) == SlotValue(q, k);
    }
  }

  lemma WriteKeepsFifo<T>(q: Queue<T>, p: nat)
    requires Fifo(q) && Enabled(q, PushWrite(p))
    ensures Fifo(Step(q, PushWrite(p)))
  {
    var a := PushWrite(p);
    var me, cap := q.prods[p], |q.buffer|;
    var q' := Step(q, a);
    StepKeepsTickets(q, a);
    assert ProducerOk(q, me);
    assert me.ticket !in q.written && |q.popped| <= me.ticket;
    forall k: nat | |q'.popped| <= k < |q'.popped| + |q'.buffer|
      ensures q'.buffer[k % |q'.buffer|] == SlotValue(q', k)
    {
      assert q.buffer[k % cap] == SlotValue(q, k);
      if k != me.ticket && k % cap == me.t {
        if k < me.ticket { ModShift(k, me.ticket, cap); } else { ModShift(me.ticket, k, cap); }
      }
    }
    forall k: nat | k < |q'.claimed| && k !in q'.written ensures Held(q', k) {
      assert Held(q, k);
      var r :| 0 <= r < |q.prods| && q.prods[r].Claimed? && q.prods[r].ticket == k;
      assert q'.prods[r] == q.prods[r];
    }
  }

  lemma PopStoreKeepsFifo<T>(q: Queue<T>)
    requires Fifo(q) && Enabled(q, PopStore)
    ensures Fifo(Step(q, PopStore))
  {
    var n, cap := |q.popped|, |q.buffer|;
    var q' := Step(q, PopStore);
    StepKeepsTickets(q, PopStore);
    assert q'.popped == q.claimed[..n + 1];
    forall k: nat | |q'.popped| <= k < |q'.popped| + |q'.buffer|
      ensures q'.buffer[k % |q'.buffer|] == SlotValue(q', k)
    {
      if k < n + cap {
        assert q.buffer[k % cap] == SlotValue(q, k);
      } else {
        AddCap(n, cap);
        assert q.buffer[n % cap] == SlotValue(q, n);
        assert k !in q.written;
      }
      assert SlotValue(q', k) == if k < n + cap then SlotValue(q, k) else q.claimed[n];
    }
    HeldSame(q, q');
  }

  lemma HeldSame<T>(q: Queue<T>, q': Queue<T>)
    requires q.prods == q'.prods && q.claimed == q'.claimed && q.written == q'.written && HoldersOk(q)
    ensures HoldersOk(q')
  {
    forall k: nat | k < |q'.claimed| && k !in q'.written ensures Held(q', k) {
      assert Held(q, k);
    }
  }

  /** What the consumer remembers touches no slot. */
  lemma ConsumerKeepsFifo<T>(q: Queue<T>, q': Queue<T>)
    requires Fifo(q) && q' == q.(cons := q'.cons) && Tickets(q') && PoppedOk(q')
    ensures Fifo(q')
  {
    HeldSame(q, q');
    forall k: nat | |q'.popped| <= k < |q'.popped| + |q'.buffer|
      ensures q'.buffer[k % |q'.buffer|] == SlotValue(q', k)
    {
      assert SlotValue(q', k) == SlotValue(q, k);
    }
  }

  lemma PopLoadKeepsFifo<T>(q: Queue<T>, a: Action<T>)
    requires Fifo(q) && (a.PopLoadHead? || a.PopLoadTail?) && Enabled(q, a)
    ensures Fifo(Step(q, a))
  {
    StepKeepsTickets(q, a);
    ConsumerKeepsFifo(q, Step(q, a));
  }

  lemma PopReadKeepsFifo<T>(q: Queue<T>)
    requires Fifo(q) && Enabled(q, PopRead) && Orderly(q, PopRead)
    ensures Fifo(Step(q, PopRead))
  {
    StepKeepsTickets(q, PopRead);
    assert q.buffer[|q.popped| % |q.buffer|] == SlotValue(q, |q.popped|);
    ConsumerKeepsFifo(q, Step(q, PopRead));
  }

  lemma StepKeepsFifo<T>(q: Queue<T>, a: Action<T>)
    requires Fifo(q) && Enabled(q, a) && Roomy(q, a) && Orderly(q, a)
    ensures Fifo(Step(q, a))
  {
    match a
    case PushWrite(p) => WriteKeepsFifo(q, p);
    case PopStore => PopStoreKeepsFifo(q);
    case PushCas(_, _) => if Wins(q, a) { WinKeepsFifo(q, a); } else { QuietKeepsFifo(q, a); }
    case PopLoadHead => PopLoadKeepsFifo(q, a);
    case PopLoadTail => PopLoadKeepsFifo(q, a);
    case PopRead => PopReadKeepsFifo(q);
    case _ => QuietKeepsFifo(q, a);
  }

  // ---------------------------------------------------------------------
  // Whole runs
  // ---------------------------------------------------------------------

  ghost predicate IsRun<T>(q: Queue<T>, run: seq<Action<T>>)
    requires |q.buffer| > 0
    decreases |run|
  {
    run != [] ==> Enabled(q, run[0]) && IsRun(Step(q, run[0]), run[1..])
  }

  ghost function Final<T>(q: Queue<T>, run: seq<Action<T>>): (r: Queue<T>)
    requires |q.buffer| > 0 && IsRun(q, run)
    ensures |r.buffer| == |q.buffer|
    decreases |run|
  {
    if run == [] then q else Final(Step(q, run[0]), run[1..])
  }

  ghost predicate AllTimely<T>(q: Queue<T>, run: seq<Action<T>>)
    requires |q.buffer| > 0 && IsRun(q, run)
    decreases |run|
  {
    run != [] ==> Timely(q, run[0]) && AllTimely(Step(q, run[0]), run[1..])
  }

  ghost predicate AllRoomy<T>(q: Queue<T>, run: seq<Action<T>>)
    requires |q.buffer| > 0 && IsRun(q, run)
    decreases |run|
  {
    run != [] ==> Roomy(q, run[0]) && AllRoomy(Step(q, run[0]), run[1..])
  }

  ghost predicate AllOrderly<T>(q: Queue<T>, run: seq<Action<T>>)
    requires |q.buffer| > 0 && IsRun(q, run)
    decreases |run|
  {
    run != [] ==> Orderly(q, run[0]) && AllOrderly(Step(q, run[0]), run[1..])
  }

  /** From here on the ring never holds more than capacity - 1 claims that are not popped. */
  ghost predicate NeverOverfull<T>(q: Queue<T>, run: seq<Action<T>>)
    requires |q.buffer| > 0 && IsRun(q, run)
    decreases |run|
  {
    && |q.claimed| < |q.popped| + |q.buffer|
    && (run != [] ==> NeverOverfull(Step(q, run[0]), run[1..]))
  }

  lemma {:induction false} RunKeepsTickets<T>(q: Queue<T>, run: seq<Action<T>>)
    requires Tickets(q) && IsRun(q, run) && AllRoomy(q, run)
    ensures Tickets(Final(q, run)) && q.claimed <= Final(q, run).claimed
    decreases |run|
  {
    if run != [] {
      StepKeepsTickets(q, run[0]);
      RunKeepsTickets(Step(q, run[0]), run[1..]);
    }
  }

  lemma {:induction false} RunKeepsFifo<T>(q: Queue<T>, run: seq<Action<T>>)
    requires Fifo(q) && IsRun(q, run) && AllRoomy(q, run) && AllOrderly(q, run)
    ensures Fifo(Final(q, run))
    decreases |run|
  {
    if run != [] {
      StepKeepsFifo(q, run[0]);
      RunKeepsFifo(Step(q, run[0]), run[1..]);
    }
  }

  lemma {:induction false} TimelyRunIsRoomy<T>(q: Queue<T>, run: seq<Action<T>>)
    requires Tickets(q) && IsRun(q, run) && AllTimely(q, run)
    ensures AllRoomy(q, run)
    decreases |run|
  {
    if run != [] {
      TimelyIsRoomy(q, run[0]);
      StepKeepsTickets(q, run[0]);
      TimelyRunIsRoomy(Step(q, run[0]), run[1..]);
    }
  }

  lemma {:induction false} RoomyIsNeverOverfull<T>(q: Queue<T>, run: seq<Action<T>>)
    requires Tickets(q) && IsRun(q, run)
    ensures AllRoomy(q, run) <==> NeverOverfull(q, run)
    decreases |run|
  {
    if run != [] {
      RoomCounted(q);
      if Roomy(q, run[0]) {
        StepKeepsTickets(q, run[0]);
        RoomyIsNeverOverfull(Step(q, run[0]), run[1..]);
      } else {
        assert |Step(q, run[0]).claimed| == |q.claimed| + 1;
      }
    }
  }

  // ---------------------------------------------------------------------
  // What becomes of every call
  // ---------------------------------------------------------------------

  /** The push finds the index after its loaded tail at the head, and reports a full ring. */
  predicate Refuses<T>(q: Queue<T>, a: Action<T>) {
    a.PushLoadHead? && Enabled(q, a) && |q.buffer| > 0 && Next(q.prods[a.p].t, |q.buffer|) == q.head
  }

  /** The pop finds head and tail equal, and reports an empty ring. */
  predicate FindsNothing<T>(q: Queue<T>, a: Action<T>) {
    a.PopLoadTail? && Enabled(q, a) && q.cons.h == q.tail
  }

  /** The items of the push calls of a run. */
  ghost function Called<T>(run: seq<Action<T>>): multiset<T> {
    if run == [] then multiset{} else CalledBy(run[0]) + Called(run[1..])
  }

  ghost function CalledBy<T>(a: Action<T>): multiset<T> {
    if a.PushCall? then multiset{a.item} else multiset{}
  }

  /** The items of the pushes of a run that report a full ring. */
  ghost function Refused<T>(q: Queue<T>, run: seq<Action<T>>): multiset<T>
    requires |q.buffer| > 0 && IsRun(q, run)
    decreases |run|
  {
    if run == [] then multiset{} else RefusedBy(q, run[0]) + Refused(Step(q, run[0]), run[1..])
  }

  ghost function RefusedBy<T>(q: Queue<T>, a: Action<T>): multiset<T> {
    if Refuses(q, a) then multiset{q.prods[a.p].item} else multiset{}
  }

  /** The item of a push that is neither claimed nor refused yet. */
  ghost function Unsettled<T>(me: Producer<T>): multiset<T> {
    if me.Start? || me.Loaded? || me.Checked? then multiset{me.item} else multiset{}
  }

  ghost function Waiting<T>(prods: seq<Producer<T>>): multiset<T> {
    if prods == [] then multiset{} else Unsettled(prods[0]) + Waiting(prods[1..])
  }

  lemma Commute<T>(a: multiset<T>, b: multiset<T>, c: multiset<T>)
    ensures (a + b) + c == (c + b) + a
  {
  }

  lemma Under<T>(h: multiset<T>, a: multiset<T>, b: multiset<T>, c: multiset<T>, d: multiset<T>)
    requires a + b == c + d
    ensures (h + a) + b == (h + c) + d
  {
    assert (h + a) + b == h + (a + b) && (h + c) + d == h + (c + d);
  }

  lemma {:induction false} WaitingMoves<T>(prods: seq<Producer<T>>, p: nat, x: Producer<T>)
    requires p < |prods|
    ensures Waiting(prods[p := x]) + Unsettled(prods[p]) == Waiting(prods) + Unsettled(x)
    decreases |prods|
  {
    var next := prods[p := x];
    if p == 0 {
      assert next[1..] == prods[1..];
      Commute(Unsettled(x), Waiting(prods[1..]), Unsettled(prods[0]));
    } else {
      assert next[1..] == prods[1..][p - 1 := x];
      WaitingMoves(prods[1..], p - 1, x);
      Under(Unsettled(prods[0]), Waiting(next[1..]), Unsettled(prods[p]), Waiting(prods[1..]), Unsettled(x));
    }
  }

  lemma {:induction false} NobodyWaits<T>(prods: seq<Producer<T>>)
    requires forall p :: 0 <= p < |prods| ==> prods[p].Idle?
    ensures Waiting(prods) == multiset{}
  {
    if prods != [] { NobodyWaits(prods[1..]); }
  }

  /** The items of all pushes called so far that have not been refused. */
  ghost function Kept<T>(q: Queue<T>): multiset<T> {
    multiset(q.claimed) + Waiting(q.prods)
  }

  /** One producer moves to x; got is what it claims. */
  lemma OneMoves<T>(q: Queue<T>, r: Queue<T>, p: nat, got: seq<T>, called: multiset<T>, refused: multiset<T>)
    requires p < |q.prods| && p < |r.prods| && r.prods == q.prods[p := r.prods[p]] && r.claimed == q.claimed + got
    requires called + Unsettled(q.prods[p]) == multiset(got) + refused + Unsettled(r.prods[p])
    ensures called + Kept(q) == refused + Kept(r)
  {
    WaitingMoves(q.prods, p, r.prods[p]);
    assert multiset(r.claimed) == multiset(q.claimed) + multiset(got);
    Exchange(Waiting(r.prods), Unsettled(q.prods[p]), Waiting(q.prods), Unsettled(r.prods[p]),
             called, multiset(got), refused, multiset(q.claimed));
  }

  lemma Exchange<T>(w': multiset<T>, u: multiset<T>, w: multiset<T>, u': multiset<T>,
                    c: multiset<T>, g: multiset<T>, f: multiset<T>, m: multiset<T>)
    requires w' + u == w + u' && c + u == g + f + u'
    ensures c + (m + w) == f + ((m + g) + w')
  {
    forall x: T ensures (c + (m + w))[x] == (f + ((m + g) + w'))[x] {
      assert (w' + u)[x] == (w + u')[x] && (c + u)[x] == (g + f + u')[x];
    }
  }

  lemma LoadSettles<T>(q: Queue<T>, a: Action<T>)
    requires |q.buffer| > 0 && Enabled(q, a) && (a.PushCall? || a.PushLoadTail?)
    ensures CalledBy(a) + Kept(q) == RefusedBy(q, a) + Kept(Step(q, a))
  {
    assert q.claimed + [] == q.claimed;
    OneMoves(q, Step(q, a), a.p, [], CalledBy(a), RefusedBy(q, a));
  }

  lemma TestSettles<T>(q: Queue<T>, a: Action<T>)
    requires |q.buffer| > 0 && Enabled(q, a) && a.PushLoadHead?
    ensures CalledBy(a) + Kept(q) == RefusedBy(q, a) + Kept(Step(q, a))
  {
    assert q.claimed + [] == q.claimed;
    OneMoves(q, Step(q, a), a.p, [], CalledBy(a), RefusedBy(q, a));
  }

  lemma SwapSettles<T>(q: Queue<T>, a: Action<T>)
    requires |q.buffer| > 0 && Enabled(q, a) && a.PushCas?
    ensures CalledBy(a) + Kept(q) == RefusedBy(q, a) + Kept(Step(q, a))
  {
    assert q.claimed + [] == q.claimed;
    var got := if Wins(q, a) then [q.prods[a.p].item] else [];
    OneMoves(q, Step(q, a), a.p, got, CalledBy(a), RefusedBy(q, a));
  }

  lemma WriteSettles<T>(q: Queue<T>, a: Action<T>)
    requires |q.buffer| > 0 && Enabled(q, a) && a.PushWrite?
    ensures CalledBy(a) + Kept(q) == RefusedBy(q, a) + Kept(Step(q, a))
  {
    assert q.claimed + [] == q.claimed;
    OneMoves(q, Step(q, a), a.p, [], CalledBy(a), RefusedBy(q, a));
  }

  lemma StepSettles<T>(q: Queue<T>, a: Action<T>)
    requires |q.buffer| > 0 && Enabled(q, a)
    ensures CalledBy(a) + Kept(q) == RefusedBy(q, a) + Kept(Step(q, a))
  {
    match a
    case PushCas(_, _) => SwapSettles(q, a);
    case PushWrite(_) => WriteSettles(q, a);
    case PushCall(_, _) => LoadSettles(q, a);
    case PushLoadTail(_) => LoadSettles(q, a);
    case PushLoadHead(_) => TestSettles(q, a);
    case _ =>
  }

  lemma Telescope<T>(c: multiset<T>, c': multiset<T>, f: multiset<T>, f': multiset<T>,
                     x: multiset<T>, y: multiset<T>, z: multiset<T>)
    requires c + x == f + y && c' + y == f' + z
    ensures (c + c') + x == (f + f') + z
  {
    forall k: T ensures ((c + c') + x)[k] == ((f + f') + z)[k] {
      assert (c + x)[k] == (f + y)[k] && (c' + y)[k] == (f' + z)[k];
    }
  }

  lemma {:induction false} RunSettles<T>(q: Queue<T>, run: seq<Action<T>>)
    requires |q.buffer| > 0 && IsRun(q, run)
    ensures Called(run) + Kept(q) == Refused(q, run) + Kept(Final(q, run))
    decreases |run|
  {
    if run != [] {
      var r := Step(q, run[0]);
      StepSettles(q, run[0]);
      RunSettles(r, run[1..]);
      Telescope(CalledBy(run[0]), Called(run[1..]), RefusedBy(q, run[0]), Refused(r, run[1..]),
                Kept(q), Kept(r), Kept(Final(r, run[1..])));
    }
  }

  /** The calls of producer p, and those that were settled (refused, or claimed by a winning swap), in order. */
  ghost function CallsOf<T>(run: seq<Action<T>>, p: nat): seq<T> {
    if run == [] then []
    else CallNow(run[0], p) + CallsOf(run[1..], p)
  }

  ghost function SettledOf<T>(q: Queue<T>, run: seq<Action<T>>, p: nat): seq<T>
    requires |q.buffer| > 0 && IsRun(q, run)
    decreases |run|
  {
    if run == [] then []
    else SettledNow(q, run[0], p) + SettledOf(Step(q, run[0]), run[1..], p)
  }

  ghost function SettledNow<T>(q: Queue<T>, a: Action<T>, p: nat): seq<T> {
    if (Refuses(q, a) || Wins(q, a)) && a.p == p then [q.prods[p].item] else []
  }

  ghost function Pending<T>(me: Producer<T>): seq<T> {
    if me.Start? || me.Loaded? || me.Checked? then [me.item] else []
  }

  ghost function CallNow<T>(a: Action<T>, p: nat): seq<T> {
    if a.PushCall? && a.p == p then [a.item] else []
  }

  lemma StepInOrder<T>(q: Queue<T>, a: Action<T>, p: nat)
    requires |q.buffer| > 0 && Enabled(q, a) && p < |q.prods|
    ensures |Step(q, a).prods| == |q.prods|
    ensures Pending(q.prods[p]) + CallNow(a, p) == SettledNow(q, a, p) + Pending(Step(q, a).prods[p])
  {
  }

  lemma InOrderChain<T>(p0: seq<T>, c: seq<T>, s: seq<T>, p1: seq<T>, c': seq<T>, s': seq<T>, p2: seq<T>)
    requires p0 + c == s + p1 && p1 + c' == s' + p2
    ensures p0 + (c + c') == (s + s') + p2
  {
    assert p0 + (c + c') == (p0 + c) + c';
    assert (s + p1) + c' == s + (p1 + c');
    assert s + (s' + p2) == (s + s') + p2;
  }

  /** One producer's pushes are settled one after the other, in the order of its calls. */
  lemma {:induction false} SettledInOrder<T>(q: Queue<T>, run: seq<Action<T>>, p: nat)
    requires |q.buffer| > 0 && IsRun(q, run) && p < |q.prods|
    ensures |Final(q, run).prods| == |q.prods|
    ensures Pending(q.prods[p]) + CallsOf(run, p) == SettledOf(q, run, p) + Pending(Final(q, run).prods[p])
    decreases |run|
  {
    if run == [] {
      assert Pending(q.prods[p]) + [] == [] + Pending(q.prods[p]);
    } else {
      var a, r := run[0], Step(q, run[0]);
      StepInOrder(q, a, p);
      SettledInOrder(r, run[1..], p);
      InOrderChain(Pending(q.prods[p]), CallNow(a, p), SettledNow(q, a, p), Pending(r.prods[p]),
                   CallsOf(run[1..], p), SettledOf(r, run[1..], p), Pending(Final(r, run[1..]).prods[p]));
    }
  }

  /** How many pops a run begins, and how many of them report an empty ring. */
  ghost function PopCalls<T>(run: seq<Action<T>>): nat {
    if run == [] then 0 else (if run[0].PopLoadHead? then 1 else 0) + PopCalls(run[1..])
  }

  ghost function Empties<T>(q: Queue<T>, run: seq<Action<T>>): nat
    requires |q.buffer| > 0 && IsRun(q, run)
    decreases |run|
  {
    if run == [] then 0 else (if FindsNothing(q, run[0]) then 1 else 0) + Empties(Step(q, run[0]), run[1..])
  }

  ghost function Popping<T>(c: Consumer<T>): nat {
    if c.CIdle? then 0 else 1
  }

  lemma {:induction false} RunPops<T>(q: Queue<T>, run: seq<Action<T>>)
    requires |q.buffer| > 0 && IsRun(q, run)
    ensures var r := Final(q, run);
            PopCalls(run) + |q.popped| + Popping(q.cons) == |r.popped| + Empties(q, run) + Popping(r.cons)
    decreases |run|
  {
    if run != [] { RunPops(Step(q, run[0]), run[1..]); }
  }

  /** Each push called is claimed, refused or under way; so far, of all producers and of each in order. */
  ghost predicate PushesSettled<T>(q0: Queue<T>, run: seq<Action<T>>)
    requires |q0.buffer| > 0 && IsRun(q0, run)
  {
    var q := Final(q0, run);
    && Called(run) == multiset(q.claimed) + Refused(q0, run) + Waiting(q.prods)
    && |q.prods| == |q0.prods|
    && (forall p: nat :: p < |q.prods| ==> CallsOf(run, p) == SettledOf(q0, run, p) + Pending(q.prods[p]))
  }

  /** Each pop called has returned an item, has found head and tail equal, or is under way. */
  ghost predicate PopsSettled<T>(q0: Queue<T>, run: seq<Action<T>>)
    requires |q0.buffer| > 0 && IsRun(q0, run)
  {
    var q := Final(q0, run);
    PopCalls(run) == |q.popped| + Empties(q0, run) + Popping(q.cons)
  }

  lemma CalledIs<T>(q0: Queue<T>, run: seq<Action<T>>)
    requires |q0.buffer| > 0 && IsRun(q0, run) && q0.claimed == []
    requires forall p :: 0 <= p < |q0.prods| ==> q0.prods[p].Idle?
    ensures var q := Final(q0, run); Called(run) == multiset(q.claimed) + Refused(q0, run) + Waiting(q.prods)
  {
    NobodyWaits(q0.prods);
    RunSettles(q0, run);
    assert Called(run) + Kept(q0) == Called(run);
  }

  /**
   In every run, late or not, every push called is claimed, refused at the moment it meets a full ring, or still
   under way; and every pop returned an item, found head and tail equal, or is still under way.
   */
  lemma CallsAreSettled<T>(buffer: seq<T>, producers: nat, run: seq<Action<T>>)
    requires |buffer| > 0 && IsRun(Init(buffer, producers), run)
    ensures PushesSettled(Init(buffer, producers), run) && PopsSettled(Init(buffer, producers), run)
  {
    var q0 := Init(buffer, producers);
    CalledIs(q0, run);
    RunPops(q0, run);
    RunProducers(q0, run);
    forall p: nat | p < producers
      ensures CallsOf(run, p) == SettledOf(q0, run, p) + Pending(Final(q0, run).prods[p])
    {
      SettledInOrder(q0, run, p);
      assert [] + CallsOf(run, p) == CallsOf(run, p);
    }
  }

  lemma {:induction false} RunProducers<T>(q: Queue<T>, run: seq<Action<T>>)
    requires |q.buffer| > 0 && IsRun(q, run)
    ensures |Final(q, run).prods| == |q.prods|
    decreases |run|
  {
    if run != [] { RunProducers(Step(q, run[0]), run[1..]); }
  }

  /** A pop reports an empty ring exactly when every claim has been popped. */
  lemma EmptyReport<T>(q: Queue<T>)
    requires Tickets(q) && Enabled(q, PopLoadTail)
    ensures Step(q, PopLoadTail).cons.CIdle? <==> |q.popped| == |q.claimed|
  {
    EmptyTest(|q.popped|, |q.claimed| - |q.popped|, |q.buffer|);
  }

  // ---------------------------------------------------------------------
  // The theorems
  // ---------------------------------------------------------------------

  /** A run overfills the ring at some point exactly when one of its winning swaps meets a full ring. */
  lemma OverfullExactly<T>(buffer: seq<T>, producers: nat, run: seq<Action<T>>)
    requires IsPow2(|buffer|) && |buffer| > 0 && IsRun(Init(buffer, producers), run)
    ensures NeverOverfull(Init(buffer, producers), run) <==> AllRoomy(Init(buffer, producers), run)
    ensures AllTimely(Init(buffer, producers), run) ==> AllRoomy(Init(buffer, producers), run)
  {
    var q := Init(buffer, producers);
    InitTickets(buffer, producers);
    RoomyIsNeverOverfull(q, run);
    if AllTimely(q, run) { TimelyRunIsRoomy(q, run); }
  }

  /** Roomy runs never hold more than capacity - 1 claims, and holders sit on the slot of their ticket. */
  lemma OccupancyBounded<T>(buffer: seq<T>, producers: nat, run: seq<Action<T>>)
    requires IsPow2(|buffer|) && |buffer| > 0
    requires IsRun(Init(buffer, producers), run) && AllRoomy(Init(buffer, producers), run)
    ensures var q := Final(Init(buffer, producers), run);
            && |q.popped| <= |q.claimed| <= |q.popped| + |buffer| - 1
            && forall p :: 0 <= p < |q.prods| && q.prods[p].Claimed? ==>
                 q.prods[p].ticket < |q.claimed| && q.prods[p].t == q.prods[p].ticket % |buffer|
                 && q.claimed[q.prods[p].ticket] == q.prods[p].item
  {
    InitTickets(buffer, producers);
    RunKeepsTickets(Init(buffer, producers), run);
    var q := Final(Init(buffer, producers), run);
    forall p | 0 <= p < |q.prods| && q.prods[p].Claimed? ensures ProducerOk(q, q.prods[p]) {}
  }

  /** What is popped and what is still in the ring: the claims in order, none lost, one holder per ticket. */
  ghost predicate InClaimOrder<T>(q: Queue<T>)
    requires |q.buffer| > 0
  {
    && q.popped <= q.claimed
    && (forall k: nat :: |q.popped| <= k < |q.claimed| ==>
          (k in q.written && q.buffer[k % |q.buffer|] == q.claimed[k]) || Held(q, k))
    && (forall p, r :: 0 <= p < r < |q.prods| && q.prods[p].Claimed? && q.prods[r].Claimed? ==>
          q.prods[p].ticket != q.prods[r].ticket)
  }

  /**
   Roomy and orderly runs pop exactly the claimed items in claim order, nothing claimed is lost, and the claimed
   items are those of the push calls that were not refused and are not under way.
   */
  lemma FirstInFirstOut<T>(buffer: seq<T>, producers: nat, run: seq<Action<T>>)
    requires IsPow2(|buffer|) && |buffer| > 0
    requires IsRun(Init(buffer, producers), run)
    requires AllRoomy(Init(buffer, producers), run) && AllOrderly(Init(buffer, producers), run)
    ensures var q0 := Init(buffer, producers);
            var q := Final(q0, run);
            InClaimOrder(q) && PushesSettled(q0, run) && PopsSettled(q0, run)
  {
    CallsAreSettled(buffer, producers, run);
    InitFifo(buffer, producers);
    RunKeepsFifo(Init(buffer, producers), run);
    var q := Final(Init(buffer, producers), run);
    forall k: nat | |q.popped| <= k < |q.claimed| && k in q.written ensures q.buffer[k % |buffer|] == q.claimed[k] {
      assert q.buffer[k % |buffer|] == SlotValue(q, k);
    }
  }

  /** In particular runs in which no swap is a full round late. */
  lemma TimelyFirstInFirstOut<T>(buffer: seq<T>, producers: nat, run: seq<Action<T>>)
    requires IsPow2(|buffer|) && |buffer| > 0
    requires IsRun(Init(buffer, producers), run)
    requires AllTimely(Init(buffer, producers), run) && AllOrderly(Init(buffer, producers), run)
    ensures var q0 := Init(buffer, producers);
            var q := Final(q0, run);
            && NeverOverfull(q0, run) && InClaimOrder(q)
            && PushesSettled(q0, run) && PopsSettled(q0, run)
  {
    OverfullExactly(buffer, producers, run);
    FirstInFirstOut(buffer, producers, run);
  }

  /**
   What a read really returns, orderly or not: the claimed item once it is written; before that, the
   item popped one round earlier (delivered a second time) or the initial content of the slot.
   */
  lemma ReadReturns<T>(q: Queue<T>)
    requires Fifo(q) && Enabled(q, PopRead)
    ensures var k := |q.popped|;
            Step(q, PopRead).cons.x ==
              if k in q.written then q.claimed[k]
              else if k >= |q.buffer| then q.popped[k - |q.buffer|] else q.initial[k]
  {
    assert q.buffer[|q.popped| % |q.buffer|] == SlotValue(q, |q.popped|);
  }

  /**
   A push reports a full ring exactly when the ring is full at its head load, or when the consumer has
   passed the tail it loaded by a whole number of rounds: with k the loaded ticket, k + 1 items have been
   popped, or capacity more, and so on.
   */
  lemma FullReport<T>(q: Queue<T>, p: nat)
    requires Tickets(q) && Enabled(q, PushLoadHead(p))
    ensures var k, n, cap := q.prods[p].ticket, |q.popped|, |q.buffer|;
            Step(q, PushLoadHead(p)).prods[p].Idle? <==>
              (|q.claimed| == k && k - n == cap - 1) || (n >= k + 1 && (n - (k + 1)) % cap == 0)
  {
    var k, n, cap := q.prods[p].ticket, |q.popped|, |q.buffer|;
    assert ProducerOk(q, q.prods[p]);
    NextIndex(k, 1, cap);
    AddCap(n, cap);
    if n >= k + 1 {
      SameResidue(k + 1, n, cap);
    } else if (k + 1) % cap == n % cap && k + 1 < n + cap {
      ModShift(n, k + 1, cap);
    }
  }

  // ---------------------------------------------------------------------
  // Runs that show each hypothesis is needed
  // ---------------------------------------------------------------------

  lemma {:induction false} RunSnoc<T>(q: Queue<T>, run: seq<Action<T>>, a: Action<T>)
    requires |q.buffer| > 0 && IsRun(q, run) && Enabled(Final(q, run), a)
    ensures IsRun(q, run + [a]) && Final(q, run + [a]) == Step(Final(q, run), a)
    decreases |run|
  {
    if run != [] {
      assert (run + [a])[1..] == run[1..] + [a];
      RunSnoc(Step(q, run[0]), run[1..], a);
    }
  }

  /** Three more actions of a run. */
  lemma Play<T>(q: Queue<T>, done: seq<Action<T>>, a: Action<T>, b: Action<T>, c: Action<T>)
    requires |q.buffer| > 0 && IsRun(q, done)
    requires var q1 := Final(q, done);
             && Enabled(q1, a) && Enabled(Step(q1, a), b) && Enabled(Step(Step(q1, a), b), c)
    ensures IsRun(q, done + [a, b, c])
    ensures Final(q, done + [a, b, c]) == Step(Step(Step(Final(q, done), a), b), c)
  {
    RunSnoc(q, done, a);
    RunSnoc(q, done + [a], b);
    RunSnoc(q, done + [a] + [b], c);
    assert done + [a] + [b] + [c] == done + [a, b, c];
  }

  /** Producer 0 loads tail and head and stalls; producer 1 is about to swap. */
  function BothRun(): seq<Action<int>> {
    [PushCall(0, 7), PushLoadTail(0), PushLoadHead(0)] + [PushCall(1, 8), PushLoadTail(1), PushLoadHead(1)]
  }

  lemma BothReaches()
    ensures var q0 := Init([0, 0], 2);
            && IsRun(q0, BothRun())
            && Final(q0, BothRun()) ==
               Queue(0, 0, [0, 0], [Checked(7, 0, 0), Checked(8, 0, 0)], CIdle, [0, 0], [], {}, [])
  {
    var q0 := Init([0, 0], 2);
    var r: seq<Action<int>> := [];
    Play(q0, r, PushCall(0, 7), PushLoadTail(0), PushLoadHead(0));
    r := r + [PushCall(0, 7), PushLoadTail(0), PushLoadHead(0)];
    assert Final(q0, r) == q0.(prods := [Checked(7, 0, 0), Idle]);
    Play(q0, r, PushCall(1, 8), PushLoadTail(1), PushLoadHead(1));
    assert r + [PushCall(1, 8), PushLoadTail(1), PushLoadHead(1)] == BothRun();
  }

  /** Producer 1 pushes 8. */
  function PushedRun(): seq<Action<int>> {
    BothRun() + [PushCas(1, false), PushWrite(1), PopLoadHead]
  }

  lemma PushedReaches()
    ensures var q0 := Init([0, 0], 2);
            && IsRun(q0, PushedRun())
            && Final(q0, PushedRun()) ==
               Queue(0, 1, [8, 0], [Checked(7, 0, 0), Idle], CHead(0), [0, 0], [8], {0}, [])
  {
    BothReaches();
    Play(Init([0, 0], 2), BothRun(), PushCas(1, false), PushWrite(1), PopLoadHead);
  }

  /** The consumer pops it. */
  function StallRun(): seq<Action<int>> {
    PushedRun() + [PopLoadTail, PopRead, PopStore]
  }

  lemma StallReaches()
    ensures var q0 := Init([0, 0], 2);
            && IsRun(q0, StallRun())
            && Final(q0, StallRun()) ==
               Queue(1, 1, [8, 0], [Checked(7, 0, 0), Idle], CIdle, [0, 0], [8], {0}, [8])
  {
    PushedReaches();
    Play(Init([0, 0], 2), PushedRun(), PopLoadTail, PopRead, PopStore);
  }

  /** Producer 1 starts another push. */
  function AgainRun(): seq<Action<int>> {
    StallRun() + [PushCall(1, 9), PushLoadTail(1), PushLoadHead(1)]
  }

  lemma AgainReaches()
    ensures var q0 := Init([0, 0], 2);
            && IsRun(q0, AgainRun())
            && Final(q0, AgainRun()) ==
               Queue(1, 1, [8, 0], [Checked(7, 0, 0), Checked(9, 1, 1)], CIdle, [0, 0], [8], {0}, [8])
  {
    StallReaches();
    Play(Init([0, 0], 2), StallRun(), PushCall(1, 9), PushLoadTail(1), PushLoadHead(1));
  }

  /** It takes the last free slot, the tail is back at 0, and the stalled swap wins. */
  function WrapRun(): seq<Action<int>> {
    AgainRun() + [PushCas(1, false), PushWrite(1), PushCas(0, false)]
  }

  /** A late swap on a full ring overfills it: it then looks empty and its items are lost. */
  lemma LateSwapLosesItems()
    ensures var q0 := Init([0, 0], 2);
            && IsRun(q0, WrapRun())
            && var q := Final(q0, WrapRun());
            && |q.claimed| - |q.popped| == |q.buffer| && q.head == q.tail
  {
    AgainReaches();
    Play(Init([0, 0], 2), AgainRun(), PushCas(1, false), PushWrite(1), PushCas(0, false));
  }

  /** The second item is pushed. */
  function SecondRun(): seq<Action<int>> {
    AgainRun() + [PushCas(1, false), PushWrite(1), PopLoadHead]
  }

  /** The state in which producer 1 is about to push 9, and the same push step by step. */
  const AGAIN: Queue<int> :=
    Queue(1, 1, [8, 0], [Checked(7, 0, 0), Checked(9, 1, 1)], CIdle, [0, 0], [8], {0}, [8])

  const CLAIMED: Queue<int> :=
    Queue(1, 0, [8, 0], [Checked(7, 0, 0), Claimed(9, 1, 1)], CIdle, [0, 0], [8, 9], {0}, [8])

  const WRITTEN: Queue<int> :=
    Queue(1, 0, [8, 9], [Checked(7, 0, 0), Idle], CIdle, [0, 0], [8, 9], {0, 1}, [8])

  lemma AgainPushes()
    ensures Enabled(AGAIN, PushCas(1, false)) && Step(AGAIN, PushCas(1, false)) == CLAIMED
    ensures Enabled(CLAIMED, PushWrite(1)) && Step(CLAIMED, PushWrite(1)) == WRITTEN
  {
    assert [8] + [9] == [8, 9];
  }

  lemma SecondReaches()
    ensures var q0 := Init([0, 0], 2);
            && IsRun(q0, SecondRun())
            && Final(q0, SecondRun()) ==
               Queue(1, 0, [8, 9], [Checked(7, 0, 0), Idle], CHead(1), [0, 0], [8, 9], {0, 1}, [8])
  {
    AgainReaches();
    AgainPushes();
    Play(Init([0, 0], 2), AgainRun(), PushCas(1, false), PushWrite(1), PopLoadHead);
  }

  /** It is popped, so the ring is empty when the stalled swap wins. */
  function DrainedRun(): seq<Action<int>> {
    SecondRun() + [PopLoadTail, PopRead, PopStore]
  }

  lemma DrainedReaches()
    ensures var q0 := Init([0, 0], 2);
            && IsRun(q0, DrainedRun())
            && Final(q0, DrainedRun()) ==
               Queue(0, 0, [8, 9], [Checked(7, 0, 0), Idle], CIdle, [0, 0], [8, 9], {0, 1}, [8, 9])
  {
    SecondReaches();
    Play(Init([0, 0], 2), SecondRun(), PopLoadTail, PopRead, PopStore);
  }

  /** The same late swap is harmless once the ring is drained. */
  lemma LateSwapHarmless()
    ensures var q0 := Init([0, 0], 2);
            && IsRun(q0, DrainedRun())
            && var q, a := Final(q0, DrainedRun()), PushCas(0, false);
            && Wins(q, a) && !Timely(q, a) && Roomy(q, a) && Tickets(Step(q, a))
  {
    DrainedReaches();
    DrainedTickets();
    WinKeepsTicketsExactly(Final(Init([0, 0], 2), DrainedRun()), PushCas(0, false));
  }

  lemma DrainedTickets()
    ensures Tickets(Queue(0, 0, [8, 9], [Checked(7, 0, 0), Idle], CIdle, [0, 0], [8, 9], {0, 1}, [8, 9]))
  {
    assert Pow2(1) == 2;
  }

  /** Without Orderly a pop delivers a value that nobody pushed. */
  lemma EarlyReadDeliversStale()
    ensures var q0 := Init([0, 0], 1);
            var run := [PushCall(0, 7), PushLoadTail(0), PushLoadHead(0)]
                       + [PushCas(0, false), PopLoadHead, PopLoadTail];
            && IsRun(q0, run)
            && var q := Final(q0, run);
            && Enabled(q, PopRead) && !Orderly(q, PopRead)
            && q.claimed == [7] && Step(q, PopRead).cons.x == 0
  {
    var q0 := Init([0, 0], 1);
    var r := [PushCall(0, 7), PushLoadTail(0), PushLoadHead(0)];
    Play(q0, [], PushCall(0, 7), PushLoadTail(0), PushLoadHead(0));
    assert [] + r == r;
    Play(q0, r, PushCas(0, false), PopLoadHead, PopLoadTail);
  }

  /** Producer 0 loads the tail; producer 1 claims a slot. */
  function StaleRun(): seq<Action<int>> {
    [PushCall(0, 7), PushLoadTail(0), PushCall(1, 8)] + [PushLoadTail(1), PushLoadHead(1), PushCas(1, false)]
  }

  lemma StaleReaches()
    ensures var q0 := Init([0, 0], 2);
            && IsRun(q0, StaleRun())
            && Final(q0, StaleRun()) ==
               Queue(0, 1, [0, 0], [Loaded(7, 0, 0), Claimed(8, 0, 0)], CIdle, [0, 0], [8], {}, [])
  {
    var q0 := Init([0, 0], 2);
    var r: seq<Action<int>> := [];
    Play(q0, r, PushCall(0, 7), PushLoadTail(0), PushCall(1, 8));
    r := r + [PushCall(0, 7), PushLoadTail(0), PushCall(1, 8)];
    assert Final(q0, r) == q0.(prods := [Loaded(7, 0, 0), Start(8)]);
    Play(q0, r, PushLoadTail(1), PushLoadHead(1), PushCas(1, false));
    assert r + [PushLoadTail(1), PushLoadHead(1), PushCas(1, false)] == StaleRun();
  }

  /** The item is written and popped. */
  function PassedRun(): seq<Action<int>> {
    StaleRun() + [PushWrite(1), PopLoadHead, PopLoadTail]
  }

  lemma PassedReaches()
    ensures var q0 := Init([0, 0], 2);
            && IsRun(q0, PassedRun())
            && Final(q0, PassedRun()) ==
               Queue(0, 1, [8, 0], [Loaded(7, 0, 0), Idle], CReady(0), [0, 0], [8], {0}, [])
  {
    StaleReaches();
    Play(Init([0, 0], 2), StaleRun(), PushWrite(1), PopLoadHead, PopLoadTail);
  }

  /** Only then does producer 0 load the head. */
  function StaleTailRun(): seq<Action<int>> {
    PassedRun() + [PopRead, PopStore, PushLoadHead(0)]
  }

  /** A push can report a full ring while the ring is empty. */
  lemma FullReportedOnEmpty()
    ensures var q0 := Init([0, 0], 2);
            && IsRun(q0, StaleTailRun())
            && var q := Final(q0, StaleTailRun());
            && |q.prods| == 2 && q.prods[0].Idle? && q.claimed == q.popped == [8]
  {
    PassedReaches();
    Play(Init([0, 0], 2), PassedRun(), PopRead, PopStore, PushLoadHead(0));
  }
}
