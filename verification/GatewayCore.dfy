/**
 What the gateway does with complete frames: authentication, order and cancel
 hand-over, the fixed-window rate limit and the direct-mapped duplicate filter,
 as a machine over accepts, frames and closes of any number of connections.

 Key validation, the binary order decoder and strtod are parameters. The result of
 pushing to the output queue is ignored by the code, so `out` lists what is offered.
 */
module GatewayCore {
  import opened Bits
  import opened Sets
  import opened Framing
  import opened OrderText

  const RATE_LIMIT: nat := 10_000
  const SECOND: nat := 1_000_000_000
  const IDEM: nat := 8192

  datatype Env = Env(valid: seq<Byte> -> bool, binary: seq<Byte> -> Parsed, price: seq<Byte> -> int)

  datatype Msg = NewOrder(request: Request) | Cancel(order: seq<Byte>, user: seq<Byte>, symbol: seq<Byte>)

  /** A message offered to the output queue; at is the index of the event that caused it. */
  datatype Offer = Offer(slot: nat, msg: Msg, at: nat)

  /** An order that passed the rate limit: when, and in the window that began when. */
  datatype Push = Push(time: nat, window: nat)

  /** pushes is history since the accept. */
  datatype Conn = Conn(open: bool, authenticated: bool, windowStart: nat, rateCount: nat, pushes: seq<Push>)

  /** A duplicate dropped when `after` ids had been recorded. */
  datatype Drop = Drop(id: nat, after: nat)

  /** recorded, dropped and out are history. */
  datatype Shared = Shared(idem: seq<nat>, recorded: seq<nat>, dropped: seq<Drop>, out: seq<Offer>)

  /** Unsigned 64-bit subtraction. */
  function Sub64(a: nat, b: nat): nat {
    if a >= b then a - b else (a + WORD - b % WORD) % WORD
  }

  function Rewind(c: Conn, now: nat): Conn {
    if Sub64(now, c.windowStart) > SECOND then c.(windowStart := now, rateCount := 0) else c
  }

  /** The ring slot of an id; the code's `id & (8192 - 1)` (IdemSlotIsMask). */
  function IdemSlot(id: nat): nat {
    id % IDEM
  }

  /** gw_push_order. */
  function PushOrder(g: Shared, c: Conn, slot: nat, req: Request, now: nat, at: nat): (r: (Shared, Conn))
    requires |g.idem| == IDEM
    ensures |r.0.idem| == IDEM
  {
    var c1 := Rewind(c, now);
    if c1.rateCount >= RATE_LIMIT then (g, c1)
    else if req.id != 0 && g.idem[IdemSlot(req.id)] == req.id then
      (g.(dropped := g.dropped + [Drop(req.id, |g.recorded|)]), c1)
    else
      var g1 := if req.id == 0 then g
                else g.(idem := g.idem[IdemSlot(req.id) := req.id], recorded := g.recorded + [req.id]);
      (g1.(out := g1.out + [Offer(slot, NewOrder(req), at)]),
       c1.(rateCount := c1.rateCount + 1, pushes := c1.pushes + [Push(now, c1.windowStart)]))
  }

  function ParseOrder(env: Env, f: Frame): Parsed {
    if f.kind == 66 then env.binary(f.payload) else Parse(f.payload, env.price)
  }

  lemma IdemSlotIsMask(id: nat)
    ensures BitAnd(id, IDEM - 1) == IdemSlot(id)
  {
    assert Pow2(2) == 4;
    Pow2Add(2, 2);
    Pow2Add(4, 4);
    Pow2Add(8, 4);
    assert Pow2(13) == IDEM;
    AndLowMask(id, 13);
  }

  /** One complete frame on one connection: types 'A', 'O', 'B', 'C'; others are skipped. */
  function Handle(env: Env, g: Shared, c: Conn, slot: nat, f: Frame, now: nat, at: nat): (r: (Shared, Conn))
    requires |g.idem| == IDEM
    ensures |r.0.idem| == IDEM
  {
    if f.kind == 65 then (g, c.(authenticated := c.authenticated || env.valid(f.payload)))
    else if !c.authenticated then (g, c)
    else if f.kind == 79 || f.kind == 66 then
      match ParseOrder(env, f)
      case Rejected => (g, c)
      case Accepted(req) => PushOrder(g, c, slot, req, now, at)
    else if f.kind == 67 && |f.payload| >= 32 then
      (g.(out := g.out + [Offer(slot, Cancel(f.payload[..8], f.payload[8..16], f.payload[16..32]), at)]), c)
    else (g, c)
  }

  // ---------------------------------------------------------------------
  // From wire to queue
  // ---------------------------------------------------------------------

  /**
   A text order that an authenticated connection sends within its rate limit is offered with exactly the
   user, symbol, price, quantity, side and type the client printed, in whatever order the fields come.
   */
  lemma OrderReachesQueue(
    env: Env, g: Shared, c: Conn, slot: nat, o: Order, priceText: seq<Byte>, fs: seq<Field>, now: nat, at: nat)
    requires |g.idem| == IDEM && c.authenticated && Rewind(c, now).rateCount < RATE_LIMIT
    requires ValidOrder(o) && PIPE !in priceText && multiset(fs) == multiset(OrderFields(o, priceText))
    requires |PrintFields(fs)| + 5 < RING
    ensures var (g', c') := Handle(env, g, c, slot, Frame(79, PrintFields(fs)), now, at);
            && |g'.out| == |g.out| + 1 && g'.out[..|g.out|] == g.out && c'.rateCount == Rewind(c, now).rateCount + 1
            && var x := g'.out[|g.out|];
            && x.slot == slot && x.at == at && x.msg.NewOrder?
            && x.msg.request.user == o.user && CString(x.msg.request.symbol) == o.symbol
            && x.msg.request.quantity == o.quantity && x.msg.request.side == o.side && x.msg.request.kind == o.kind
            && x.msg.request.price == env.price(Buffer(priceText)) && x.msg.request.id == 0
  {
    OrderRoundTrip(o, priceText, fs, env.price);
    var req := Parse(PrintFields(fs), env.price).request;
    var g' := PushOrder(g, c, slot, req, now, at).0;
    assert g'.out == g.out + [Offer(slot, NewOrder(req), at)];
  }

  /** A cancel of at least 32 bytes is offered with its order id, user id and symbol; a shorter one is skipped. */
  lemma CancelReachesQueue(
    env: Env, g: Shared, c: Conn, slot: nat, order: seq<Byte>, user: seq<Byte>, symbol: seq<Byte>, more: seq<Byte>,
    now: nat, at: nat)
    requires |g.idem| == IDEM && c.authenticated && |order| == 8 && |user| == 8 && |symbol| == 16
    requires |more| + 37 < RING
    ensures Handle(env, g, c, slot, Frame(67, order + user + symbol + more), now, at) ==
            (g.(out := g.out + [Offer(slot, Cancel(order, user, symbol), at)]), c)
  {
    var p := order + user + symbol + more;
    assert p[..8] == order && p[8..16] == user && p[16..32] == symbol;
  }

  // ---------------------------------------------------------------------
  // Runs
  // ---------------------------------------------------------------------

  datatype Event =
    | Accept(slot: nat, now: nat)
    | Arrive(slot: nat, frame: Frame, now: nat)
    | Close(slot: nat)

  /** log and last are history: the events so far and the latest clock reading. */
  datatype State = State(conns: seq<Conn>, shared: Shared, log: seq<Event>, last: nat)

  function Closed(): Conn {
    Conn(false, false, 0, 0, [])
  }

  function Init(n: nat): State {
    State(seq(n, _ => Closed()), Shared(seq(IDEM, _ => 0), [], [], []), [], 0)
  }

  /** Accepts take the lowest free slot; the clock does not go back. */
  predicate Enabled(s: State, e: Event) {
    && e.slot < |s.conns|
    && match e
       case Accept(slot, now) =>
         !s.conns[slot].open && (forall i :: 0 <= i < slot ==> s.conns[i].open) && s.last <= now
       case Arrive(slot, _, now) => s.conns[slot].open && s.last <= now
       case Close(slot) => s.conns[slot].open
  }

  function Step(env: Env, s: State, e: Event): (r: State)
    requires |s.shared.idem| == IDEM && e.slot < |s.conns|
    ensures |r.shared.idem| == IDEM
  {
    var log := s.log + [e];
    match e
    case Accept(slot, now) =>
      s.(conns := s.conns[slot := Conn(true, false, now, 0, [])], log := log, last := now)
    case Arrive(slot, f, now) =>
      var (g, c) := Handle(env, s.shared, s.conns[slot], slot, f, now, |s.log|);
      State(s.conns[slot := c], g, log, now)
    case Close(slot) => s.(conns := s.conns[slot := s.conns[slot].(open := false)], log := log)
  }

  // ---------------------------------------------------------------------
  // Authentication gate
  // ---------------------------------------------------------------------

  /** Within log[..n], the connection now on this slot was accepted at a and is still the same. */
  ghost predicate LifeFrom(log: seq<Event>, n: nat, slot: nat, a: nat) {
    && a < n <= |log| && log[a].Accept? && log[a].slot == slot
    && forall k :: a < k < n && log[k].slot == slot ==> log[k].Arrive?
  }

  /** Within log[..n], that connection has sent an 'A' frame that validated. */
  ghost predicate Authenticated(env: Env, log: seq<Event>, n: nat, slot: nat) {
    exists a: nat, j: nat :: a < j < n && LifeFrom(log, n, slot, a) && ValidKey(env, log, j, slot)
  }

  ghost predicate ValidKey(env: Env, log: seq<Event>, j: nat, slot: nat) {
    j < |log| && log[j].slot == slot && log[j].Arrive? && log[j].frame.kind == 65 && env.valid(log[j].frame.payload)
  }

  ghost predicate Opened(log: seq<Event>, slot: nat) {
    exists a: nat :: LifeFrom(log, |log|, slot, a)
  }

  ghost predicate OfferGated(env: Env, log: seq<Event>, o: Offer) {
    && o.at < |log| && log[o.at].Arrive? && log[o.at].slot == o.slot
    && Authenticated(env, log, o.at, o.slot)
  }

  ghost predicate Gate(env: Env, s: State) {
    && (forall i :: 0 <= i < |s.conns| && s.conns[i].open ==> Opened(s.log, i))
    && (forall i :: 0 <= i < |s.conns| && s.conns[i].open && s.conns[i].authenticated ==>
          Authenticated(env, s.log, |s.log|, i))
    && (forall i :: 0 <= i < |s.shared.out| ==> OfferGated(env, s.log, s.shared.out[i]))
  }

  /** An event that does not end slot i's connection keeps what the log says about it. */
  lemma LogGrows(env: Env, log: seq<Event>, e: Event, i: nat)
    requires e.slot != i || e.Arrive?
    ensures Opened(log, i) ==> Opened(log + [e], i)
    ensures Authenticated(env, log, |log|, i) ==> Authenticated(env, log + [e], |log| + 1, i)
  {
    var log' := log + [e];
    if Opened(log, i) {
      var a: nat :| LifeFrom(log, |log|, i, a);
      assert LifeFrom(log', |log'|, i, a);
    }
    if Authenticated(env, log, |log|, i) {
      var a: nat, j: nat :| a < j < |log| && LifeFrom(log, |log|, i, a) && ValidKey(env, log, j, i);
      assert LifeFrom(log', |log'|, i, a) && ValidKey(env, log', j, i);
    }
  }

  /** Past positions of the log are not affected by growth. */
  lemma GateStable(env: Env, log: seq<Event>, e: Event, n: nat, slot: nat)
    requires n <= |log| && Authenticated(env, log, n, slot)
    ensures Authenticated(env, log + [e], n, slot)
  {
    var a: nat, j: nat :| a < j < n && LifeFrom(log, n, slot, a) && ValidKey(env, log, j, slot);
    assert LifeFrom(log + [e], n, slot, a) && ValidKey(env, log + [e], j, slot);
  }

  /** A validated key on an open connection authenticates it. */
  lemma KeyAuthenticates(env: Env, log: seq<Event>, e: Event)
    requires e.Arrive? && e.frame.kind == 65 && env.valid(e.frame.payload) && Opened(log, e.slot)
    ensures Authenticated(env, log + [e], |log| + 1, e.slot)
  {
    var log' := log + [e];
    var a: nat :| LifeFrom(log, |log|, e.slot, a);
    assert LifeFrom(log', |log'|, e.slot, a) && ValidKey(env, log', |log|, e.slot);
  }

  /** out grew by at most one offer, made by this slot at this event. */
  ghost predicate AtMostOne(out: seq<Offer>, out': seq<Offer>, slot: nat, at: nat) {
    out' == out || exists m :: out' == out + [Offer(slot, m, at)]
  }

  lemma PushOffers(g: Shared, c: Conn, slot: nat, req: Request, now: nat, at: nat)
    requires |g.idem| == IDEM
    ensures var (g', c') := PushOrder(g, c, slot, req, now, at);
            && c'.open == c.open && c'.authenticated == c.authenticated && |g'.idem| == IDEM
            && AtMostOne(g.out, g'.out, slot, at)
  {
    var g' := PushOrder(g, c, slot, req, now, at).0;
    if g'.out != g.out { assert g'.out == g.out + [Offer(slot, NewOrder(req), at)]; }
  }

  /** Handling a frame offers nothing on an unauthenticated connection. */
  lemma HandleOffers(env: Env, g: Shared, c: Conn, slot: nat, f: Frame, now: nat, at: nat)
    requires |g.idem| == IDEM
    ensures var (g', c') := Handle(env, g, c, slot, f, now, at);
            && c'.open == c.open && |g'.idem| == IDEM
            && c'.authenticated == (c.authenticated || (f.kind == 65 && env.valid(f.payload)))
            && AtMostOne(g.out, g'.out, slot, at)
            && (!c.authenticated ==> g'.out == g.out)
  {
    if c.authenticated && (f.kind == 79 || f.kind == 66) && ParseOrder(env, f).Accepted? {
      PushOffers(g, c, slot, ParseOrder(env, f).request, now, at);
    }
  }

  lemma OldOffersGated(env: Env, s: State, e: Event)
    requires Gate(env, s)
    ensures forall i :: 0 <= i < |s.shared.out| ==> OfferGated(env, s.log + [e], s.shared.out[i])
  {
    forall i | 0 <= i < |s.shared.out| ensures OfferGated(env, s.log + [e], s.shared.out[i]) {
      var o := s.shared.out[i];
      assert OfferGated(env, s.log, o);
      GateStable(env, s.log, e, o.at, o.slot);
    }
  }

  lemma ArriveKeepsGate(env: Env, s: State, e: Event)
    requires |s.shared.idem| == IDEM && Gate(env, s) && e.Arrive? && Enabled(s, e)
    ensures Gate(env, Step(env, s, e))
  {
    var s' := Step(env, s, e);
    HandleOffers(env, s.shared, s.conns[e.slot], e.slot, e.frame, e.now, |s.log|);
    forall i | 0 <= i < |s'.conns| && s'.conns[i].open ensures Opened(s'.log, i) {
      LogGrows(env, s.log, e, i);
    }
    forall i | 0 <= i < |s'.conns| && s'.conns[i].open && s'.conns[i].authenticated
      ensures Authenticated(env, s'.log, |s'.log|, i)
    {
      if s.conns[i].authenticated { LogGrows(env, s.log, e, i); } else { KeyAuthenticates(env, s.log, e); }
    }
    OldOffersGated(env, s, e);
    forall i | 0 <= i < |s'.shared.out| ensures OfferGated(env, s'.log, s'.shared.out[i]) {
      if i < |s.shared.out| {
        assert s'.shared.out[i] == s.shared.out[i];
      } else {
        assert s'.shared.out[i].slot == e.slot && s'.shared.out[i].at == |s.log|;
        GateStable(env, s.log, e, |s.log|, e.slot);
      }
    }
  }

  lemma StepKeepsGate(env: Env, s: State, e: Event)
    requires |s.shared.idem| == IDEM && Gate(env, s) && Enabled(s, e)
    ensures Gate(env, Step(env, s, e))
  {
    if e.Arrive? {
      ArriveKeepsGate(env, s, e);
    } else {
      var s' := Step(env, s, e);
      OldOffersGated(env, s, e);
      forall i | 0 <= i < |s'.conns| && s'.conns[i].open ensures Opened(s'.log, i) {
        if i != e.slot { LogGrows(env, s.log, e, i); } else { assert LifeFrom(s'.log, |s'.log|, i, |s.log|); }
      }
      forall i | 0 <= i < |s'.conns| && s'.conns[i].open && s'.conns[i].authenticated
        ensures Authenticated(env, s'.log, |s'.log|, i)
      {
        LogGrows(env, s.log, e, i);
      }
    }
  }

  // ---------------------------------------------------------------------
  // Rate limit
  // ---------------------------------------------------------------------

  ghost predicate PushOk(p: Push, start: nat, last: nat) {
    && p.window <= p.time <= p.window + SECOND && p.time <= last && p.window <= start
    && (p.window < start ==> p.window + SECOND < start && p.time <= start)
  }

  ghost predicate PairOk(p: Push, q: Push) {
    p.time <= q.time && (p.window == q.window || (p.window + SECOND < q.window && p.time <= q.window))
  }

  ghost predicate RateInv(c: Conn, last: nat) {
    && c.windowStart <= last && c.rateCount <= RATE_LIMIT && c.rateCount <= |c.pushes|
    && (forall i :: 0 <= i < |c.pushes| ==> PushOk(c.pushes[i], c.windowStart, last))
    && (forall i :: 0 <= i < |c.pushes| - c.rateCount ==> c.pushes[i].window < c.windowStart)
    && (forall i, j :: 0 <= i < j < |c.pushes| ==> PairOk(c.pushes[i], c.pushes[j]))
    && (forall i, j :: 0 <= i && i + RATE_LIMIT <= j < |c.pushes| ==> c.pushes[i].window < c.pushes[j].window)
  }

  lemma RewindKeepsRate(c: Conn, last: nat, now: nat)
    requires RateInv(c, last) && last <= now
    ensures var c' := Rewind(c, now);
            RateInv(c', now) && now <= c'.windowStart + SECOND && c'.pushes == c.pushes
  {
  }

  lemma CountKeepsRate(c: Conn, now: nat)
    requires RateInv(c, now) && now <= c.windowStart + SECOND && c.rateCount < RATE_LIMIT
    ensures RateInv(c.(rateCount := c.rateCount + 1, pushes := c.pushes + [Push(now, c.windowStart)]), now)
  {
    var p := Push(now, c.windowStart);
    var c' := c.(rateCount := c.rateCount + 1, pushes := c.pushes + [p]);
    forall i, j | 0 <= i < j < |c'.pushes| ensures PairOk(c'.pushes[i], c'.pushes[j]) {
      assert PushOk(c.pushes[i], c.windowStart, now);
      if j < |c.pushes| { assert PairOk(c.pushes[i], c.pushes[j]); }
    }
  }

  lemma HandleKeepsRate(env: Env, g: Shared, c: Conn, slot: nat, f: Frame, last: nat, now: nat, at: nat)
    requires |g.idem| == IDEM && RateInv(c, last) && last <= now
    ensures RateInv(Handle(env, g, c, slot, f, now, at).1, now)
  {
    RewindKeepsRate(c, last, now);
    var c1 := Rewind(c, now);
    if c1.rateCount < RATE_LIMIT { CountKeepsRate(c1, now); }
    assert RateInv(c, now);
  }

  /** The pushes of a connection that fall in the closed second starting at a. */
  ghost function Within(c: Conn, a: nat): set<nat> {
    set i: nat | i < |c.pushes| && a <= c.pushes[i].time <= a + SECOND
  }

  /** The rate windows in which those pushes were counted. */
  ghost function Windows(c: Conn, a: nat): set<nat> {
    set i | i in Within(c, a) :: c.pushes[i].window
  }

  /** Windows follow each other, and a window has RATE_LIMIT pushes at most. */
  lemma WindowsOrdered(c: Conn, last: nat, i: nat, j: nat)
    requires RateInv(c, last) && i <= j < |c.pushes|
    ensures c.pushes[i].window <= c.pushes[j].window
    ensures c.pushes[i].window == c.pushes[j].window ==> j < i + RATE_LIMIT
    ensures c.pushes[i].window < c.pushes[j].window ==> PairOk(c.pushes[i], c.pushes[j])
  {
    if i < j { assert PairOk(c.pushes[i], c.pushes[j]); }
  }

  /** Pushes of one window are at most RATE_LIMIT. */
  lemma OneWindow(c: Conn, last: nat, w: set<nat>, v: nat)
    requires RateInv(c, last) && forall i :: i in w ==> i < |c.pushes| && c.pushes[i].window == v
    ensures |w| <= RATE_LIMIT
  {
    if w != {} {
      var m := Least(w);
      forall x | x in w ensures m <= x < m + RATE_LIMIT { WindowsOrdered(c, last, m, x); }
      SubsetOfRange(w, m, RATE_LIMIT);
    }
  }

  /** Of the windows that touch a second, all but the first begin inside it, and so there is only one more. */
  lemma LaterWindows(c: Conn, last: nat, a: nat, i: nat, j: nat)
    requires RateInv(c, last) && i in Within(c, a) && j in Within(c, a) && c.pushes[i].window < c.pushes[j].window
    ensures i < j && a < c.pushes[j].window
    ensures forall k :: k in Within(c, a) ==> c.pushes[k].window in {c.pushes[i].window, c.pushes[j].window}
  {
    if j <= i { WindowsOrdered(c, last, j, i); }
    WindowsOrdered(c, last, i, j);
    assert PushOk(c.pushes[i], c.windowStart, last) && PushOk(c.pushes[j], c.windowStart, last);
    forall k | k in Within(c, a) ensures c.pushes[k].window in {c.pushes[i].window, c.pushes[j].window} {
      assert PushOk(c.pushes[k], c.windowStart, last);
      if k <= i { WindowsOrdered(c, last, k, i); } else { WindowsOrdered(c, last, i, k); }
      if k <= j { WindowsOrdered(c, last, k, j); } else { WindowsOrdered(c, last, j, k); }
    }
  }

  /** What one second can hold: RATE_LIMIT for each window that touches it, and two windows at most. */
  ghost predicate RateExact(c: Conn, a: nat) {
    && |Windows(c, a)| <= 2 && |Within(c, a)| <= RATE_LIMIT * |Windows(c, a)|
    && ((forall v :: v in Windows(c, a) ==> v <= a) ==> |Within(c, a)| <= RATE_LIMIT)
  }

  lemma SingleWindow(c: Conn, last: nat, a: nat, v: nat)
    requires RateInv(c, last) && Within(c, a) != {}
    requires forall k :: k in Within(c, a) ==> c.pushes[k].window == v
    ensures RateExact(c, a)
  {
    var m :| m in Within(c, a);
    assert Windows(c, a) == {v};
    OneWindow(c, last, Within(c, a), v);
  }

  lemma WindowPair(c: Conn, a: nat, i: nat, j: nat)
    requires i in Within(c, a) && j in Within(c, a) && c.pushes[i].window != c.pushes[j].window
    requires forall k :: k in Within(c, a) ==> c.pushes[k].window in {c.pushes[i].window, c.pushes[j].window}
    ensures Windows(c, a) == {c.pushes[i].window, c.pushes[j].window} && |Windows(c, a)| == 2
  {
  }

  /** The pushes of one window that the second holds. */
  ghost function InWindow(c: Conn, a: nat, v: nat): set<nat> {
    set k | k in Within(c, a) && c.pushes[k].window == v
  }

  lemma PairCovers(c: Conn, a: nat, v: nat, v': nat)
    requires forall k :: k in Within(c, a) ==> c.pushes[k].window in {v, v'}
    ensures Within(c, a) == InWindow(c, a, v) + InWindow(c, a, v')
  {
  }

  lemma InWindowBound(c: Conn, last: nat, a: nat, v: nat)
    requires RateInv(c, last)
    ensures |InWindow(c, a, v)| <= RATE_LIMIT
  {
    OneWindow(c, last, InWindow(c, a, v), v);
  }

  lemma WithinPair(c: Conn, last: nat, a: nat, v: nat, v': nat)
    requires RateInv(c, last) && forall k :: k in Within(c, a) ==> c.pushes[k].window in {v, v'}
    ensures |Within(c, a)| <= 2 * RATE_LIMIT
  {
    PairCovers(c, a, v, v');
    InWindowBound(c, last, a, v);
    InWindowBound(c, last, a, v');
    UnionSize(InWindow(c, a, v), InWindow(c, a, v'));
  }

  lemma TwoWindows(c: Conn, last: nat, a: nat, i: nat, j: nat)
    requires RateInv(c, last) && i in Within(c, a) && j in Within(c, a) && c.pushes[i].window < c.pushes[j].window
    ensures RateExact(c, a)
  {
    LaterWindows(c, last, a, i, j);
    WindowPair(c, a, i, j);
    WithinPair(c, last, a, c.pushes[i].window, c.pushes[j].window);
    assert c.pushes[j].window in Windows(c, a);
  }

  lemma RateBound(c: Conn, last: nat, a: nat)
    requires RateInv(c, last)
    ensures RateExact(c, a)
  {
    var w := Within(c, a);
    if w == {} {
      assert Windows(c, a) == {};
    } else {
      var m :| m in w;
      if j :| j in w && c.pushes[j].window != c.pushes[m].window {
        if c.pushes[m].window < c.pushes[j].window { TwoWindows(c, last, a, m, j); }
        else { TwoWindows(c, last, a, j, m); }
      } else {
        SingleWindow(c, last, a, c.pushes[m].window);
      }
    }
  }

  lemma Least(w: set<nat>) returns (m: nat)
    requires w != {}
    ensures m in w && forall x :: x in w ==> m <= x
  {
    var top :| top in w;
    m := 0;
    while m !in w
      invariant m <= top && forall x :: x in w ==> m <= x
      decreases top - m
    {
      m := m + 1;
    }
  }

  // ---------------------------------------------------------------------
  // Duplicate filter
  // ---------------------------------------------------------------------

  /** The latest recorded id that shares slot k; 0 if there is none. */
  ghost function Latest(recorded: seq<nat>, k: nat): nat {
    if recorded == [] then 0
    else if recorded[|recorded| - 1] % IDEM == k then recorded[|recorded| - 1]
    else Latest(recorded[..|recorded| - 1], k)
  }

  ghost predicate DropOk(recorded: seq<nat>, d: Drop) {
    d.id != 0 && d.after <= |recorded| && Latest(recorded[..d.after], d.id % IDEM) == d.id
  }

  ghost predicate FilterInv(g: Shared) {
    && |g.idem| == IDEM
    && (forall k: nat :: k < IDEM ==> g.idem[k] == Latest(g.recorded, k))
    && (forall i :: 0 <= i < |g.recorded| ==>
          g.recorded[i] != 0 && Latest(g.recorded[..i], g.recorded[i] % IDEM) != g.recorded[i])
    && (forall i :: 0 <= i < |g.dropped| ==> DropOk(g.recorded, g.dropped[i]))
  }

  lemma DropsStay(recorded: seq<nat>, id: nat, d: Drop)
    requires DropOk(recorded, d)
    ensures DropOk(recorded + [id], d)
  {
    assert (recorded + [id])[..d.after] == recorded[..d.after];
  }

  lemma RecordsStay(recorded: seq<nat>, id: nat)
    requires id != 0 && Latest(recorded, id % IDEM) != id
    requires forall i :: 0 <= i < |recorded| ==>
               recorded[i] != 0 && Latest(recorded[..i], recorded[i] % IDEM) != recorded[i]
    ensures var r := recorded + [id];
            forall i :: 0 <= i < |r| ==> r[i] != 0 && Latest(r[..i], r[i] % IDEM) != r[i]
  {
    var r := recorded + [id];
    forall i | 0 <= i < |r| ensures r[i] != 0 && Latest(r[..i], r[i] % IDEM) != r[i] {
      if i < |recorded| { assert r[..i] == recorded[..i]; } else { assert r[..i] == recorded; }
    }
  }

  lemma LatestSnoc(recorded: seq<nat>, id: nat, k: nat)
    ensures Latest(recorded + [id], k) == if id % IDEM == k then id else Latest(recorded, k)
  {
    assert (recorded + [id])[..|recorded|] == recorded;
  }

  lemma RecordKeepsFilter(g: Shared, id: nat)
    requires FilterInv(g) && id != 0 && g.idem[id % IDEM] != id
    ensures FilterInv(g.(idem := g.idem[id % IDEM := id], recorded := g.recorded + [id]))
  {
    RecordsStay(g.recorded, id);
    forall i | 0 <= i < |g.dropped| ensures DropOk(g.recorded + [id], g.dropped[i]) {
      DropsStay(g.recorded, id, g.dropped[i]);
    }
    forall k: nat | k < IDEM ensures g.idem[id % IDEM := id][k] == Latest(g.recorded + [id], k) {
      LatestSnoc(g.recorded, id, k);
    }
  }

  lemma DropKeepsFilter(g: Shared, id: nat)
    requires FilterInv(g) && id != 0 && g.idem[id % IDEM] == id
    ensures FilterInv(g.(dropped := g.dropped + [Drop(id, |g.recorded|)]))
  {
    assert g.recorded[..|g.recorded|] == g.recorded;
    assert DropOk(g.recorded, Drop(id, |g.recorded|));
  }

  lemma HandleKeepsFilter(env: Env, g: Shared, c: Conn, slot: nat, f: Frame, now: nat, at: nat)
    requires FilterInv(g)
    ensures FilterInv(Handle(env, g, c, slot, f, now, at).0)
  {
    if c.authenticated && (f.kind == 79 || f.kind == 66) && ParseOrder(env, f).Accepted? {
      var id := ParseOrder(env, f).request.id;
      if id != 0 {
        if g.idem[id % IDEM] == id { DropKeepsFilter(g, id); } else { RecordKeepsFilter(g, id); }
      }
    }
  }

  lemma {:induction false} LatestIs(recorded: seq<nat>, k: nat)
    ensures Latest(recorded, k) != 0 ==> Latest(recorded, k) in recorded
    decreases |recorded|
  {
    if recorded != [] { LatestIs(recorded[..|recorded| - 1], k); }
  }

  /** Position of the latest id in slot k, given that position i already holds one. */
  lemma {:induction false} LatestAfter(recorded: seq<nat>, k: nat, i: nat) returns (j: nat)
    requires i < |recorded| && recorded[i] % IDEM == k
    ensures i <= j < |recorded| && recorded[j] % IDEM == k && Latest(recorded, k) == recorded[j]
    decreases |recorded|
  {
    var n := |recorded| - 1;
    if recorded[n] % IDEM == k {
      j := n;
    } else {
      j := LatestAfter(recorded[..n], k, i);
    }
  }

  /** A dropped id was recorded before. */
  lemma DropWasRecorded(g: Shared, i: nat)
    requires FilterInv(g) && i < |g.dropped|
    ensures g.dropped[i].after <= |g.recorded| && g.dropped[i].id in g.recorded[..g.dropped[i].after]
  {
    assert DropOk(g.recorded, g.dropped[i]);
    LatestIs(g.recorded[..g.dropped[i].after], g.dropped[i].id % IDEM);
  }

  /** Between two records of one id a different id of the same slot was recorded. */
  lemma RepeatNeedsCollision(g: Shared, i: nat, j: nat)
    requires FilterInv(g) && i < j < |g.recorded| && g.recorded[i] == g.recorded[j]
    ensures exists k :: i < k < j && g.recorded[k] != g.recorded[i] && g.recorded[k] % IDEM == g.recorded[i] % IDEM
  {
    var k := LatestAfter(g.recorded[..j], g.recorded[i] % IDEM, i);
    assert Latest(g.recorded[..j], g.recorded[j] % IDEM) != g.recorded[j];
    assert g.recorded[..j][k] == g.recorded[k];
  }

  /**
   Exactly when a non-zero id is dropped: within the rate limit, the latest recorded id of its slot is
   itself. A different id in the slot never causes a drop; it makes the filter forget.
   */
  lemma DropExactly(g: Shared, c: Conn, slot: nat, req: Request, now: nat, at: nat)
    requires FilterInv(g) && req.id != 0 && Rewind(c, now).rateCount < RATE_LIMIT
    ensures var g' := PushOrder(g, c, slot, req, now, at).0;
            && (g'.out == g.out <==> Latest(g.recorded, req.id % IDEM) == req.id)
            && (g'.out != g.out ==> g'.recorded == g.recorded + [req.id])
  {
  }

  // ---------------------------------------------------------------------
  // Every run
  // ---------------------------------------------------------------------

  ghost predicate Inv(env: Env, s: State) {
    && FilterInv(s.shared) && Gate(env, s)
    && forall i :: 0 <= i < |s.conns| && s.conns[i].open ==> RateInv(s.conns[i], s.last)
  }

  lemma InitInv(env: Env, n: nat)
    ensures Inv(env, Init(n))
  {
  }

  lemma RateLater(c: Conn, last: nat, now: nat)
    requires RateInv(c, last) && last <= now
    ensures RateInv(c, now)
  {
  }

  lemma StepKeepsInv(env: Env, s: State, e: Event)
    requires Inv(env, s) && Enabled(s, e)
    ensures Inv(env, Step(env, s, e))
  {
    var s' := Step(env, s, e);
    StepKeepsGate(env, s, e);
    if e.Arrive? {
      HandleKeepsFilter(env, s.shared, s.conns[e.slot], e.slot, e.frame, e.now, |s.log|);
      HandleOffers(env, s.shared, s.conns[e.slot], e.slot, e.frame, e.now, |s.log|);
    }
    forall i | 0 <= i < |s'.conns| && s'.conns[i].open ensures RateInv(s'.conns[i], s'.last) {
      if i != e.slot {
        RateLater(s.conns[i], s.last, s'.last);
      } else if e.Arrive? {
        HandleKeepsRate(env, s.shared, s.conns[i], i, e.frame, s.last, e.now, |s.log|);
      }
    }
  }

  ghost predicate IsRun(env: Env, s: State, run: seq<Event>)
    requires |s.shared.idem| == IDEM
    decreases |run|
  {
    run != [] ==> Enabled(s, run[0]) && IsRun(env, Step(env, s, run[0]), run[1..])
  }

  ghost function Final(env: Env, s: State, run: seq<Event>): (r: State)
    requires |s.shared.idem| == IDEM && IsRun(env, s, run)
    ensures |r.shared.idem| == IDEM
    decreases |run|
  {
    if run == [] then s else Final(env, Step(env, s, run[0]), run[1..])
  }

  lemma {:induction false} RunKeepsInv(env: Env, s: State, run: seq<Event>)
    requires Inv(env, s) && IsRun(env, s, run)
    ensures Inv(env, Final(env, s, run))
    decreases |run|
  {
    if run != [] {
      StepKeepsInv(env, s, run[0]);
      RunKeepsInv(env, Step(env, s, run[0]), run[1..]);
    }
  }

  lemma {:induction false} RunIsLogged(env: Env, s: State, run: seq<Event>)
    requires |s.shared.idem| == IDEM && IsRun(env, s, run)
    ensures Final(env, s, run).log == s.log + run
    decreases |run|
  {
    if run != [] {
      var s' := Step(env, s, run[0]);
      RunIsLogged(env, s', run[1..]);
      LogStep(s.log, run, s'.log);
    }
  }

  lemma LogStep(log: seq<Event>, run: seq<Event>, log': seq<Event>)
    requires run != [] && log' == log + [run[0]]
    ensures log' + run[1..] == log + run
  {
  }

  lemma {:induction false} RunSnoc(env: Env, s: State, run: seq<Event>, e: Event)
    requires |s.shared.idem| == IDEM && IsRun(env, s, run) && Enabled(Final(env, s, run), e)
    ensures IsRun(env, s, run + [e]) && Final(env, s, run + [e]) == Step(env, Final(env, s, run), e)
    decreases |run|
  {
    if run == [] {
      assert run + [e] == [e];
    } else {
      assert (run + [e])[1..] == run[1..] + [e];
      RunSnoc(env, Step(env, s, run[0]), run[1..], e);
    }
  }

  /** Every offer of every run comes from a connection that validated a key since its own accept. */
  lemma AuthenticationGate(env: Env, n: nat, run: seq<Event>)
    requires IsRun(env, Init(n), run)
    ensures forall o :: o in Final(env, Init(n), run).shared.out ==>
              && o.at < |run| && run[o.at].Arrive? && run[o.at].slot == o.slot
              && exists a: nat, j: nat ::
                   a < j < o.at && LifeFrom(run, o.at, o.slot, a) && ValidKey(env, run, j, o.slot)
  {
    var s := Final(env, Init(n), run);
    InitInv(env, n);
    RunKeepsInv(env, Init(n), run);
    RunIsLogged(env, Init(n), run);
    assert s.log == run;
    forall o | o in s.shared.out ensures OfferGated(env, run, o) {
      OutGated(env, s, o);
    }
  }

  lemma OutGated(env: Env, s: State, o: Offer)
    requires Gate(env, s) && o in s.shared.out
    ensures OfferGated(env, s.log, o)
  {
    var i :| 0 <= i < |s.shared.out| && s.shared.out[i] == o;
    assert OfferGated(env, s.log, s.shared.out[i]);
  }

  /** The same event n times. */
  function Times(e: Event, n: nat): seq<Event> {
    seq(n, _ => e)
  }

  lemma {:induction false} RunAppend(env: Env, s: State, run: seq<Event>, more: seq<Event>)
    requires |s.shared.idem| == IDEM && IsRun(env, s, run) && IsRun(env, Final(env, s, run), more)
    ensures IsRun(env, s, run + more) && Final(env, s, run + more) == Final(env, Final(env, s, run), more)
    decreases |run|
  {
    if run == [] {
      assert run + more == more;
    } else {
      assert (run + more)[0] == run[0] && (run + more)[1..] == run[1..] + more;
      RunAppend(env, Step(env, s, run[0]), run[1..], more);
    }
  }

  /** An order without a request id, sent on an open authenticated connection. */
  ghost predicate FreshOrder(env: Env, s: State, slot: nat, f: Frame) {
    && slot < |s.conns| && s.conns[slot].open && s.conns[slot].authenticated
    && (f.kind == 79 || f.kind == 66) && ParseOrder(env, f).Accepted? && ParseOrder(env, f).request.id == 0
  }

  /** Below the limit it is pushed and counted in the window that is current at now. */
  lemma OrderCounts(env: Env, s: State, slot: nat, f: Frame, now: nat)
    requires |s.shared.idem| == IDEM && FreshOrder(env, s, slot, f) && s.last <= now
    requires Rewind(s.conns[slot], now).rateCount < RATE_LIMIT
    ensures Enabled(s, Arrive(slot, f, now))
    ensures var s' := Step(env, s, Arrive(slot, f, now));
            var c := Rewind(s.conns[slot], now);
            && FreshOrder(env, s', slot, f) && s'.last == now
            && s'.conns[slot] == c.(rateCount := c.rateCount + 1, pushes := c.pushes + [Push(now, c.windowStart)])
  {
  }

  /** A burst of n orders inside one window and within its limit is pushed completely. */
  lemma {:induction false} BurstCounts(env: Env, s: State, slot: nat, f: Frame, now: nat, n: nat)
    requires |s.shared.idem| == IDEM && FreshOrder(env, s, slot, f) && s.last <= now
    requires var c := s.conns[slot];
             c.windowStart <= now <= c.windowStart + SECOND && c.rateCount + n <= RATE_LIMIT
    ensures IsRun(env, s, Times(Arrive(slot, f, now), n))
    ensures var s' := Final(env, s, Times(Arrive(slot, f, now), n));
            && FreshOrder(env, s', slot, f) && s'.last <= now
            && Added(s.conns[slot], s'.conns[slot], now, n)
    decreases n
  {
    var e := Arrive(slot, f, now);
    if n > 0 {
      OrderCounts(env, s, slot, f, now);
      var s1 := Step(env, s, e);
      BurstCounts(env, s1, slot, f, now, n - 1);
      assert Times(e, n)[0] == e && Times(e, n)[1..] == Times(e, n - 1);
    }
  }

  /** n pushes at now were added and counted, in the same window. */
  ghost predicate Added(c: Conn, c': Conn, now: nat, n: nat) {
    && c'.windowStart == c.windowStart && c'.rateCount == c.rateCount + n
    && |c'.pushes| == |c.pushes| + n && c.pushes <= c'.pushes
    && forall i :: |c.pushes| <= i < |c'.pushes| ==> c'.pushes[i].time == now
  }

  /** Accept at 0, a valid key, a full burst at the last instant of the first window, another one a nanosecond later. */
  function DoubleRun(key: Frame, f: Frame): seq<Event> {
    [Accept(0, 0)] + [Arrive(0, key, 0)] + Times(Arrive(0, f, SECOND), RATE_LIMIT)
      + Times(Arrive(0, f, SECOND + 1), RATE_LIMIT)
  }

  /** The connection is open and authenticated in its first window. */
  lemma Login(env: Env, n: nat, key: Frame, f: Frame)
    requires n > 0 && key.kind == 65 && env.valid(key.payload)
    requires (f.kind == 79 || f.kind == 66) && ParseOrder(env, f).Accepted? && ParseOrder(env, f).request.id == 0
    ensures IsRun(env, Init(n), [Accept(0, 0)] + [Arrive(0, key, 0)])
    ensures var s := Final(env, Init(n), [Accept(0, 0)] + [Arrive(0, key, 0)]);
            FreshOrder(env, s, 0, f) && s.last == 0 && s.conns[0] == Conn(true, true, 0, 0, [])
  {
    var s0 := Init(n);
    assert IsRun(env, s0, []) && Final(env, s0, []) == s0;
    RunSnoc(env, s0, [], Accept(0, 0));
    assert [] + [Accept(0, 0)] == [Accept(0, 0)];
    RunSnoc(env, s0, [Accept(0, 0)], Arrive(0, key, 0));
  }

  /** The second burst opens a window of its own. */
  lemma SecondBurst(env: Env, s: State, f: Frame)
    requires |s.shared.idem| == IDEM && FreshOrder(env, s, 0, f) && s.last <= SECOND && s.conns[0].windowStart == 0
    ensures IsRun(env, s, Times(Arrive(0, f, SECOND + 1), RATE_LIMIT))
    ensures var s' := Final(env, s, Times(Arrive(0, f, SECOND + 1), RATE_LIMIT));
            && |s'.conns| > 0 && s'.conns[0].open
            && |s'.conns[0].pushes| == |s.conns[0].pushes| + RATE_LIMIT && s.conns[0].pushes <= s'.conns[0].pushes
            && forall i :: |s.conns[0].pushes| <= i < |s'.conns[0].pushes| ==> s'.conns[0].pushes[i].time == SECOND + 1
  {
    var e := Arrive(0, f, SECOND + 1);
    OrderCounts(env, s, 0, f, SECOND + 1);
    var s1 := Step(env, s, e);
    BurstCounts(env, s1, 0, f, SECOND + 1, RATE_LIMIT - 1);
    var run := Times(e, RATE_LIMIT);
    assert run[0] == e && run[1..] == Times(e, RATE_LIMIT - 1);
  }

  /** So the bound of twice the limit in a second is reached, by a run from the start. */
  lemma DoubleBurst(env: Env, n: nat, key: Frame, f: Frame)
    requires n > 0 && key.kind == 65 && env.valid(key.payload)
    requires (f.kind == 79 || f.kind == 66) && ParseOrder(env, f).Accepted? && ParseOrder(env, f).request.id == 0
    ensures IsRun(env, Init(n), DoubleRun(key, f))
    ensures var s := Final(env, Init(n), DoubleRun(key, f));
            |s.conns| > 0 && s.conns[0].open && |Within(s.conns[0], SECOND)| == 2 * RATE_LIMIT
  {
    var s0, r1 := Init(n), [Accept(0, 0)] + [Arrive(0, key, 0)];
    Login(env, n, key, f);
    var s1 := Final(env, s0, r1);
    var b1, b2 := Times(Arrive(0, f, SECOND), RATE_LIMIT), Times(Arrive(0, f, SECOND + 1), RATE_LIMIT);
    BurstCounts(env, s1, 0, f, SECOND, RATE_LIMIT);
    var s2 := Final(env, s1, b1);
    SecondBurst(env, s2, f);
    RunAppend(env, s0, r1, b1);
    RunAppend(env, s0, r1 + b1, b2);
    var c := Final(env, s2, b2).conns[0];
    forall i | 0 <= i < |c.pushes| ensures SECOND <= c.pushes[i].time <= SECOND + 1 {
      if i < RATE_LIMIT { assert c.pushes[i] == s2.conns[0].pushes[i]; }
    }
    RangeSize(Within(c, SECOND), 2 * RATE_LIMIT);
  }

  /** The duplicate filter over every run. */
  lemma DuplicateFilter(env: Env, n: nat, run: seq<Event>)
    requires IsRun(env, Init(n), run)
    ensures var g := Final(env, Init(n), run).shared;
            && (forall i :: 0 <= i < |g.dropped| ==>
                  g.dropped[i].after <= |g.recorded| && g.dropped[i].id in g.recorded[..g.dropped[i].after])
            && (forall i, j :: 0 <= i < j < |g.recorded| && g.recorded[i] == g.recorded[j] ==>
                  exists k :: i < k < j && g.recorded[k] != g.recorded[i]
                              && g.recorded[k] % IDEM == g.recorded[i] % IDEM)
  {
    var g := Final(env, Init(n), run).shared;
    InitInv(env, n);
    RunKeepsInv(env, Init(n), run);
    forall i | 0 <= i < |g.dropped|
      ensures g.dropped[i].after <= |g.recorded| && g.dropped[i].id in g.recorded[..g.dropped[i].after]
    {
      DropWasRecorded(g, i);
    }
    forall i, j | 0 <= i < j < |g.recorded| && g.recorded[i] == g.recorded[j]
      ensures exists k :: i < k < j && g.recorded[k] != g.recorded[i] && g.recorded[k] % IDEM == g.recorded[i] % IDEM
    {
      RepeatNeedsCollision(g, i, j);
    }
  }
}
