/**
 What the gateway hands over, read off the events alone. Authentication, rate window, orders counted in it and the
 latest request id of a slot are defined on the log of accepts, frames and closes; the machine of GatewayCore is
 shown to offer exactly the messages these definitions say, in every run.
 */
module GatewayOffers {
  import opened Bits
  import opened Framing
  import opened OrderText
  import opened GatewayCore

  // ---------------------------------------------------------------------
  // What the log says
  // ---------------------------------------------------------------------

  /** The order in a frame: a binary one of type 'B', a text one of type 'O'. */
  function Reads(env: Env, f: Frame): Parsed {
    if f.kind == 66 then env.binary(f.payload) else if f.kind == 79 then Parse(f.payload, env.price) else Rejected
  }

  predicate IsOrder(env: Env, f: Frame) {
    Reads(env, f).Accepted?
  }

  /** The connection on the slot has sent a valid key since its accept. */
  ghost predicate AuthOf(env: Env, log: seq<Event>, slot: nat)
    decreases |log|
  {
    log != []
    && var n := |log| - 1;
       if log[n].slot != slot then AuthOf(env, log[..n], slot)
       else
         match log[n]
         case Accept(_, _) => false
         case Close(_) => false
         case Arrive(_, f, _) => AuthOf(env, log[..n], slot) || (f.kind == 65 && env.valid(f.payload))
  }

  /**
   When the rate window of the connection on the slot began: at the accept, or at the first order of an
   authenticated connection more than a second after the beginning of the window before.
   */
  ghost function WindowOf(env: Env, log: seq<Event>, slot: nat): nat
    decreases |log|
  {
    if log == [] then 0
    else
      var n := |log| - 1;
      var was := WindowOf(env, log[..n], slot);
      if log[n].slot != slot then was
      else
        match log[n]
        case Accept(_, now) => now
        case Close(_) => was
        case Arrive(_, f, now) =>
          if AuthOf(env, log[..n], slot) && IsOrder(env, f) && Sub64(now, was) > SECOND then now else was
  }

  /** The number of events up to the latest accept on the slot. */
  ghost function Since(log: seq<Event>, slot: nat): (n: nat)
    ensures n <= |log|
    decreases |log|
  {
    if log == [] then 0
    else if log[|log| - 1].Accept? && log[|log| - 1].slot == slot then |log|
    else Since(log[..|log| - 1], slot)
  }

  /** The orders offered for the slot by the events from since on. */
  ghost function OrdersOf(out: seq<Offer>, slot: nat, since: nat): seq<Offer>
    decreases |out|
  {
    if out == [] then []
    else
      var o := out[|out| - 1];
      OrdersOf(out[..|out| - 1], slot, since) + if o.slot == slot && o.msg.NewOrder? && o.at >= since then [o] else []
  }

  /** Those whose event came in the closed second from a on. */
  ghost function InSecond(log: seq<Event>, os: seq<Offer>, a: nat): seq<Offer>
    decreases |os|
  {
    if os == [] then []
    else InSecond(log, os[..|os| - 1], a) + if At(log, os[|os| - 1], a) then [os[|os| - 1]] else []
  }

  ghost predicate At(log: seq<Event>, o: Offer, a: nat) {
    o.at < |log| && log[o.at].Arrive? && a <= log[o.at].now <= a + SECOND
  }

  /** Those that were counted in the window that began at w. */
  ghost function InWindow(env: Env, log: seq<Event>, os: seq<Offer>, w: nat): seq<Offer>
    decreases |os|
  {
    if os == [] then []
    else
      var o := os[|os| - 1];
      InWindow(env, log, os[..|os| - 1], w)
        + if o.at < |log| && WindowOf(env, log[..o.at + 1], o.slot) == w then [o] else []
  }

  /** The request ids of the orders offered, in order. */
  ghost function Ids(out: seq<Offer>): seq<nat>
    decreases |out|
  {
    if out == [] then []
    else
      var m := out[|out| - 1].msg;
      Ids(out[..|out| - 1]) + if m.NewOrder? && m.request.id != 0 then [m.request.id] else []
  }

  /** What a frame that arrives after the events of the log and the offers so far has to lead to. */
  ghost function Due(env: Env, log: seq<Event>, out: seq<Offer>, slot: nat, f: Frame, now: nat): seq<Offer> {
    if !AuthOf(env, log, slot) then []
    else if IsOrder(env, f) then
      var req := Reads(env, f).request;
      var w := WindowOf(env, log + [Arrive(slot, f, now)], slot);
      if |InWindow(env, log, OrdersOf(out, slot, Since(log, slot)), w)| < RATE_LIMIT
         && (req.id == 0 || Latest(Ids(out), req.id % IDEM) != req.id)
      then [Offer(slot, NewOrder(req), |log|)] else []
    else if f.kind == 67 && |f.payload| >= 32 then
      [Offer(slot, Cancel(f.payload[..8], f.payload[8..16], f.payload[16..32]), |log|)]
    else []
  }

  /** Everything a run has to offer. */
  ghost function Offers(env: Env, run: seq<Event>): seq<Offer>
    decreases |run|
  {
    if run == [] then []
    else
      var n := |run| - 1;
      var out := Offers(env, run[..n]);
      if run[n].Arrive? then out + Due(env, run[..n], out, run[n].slot, run[n].frame, run[n].now) else out
  }

  // ---------------------------------------------------------------------
  // The machine agrees
  // ---------------------------------------------------------------------

  /** The order k offered is the push k of the history: same clock, same window. */
  ghost predicate PairTied(env: Env, log: seq<Event>, slot: nat, o: Offer, p: Push) {
    && o.slot == slot && o.at < |log| && log[o.at].Arrive? && log[o.at].now == p.time
    && WindowOf(env, log[..o.at + 1], slot) == p.window
  }

  ghost predicate Paired(env: Env, log: seq<Event>, slot: nat, os: seq<Offer>, ps: seq<Push>) {
    |os| == |ps| && forall k :: 0 <= k < |os| ==> PairTied(env, log, slot, os[k], ps[k])
  }

  /** The last rateCount pushes are those of the current window. */
  ghost predicate Counted(c: Conn) {
    && c.rateCount <= |c.pushes|
    && forall k :: |c.pushes| - c.rateCount <= k < |c.pushes| ==> c.pushes[k].window == c.windowStart
  }

  ghost predicate ConnTied(env: Env, log: seq<Event>, out: seq<Offer>, slot: nat, c: Conn) {
    && c.authenticated == AuthOf(env, log, slot) && c.windowStart == WindowOf(env, log, slot) && Counted(c)
    && Paired(env, log, slot, OrdersOf(out, slot, Since(log, slot)), c.pushes)
  }

  ghost predicate Tied(env: Env, s: State) {
    && (forall i :: 0 <= i < |s.conns| && s.conns[i].open ==> ConnTied(env, s.log, s.shared.out, i, s.conns[i]))
    && s.shared.recorded == Ids(s.shared.out)
    && (forall k :: 0 <= k < |s.shared.out| ==> s.shared.out[k].at < |s.log|)
  }

  /** An event of another slot says nothing about this one. */
  lemma OtherSlot(env: Env, log: seq<Event>, e: Event, i: nat)
    requires e.slot != i
    ensures AuthOf(env, log + [e], i) == AuthOf(env, log, i)
    ensures WindowOf(env, log + [e], i) == WindowOf(env, log, i)
    ensures Since(log + [e], i) == Since(log, i)
  {
    assert (log + [e])[..|log|] == log;
  }

  lemma OwnFrame(env: Env, log: seq<Event>, slot: nat, f: Frame, now: nat)
    ensures var log' := log + [Arrive(slot, f, now)];
            && AuthOf(env, log', slot) == (AuthOf(env, log, slot) || (f.kind == 65 && env.valid(f.payload)))
            && Since(log', slot) == Since(log, slot)
            && WindowOf(env, log', slot) ==
               (var was := WindowOf(env, log, slot);
                if AuthOf(env, log, slot) && IsOrder(env, f) && Sub64(now, was) > SECOND then now else was)
  {
    assert (log + [Arrive(slot, f, now)])[..|log|] == log;
  }

  lemma OrdersSnoc(out: seq<Offer>, o: Offer, slot: nat, since: nat)
    ensures OrdersOf(out + [o], slot, since) ==
            OrdersOf(out, slot, since) + if o.slot == slot && o.msg.NewOrder? && o.at >= since then [o] else []
  {
    assert (out + [o])[..|out|] == out;
  }

  lemma IdsSnoc(out: seq<Offer>, o: Offer)
    ensures Ids(out + [o]) ==
            Ids(out) + if o.msg.NewOrder? && o.msg.request.id != 0 then [o.msg.request.id] else []
  {
    assert (out + [o])[..|out|] == out;
  }

  lemma {:induction false} NoOrdersYet(out: seq<Offer>, slot: nat, since: nat)
    requires forall k :: 0 <= k < |out| ==> out[k].at < since
    ensures OrdersOf(out, slot, since) == []
    decreases |out|
  {
    if out != [] { NoOrdersYet(out[..|out| - 1], slot, since); }
  }

  lemma PairedGrows(env: Env, log: seq<Event>, e: Event, slot: nat, os: seq<Offer>, ps: seq<Push>)
    requires Paired(env, log, slot, os, ps)
    ensures Paired(env, log + [e], slot, os, ps)
  {
    forall k | 0 <= k < |os| ensures PairTied(env, log + [e], slot, os[k], ps[k]) {
      assert PairTied(env, log, slot, os[k], ps[k]);
      assert (log + [e])[..os[k].at + 1] == log[..os[k].at + 1];
    }
  }

  lemma PairedSnoc(env: Env, log: seq<Event>, slot: nat, os: seq<Offer>, ps: seq<Push>, o: Offer, p: Push)
    requires Paired(env, log, slot, os, ps) && PairTied(env, log, slot, o, p)
    ensures Paired(env, log, slot, os + [o], ps + [p])
  {
    forall k | 0 <= k < |os| + 1 ensures PairTied(env, log, slot, (os + [o])[k], (ps + [p])[k]) {
      if k < |os| { assert PairTied(env, log, slot, os[k], ps[k]); }
    }
  }

  /** Another connection's event leaves a connection as it was. */
  lemma OthersTied(env: Env, log: seq<Event>, out: seq<Offer>, i: nat, c: Conn, e: Event, made: seq<Offer>)
    requires ConnTied(env, log, out, i, c) && e.slot != i
    requires made == [] || (|made| == 1 && made[0].slot != i)
    ensures ConnTied(env, log + [e], out + made, i, c)
  {
    OtherSlot(env, log, e, i);
    var os := OrdersOf(out, i, Since(log, i));
    PairedGrows(env, log, e, i, os, c.pushes);
    if made == [] {
      assert out + made == out;
    } else {
      assert out + made == out + [made[0]];
      OrdersSnoc(out, made[0], i, Since(log, i));
      assert os + [] == os;
    }
  }

  // ---------------------------------------------------------------------
  // The rate count is the number of orders in the window
  // ---------------------------------------------------------------------

  /** How many pushes were counted in window w. */
  ghost function PushesIn(ps: seq<Push>, w: nat): nat
    decreases |ps|
  {
    if ps == [] then 0 else PushesIn(ps[..|ps| - 1], w) + if ps[|ps| - 1].window == w then 1 else 0
  }

  lemma {:induction false} WindowSize(env: Env, log: seq<Event>, slot: nat, os: seq<Offer>, ps: seq<Push>, w: nat)
    requires Paired(env, log, slot, os, ps)
    ensures |InWindow(env, log, os, w)| == PushesIn(ps, w)
    decreases |os|
  {
    if os != [] {
      var n := |os| - 1;
      assert PairTied(env, log, slot, os[n], ps[n]);
      assert Paired(env, log, slot, os[..n], ps[..n]);
      WindowSize(env, log, slot, os[..n], ps[..n], w);
    }
  }

  lemma {:induction false} NoneIn(ps: seq<Push>, w: nat)
    requires forall k :: 0 <= k < |ps| ==> ps[k].window != w
    ensures PushesIn(ps, w) == 0
    decreases |ps|
  {
    if ps != [] { NoneIn(ps[..|ps| - 1], w); }
  }

  lemma {:induction false} LastIn(ps: seq<Push>, r: nat, w: nat)
    requires r <= |ps|
    requires forall k :: 0 <= k < |ps| - r ==> ps[k].window != w
    requires forall k :: |ps| - r <= k < |ps| ==> ps[k].window == w
    ensures PushesIn(ps, w) == r
    decreases |ps|
  {
    if r == 0 { NoneIn(ps, w); } else { LastIn(ps[..|ps| - 1], r - 1, w); }
  }

  /** After the window test, rateCount counts the orders offered in the window then current. */
  lemma RateCounts(env: Env, log: seq<Event>, out: seq<Offer>, slot: nat, c: Conn, last: nat, f: Frame, now: nat)
    requires ConnTied(env, log, out, slot, c) && RateInv(c, last) && last <= now
    requires c.authenticated && IsOrder(env, f)
    ensures var c1 := Rewind(c, now);
            && c1.windowStart == WindowOf(env, log + [Arrive(slot, f, now)], slot) && Counted(c1)
            && c1.rateCount == |InWindow(env, log, OrdersOf(out, slot, Since(log, slot)), c1.windowStart)|
  {
    OwnFrame(env, log, slot, f, now);
    var c1 := Rewind(c, now);
    WindowSize(env, log, slot, OrdersOf(out, slot, Since(log, slot)), c.pushes, c1.windowStart);
    forall k | 0 <= k < |c.pushes| ensures c.pushes[k].window <= c.windowStart {
      assert PushOk(c.pushes[k], c.windowStart, last);
    }
    LastIn(c1.pushes, c1.rateCount, c1.windowStart);
  }

  // ---------------------------------------------------------------------
  // One frame
  // ---------------------------------------------------------------------

  /** Whether a parsed order is offered. */
  ghost predicate Passes(g: Shared, c: Conn, req: Request, now: nat)
    requires |g.idem| == IDEM
  {
    Rewind(c, now).rateCount < RATE_LIMIT && (req.id == 0 || g.idem[req.id % IDEM] != req.id)
  }

  /** What gw_push_order does, by that. */
  lemma PushEffect(g: Shared, c: Conn, slot: nat, req: Request, now: nat, at: nat)
    requires |g.idem| == IDEM
    ensures var (g', c') := PushOrder(g, c, slot, req, now, at);
            var c1 := Rewind(c, now);
            if Passes(g, c, req, now) then
              && g'.out == g.out + [Offer(slot, NewOrder(req), at)]
              && g'.recorded == g.recorded + (if req.id != 0 then [req.id] else [])
              && c' == c1.(rateCount := c1.rateCount + 1, pushes := c1.pushes + [Push(now, c1.windowStart)])
            else g'.out == g.out && g'.recorded == g.recorded && c' == c1
  {
    assert g.recorded + [] == g.recorded;
  }

  lemma PassesIsDue(env: Env, g: Shared, c: Conn, log: seq<Event>, slot: nat, f: Frame, last: nat, now: nat)
    requires FilterInv(g) && ConnTied(env, log, g.out, slot, c) && RateInv(c, last) && last <= now
    requires g.recorded == Ids(g.out) && c.authenticated && IsOrder(env, f)
    ensures var req := Reads(env, f).request;
            Due(env, log, g.out, slot, f, now) ==
            if Passes(g, c, req, now) then [Offer(slot, NewOrder(req), |log|)] else []
  {
    RateCounts(env, log, g.out, slot, c, last, f, now);
    var id := Reads(env, f).request.id;
    assert g.idem[id % IDEM] == Latest(g.recorded, id % IDEM);
  }

  /** The connection after a parsed order that is not offered. */
  lemma KeptConn(env: Env, log: seq<Event>, out: seq<Offer>, slot: nat, c: Conn, f: Frame, last: nat, now: nat)
    requires ConnTied(env, log, out, slot, c) && RateInv(c, last) && last <= now && c.authenticated && IsOrder(env, f)
    ensures ConnTied(env, log + [Arrive(slot, f, now)], out, slot, Rewind(c, now))
  {
    RateCounts(env, log, out, slot, c, last, f, now);
    OwnFrame(env, log, slot, f, now);
    PairedGrows(env, log, Arrive(slot, f, now), slot, OrdersOf(out, slot, Since(log, slot)), c.pushes);
  }

  /** ... and of one that is. */
  lemma PushedConn(env: Env, log: seq<Event>, out: seq<Offer>, slot: nat, c: Conn, e: Event, o: Offer)
    requires e.Arrive? && e.slot == slot && ConnTied(env, log + [e], out, slot, c)
    requires o.slot == slot && o.msg.NewOrder? && o.at == |log|
    ensures ConnTied(env, log + [e], out + [o], slot,
                     c.(rateCount := c.rateCount + 1, pushes := c.pushes + [Push(e.now, c.windowStart)]))
  {
    var log' := log + [e];
    var since := Since(log', slot);
    assert log'[..|log|] == log && log'[..|log| + 1] == log';
    OrdersSnoc(out, o, slot, since);
    PairedSnoc(env, log', slot, OrdersOf(out, slot, since), c.pushes, o, Push(e.now, c.windowStart));
  }

  lemma HandleIsPush(env: Env, g: Shared, c: Conn, slot: nat, f: Frame, now: nat, at: nat)
    requires |g.idem| == IDEM && c.authenticated && IsOrder(env, f)
    ensures Handle(env, g, c, slot, f, now, at) == PushOrder(g, c, slot, Reads(env, f).request, now, at)
  {
  }

  lemma PassedTied(env: Env, g: Shared, c: Conn, log: seq<Event>, slot: nat, f: Frame, last: nat, now: nat)
    requires FilterInv(g) && ConnTied(env, log, g.out, slot, c) && RateInv(c, last) && last <= now
    requires g.recorded == Ids(g.out) && c.authenticated && IsOrder(env, f)
    requires Passes(g, c, Reads(env, f).request, now)
    ensures var (g', c') := PushOrder(g, c, slot, Reads(env, f).request, now, |log|);
            && g'.recorded == Ids(g'.out) && ConnTied(env, log + [Arrive(slot, f, now)], g'.out, slot, c')
  {
    var req := Reads(env, f).request;
    var o := Offer(slot, NewOrder(req), |log|);
    PushEffect(g, c, slot, req, now, |log|);
    IdsSnoc(g.out, o);
    KeptConn(env, log, g.out, slot, c, f, last, now);
    PushedConn(env, log, g.out, slot, Rewind(c, now), Arrive(slot, f, now), o);
  }

  lemma OrderTied(env: Env, g: Shared, c: Conn, log: seq<Event>, slot: nat, f: Frame, last: nat, now: nat)
    requires FilterInv(g) && ConnTied(env, log, g.out, slot, c) && RateInv(c, last) && last <= now
    requires g.recorded == Ids(g.out) && c.authenticated && IsOrder(env, f)
    ensures var (g', c') := PushOrder(g, c, slot, Reads(env, f).request, now, |log|);
            && g'.out == g.out + Due(env, log, g.out, slot, f, now) && g'.recorded == Ids(g'.out)
            && ConnTied(env, log + [Arrive(slot, f, now)], g'.out, slot, c')
  {
    var req := Reads(env, f).request;
    PushEffect(g, c, slot, req, now, |log|);
    PassesIsDue(env, g, c, log, slot, f, last, now);
    if Passes(g, c, req, now) {
      PassedTied(env, g, c, log, slot, f, last, now);
    } else {
      KeptConn(env, log, g.out, slot, c, f, last, now);
      assert g.out + [] == g.out;
    }
  }

  lemma OtherFrameTied(env: Env, g: Shared, c: Conn, log: seq<Event>, slot: nat, f: Frame, now: nat)
    requires |g.idem| == IDEM && ConnTied(env, log, g.out, slot, c)
    requires g.recorded == Ids(g.out) && !(c.authenticated && IsOrder(env, f))
    ensures var (g', c') := Handle(env, g, c, slot, f, now, |log|);
            && g'.out == g.out + Due(env, log, g.out, slot, f, now) && g'.recorded == Ids(g'.out)
            && ConnTied(env, log + [Arrive(slot, f, now)], g'.out, slot, c')
  {
    var e := Arrive(slot, f, now);
    OwnFrame(env, log, slot, f, now);
    var since := Since(log, slot);
    PairedGrows(env, log, e, slot, OrdersOf(g.out, slot, since), c.pushes);
    assert g.out + [] == g.out;
    if c.authenticated && f.kind == 67 && |f.payload| >= 32 {
      var o := Offer(slot, Cancel(f.payload[..8], f.payload[8..16], f.payload[16..32]), |log|);
      OrdersSnoc(g.out, o, slot, since);
      IdsSnoc(g.out, o);
      assert OrdersOf(g.out, slot, since) + [] == OrdersOf(g.out, slot, since) && Ids(g.out) + [] == Ids(g.out);
    }
  }

  lemma FrameTied(env: Env, g: Shared, c: Conn, log: seq<Event>, slot: nat, f: Frame, last: nat, now: nat)
    requires FilterInv(g) && ConnTied(env, log, g.out, slot, c) && RateInv(c, last) && last <= now
    requires g.recorded == Ids(g.out)
    ensures var (g', c') := Handle(env, g, c, slot, f, now, |log|);
            && g'.out == g.out + Due(env, log, g.out, slot, f, now) && g'.recorded == Ids(g'.out)
            && ConnTied(env, log + [Arrive(slot, f, now)], g'.out, slot, c')
  {
    if c.authenticated && IsOrder(env, f) {
      HandleIsPush(env, g, c, slot, f, now, |log|);
      OrderTied(env, g, c, log, slot, f, last, now);
    } else {
      OtherFrameTied(env, g, c, log, slot, f, now);
    }
  }

  // ---------------------------------------------------------------------
  // Every step
  // ---------------------------------------------------------------------

  lemma DueShape(env: Env, log: seq<Event>, out: seq<Offer>, slot: nat, f: Frame, now: nat)
    ensures var due := Due(env, log, out, slot, f, now);
            due == [] || (|due| == 1 && due[0].slot == slot && due[0].at == |log|)
  {
  }

  lemma ArriveTied(env: Env, s: State, e: Event)
    requires Inv(env, s) && Tied(env, s) && e.Arrive? && Enabled(s, e)
    ensures Tied(env, Step(env, s, e))
    ensures Step(env, s, e).shared.out == s.shared.out + Due(env, s.log, s.shared.out, e.slot, e.frame, e.now)
  {
    var s' := Step(env, s, e);
    var due := Due(env, s.log, s.shared.out, e.slot, e.frame, e.now);
    FrameTied(env, s.shared, s.conns[e.slot], s.log, e.slot, e.frame, s.last, e.now);
    DueShape(env, s.log, s.shared.out, e.slot, e.frame, e.now);
    forall i | 0 <= i < |s'.conns| && s'.conns[i].open
      ensures ConnTied(env, s'.log, s'.shared.out, i, s'.conns[i])
    {
      if i != e.slot { OthersTied(env, s.log, s.shared.out, i, s.conns[i], e, due); }
    }
  }

  lemma AcceptTied(env: Env, s: State, e: Event)
    requires Tied(env, s) && e.Accept? && Enabled(s, e) && |s.shared.idem| == IDEM
    ensures ConnTied(env, s.log + [e], s.shared.out, e.slot, Step(env, s, e).conns[e.slot])
  {
    NoOrdersYet(s.shared.out, e.slot, |s.log| + 1);
    assert (s.log + [e])[..|s.log|] == s.log;
  }

  lemma StepTied(env: Env, s: State, e: Event)
    requires Inv(env, s) && Tied(env, s) && Enabled(s, e)
    ensures Tied(env, Step(env, s, e))
    ensures Step(env, s, e).shared.out ==
            if e.Arrive? then s.shared.out + Due(env, s.log, s.shared.out, e.slot, e.frame, e.now)
            else s.shared.out
  {
    if e.Arrive? {
      ArriveTied(env, s, e);
    } else {
      var s' := Step(env, s, e);
      assert s.shared.out + [] == s.shared.out;
      forall i | 0 <= i < |s'.conns| && s'.conns[i].open
        ensures ConnTied(env, s'.log, s'.shared.out, i, s'.conns[i])
      {
        if i != e.slot { OthersTied(env, s.log, s.shared.out, i, s.conns[i], e, []); } else { AcceptTied(env, s, e); }
      }
    }
  }

  /** The out queue is what the log has to offer. */
  lemma StepOffers(env: Env, log: seq<Event>, e: Event)
    ensures Offers(env, log + [e]) ==
            var out := Offers(env, log);
            if e.Arrive? then out + Due(env, log, out, e.slot, e.frame, e.now) else out
  {
    assert (log + [e])[..|log|] == log;
  }

  lemma {:induction false} RunTied(env: Env, s: State, run: seq<Event>)
    requires Inv(env, s) && Tied(env, s) && s.shared.out == Offers(env, s.log) && IsRun(env, s, run)
    ensures var r := Final(env, s, run); Inv(env, r) && Tied(env, r) && r.shared.out == Offers(env, r.log)
    decreases |run|
  {
    if run != [] {
      StepKeepsInv(env, s, run[0]);
      StepTied(env, s, run[0]);
      StepOffers(env, s.log, run[0]);
      RunTied(env, Step(env, s, run[0]), run[1..]);
    }
  }

  lemma Reached(env: Env, n: nat, run: seq<Event>)
    requires IsRun(env, Init(n), run)
    ensures var s := Final(env, Init(n), run);
            s.log == run && Inv(env, s) && Tied(env, s) && s.shared.out == Offers(env, run)
  {
    InitInv(env, n);
    RunTied(env, Init(n), run);
    RunIsLogged(env, Init(n), run);
    assert [] + run == run;
  }

  // ---------------------------------------------------------------------
  // The theorems
  // ---------------------------------------------------------------------

  /**
   In every run the output queue is offered exactly the messages that the events call for: for each frame, on
   an authenticated connection, an order that parses, unless RATE_LIMIT orders have been offered in its window or
   its id is the latest one offered of its duplicate slot; and a cancel of at least 32 bytes.
   */
  lemma OutputIsDue(env: Env, n: nat, run: seq<Event>)
    requires IsRun(env, Init(n), run)
    ensures Final(env, Init(n), run).shared.out == Offers(env, run)
  {
    Reached(env, n, run);
  }

  /** Between two offers of one request id, an order with another id of the same duplicate slot was offered. */
  lemma RepeatedIds(env: Env, n: nat, run: seq<Event>, i: nat, j: nat)
    requires IsRun(env, Init(n), run)
    requires var ids := Ids(Offers(env, run)); i < j < |ids| && ids[i] == ids[j]
    ensures var ids := Ids(Offers(env, run));
            exists k :: i < k < j && ids[k] != ids[i] && ids[k] % IDEM == ids[i] % IDEM
  {
    Reached(env, n, run);
    RepeatNeedsCollision(Final(env, Init(n), run).shared, i, j);
  }

  lemma WithinSnoc(c: Conn, a: nat)
    requires c.pushes != []
    ensures var n := |c.pushes| - 1;
            |Within(c, a)| == |Within(c.(pushes := c.pushes[..n]), a)|
                              + if a <= c.pushes[n].time <= a + SECOND then 1 else 0
  {
    var n := |c.pushes| - 1;
    var w := Within(c.(pushes := c.pushes[..n]), a);
    if a <= c.pushes[n].time <= a + SECOND {
      assert Within(c, a) == w + {n};
    } else {
      assert Within(c, a) == w;
    }
  }

  lemma {:induction false} SecondSize(env: Env, log: seq<Event>, slot: nat, os: seq<Offer>, c: Conn, a: nat)
    requires Paired(env, log, slot, os, c.pushes)
    ensures |InSecond(log, os, a)| == |Within(c, a)|
    decreases |os|
  {
    if os != [] {
      var n := |os| - 1;
      var c' := c.(pushes := c.pushes[..n]);
      assert PairTied(env, log, slot, os[n], c.pushes[n]);
      assert Paired(env, log, slot, os[..n], c'.pushes);
      SecondSize(env, log, slot, os[..n], c', a);
      WithinSnoc(c, a);
    } else {
      assert Within(c, a) == {};
    }
  }

  /** No window of the connection on the slot begins after a within the second. */
  ghost predicate NoneBegins(env: Env, log: seq<Event>, slot: nat, a: nat) {
    forall j :: Since(log, slot) <= j <= |log| ==> !(a < WindowOf(env, log[..j], slot) <= a + SECOND)
  }

  lemma {:induction false} OrdersSince(out: seq<Offer>, slot: nat, since: nat)
    ensures forall k :: 0 <= k < |OrdersOf(out, slot, since)| ==> OrdersOf(out, slot, since)[k].at >= since
    decreases |out|
  {
    if out != [] { OrdersSince(out[..|out| - 1], slot, since); }
  }

  lemma WindowsBefore(env: Env, log: seq<Event>, out: seq<Offer>, slot: nat, c: Conn, last: nat, a: nat)
    requires ConnTied(env, log, out, slot, c) && RateInv(c, last) && NoneBegins(env, log, slot, a)
    ensures forall v :: v in Windows(c, a) ==> v <= a
  {
    var os := OrdersOf(out, slot, Since(log, slot));
    OrdersSince(out, slot, Since(log, slot));
    forall v | v in Windows(c, a) ensures v <= a {
      var k :| k in Within(c, a) && c.pushes[k].window == v;
      assert PairTied(env, log, slot, os[k], c.pushes[k]) && PushOk(c.pushes[k], c.windowStart, last);
      assert os[k].at >= Since(log, slot);
    }
  }

  /**
   In every run, any closed second holds at most twice RATE_LIMIT orders offered from one connection since its
   accept, by the clocks of the frames that brought them, and RATE_LIMIT when no window begins inside the second.
   */
  lemma RateLimitHolds(env: Env, n: nat, run: seq<Event>, slot: nat, a: nat)
    requires IsRun(env, Init(n), run)
    requires slot < |Final(env, Init(n), run).conns| && Final(env, Init(n), run).conns[slot].open
    ensures var s := Final(env, Init(n), run);
            var os := OrdersOf(s.shared.out, slot, Since(run, slot));
            && RateExact(s.conns[slot], a) && |InSecond(run, os, a)| == |Within(s.conns[slot], a)|
            && |InSecond(run, os, a)| <= 2 * RATE_LIMIT
            && (NoneBegins(env, run, slot, a) ==> |InSecond(run, os, a)| <= RATE_LIMIT)
  {
    Reached(env, n, run);
    var s := Final(env, Init(n), run);
    var c := s.conns[slot];
    assert ConnTied(env, run, s.shared.out, slot, c);
    SecondSize(env, run, slot, OrdersOf(s.shared.out, slot, Since(run, slot)), c, a);
    RateBound(c, s.last, a);
    if NoneBegins(env, run, slot, a) { WindowsBefore(env, run, s.shared.out, slot, c, s.last, a); }
  }

  /** The bound of twice the limit is reached by what a run from the start offers. */
  lemma DoubleRateReached(env: Env, n: nat, key: Frame, f: Frame)
    requires n > 0 && key.kind == 65 && env.valid(key.payload)
    requires (f.kind == 79 || f.kind == 66) && ParseOrder(env, f).Accepted? && ParseOrder(env, f).request.id == 0
    ensures var run := DoubleRun(key, f);
            && IsRun(env, Init(n), run)
            && |InSecond(run, OrdersOf(Offers(env, run), 0, Since(run, 0)), SECOND)| == 2 * RATE_LIMIT
  {
    var run := DoubleRun(key, f);
    DoubleBurst(env, n, key, f);
    Reached(env, n, run);
    var s := Final(env, Init(n), run);
    assert ConnTied(env, run, s.shared.out, 0, s.conns[0]);
    SecondSize(env, run, 0, OrdersOf(s.shared.out, 0, Since(run, 0)), s.conns[0], SECOND);
  }
}
