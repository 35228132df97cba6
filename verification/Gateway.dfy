/**
 The gateway's connection and context as the code keeps them: two byte rings
 per connection, changed in place by reads, frame processing, responses and
 partial sends, and one duplicate ring per gateway thread.
 */
module Gateway {
  import opened Bits
  import opened Ring
  import opened Framing
  import opened OrderText
  import opened GatewayCore
  import opened ByteRing
  import GatewayOffers

  const RESPONSE: nat := 88  // sizeof(bt_order_response_t)

  /** The state after handling frames in order, frame j at clock(j) as event at + j. */
  ghost function HandleAll(env: Env, g: Shared, c: Conn, slot: nat, fs: seq<Frame>, clock: nat -> nat, at: nat)
    : (r: (Shared, Conn))
    requires |g.idem| == IDEM
    ensures |r.0.idem| == IDEM
    decreases |fs|
  {
    if fs == [] then (g, c)
    else
      var n := |fs| - 1;
      var (g1, c1) := HandleAll(env, g, c, slot, fs[..n], clock, at);
      HandleOffers(env, g1, c1, slot, fs[n], clock(n), at + n);
      Handle(env, g1, c1, slot, fs[n], clock(n), at + n)
  }

  /** Payloads beyond the stack buffers are copied to the heap. */
  predicate NeedsHeap(c: Conn, f: Frame) {
    if f.kind == 65 then |f.payload| > 256
    else c.authenticated && (f.kind == 79 || f.kind == 66) && |f.payload| > 8192
  }

  predicate BadHeader(b: seq<Byte>) {
    |b| >= 5 && (Length(b) < 5 || Length(b) > RING)
  }

  /** A length of 65536 passes the header check, and yet no frame is delivered any more, whatever follows. */
  lemma LongestLengthStalls(kind: Byte, more: seq<Byte>)
    ensures var b := [0, 1, 0, 0, kind] + more;
            !BadHeader(b) && Length(b) == RING && Frames(b) == Split([], b)
  {
    var head: seq<Byte> := [0, 1, 0, 0, kind];
    assert Length(head) == RING;
    StuckHeader(head, more);
  }

  /** Since the accept: bytes received and sent, frames handled, responses accepted, orders pushed. */
  datatype History = History(
    received: seq<Byte>, handled: seq<Frame>, sent: seq<Byte>, accepted: seq<Frame>, pushes: seq<Push>)

  const NOTHING: History := History([], [], [], [], [])

  datatype Found = Partial | Bad | Ready(len: nat, frame: Frame)

  class Connection {
    const recvBuf: array<Byte>
    const sendBuf: array<Byte>
    var recvHead: nat
    var recvTail: nat
    var sendHead: nat
    var sendTail: nat
    var closing: bool
    var open: bool
    var authenticated: bool
    var windowStart: nat
    var rateCount: nat
    ghost var past: History

    ghost predicate Shape()
      reads this
    {
      && recvBuf.Length == RING && sendBuf.Length == RING && recvBuf != sendBuf
      && recvHead < RING && recvTail < RING && sendHead < RING && sendTail < RING
    }

    ghost function Received(): seq<Byte>
      reads this, recvBuf
      requires Shape()
    {
      Unread(recvBuf[..], recvHead, recvTail)
    }

    ghost function Unsent(): seq<Byte>
      reads this, sendBuf
      requires Shape()
    {
      Unread(sendBuf[..], sendHead, sendTail)
    }

    ghost function View(): Wire
      reads this, recvBuf
      requires Shape()
    {
      Wire(past.received, Received(), recvTail, closing)
    }

    ghost function Core(): Conn
      reads this
    {
      Conn(open, authenticated, windowStart, rateCount, past.pushes)
    }

    /** Bytes received are in a handled frame or still in the ring; accepted responses are sent or in the ring. */
    ghost predicate Valid()
      reads this, recvBuf, sendBuf
    {
      && Shape()
      && past.received == EncodeAll(past.handled) + Received()
      && past.sent + Unsent() == EncodeAll(past.accepted)
    }

    /** A calloc'd slot with no connection. */
    constructor ()
      ensures Valid() && fresh(recvBuf) && fresh(sendBuf) && !open && past == NOTHING
    {
      recvBuf := new Byte[RING](_ => 0);
      sendBuf := new Byte[RING](_ => 0);
      recvHead, recvTail, sendHead, sendTail := 0, 0, 0, 0;
      closing, open, authenticated, windowStart, rateCount := false, false, false, 0, 0;
      past := NOTHING;
    }

    /** The reset in gw_accept. */
    method Accept(now: nat)
      requires Shape()
      modifies this
      ensures Valid() && Core() == Conn(true, false, now, 0, []) && !closing
      ensures past == NOTHING
    {
      recvHead, recvTail, sendHead, sendTail := 0, 0, 0, 0;
      closing, open, authenticated, windowStart, rateCount := false, true, false, now, 0;
      past := NOTHING;
      EmptyRing(recvBuf[..], 0);
      EmptyRing(sendBuf[..], 0);
      assert EncodeAll([]) + [] == [];
    }

    // -------------------------------------------------------------------
    // Reading
    // -------------------------------------------------------------------

    /** The size handed to read: up to the end of the buffer and up to the free space. */
    method ReadSize() returns (n: nat)
      requires Shape()
      ensures n == Asked(recvTail, |Received()|) <= Writable(recvHead, recvTail, RING - 1)
      ensures n == 0 <==> |Received()| == RING - 1
      ensures |Received()| >= 5 && 5 <= Length(Received()) < RING && !Complete(Received()) ==> n >= 1
    {
      ReadableIsDistance(recvHead, recvTail);
      var phys := RING - recvTail;
      var space := Writable(recvHead, recvTail, RING - 1);
      n := if phys < space then phys else space;
    }

    /**
     What the read loop does with an answer of read(2): all its bytes are stored, up to the number asked for, or
     the loop ends. An end of file or an error marks the connection, unless the ring is full and nothing is read.
     */
    method TakeAnswer(answer: ReadResult) returns (more: bool, data: seq<Byte>)
      requires Shape()
      modifies this`closing
      ensures more <==> answer.Data? && answer.bytes != [] && |Received()| < RING - 1
      ensures more ==> data == Cut(answer.bytes, Asked(recvTail, |Received()|)) && data != []
      ensures more ==> |data| <= RING - recvTail && |data| <= Writable(recvHead, recvTail, RING - 1)
      ensures View() == old(View()).(closing := closing)
      ensures closing == (old(closing) || (Hangup(answer) && |Received()| < RING - 1))
    {
      var size := ReadSize();
      if size == 0 || answer.WouldBlock? { return false, []; }
      if !answer.Data? || answer.bytes == [] {
        closing := true;
        return false, [];
      }
      return true, if |answer.bytes| <= size then answer.bytes else answer.bytes[..size];
    }

    /** The bytes land in the ring behind the unread ones. */
    method Store(data: seq<Byte>)
      requires Shape() && |data| <= RING - recvTail && |data| <= Writable(recvHead, recvTail, RING - 1)
      modifies this`recvTail, recvBuf
      ensures Shape() && Received() == old(Received()) + data && Unsent() == old(Unsent())
      ensures recvTail == (old(recvTail) + |data|) % RING
    {
      ghost var unsent := Unsent();
      WriteRun(recvBuf, recvHead, recvTail, data);
      MaskIs(recvTail, |data|);
      recvTail := BitAnd(recvTail + |data|, RING - 1);
      assert Unsent() == unsent;
    }

    /** read stores data at the tail; no unread byte is overwritten. */
    method Fill(data: seq<Byte>)
      requires Valid() && |data| <= RING - recvTail && |data| <= Writable(recvHead, recvTail, RING - 1)
      modifies this`recvTail, this`past, recvBuf
      ensures Valid() && Received() == old(Received()) + data
      ensures past == old(past).(received := old(past).received + data)
      ensures recvTail == (old(recvTail) + |data|) % RING
    {
      Associative(EncodeAll(past.handled), Received(), data);
      Store(data);
      past := past.(received := past.received + data);
    }

    /** gw_ring_peek on the unread bytes. */
    method PeekAt(off: nat, len: nat) returns (dst: seq<Byte>)
      requires Shape() && off + len <= |Received()|
      ensures dst == Received()[off..off + len]
    {
      ReadableIsDistance(recvHead, recvTail);
      dst := Peek(recvBuf, recvHead, off, len);
      ghost var n := |Received()|;
      ItemsDrop(recvBuf[..], recvHead, n, off);
      ItemsTake(recvBuf[..], (recvHead + off) % RING, n - off, len);
      assert Received()[off..][..len] == Received()[off..off + len];
    }

    /** The checks at the top of the frame loop, up to the payload copy. */
    method NextFrame() returns (found: Found)
      requires Shape()
      ensures found.Bad? <==> BadHeader(Received())
      ensures found.Ready? <==> Complete(Received())
      ensures found.Ready? ==> found.frame == FrontFrame(Received()) && found.len == Length(Received())
    {
      ReadableIsDistance(recvHead, recvTail);
      if Readable(recvHead, recvTail, RING - 1) < 5 { return Partial; }
      var header := PeekAt(0, 4);
      var len := Length(header);
      if len < 5 || len > RING { return Bad; }
      if Readable(recvHead, recvTail, RING - 1) < len { return Partial; }
      var kind := PeekAt(4, 1);
      var payload := PeekAt(5, len - 5);
      return Ready(len, Frame(kind[0], payload));
    }

    /** Consumes the frame at the front of the ring. */
    method TakeFrame(len: nat, ghost f: Frame)
      requires Valid() && Complete(Received()) && len == Length(Received()) && f == FrontFrame(Received())
      modifies this`recvHead, this`past
      ensures Valid() && Received() == old(Received())[len..] && Unsent() == old(Unsent())
      ensures past == old(past).(handled := old(past).handled + [f])
    {
      ghost var b := Received();
      Consume(recvBuf[..], recvHead, recvTail, len);
      MaskIs(recvHead, len);
      recvHead := ByteRing.Advance(recvHead, len, RING - 1);
      HandledGrows(past.handled, b);
      past := past.(handled := past.handled + [f]);
    }

    // -------------------------------------------------------------------
    // Sending
    // -------------------------------------------------------------------

    /** The masked copy at the tail of the send ring. */
    method Enqueue(bytes: seq<Byte>)
      requires Shape() && |bytes| <= Writable(sendHead, sendTail, RING - 1)
      modifies this`sendTail, sendBuf
      ensures Shape() && Unsent() == old(Unsent()) + bytes && Received() == old(Received())
    {
      ghost var incoming := Received();
      WriteWrapped(sendBuf, sendHead, sendTail, bytes);
      MaskIs(sendTail, |bytes|);
      sendTail := BitAnd(sendTail + |bytes|, RING - 1);
      assert Received() == incoming;
    }

    /** gw_send_to_conn: a whole frame or nothing. */
    method SendResponse(resp: seq<Byte>)
      requires Valid() && |resp| == RESPONSE
      modifies this`sendTail, this`past, sendBuf
      ensures Valid() && Received() == old(Received())
      ensures |old(Unsent())| + RESPONSE + 5 > RING - 1 ==> Unsent() == old(Unsent()) && past == old(past)
      ensures |old(Unsent())| + RESPONSE + 5 <= RING - 1 ==>
                && past == old(past).(accepted := old(past).accepted + [Frame(82, resp)])
                && Unsent() == old(Unsent()) + Encode(Frame(82, resp))
    {
      ReadableIsDistance(sendHead, sendTail);
      if Writable(sendHead, sendTail, RING - 1) < RESPONSE + 5 { return; }
      var f: Frame := Frame(82, resp);
      SendGrows(past.sent, Unsent(), past.accepted, f);
      Enqueue(Encode(f));
      past := past.(accepted := past.accepted + [f]);
    }

    /** The head moves over m bytes. */
    method Dequeue(m: nat)
      requires Shape() && m <= |Unsent()|
      modifies this`sendHead
      ensures Shape() && Unsent() == old(Unsent())[m..] && Received() == old(Received())
      ensures sendHead == (old(sendHead) + m) % RING
    {
      Consume(sendBuf[..], sendHead, sendTail, m);
      MaskIs(sendHead, m);
      sendHead := BitAnd(sendHead + m, RING - 1);
    }

    /** m bytes that send took leave the ring. */
    method TakeSent(m: nat)
      requires Valid() && m <= |Unsent()|
      modifies this`sendHead, this`past
      ensures Valid() && Received() == old(Received()) && Unsent() == old(Unsent())[m..]
      ensures past == old(past).(sent := old(past).sent + old(Unsent())[..m])
      ensures sendHead == (old(sendHead) + m) % RING
    {
      ghost var before := Unsent();
      SendMoves(past.sent, before, m);
      Dequeue(m);
      past := past.(sent := past.sent + before[..m]);
    }

    /** One answer of send(2) to the unsent bytes up to the end of the buffer; false ends the loop. */
    method SendOnce(answer: SendResult) returns (more: bool)
      requires Valid() && Unsent() != []
      modifies this`sendHead, this`closing, this`past
      ensures Valid() && Received() == old(Received())
      ensures var m := TakenBy(answer, old(sendHead), |old(Unsent())|);
              && m <= |old(Unsent())| && Unsent() == old(Unsent())[m..] && sendHead == (old(sendHead) + m) % RING
              && past == old(past).(sent := old(past).sent + old(Unsent())[..m])
              && (more <==> m > 0)
      ensures closing == (old(closing) || answer.Failed?)
    {
      ReadableIsDistance(sendHead, sendTail);
      var avail := Readable(sendHead, sendTail, RING - 1);
      var first := RING - sendHead;
      var toWrite := if first < avail then first else avail;
      if answer.Sent? && answer.n > 0 {
        TakeSent(if answer.n < toWrite then answer.n else toWrite);
        return true;
      }
      if answer.Failed? { closing := true; }
      assert past.sent + Unsent()[..0] == past.sent;
      ModSmall(sendHead, RING);
      return false;
    }

    /** The same answer, with what it adds to the flush so far. */
    method SendNext(
      results: seq<SendResult>, k: nat, ghost total: (nat, bool), ghost b: seq<Byte>, ghost sent0: seq<Byte>,
      ghost closing0: bool)
      returns (more: bool)
      requires Valid() && Unsent() != [] && k < |results|
      requires OnTrack(total, results, k, true, sendHead, b, sent0, closing0, Unsent(), past.sent, closing)
      modifies this`sendHead, this`closing, this`past
      ensures Valid() && Received() == old(Received()) && past == old(past).(sent := past.sent)
      ensures sendHead == sendTail <==> Unsent() == []
      ensures OnTrack(total, results, k + 1, more, sendHead, b, sent0, closing0, Unsent(), past.sent, closing)
    {
      ghost var head, left, sent, was := sendHead, Unsent(), past.sent, closing;
      more := SendOnce(results[k]);
      FlushedStep(total, results, k, head, b, sent0, closing0, left, sent, was,
                  sendHead, Unsent(), past.sent, closing);
      RingEmpty(sendHead, sendTail);
    }

    /** gw_flush_send against the answers of send(2); when they run out the socket would block. */
    method FlushSend(results: seq<SendResult>)
      requires Valid()
      modifies this`sendHead, this`closing, this`past
      ensures Valid() && Received() == old(Received())
      ensures var (w, failed) := Flushed(results, old(sendHead), |old(Unsent())|);
              && Unsent() == old(Unsent())[w..] && closing == (old(closing) || failed)
              && past == old(past).(sent := old(past).sent + old(Unsent())[..w])
    {
      var k, more := 0, true;
      ghost var b, total := Unsent(), Flushed(results, sendHead, |Unsent()|);
      FlushBegins(results, sendHead, b, past.sent, closing);
      RingEmpty(sendHead, sendTail);
      while more && sendHead != sendTail && k < |results|
        invariant Valid() && 0 <= k <= |results| && Received() == old(Received())
        invariant past == old(past).(sent := past.sent) && (sendHead == sendTail <==> Unsent() == [])
        invariant OnTrack(total, results, k, more, sendHead, b, old(past).sent, old(closing),
                          Unsent(), past.sent, closing)
        decreases |results| - k
      {
        more := SendNext(results, k, total, b, old(past).sent, old(closing));
        k := k + 1;
      }
      FlushEnds(total, results, k, more, sendHead, b, old(past).sent, old(closing), Unsent(), past.sent, closing);
    }
  }

  lemma RingEmpty(head: nat, tail: nat)
    requires head < RING && tail < RING
    ensures head == tail <==> Readable(head, tail, RING - 1) == 0
  {
  }

  /** The bytes one answer takes of len unsent bytes that begin at head. */
  function TakenBy(answer: SendResult, head: nat, len: nat): (m: nat)
    requires head < RING
    ensures m <= len
  {
    var most := if RING - head < len then RING - head else len;
    if answer.Sent? then if answer.n < most then answer.n else most else 0
  }

  /** How many of len unsent bytes at head the answers take, and whether an error ends it. */
  function Flushed(results: seq<SendResult>, head: nat, len: nat): (r: (nat, bool))
    requires head < RING
    ensures r.0 <= len
    decreases |results|
  {
    if len == 0 || results == [] then (0, false)
    else
      var m := TakenBy(results[0], head, len);
      if m == 0 then (0, results[0].Failed?)
      else Beyond(m, Flushed(results[1..], (head + m) % RING, len - m))
  }

  function Beyond(w: nat, r: (nat, bool)): (nat, bool) {
    (w + r.0, r.1)
  }

  /**
   After k answers: of the bytes b a prefix has been sent and the rest is unsent from head on; what the
   remaining answers take makes up the total, unless the loop has ended.
   */
  ghost predicate OnTrack(
    total: (nat, bool), results: seq<SendResult>, k: nat, more: bool, head: nat, b: seq<Byte>, sent0: seq<Byte>,
    closing0: bool, unsent: seq<Byte>, sent: seq<Byte>, closing: bool)
  {
    && head < RING && k <= |results| && |unsent| <= |b|
    && var w := |b| - |unsent|;
    && unsent == b[w..] && sent == sent0 + b[..w]
    && if more then total == Beyond(w, Flushed(results[k..], head, |unsent|)) && closing == closing0
       else total.0 == w && closing == (closing0 || total.1)
  }

  lemma FlushBegins(results: seq<SendResult>, head: nat, b: seq<Byte>, sent: seq<Byte>, closing: bool)
    requires head < RING
    ensures OnTrack(Flushed(results, head, |b|), results, 0, true, head, b, sent, closing, b, sent, closing)
  {
    assert results[0..] == results && sent + b[..0] == sent && b[0..] == b;
  }

  /** One more answer. */
  lemma FlushedStep(
    total: (nat, bool), results: seq<SendResult>, k: nat, head: nat, b: seq<Byte>, sent0: seq<Byte>, closing0: bool,
    unsent: seq<Byte>, sent: seq<Byte>, closing: bool, head': nat, unsent': seq<Byte>, sent': seq<Byte>, closing': bool)
    requires OnTrack(total, results, k, true, head, b, sent0, closing0, unsent, sent, closing)
    requires unsent != [] && k < |results| && closing' == (closing || results[k].Failed?)
    requires var m := TakenBy(results[k], head, |unsent|);
             head' == (head + m) % RING && unsent' == unsent[m..] && sent' == sent + unsent[..m]
    ensures var more := TakenBy(results[k], head, |unsent|) > 0;
            OnTrack(total, results, k + 1, more, head', b, sent0, closing0, unsent', sent', closing')
  {
    var w, m := |b| - |unsent|, TakenBy(results[k], head, |unsent|);
    assert results[k..][0] == results[k] && results[k..][1..] == results[k + 1..];
    SentSoFar(sent0, b, w, m);
  }

  lemma FlushEnds(
    total: (nat, bool), results: seq<SendResult>, k: nat, more: bool, head: nat, b: seq<Byte>, sent0: seq<Byte>,
    closing0: bool, unsent: seq<Byte>, sent: seq<Byte>, closing: bool)
    requires OnTrack(total, results, k, more, head, b, sent0, closing0, unsent, sent, closing)
    requires !more || unsent == [] || k == |results|
    ensures total.0 <= |b| && unsent == b[total.0..] && sent == sent0 + b[..total.0] && closing == (closing0 || total.1)
  {
  }

  lemma SentSoFar(sent: seq<Byte>, b: seq<Byte>, w: nat, m: nat)
    requires w + m <= |b|
    ensures (sent + b[..w]) + b[w..][..m] == sent + b[..w + m] && b[w..][m..] == b[w + m..]
  {
  }

  /** While send takes something the flush goes on: as many good answers as bytes empty the ring. */
  lemma {:induction false} FlushEmpties(results: seq<SendResult>, head: nat, len: nat)
    requires head < RING && forall i :: 0 <= i < |results| ==> results[i].Sent? && results[i].n > 0
    ensures var (w, failed) := Flushed(results, head, len);
            !failed && (w == len || w >= |results|)
    decreases |results|
  {
    if len > 0 && results != [] {
      var m := TakenBy(results[0], head, len);
      FlushEmpties(results[1..], (head + m) % RING, len - m);
    }
  }

  /** What is handed to send(2): the unsent bytes up to the end of the buffer. */
  function Offered(head: nat, len: nat): nat
    requires head < RING
  {
    if RING - head < len then RING - head else len
  }

  predicate Good(answer: SendResult) {
    answer.Sent? && answer.n > 0
  }

  /** send never claims to have taken more than it was handed. */
  ghost predicate Honest(results: seq<SendResult>, head: nat, len: nat)
    requires head < RING
    decreases |results|
  {
    len > 0 && results != [] && Good(results[0]) ==>
      && results[0].n <= Offered(head, len)
      && Honest(results[1..], (head + results[0].n) % RING, len - results[0].n)
  }

  /** The bytes taken by the good answers before the first other one. */
  function SentBy(results: seq<SendResult>): nat {
    if results == [] || !Good(results[0]) then 0 else results[0].n + SentBy(results[1..])
  }

  /** The first answer that is not good; Again if there is none. */
  function FirstBad(results: seq<SendResult>): SendResult {
    if results == [] then Again else if Good(results[0]) then FirstBad(results[1..]) else results[0]
  }

  /**
   The flush sends exactly the bytes that the good answers before the first other one took, all of them, and ends
   in an error exactly when that one is an error and comes before the ring is empty.
   */
  lemma {:induction false} FlushTakes(results: seq<SendResult>, head: nat, len: nat)
    requires head < RING && Honest(results, head, len)
    ensures var (w, failed) := Flushed(results, head, len);
            && w == (if SentBy(results) < len then SentBy(results) else len)
            && (failed <==> SentBy(results) < len && FirstBad(results).Failed?)
    decreases |results|
  {
    if len > 0 && results != [] && Good(results[0]) {
      FlushTakes(results[1..], (head + results[0].n) % RING, len - results[0].n);
    }
  }

  /** What one call of send(2) answers: n > 0 bytes taken, would block, or an error. */
  datatype SendResult = Sent(n: nat) | Again | Failed

  lemma {:induction false} EncodeAllSnoc(fs: seq<Frame>, f: Frame)
    ensures EncodeAll(fs + [f]) == EncodeAll(fs) + Encode(f)
    decreases |fs|
  {
    if fs == [] {
      assert EncodeAll([f]) == Encode(f) + EncodeAll([]);
      assert fs + [f] == [f];
    } else {
      EncodeAllSnoc(fs[1..], f);
      assert (fs + [f])[1..] == fs[1..] + [f];
      Associative(Encode(fs[0]), EncodeAll(fs[1..]), Encode(f));
    }
  }

  lemma SendGrows(sent: seq<Byte>, unsent: seq<Byte>, accepted: seq<Frame>, f: Frame)
    requires sent + unsent == EncodeAll(accepted)
    ensures sent + (unsent + Encode(f)) == EncodeAll(accepted + [f])
  {
    EncodeAllSnoc(accepted, f);
    Associative(sent, unsent, Encode(f));
  }

  lemma SendMoves(sent: seq<Byte>, unsent: seq<Byte>, m: nat)
    requires m <= |unsent|
    ensures (sent + unsent[..m]) + unsent[m..] == sent + unsent
  {
  }

  /** A gateway thread's context; the sequences are history. */
  class Context {
    const idemRing: array<nat>
    ghost var recorded: seq<nat>
    ghost var dropped: seq<Drop>
    ghost var out: seq<Offer>

    ghost function View(): Shared
      reads this, idemRing
    {
      Shared(idemRing[..], recorded, dropped, out)
    }

    constructor ()
      ensures fresh(idemRing) && View() == Init(0).shared
    {
      idemRing := new nat[IDEM](_ => 0);
      recorded, dropped, out := [], [], [];
      new;
      assert idemRing[..] == seq(IDEM, _ => 0);
    }

    /** gw_push_order. */
    method PushOne(conn: Connection, slot: nat, req: Request, now: nat, ghost at: nat)
      requires idemRing.Length == IDEM
      modifies this, idemRing, conn`windowStart, conn`rateCount, conn`past
      ensures (View(), conn.Core()) == PushOrder(old(View()), old(conn.Core()), slot, req, now, at)
      ensures conn.past == old(conn.past).(pushes := conn.past.pushes)
    {
      if Sub64(now, conn.windowStart) > SECOND {
        conn.windowStart := now;
        conn.rateCount := 0;
      }
      if conn.rateCount < RATE_LIMIT {
        if req.id != 0 {
          IdemSlotIsMask(req.id);
          var i := BitAnd(req.id, IDEM - 1);
          if idemRing[i] == req.id {
            dropped := dropped + [Drop(req.id, |recorded|)];
            return;
          }
          idemRing[i] := req.id;
          recorded := recorded + [req.id];
        }
        conn.rateCount := conn.rateCount + 1;
        conn.past := conn.past.(pushes := conn.past.pushes + [Push(now, conn.windowStart)]);
        out := out + [Offer(slot, NewOrder(req), at)];
      }
    }

    /** The body of the frame loop for one frame, by message type. */
    method HandleFrame(env: Env, conn: Connection, slot: nat, f: Frame, now: nat, ghost at: nat)
      requires idemRing.Length == IDEM
      modifies this, idemRing, conn`authenticated, conn`windowStart, conn`rateCount, conn`past
      ensures (View(), conn.Core()) == Handle(env, old(View()), old(conn.Core()), slot, f, now, at)
      ensures conn.past == old(conn.past).(pushes := conn.past.pushes)
    {
      if f.kind == 65 {
        if env.valid(f.payload) { conn.authenticated := true; }
        return;
      }
      if !conn.authenticated { return; }
      if f.kind == 79 || f.kind == 66 {
        var parsed;
        if f.kind == 66 {
          parsed := env.binary(f.payload);
        } else {
          var ret, req := ParseOrderText(f.payload, env.price);
          parsed := if ret == 0 then Accepted(req) else Rejected;
        }
        if parsed.Accepted? {
          PushOne(conn, slot, parsed.request, now, at);
        }
        return;
      }
      if f.kind == 67 && |f.payload| >= 32 {
        out := out + [Offer(slot, Cancel(f.payload[..8], f.payload[8..16], f.payload[16..32]), at)];
      }
    }

    /** Handles a complete frame and consumes it. */
    method ProcessOne(env: Env, conn: Connection, slot: nat, len: nat, f: Frame, now: nat, ghost at: nat)
      requires conn.Valid() && idemRing.Length == IDEM
      requires idemRing as object != conn.recvBuf && idemRing as object != conn.sendBuf
      requires Complete(conn.Received()) && len == Length(conn.Received()) && f == FrontFrame(conn.Received())
      modifies this, idemRing, conn
      ensures conn.Valid() && conn.Unsent() == old(conn.Unsent()) && conn.closing == old(conn.closing)
      ensures conn.recvTail == old(conn.recvTail)
      ensures conn.Received() == old(conn.Received())[len..]
      ensures conn.past.handled == old(conn.past).handled + [f] && conn.past.received == old(conn.past).received
      ensures (View(), conn.Core()) == Handle(env, old(View()), old(conn.Core()), slot, f, now, at)
    {
      HandleFrame(env, conn, slot, f, now, at);
      conn.TakeFrame(len, f);
    }

    /** One round of the frame loop: why it ends here, or the next frame is handled. */
    method Turn(env: Env, conn: Connection, slot: nat, now: nat, mem: bool, ghost at: nat)
      returns (stop: Stop, ghost f: Frame)
      requires conn.Valid() && idemRing.Length == IDEM
      requires idemRing as object != conn.recvBuf && idemRing as object != conn.sendBuf
      modifies this, idemRing, conn
      ensures conn.Valid()
      ensures Same(old(conn.Unsent()), old(conn.closing), old(conn.past), old(conn.recvTail),
                   conn.Unsent(), conn.closing, conn.past, conn.recvTail)
      ensures Explains(stop, conn.Received(), mem)
      ensures !stop.Go? ==>
                (View(), conn.Core(), conn.Received(), conn.past) ==
                old((View(), conn.Core(), conn.Received(), conn.past))
      ensures stop.Go? ==>
                && Complete(old(conn.Received())) && f == FrontFrame(old(conn.Received()))
                && conn.Received() == old(conn.Received())[Length(old(conn.Received()))..]
                && conn.past.handled == old(conn.past).handled + [f]
                && Follows(env, slot, old((View(), conn.Core())), f, now, at, (View(), conn.Core()))
    {
      f := Frame(0, []);
      var found := conn.NextFrame();
      if found.Partial? { return Drained, f; }
      if found.Bad? { return BadLength, f; }
      if NeedsHeap(Conn(conn.open, conn.authenticated, 0, 0, []), found.frame) && !mem { return NoMemory, f; }
      ProcessOne(env, conn, slot, found.len, found.frame, now, at);
      return Go, found.frame;
    }

    /** The same round, with what it adds to the progress so far. */
    method Advance(
      env: Env, conn: Connection, slot: nat, clock: nat -> nat, mem: bool, k: nat,
      ghost at: nat, ghost b0: seq<Byte>, ghost hs0: seq<Frame>, ghost start: (Shared, Conn),
      ghost trace: seq<(Shared, Conn)>)
      returns (stop: Stop, ghost trace': seq<(Shared, Conn)>)
      requires conn.Valid() && idemRing.Length == IDEM
      requires idemRing as object != conn.recvBuf && idemRing as object != conn.sendBuf
      requires Progress(env, slot, clock, at, b0, hs0, start, k, conn.Received(), conn.past.handled, trace,
                        (View(), conn.Core()))
      modifies this, idemRing, conn
      ensures conn.Valid()
      ensures Same(old(conn.Unsent()), old(conn.closing), old(conn.past), old(conn.recvTail),
                   conn.Unsent(), conn.closing, conn.past, conn.recvTail)
      ensures Progress(env, slot, clock, at, b0, hs0, start, if stop.Go? then k + 1 else k,
                       conn.Received(), conn.past.handled, trace', (View(), conn.Core()))
      ensures Explains(stop, conn.Received(), mem)
      ensures stop.Go? ==> |conn.Received()| < |old(conn.Received())|
    {
      ghost var b, hs, now := conn.Received(), conn.past.handled, (View(), conn.Core());
      ghost var f;
      stop, f := Turn(env, conn, slot, clock(k), mem, at + k);
      trace' := trace;
      if stop.Go? {
        ProgressStep(env, slot, clock, at, b0, hs0, start, k, b, hs, trace, now, (View(), conn.Core()));
        trace' := trace + [(View(), conn.Core())];
      }
    }

    /** The frame loop, why it ended, and the states it went through. */
    method RunFrames(env: Env, conn: Connection, slot: nat, clock: nat -> nat, mem: nat -> bool, ghost at: nat)
      returns (k: nat, stop: Stop, ghost trace: seq<(Shared, Conn)>)
      requires conn.Valid() && idemRing.Length == IDEM
      requires idemRing as object != conn.recvBuf && idemRing as object != conn.sendBuf
      modifies this, idemRing, conn
      ensures conn.Valid()
      ensures Same(old(conn.Unsent()), old(conn.closing), old(conn.past), old(conn.recvTail),
                   conn.Unsent(), conn.closing, conn.past, conn.recvTail)
      ensures Progress(env, slot, clock, at, old(conn.Received()), old(conn.past).handled,
                       old((View(), conn.Core())), k,
                       conn.Received(), conn.past.handled, trace, (View(), conn.Core()))
      ensures !stop.Go? && Explains(stop, conn.Received(), mem(k))
    {
      k := 0;
      ghost var b0, hs0, start := conn.Received(), conn.past.handled, (View(), conn.Core());
      trace := [start];
      ProgressStart(env, slot, clock, at, b0, hs0, start);
      while true
        invariant conn.Valid()
        invariant Same(old(conn.Unsent()), old(conn.closing), old(conn.past), old(conn.recvTail),
                       conn.Unsent(), conn.closing, conn.past, conn.recvTail)
        invariant Progress(env, slot, clock, at, b0, hs0, start, k, conn.Received(), conn.past.handled, trace,
                           (View(), conn.Core()))
        decreases |conn.Received()|
      {
        stop, trace := Advance(env, conn, slot, clock, mem(k), k, at, b0, hs0, start, trace);
        if !stop.Go? { return; }
        k := k + 1;
      }
    }

    /**
     gw_process_data. mem(j) is whether the heap has room for the j-th frame, if it needs any. The k frames
     handled are the first k the plain framer finds in the unread bytes, all of them unless the heap failed for a
     payload of more than 256 bytes.
     */
    method ProcessData(env: Env, conn: Connection, slot: nat, clock: nat -> nat, mem: nat -> bool, ghost at: nat)
      returns (k: nat)
      requires conn.Valid() && idemRing.Length == IDEM
      requires idemRing as object != conn.recvBuf && idemRing as object != conn.sendBuf
      modifies this, idemRing, conn
      ensures conn.Valid() && conn.Unsent() == old(conn.Unsent()) && conn.past.received == old(conn.past).received
      ensures Framed(old(conn.Received()), old(conn.past).handled, k, conn.Received(), conn.past.handled)
      ensures (View(), conn.Core()) ==
              HandleAll(env, old(View()), old(conn.Core()), slot, Frames(old(conn.Received())).frames[..k], clock, at)
      ensures k < |Frames(old(conn.Received())).frames| ==>
                !mem(k) && |Frames(old(conn.Received())).frames[k].payload| > 256
      ensures conn.recvTail == old(conn.recvTail)
      ensures conn.closing ==
              (old(conn.closing) || k < |Frames(old(conn.Received())).frames| || BadHeader(conn.Received()))
    {
      var stop: Stop;
      ghost var trace;
      ghost var b0, hs0, start := conn.Received(), conn.past.handled, (View(), conn.Core());
      k, stop, trace := RunFrames(env, conn, slot, clock, mem, at);
      ProgressEnd(env, slot, clock, at, b0, hs0, start, k, conn.Received(), conn.past.handled, trace,
                  (View(), conn.Core()), stop, mem(k));
      if !stop.Drained? { conn.closing := true; }
    }

    /** One read and the frames it completes. */
    method FillAndProcess(
      env: Env, conn: Connection, slot: nat, data: seq<Byte>, clock: nat -> nat, mem: nat -> bool, ghost at: nat)
      returns (k: nat)
      requires conn.Valid() && idemRing.Length == IDEM
      requires idemRing as object != conn.recvBuf && idemRing as object != conn.sendBuf
      requires |data| <= RING - conn.recvTail && |data| <= Writable(conn.recvHead, conn.recvTail, RING - 1)
      modifies this, idemRing, conn, conn.recvBuf
      ensures conn.Valid() && conn.Unsent() == old(conn.Unsent())
      ensures conn.past.received == old(conn.past).received + data
      ensures conn.recvTail == (old(conn.recvTail) + |data|) % RING
      ensures Leaves(mem, old(conn.Received()) + data, conn.Received())
      ensures conn.closing == (old(conn.closing) || Halts(conn.Received()))
      ensures Framed(old(conn.Received()) + data, old(conn.past).handled, k, conn.Received(), conn.past.handled)
      ensures (View(), conn.Core()) ==
              HandleAll(env, old(View()), old(conn.Core()), slot,
                        Frames(old(conn.Received()) + data).frames[..k], clock, at)
    {
      ghost var b, hs := conn.Received() + data, conn.past.handled;
      conn.Fill(data);
      k := ProcessData(env, conn, slot, clock, mem, at);
      FramedLeaves(mem, b, hs, k, conn.Received(), conn.past.handled);
    }

    /**
     One read and the frames it completes, beside the gateway machine: they are a run of the machine from s,
     and machine and objects agree again at its end r.
     */
    method ReadOnce(
      env: Env, conn: Connection, slot: nat, data: seq<Byte>, clock: nat -> nat, mem: nat -> bool, ghost s: State)
      returns (k: nat, ghost r: State)
      requires conn.Valid() && idemRing.Length == IDEM
      requires idemRing as object != conn.recvBuf && idemRing as object != conn.sendBuf
      requires |data| <= RING - conn.recvTail && |data| <= Writable(conn.recvHead, conn.recvTail, RING - 1)
      requires Tracks(s, slot, View(), conn.Core()) && ClockOk(s.last, clock)
      modifies this, idemRing, conn, conn.recvBuf
      ensures conn.Valid() && conn.Unsent() == old(conn.Unsent())
      ensures conn.past.received == old(conn.past).received + data
      ensures conn.recvTail == (old(conn.recvTail) + |data|) % RING
      ensures Leaves(mem, old(conn.Received()) + data, conn.Received())
      ensures conn.closing == (old(conn.closing) || Halts(conn.Received()))
      ensures Tracks(r, slot, View(), conn.Core())
      ensures Handled(env, s, slot, old(conn.past).handled, clock, k, r, conn.past.handled)
    {
      ghost var b, hs := conn.Received() + data, conn.past.handled;
      k := FillAndProcess(env, conn, slot, data, clock, mem, |s.log|);
      r := ProcessedIsRun(env, s, slot, b, hs, k, conn.Received(), conn.past.handled, clock,
                          View(), conn.Core());
    }

    /** The same for the bytes an answer gives. */
    method ReadData(
      env: Env, conn: Connection, slot: nat, answer: ReadResult, data: seq<Byte>, clock: nat -> nat, ghost s: State)
      returns (k: nat, ghost r: State, ghost read: Read)
      requires conn.Valid() && idemRing.Length == IDEM
      requires idemRing as object != conn.recvBuf && idemRing as object != conn.sendBuf
      requires answer.Data? && answer.bytes != [] && |conn.Received()| < RING - 1
      requires data == Cut(answer.bytes, Asked(conn.recvTail, |conn.Received()|)) && data != []
      requires |data| <= RING - conn.recvTail && |data| <= Writable(conn.recvHead, conn.recvTail, RING - 1)
      requires Tracks(s, slot, View(), conn.Core()) && ClockOk(s.last, clock)
      modifies this, idemRing, conn, conn.recvBuf
      ensures conn.Valid() && conn.Unsent() == old(conn.Unsent())
      ensures Tracks(r, slot, View(), conn.Core())
      ensures Handled(env, s, slot, old(conn.past).handled, clock, k, r, conn.past.handled)
      ensures Round(answer, true, read, old(conn.View()), conn.View())
    {
      ghost var v := conn.View();
      k, r := ReadOnce(env, conn, slot, data, clock, answer.mem, s);
      read := Read(data, conn.Received());
      RoundGoesOn(answer, data, v, conn.View());
    }

    /** The reading of one round of the loop; false ends it. */
    method ReadSome(env: Env, conn: Connection, slot: nat, answer: ReadResult, clock: nat -> nat, ghost s: State)
      returns (more: bool, k: nat, ghost r: State, ghost read: Read)
      requires conn.Valid() && idemRing.Length == IDEM
      requires idemRing as object != conn.recvBuf && idemRing as object != conn.sendBuf
      requires Tracks(s, slot, View(), conn.Core()) && ClockOk(s.last, clock)
      modifies this, idemRing, conn, conn.recvBuf
      ensures conn.Valid() && conn.Unsent() == old(conn.Unsent())
      ensures Tracks(r, slot, View(), conn.Core())
      ensures Handled(env, s, slot, old(conn.past).handled, clock, k, r, conn.past.handled)
      ensures Round(answer, more, read, old(conn.View()), conn.View())
    {
      var data;
      more, data := conn.TakeAnswer(answer);
      assert conn.Valid();
      if more {
        k, r, read := ReadData(env, conn, slot, answer, data, clock, s);
      } else {
        k, r, read := 0, s, Read([], []);
        NothingHandled(env, s, slot, conn.past.handled, clock);
      }
    }

    /** One round of the loop, with what it adds to the k0 frames handled so far. */
    method ReadStep(
      env: Env, conn: Connection, slot: nat, answer: ReadResult, clock: nat -> nat, k0: nat,
      ghost s: State, ghost hs: seq<Frame>, ghost r0: State)
      returns (more: bool, k: nat, ghost r: State, ghost read: Read)
      requires conn.Valid() && idemRing.Length == IDEM
      requires idemRing as object != conn.recvBuf && idemRing as object != conn.sendBuf
      requires Along(env, s, slot, hs, clock, k0, r0, conn.past.handled, View(), conn.Core())
      modifies this, idemRing, conn, conn.recvBuf
      ensures conn.Valid() && conn.Unsent() == old(conn.Unsent())
      ensures Along(env, s, slot, hs, clock, k, r, conn.past.handled, View(), conn.Core())
      ensures Round(answer, more, read, old(conn.View()), conn.View())
    {
      ghost var hs' := conn.past.handled;
      LaterOk(env, s, slot, hs, clock, k0, r0, hs');
      var n;
      more, n, r, read := ReadSome(env, conn, slot, answer, Later(clock, k0), r0);
      HandledChain(env, s, slot, hs, clock, k0, r0, hs', n, r, conn.past.handled);
      k := k0 + n;
    }

    /** The loop itself. */
    method ReadAll(
      env: Env, conn: Connection, slot: nat, answers: seq<ReadResult>, clock: nat -> nat, ghost s: State)
      returns (k: nat, ghost r: State, ghost done: seq<Read>)
      requires conn.Valid() && idemRing.Length == IDEM
      requires idemRing as object != conn.recvBuf && idemRing as object != conn.sendBuf
      requires Tracks(s, slot, View(), conn.Core()) && ClockOk(s.last, clock)
      modifies this, idemRing, conn, conn.recvBuf
      ensures conn.Valid() && conn.Unsent() == old(conn.Unsent())
      ensures Along(env, s, slot, old(conn.past).handled, clock, k, r, conn.past.handled, View(), conn.Core())
      ensures Outcome(answers, done, old(conn.View()), conn.View())
    {
      k, r, done := 0, s, [];
      ghost var hs, v0 := conn.past.handled, conn.View();
      NothingHandled(env, s, slot, hs, clock);
      NothingRead(answers, v0);
      var more, taken := true, 0;
      while more && taken < |answers|
        invariant conn.Valid() && conn.Unsent() == old(conn.Unsent())
        invariant Along(env, s, slot, hs, clock, k, r, conn.past.handled, View(), conn.Core())
        invariant taken == |done|
        invariant if more then SoFar(answers, done, v0, conn.View()) else Outcome(answers, done, v0, conn.View())
        decreases more, |answers| - taken
      {
        ghost var v, read := conn.View(), Read([], []);
        more, k, r, read := ReadStep(env, conn, slot, answers[taken], clock, k, s, hs, r);
        if more {
          SoFarStep(answers, done, v0, v, read, conn.View());
          done := done + [read];
          taken := taken + 1;
        } else {
          RoundEnds(answers, done, v0, v, read, conn.View());
        }
      }
    }

    /**
     The read loop of the gateway thread: reads of any size, each followed by frame processing, until the
     ring has no room, the peer closes, or the socket has nothing more. All bytes that the reads gave are received,
     in order; the connection is marked exactly at an end of file, an error, or by frame processing. The j-th
     frame handled in the loop is handled at clock(j). All of it is a run of the gateway machine, one arrival per
     frame, so what every run of the machine keeps holds of what the loop leaves (ReadKeepsInv). A frame refused
     for want of heap is tried again after the next read: only the heap at the last read matters for what is
     delivered.
     */
    method ReadLoop(
      env: Env, conn: Connection, slot: nat, answers: seq<ReadResult>, clock: nat -> nat, ghost s: State)
      returns (k: nat, ghost r: State, ghost done: seq<Read>)
      requires conn.Valid() && idemRing.Length == IDEM
      requires idemRing as object != conn.recvBuf && idemRing as object != conn.sendBuf
      requires Tracks(s, slot, View(), conn.Core()) && ClockOk(s.last, clock)
      modifies this, idemRing, conn, conn.recvBuf
      ensures conn.Valid() && conn.Unsent() == old(conn.Unsent())
      ensures Tracks(r, slot, View(), conn.Core())
      ensures Handled(env, s, slot, old(conn.past).handled, clock, k, r, conn.past.handled)
      ensures ReadsOk(answers, done, old(conn.recvTail), old(conn.Received()))
      ensures conn.past.received == old(conn.past).received + Given(done)
      ensures conn.Received() == LeftBy(done, old(conn.Received()))
      ensures |done| == |answers| || |conn.Received()| == RING - 1
              || answers[|done|].WouldBlock? || Hangup(answers[|done|])
      ensures conn.closing == (old(conn.closing) || Halted(done) || HungUp(answers, done, conn.Received()))
      ensures done != [] && Roomy(answers[|done| - 1]) ==> Delivered(conn.past, conn.Received())
    {
      k, r, done := ReadAll(env, conn, slot, answers, clock, s);
      if done != [] && Roomy(answers[|done| - 1]) {
        LastReadComplete(answers, done, old(conn.recvTail), old(conn.Received()));
        DeliveredIsFramed(conn.past.received, conn.past.handled, conn.Received());
      }
    }
  }

  // ---------------------------------------------------------------------
  // What a loop of done does
  // ---------------------------------------------------------------------

  /** What the read loop changes of a connection apart from its frames. */
  datatype Wire = Wire(received: seq<Byte>, unread: seq<Byte>, tail: nat, closing: bool)

  /** The size handed to read(2): up to the end of the buffer and up to the free space. */
  function Asked(tail: nat, unread: nat): nat
    requires tail < RING && unread < RING
  {
    if RING - tail < RING - 1 - unread then RING - tail else RING - 1 - unread
  }

  function Cut(bytes: seq<Byte>, n: nat): seq<Byte> {
    if |bytes| <= n then bytes else bytes[..n]
  }

  /** End of file or an error. */
  predicate Hangup(a: ReadResult) {
    a.ReadError? || (a.Data? && a.bytes == [])
  }

  /** What a read gave, and the bytes that are unread after the frames it completed. */
  datatype Read = Read(gave: seq<Byte>, rest: seq<Byte>)

  function Given(done: seq<Read>): seq<Byte> {
    if done == [] then [] else Given(done[..|done| - 1]) + done[|done| - 1].gave
  }

  function LeftBy(done: seq<Read>, b0: seq<Byte>): seq<Byte> {
    if done == [] then b0 else done[|done| - 1].rest
  }

  /** Frame processing stops at these bytes and marks the connection: a bad length, or a frame the heap refused. */
  predicate Halts(rest: seq<Byte>) {
    Complete(rest) || BadHeader(rest)
  }

  predicate Halted(done: seq<Read>) {
    done != [] && (Halted(done[..|done| - 1]) || Halts(done[|done| - 1].rest))
  }

  /** rest is b without its first frames, without all of them unless the heap failed for a large one. */
  ghost predicate Leaves(mem: nat -> bool, b: seq<Byte>, rest: seq<Byte>) {
    exists k: nat :: LeavesFrom(mem, b, rest, k)
  }

  ghost predicate LeavesFrom(mem: nat -> bool, b: seq<Byte>, rest: seq<Byte>, k: nat) {
    var fs := Frames(b).frames;
    && k <= |fs| && Frames(rest) == Split(fs[k..], Frames(b).rest)
    && (k < |fs| ==> !mem(k) && |fs[k].payload| > 256)
  }

  lemma FramedLeaves(mem: nat -> bool, b: seq<Byte>, hs: seq<Frame>, k: nat, rest: seq<Byte>, hs': seq<Frame>)
    requires Framed(b, hs, k, rest, hs') && (k < |Frames(b).frames| ==> !mem(k) && |Frames(b).frames[k].payload| > 256)
    ensures Leaves(mem, b, rest) && (k < |Frames(b).frames| <==> Complete(rest))
  {
    FramedEnd(b, hs, k, rest, hs');
    assert LeavesFrom(mem, b, rest, k);
  }

  /** One read with the ring's tail and unread bytes before it. */
  ghost predicate ReadOk(answer: ReadResult, tail: nat, b: seq<Byte>, read: Read) {
    && answer.Data? && read.gave != [] && tail < RING && |b| < RING
    && read.gave == Cut(answer.bytes, Asked(tail, |b|))
    && Leaves(answer.mem, b + read.gave, read.rest)
  }

  /** Read n, on the state that the ones before it left. */
  ghost predicate ReadAt(answers: seq<ReadResult>, done: seq<Read>, tail0: nat, b0: seq<Byte>, n: nat)
    requires n < |done| <= |answers|
  {
    ReadOk(answers[n], (tail0 + |Given(done[..n])|) % RING, LeftBy(done[..n], b0), done[n])
  }

  /** The reads are those of the first answers, each on the state that the ones before it left. */
  ghost predicate ReadsOk(answers: seq<ReadResult>, done: seq<Read>, tail0: nat, b0: seq<Byte>) {
    |done| <= |answers| && forall n: nat :: n < |done| ==> ReadAt(answers, done, tail0, b0, n)
  }

  /** One round of the loop. */
  ghost predicate Round(answer: ReadResult, more: bool, read: Read, v: Wire, v': Wire) {
    && (more <==> answer.Data? && answer.bytes != [] && |v.unread| < RING - 1)
    && if more then
         && ReadOk(answer, v.tail, v.unread, read)
         && v' == Wire(v.received + read.gave, read.rest, (v.tail + |read.gave|) % RING, v.closing || Halts(read.rest))
       else v' == v.(closing := v.closing || (Hangup(answer) && |v.unread| < RING - 1))
  }

  /** The state after the reads, while the loop goes on. */
  ghost predicate SoFar(answers: seq<ReadResult>, done: seq<Read>, v0: Wire, v: Wire) {
    && ReadsOk(answers, done, v0.tail, v0.unread)
    && v == Wire(v0.received + Given(done), LeftBy(done, v0.unread), (v0.tail + |Given(done)|) % RING,
                 v0.closing || Halted(done))
  }

  /** The answer that ended the loop was an end of file or an error. */
  ghost predicate HungUp(answers: seq<ReadResult>, done: seq<Read>, unread: seq<Byte>) {
    |done| < |answers| && Hangup(answers[|done|]) && |unread| < RING - 1
  }

  /** The state after the loop, and why it ended. */
  ghost predicate Outcome(answers: seq<ReadResult>, done: seq<Read>, v0: Wire, v: Wire) {
    && ReadsOk(answers, done, v0.tail, v0.unread)
    && (|done| == |answers| || |v.unread| >= RING - 1 || answers[|done|].WouldBlock? || Hangup(answers[|done|]))
    && v == Wire(v0.received + Given(done), LeftBy(done, v0.unread), (v0.tail + |Given(done)|) % RING,
                 v0.closing || Halted(done) || HungUp(answers, done, LeftBy(done, v0.unread)))
  }

  lemma NothingRead(answers: seq<ReadResult>, v0: Wire)
    requires v0.tail < RING
    ensures SoFar(answers, [], v0, v0)
  {
    assert v0.received + [] == v0.received;
    ModSmall(v0.tail, RING);
  }

  lemma RoundGoesOn(answer: ReadResult, data: seq<Byte>, v: Wire, v': Wire)
    requires answer.Data? && answer.bytes != [] && v.tail < RING && |v.unread| < RING - 1
    requires data == Cut(answer.bytes, Asked(v.tail, |v.unread|)) && data != []
    requires Leaves(answer.mem, v.unread + data, v'.unread)
    requires v'.received == v.received + data && v'.tail == (v.tail + |data|) % RING
    requires v'.closing == (v.closing || Halts(v'.unread))
    ensures Round(answer, true, Read(data, v'.unread), v, v')
  {
  }

  lemma ReadAtSame(answers: seq<ReadResult>, done: seq<Read>, next: seq<Read>, tail0: nat, b0: seq<Byte>, n: nat)
    requires n < |done| <= |answers| && n < |next| <= |answers| && next[..n] == done[..n] && next[n] == done[n]
    requires ReadAt(answers, done, tail0, b0, n)
    ensures ReadAt(answers, next, tail0, b0, n)
  {
  }

  lemma ReadAtEnd(answers: seq<ReadResult>, done: seq<Read>, next: seq<Read>, tail0: nat, b0: seq<Byte>)
    requires |done| < |next| <= |answers| && next[..|done|] == done
    requires ReadOk(answers[|done|], (tail0 + |Given(done)|) % RING, LeftBy(done, b0), next[|done|])
    ensures ReadAt(answers, next, tail0, b0, |done|)
  {
  }

  lemma ReadsSnoc(answers: seq<ReadResult>, done: seq<Read>, read: Read, tail0: nat, b0: seq<Byte>)
    requires ReadsOk(answers, done, tail0, b0) && |done| < |answers|
    requires ReadOk(answers[|done|], (tail0 + |Given(done)|) % RING, LeftBy(done, b0), read)
    ensures ReadsOk(answers, done + [read], tail0, b0)
  {
    var next := done + [read];
    assert next[..|done|] == done;
    ReadAtEnd(answers, done, next, tail0, b0);
    forall n: nat | n < |done| ensures ReadAt(answers, next, tail0, b0, n) {
      assert next[..n] == done[..n];
      ReadAtSame(answers, done, next, tail0, b0, n);
    }
  }

  lemma GivenSnoc(done: seq<Read>, read: Read)
    ensures Given(done + [read]) == Given(done) + read.gave
    ensures Halted(done + [read]) == (Halted(done) || Halts(read.rest))
  {
    assert (done + [read])[..|done|] == done;
  }

  lemma SoFarStep(answers: seq<ReadResult>, done: seq<Read>, v0: Wire, v: Wire, read: Read, v': Wire)
    requires SoFar(answers, done, v0, v) && |done| < |answers| && Round(answers[|done|], true, read, v, v')
    ensures SoFar(answers, done + [read], v0, v')
  {
    ReadsSnoc(answers, done, read, v0.tail, v0.unread);
    GivenSnoc(done, read);
    Associative(v0.received, Given(done), read.gave);
    ModStep(v0.tail + |Given(done)|, |read.gave|, RING);
  }

  lemma RoundEnds(answers: seq<ReadResult>, done: seq<Read>, v0: Wire, v: Wire, read: Read, v': Wire)
    requires SoFar(answers, done, v0, v) && |done| < |answers| && Round(answers[|done|], false, read, v, v')
    ensures Outcome(answers, done, v0, v')
  {
  }

  /** With heap to spare the last read left no complete frame. */
  lemma LastReadComplete(answers: seq<ReadResult>, done: seq<Read>, tail0: nat, b0: seq<Byte>)
    requires ReadsOk(answers, done, tail0, b0) && done != [] && Roomy(answers[|done| - 1])
    ensures !Complete(LeftBy(done, b0))
  {
    var n := |done| - 1;
    assert ReadAt(answers, done, tail0, b0, n);
    var b := LeftBy(done[..n], b0) + done[n].gave;
    var k: nat :| LeavesFrom(answers[n].mem, b, done[n].rest, k);
    assert Frames(b).frames[k..] == [];
    NoneLeft(done[n].rest, Frames(b).rest);
  }

  lemma NoneLeft(b: seq<Byte>, rest: seq<Byte>)
    requires Frames(b) == Split([], rest)
    ensures !Complete(b)
  {
  }

  /** What one call of read(2) answers; mem(j) is whether the heap has room for the j-th frame handled after it. */
  datatype ReadResult = Data(bytes: seq<Byte>, mem: nat -> bool) | WouldBlock | ReadError

  /** The heap does not fail while the frames of this read are handled. */
  ghost predicate Roomy(a: ReadResult) {
    a.Data? ==> forall j :: a.mem(j)
  }

  /** The machine's state and the objects' agree on the context and on the connection in the slot. */
  ghost predicate Tracks(s: State, slot: nat, g: Shared, c: Conn) {
    slot < |s.conns| && s.shared == g && s.conns[slot] == c && c.open && |g.idem| == IDEM
  }

  /** The clock does not go back. */
  ghost predicate ClockOk(last: nat, clock: nat -> nat) {
    (forall j: nat :: last <= clock(j)) && (forall i: nat, j: nat :: i <= j ==> clock(i) <= clock(j))
  }

  /** What f says from k on. */
  function Later<T>(f: nat -> T, k: nat): nat -> T {
    (j: nat) => f(k + j)
  }

  /** k frames beyond hs were handled in order, which is a run of the machine from s to r. */
  ghost predicate Handled(
    env: Env, s: State, slot: nat, hs: seq<Frame>, clock: nat -> nat, k: nat, r: State, hs': seq<Frame>)
  {
    && |s.shared.idem| == IDEM && |hs'| == |hs| + k && hs <= hs'
    && var run := Arrivals(slot, hs'[|hs|..], clock);
    && GatewayCore.IsRun(env, s, run) && r == GatewayCore.Final(env, s, run)
    && r.last == if k == 0 then s.last else clock(k - 1)
  }

  lemma NothingHandled(env: Env, s: State, slot: nat, hs: seq<Frame>, clock: nat -> nat)
    requires |s.shared.idem| == IDEM
    ensures Handled(env, s, slot, hs, clock, 0, s, hs)
  {
    assert hs[|hs|..] == [] && Arrivals(slot, [], clock) == [];
  }

  /** What ProcessData does is a run of the machine. */
  lemma ProcessedIsRun(
    env: Env, s: State, slot: nat, b0: seq<Byte>, hs0: seq<Frame>, k: nat, b: seq<Byte>, hs: seq<Frame>,
    clock: nat -> nat, g: Shared, c: Conn)
    returns (r: State)
    requires slot < |s.conns| && s.conns[slot].open && |s.shared.idem| == IDEM && ClockOk(s.last, clock)
    requires Framed(b0, hs0, k, b, hs)
    requires (g, c) == HandleAll(env, s.shared, s.conns[slot], slot, Frames(b0).frames[..k], clock, |s.log|)
    ensures Tracks(r, slot, g, c) && Handled(env, s, slot, hs0, clock, k, r, hs)
  {
    var fs := Frames(b0).frames[..k];
    HandleAllIsRun(env, s, slot, fs, clock);
    r := GatewayCore.Final(env, s, Arrivals(slot, fs, clock));
    assert hs[|hs0|..] == fs;
  }

  /** Machine and objects agree after k frames of a loop that began in state s with hs handled. */
  ghost predicate Along(
    env: Env, s: State, slot: nat, hs: seq<Frame>, clock: nat -> nat, k: nat, r: State, hs': seq<Frame>,
    g: Shared, c: Conn)
  {
    Tracks(r, slot, g, c) && Handled(env, s, slot, hs, clock, k, r, hs') && ClockOk(s.last, clock)
  }

  lemma LaterOk(env: Env, s: State, slot: nat, hs: seq<Frame>, clock: nat -> nat, k: nat, r: State, hs': seq<Frame>)
    requires Handled(env, s, slot, hs, clock, k, r, hs') && ClockOk(s.last, clock)
    ensures ClockOk(r.last, Later(clock, k))
  {
  }

  lemma HandledChain(
    env: Env, s: State, slot: nat, hs: seq<Frame>, clock: nat -> nat, k: nat, r: State, hs': seq<Frame>,
    n: nat, q: State, hs'': seq<Frame>)
    requires Handled(env, s, slot, hs, clock, k, r, hs')
    requires Handled(env, r, slot, hs', Later(clock, k), n, q, hs'')
    ensures Handled(env, s, slot, hs, clock, k + n, q, hs'')
  {
    var fs, gs := hs'[|hs|..], hs''[|hs'|..];
    ArrivalsAppend(slot, hs, hs', hs'', clock, k);
    RunAppend(env, s, Arrivals(slot, fs, clock), Arrivals(slot, gs, Later(clock, k)));
  }

  lemma ArrivalsAppend(slot: nat, hs: seq<Frame>, hs': seq<Frame>, hs'': seq<Frame>, clock: nat -> nat, k: nat)
    requires hs <= hs' <= hs'' && |hs'| == |hs| + k
    ensures Arrivals(slot, hs'[|hs|..], clock) + Arrivals(slot, hs''[|hs'|..], Later(clock, k)) ==
            Arrivals(slot, hs''[|hs|..], clock)
  {
    var a, b := Arrivals(slot, hs'[|hs|..], clock), Arrivals(slot, hs''[|hs'|..], Later(clock, k));
    var c := Arrivals(slot, hs''[|hs|..], clock);
    forall i | 0 <= i < |c| ensures c[i] == (a + b)[i] {
      assert hs''[|hs|..][i] == if i < k then hs'[|hs|..][i] else hs''[|hs'|..][i - k];
    }
  }

  /** What every run of the machine keeps (authentication, rate and duplicate filter) holds after a read loop. */
  lemma ReadKeepsInv(
    env: Env, s: State, slot: nat, hs: seq<Frame>, clock: nat -> nat, k: nat, r: State, hs': seq<Frame>)
    requires Handled(env, s, slot, hs, clock, k, r, hs')
    ensures GatewayCore.Inv(env, s) ==> GatewayCore.Inv(env, r)
  {
    if GatewayCore.Inv(env, s) { RunKeepsInv(env, s, Arrivals(slot, hs'[|hs|..], clock)); }
  }

  /** From any reachable state, a read loop offers exactly what the frames it handles call for. */
  lemma ReadOffersDue(
    env: Env, n: nat, before: seq<Event>, slot: nat, hs: seq<Frame>, clock: nat -> nat, k: nat, r: State,
    hs': seq<Frame>)
    requires GatewayCore.IsRun(env, Init(n), before)
    requires Handled(env, GatewayCore.Final(env, Init(n), before), slot, hs, clock, k, r, hs')
    ensures r.shared.out == GatewayOffers.Offers(env, before + Arrivals(slot, hs'[|hs|..], clock))
  {
    var s, run := GatewayCore.Final(env, Init(n), before), Arrivals(slot, hs'[|hs|..], clock);
    GatewayOffers.Reached(env, n, before);
    GatewayOffers.RunTied(env, s, run);
    RunIsLogged(env, s, run);
  }

  /** What was handled and what is still in the ring are what the plain framer finds in the bytes received. */
  ghost predicate Delivered(past: History, unread: seq<Byte>) {
    Frames(past.received) == Split(past.handled, unread)
  }

  /** Handled frames plus an incomplete remainder are exactly what the plain framer finds in the stream. */
  lemma DeliveredIsFramed(received: seq<Byte>, handled: seq<Frame>, rest: seq<Byte>)
    requires received == EncodeAll(handled) + rest && !Complete(rest)
    ensures Frames(received) == Split(handled, rest)
  {
    FramesOfEncoded(handled, rest);
    assert handled + [] == handled;
  }

  /** Whatever part has been sent, the peer's framer finds the accepted responses, whole and in order. */
  lemma ResponsesArrive(sent: seq<Byte>, unsent: seq<Byte>, accepted: seq<Frame>)
    requires sent + unsent == EncodeAll(accepted)
    ensures Frames(sent + unsent) == Split(accepted, [])
    ensures Frames(sent).frames <= accepted
    ensures unsent == [] ==> Frames(sent).frames == accepted
  {
    FramesOfEncoded(accepted, []);
    assert EncodeAll(accepted) + [] == EncodeAll(accepted) && accepted + [] == accepted;
    FramesAppend(sent, unsent);
    assert sent + [] == sent;
  }

  datatype Stop = Go | Drained | BadLength | NoMemory

  /** What the unread bytes and the heap were like when the frame loop ended. */
  ghost predicate Explains(stop: Stop, b: seq<Byte>, mem: bool) {
    match stop
    case Go => true
    case Drained => !Complete(b) && !BadHeader(b)
    case BadLength => BadHeader(b)
    case NoMemory => Complete(b) && !mem && |FrontFrame(b).payload| > 256
  }

  ghost predicate Same(
    u: seq<Byte>, cl: bool, p: History, t: nat, u': seq<Byte>, cl': bool, p': History, t': nat)
  {
    u' == u && cl' == cl && p'.received == p.received && t' == t
  }

  /** k frames of b0 are handled; b is what the framer has yet to see. */
  ghost predicate Framed(b0: seq<Byte>, hs0: seq<Frame>, k: nat, b: seq<Byte>, hs: seq<Frame>) {
    && k <= |Frames(b0).frames|
    && Frames(b) == Split(Frames(b0).frames[k..], Frames(b0).rest)
    && hs == hs0 + Frames(b0).frames[..k]
  }

  lemma FramedStep(b0: seq<Byte>, hs0: seq<Frame>, k: nat, b: seq<Byte>, hs: seq<Frame>)
    requires Framed(b0, hs0, k, b, hs) && Complete(b)
    ensures k < |Frames(b0).frames| && Frames(b0).frames[k] == FrontFrame(b)
    ensures Framed(b0, hs0, k + 1, b[Length(b)..], hs + [FrontFrame(b)])
  {
    var fs := Frames(b0).frames;
    NextOfSplit(b, fs[k..], Frames(b0).rest);
    assert fs[k..][1..] == fs[k + 1..] && fs[..k + 1] == fs[..k] + [fs[k]];
  }

  lemma NextOfSplit(b: seq<Byte>, fs: seq<Frame>, rest: seq<Byte>)
    requires Frames(b) == Split(fs, rest) && Complete(b)
    ensures fs != [] && fs[0] == FrontFrame(b) && Frames(b[Length(b)..]) == Split(fs[1..], rest)
  {
  }

  lemma FramedEnd(b0: seq<Byte>, hs0: seq<Frame>, k: nat, b: seq<Byte>, hs: seq<Frame>)
    requires Framed(b0, hs0, k, b, hs)
    ensures k < |Frames(b0).frames| <==> Complete(b)
  {
    assert |Frames(b0).frames[k..]| == |Frames(b0).frames| - k;
  }

  ghost predicate Follows(env: Env, slot: nat, a: (Shared, Conn), f: Frame, now: nat, at: nat, b: (Shared, Conn)) {
    |a.0.idem| == IDEM && Handle(env, a.0, a.1, slot, f, now, at) == b
  }

  /** Each state of the trace follows from the one before by handling the next frame. */
  ghost predicate Traced(
    env: Env, slot: nat, fs: seq<Frame>, clock: nat -> nat, at: nat, trace: seq<(Shared, Conn)>)
  {
    && 1 <= |trace| <= |fs| + 1
    && forall j :: 0 <= j < |trace| - 1 ==> Follows(env, slot, trace[j], fs[j], clock(j), at + j, trace[j + 1])
  }

  lemma TracedStep(
    env: Env, slot: nat, fs: seq<Frame>, clock: nat -> nat, at: nat, trace: seq<(Shared, Conn)>, b: (Shared, Conn))
    requires Traced(env, slot, fs, clock, at, trace) && |trace| <= |fs|
    requires var k := |trace| - 1; Follows(env, slot, trace[k], fs[k], clock(k), at + k, b)
    ensures Traced(env, slot, fs, clock, at, trace + [b])
  {
    var t := trace + [b];
    forall j | 0 <= j < |t| - 1 ensures Follows(env, slot, t[j], fs[j], clock(j), at + j, t[j + 1]) {
      assert t[j] == trace[j];
      if j < |trace| - 1 { assert t[j + 1] == trace[j + 1]; }
    }
  }

  /** k frames of b0 are handled, and trace leads from the state at the start to the present one. */
  ghost predicate Progress(
    env: Env, slot: nat, clock: nat -> nat, at: nat, b0: seq<Byte>, hs0: seq<Frame>, start: (Shared, Conn), k: nat,
    b: seq<Byte>, hs: seq<Frame>, trace: seq<(Shared, Conn)>, now: (Shared, Conn))
  {
    && Framed(b0, hs0, k, b, hs) && Traced(env, slot, Frames(b0).frames, clock, at, trace)
    && |trace| == k + 1 && trace[0] == start && trace[k] == now
  }

  lemma ProgressStart(
    env: Env, slot: nat, clock: nat -> nat, at: nat, b0: seq<Byte>, hs0: seq<Frame>, start: (Shared, Conn))
    ensures Progress(env, slot, clock, at, b0, hs0, start, 0, b0, hs0, [start], start)
  {
    assert Frames(b0).frames[0..] == Frames(b0).frames && hs0 + Frames(b0).frames[..0] == hs0;
  }

  lemma ProgressStep(
    env: Env, slot: nat, clock: nat -> nat, at: nat, b0: seq<Byte>, hs0: seq<Frame>, start: (Shared, Conn), k: nat,
    b: seq<Byte>, hs: seq<Frame>, trace: seq<(Shared, Conn)>, now: (Shared, Conn), next: (Shared, Conn))
    requires Progress(env, slot, clock, at, b0, hs0, start, k, b, hs, trace, now) && Complete(b)
    requires Follows(env, slot, now, FrontFrame(b), clock(k), at + k, next)
    ensures Progress(env, slot, clock, at, b0, hs0, start, k + 1, b[Length(b)..], hs + [FrontFrame(b)],
                     trace + [next], next)
  {
    FramedStep(b0, hs0, k, b, hs);
    TracedStep(env, slot, Frames(b0).frames, clock, at, trace, next);
  }

  lemma ProgressEnd(
    env: Env, slot: nat, clock: nat -> nat, at: nat, b0: seq<Byte>, hs0: seq<Frame>, start: (Shared, Conn), k: nat,
    b: seq<Byte>, hs: seq<Frame>, trace: seq<(Shared, Conn)>, now: (Shared, Conn), stop: Stop, mem: bool)
    requires Progress(env, slot, clock, at, b0, hs0, start, k, b, hs, trace, now) && |start.0.idem| == IDEM
    requires !stop.Go? && Explains(stop, b, mem)
    ensures Framed(b0, hs0, k, b, hs)
    ensures k < |Frames(b0).frames| ==> !mem && |Frames(b0).frames[k].payload| > 256
    ensures stop.Drained? <==> k == |Frames(b0).frames| && !BadHeader(b)
    ensures now == HandleAll(env, start.0, start.1, slot, Frames(b0).frames[..k], clock, at)
  {
    FramedEnd(b0, hs0, k, b, hs);
    if Complete(b) { FramedStep(b0, hs0, k, b, hs); }
    TracedIsHandleAll(env, slot, Frames(b0).frames, clock, at, trace, k);
  }

  lemma {:induction false} TracedIsHandleAll(
    env: Env, slot: nat, fs: seq<Frame>, clock: nat -> nat, at: nat, trace: seq<(Shared, Conn)>, k: nat)
    requires Traced(env, slot, fs, clock, at, trace) && k < |trace| && |trace[0].0.idem| == IDEM
    ensures trace[k] == HandleAll(env, trace[0].0, trace[0].1, slot, fs[..k], clock, at)
    decreases k
  {
    if k > 0 {
      TracedIsHandleAll(env, slot, fs, clock, at, trace, k - 1);
      assert Follows(env, slot, trace[k - 1], fs[k - 1], clock(k - 1), at + (k - 1), trace[k - 1 + 1]);
      HandleSnoc(env, trace[0].0, trace[0].1, slot, fs, clock, at, k - 1);
    }
  }

  function Arrivals(slot: nat, fs: seq<Frame>, clock: nat -> nat): seq<Event> {
    seq(|fs|, j requires 0 <= j < |fs| => Arrive(slot, fs[j], clock(j)))
  }

  /** r is where the arrivals of fs lead from s, and handling them in order leads there too. */
  ghost predicate ArrivedAt(env: Env, s: State, slot: nat, fs: seq<Frame>, clock: nat -> nat, r: State)
    requires |s.shared.idem| == IDEM && slot < |s.conns|
  {
    && |r.conns| == |s.conns| && r.conns[slot].open && |r.log| == |s.log| + |fs| && |r.shared.idem| == IDEM
    && (r.shared, r.conns[slot]) == HandleAll(env, s.shared, s.conns[slot], slot, fs, clock, |s.log|)
    && r.last == if fs == [] then s.last else clock(|fs| - 1)
  }

  lemma ArrivedNext(env: Env, s: State, slot: nat, fs: seq<Frame>, clock: nat -> nat, r: State, f: Frame)
    requires |s.shared.idem| == IDEM && slot < |s.conns| && ClockOk(s.last, clock)
    requires ArrivedAt(env, s, slot, fs, clock, r)
    ensures var e := Arrive(slot, f, clock(|fs|));
            Enabled(r, e) && ArrivedAt(env, s, slot, fs + [f], clock, GatewayCore.Step(env, r, e))
  {
    var n, all := |fs|, fs + [f];
    ArriveOne(env, r, slot, f, clock(n));
    HandleSnoc(env, s.shared, s.conns[slot], slot, all, clock, |s.log|, n);
    assert all[..n] == fs && all[..n + 1] == all;
  }

  lemma ArrivalsSnoc(slot: nat, fs: seq<Frame>, clock: nat -> nat, f: Frame)
    ensures Arrivals(slot, fs + [f], clock) == Arrivals(slot, fs, clock) + [Arrive(slot, f, clock(|fs|))]
  {
  }

  /** Processing a connection's frames is a run of the gateway machine, one arrival per frame. */
  lemma {:induction false} HandleAllIsRun(env: Env, s: State, slot: nat, fs: seq<Frame>, clock: nat -> nat)
    requires |s.shared.idem| == IDEM && slot < |s.conns| && s.conns[slot].open
    requires ClockOk(s.last, clock)
    ensures GatewayCore.IsRun(env, s, Arrivals(slot, fs, clock))
    ensures ArrivedAt(env, s, slot, fs, clock, GatewayCore.Final(env, s, Arrivals(slot, fs, clock)))
    decreases |fs|
  {
    if fs != [] {
      var n := |fs| - 1;
      HandleAllIsRun(env, s, slot, fs[..n], clock);
      var run := Arrivals(slot, fs[..n], clock);
      assert fs == fs[..n] + [fs[n]];
      ArrivedNext(env, s, slot, fs[..n], clock, GatewayCore.Final(env, s, run), fs[n]);
      ArrivalsSnoc(slot, fs[..n], clock, fs[n]);
      RunSnoc(env, s, run, Arrive(slot, fs[n], clock(n)));
    }
  }

  lemma ArriveOne(env: Env, s: State, slot: nat, f: Frame, now: nat)
    requires |s.shared.idem| == IDEM && slot < |s.conns|
    ensures var r := GatewayCore.Step(env, s, Arrive(slot, f, now));
            && |r.conns| == |s.conns| && r.conns[slot].open == s.conns[slot].open && r.last == now
            && |r.log| == |s.log| + 1
            && (r.shared, r.conns[slot]) == Handle(env, s.shared, s.conns[slot], slot, f, now, |s.log|)
  {
    HandleOffers(env, s.shared, s.conns[slot], slot, f, now, |s.log|);
  }

  lemma HandleSnoc(env: Env, g0: Shared, c0: Conn, slot: nat, fs: seq<Frame>, clock: nat -> nat, at: nat, k: nat)
    requires |g0.idem| == IDEM && k < |fs|
    ensures var (g, c) := HandleAll(env, g0, c0, slot, fs[..k], clock, at);
            HandleAll(env, g0, c0, slot, fs[..k + 1], clock, at) == Handle(env, g, c, slot, fs[k], clock(k), at + k)
  {
    assert fs[..k + 1][..k] == fs[..k];
  }

  lemma HandledGrows(handled: seq<Frame>, b: seq<Byte>)
    requires Complete(b)
    ensures EncodeAll(handled) + b == EncodeAll(handled + [FrontFrame(b)]) + b[Length(b)..]
  {
    var f := FrontFrame(b);
    EncodeAllSnoc(handled, f);
    FrontIsPrefix(b);
    assert b == b[..Length(b)] + b[Length(b)..];
    Associative(EncodeAll(handled), Encode(f), b[Length(b)..]);
  }
}
