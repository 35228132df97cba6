/**
 The journal pipeline: entries accepted into the ring, popped by the writer
 thread, copied to the batch buffer and written to the append-only file with
 short writes, interrupted calls and errors. The ring is used through its atomic
 push and pop, with one appending thread; `Linearizable` in Spsc justifies that.
 */
module Journal {
  import opened Bits
  import opened Framing
  import opened Ring
  import opened Options

  const ENTRY: nat := 104              // sizeof(bt_journal_entry_t)
  const BUF: nat := 16 * 1024 * 1024   // BT_CFG_JOURNAL_BUF_SIZE
  const SLOTS: nat := 262144           // JOURNAL_RING_SIZE

  type Entry = e: seq<Byte> | |e| == ENTRY witness seq(ENTRY, _ => 0)

  function Bytes(es: seq<Entry>): seq<Byte> {
    if es == [] then [] else es[0] + Bytes(es[1..])
  }

  lemma {:induction false} BytesSnoc(es: seq<Entry>, e: Entry)
    ensures Bytes(es + [e]) == Bytes(es) + e
    decreases |es|
  {
    if es == [] {
      assert es + [e] == [e] && Bytes([e]) == e + [];
    } else {
      assert (es + [e])[1..] == es[1..] + [e];
      BytesSnoc(es[1..], e);
      Associative(es[0], Bytes(es[1..]), e);
    }
  }

  // ---------------------------------------------------------------------
  // Writing with short writes
  // ---------------------------------------------------------------------

  /** What one call of write(2) answers. */
  datatype WriteResult = Wrote(n: nat) | Interrupted | Failed

  /**
   Bytes written by the flush loop when done of total are already out. The loop retries on EINTR, goes on
   after a short write and gives up on any other answer; answers that run out count as a failure.
   */
  function WrittenFrom(results: seq<WriteResult>, total: nat, done: nat): (w: nat)
    requires done <= total
    ensures done <= w <= total
    decreases |results|
  {
    if done == total || results == [] then done
    else
      match results[0]
      case Interrupted => WrittenFrom(results[1..], total, done)
      case Failed => done
      case Wrote(n) =>
        if n == 0 then done
        else WrittenFrom(results[1..], total, if n < total - done then done + n else total)
  }

  /** The bytes the answers of write(2) take, whatever there is to write: the good ones before the first bad one. */
  function Taken(results: seq<WriteResult>): nat {
    if results == [] then 0
    else
      match results[0]
      case Interrupted => Taken(results[1..])
      case Failed => 0
      case Wrote(n) => if n == 0 then 0 else n + Taken(results[1..])
  }

  /** The loop gets out as many bytes as the answers take, and stops at the end of the buffer. */
  lemma {:induction false} WrittenIsTaken(results: seq<WriteResult>, total: nat, done: nat)
    requires done <= total
    ensures var w := WrittenFrom(results, total, done);
            w == if done + Taken(results) < total then done + Taken(results) else total
    decreases |results|
  {
    if done < total && results != [] {
      match results[0]
      case Interrupted => WrittenIsTaken(results[1..], total, done);
      case Failed =>
      case Wrote(n) =>
        if n > 0 { WrittenIsTaken(results[1..], total, if n < total - done then done + n else total); }
    }
  }

  predicate GoodAnswer(r: WriteResult) {
    r.Interrupted? || (r.Wrote? && r.n > 0)
  }

  /**
   An interrupted call makes no difference wherever it comes; a refusal or an empty write ends the flush; a short
   write behind good answers adds its bytes.
   */
  lemma {:induction false} TakenExactly(a: seq<WriteResult>, r: WriteResult, b: seq<WriteResult>)
    ensures r.Interrupted? ==> Taken(a + [r] + b) == Taken(a + b)
    ensures !GoodAnswer(r) ==> Taken(a + [r] + b) == Taken(a)
    ensures GoodAnswer(r) && r.Wrote? && (forall i :: 0 <= i < |a| ==> GoodAnswer(a[i])) ==>
              Taken(a + [r] + b) == Taken(a) + r.n + Taken(b)
    decreases |a|
  {
    if a == [] {
      assert a + [r] + b == [r] + b && a + b == b && ([r] + b)[1..] == b;
    } else {
      assert (a + [r] + b)[1..] == a[1..] + [r] + b && (a + b)[1..] == a[1..] + b;
      TakenExactly(a[1..], r, b);
    }
  }

  // ---------------------------------------------------------------------
  // The pipeline as a machine
  // ---------------------------------------------------------------------

  /** accepted is history. `full` is set once the capacity flush for the entry in transit is done. */
  datatype Pipeline = Pipeline(
    file: seq<Byte>, buf: seq<Byte>, transit: Option<Entry>, full: bool, ring: seq<Entry>,
    running: bool, exited: bool, dropped: nat, flushed: nat, accepted: seq<Entry>)

  datatype Action =
    | Append(e: Entry)
    | Pop
    | CapacityFlush(results: seq<WriteResult>)
    | Copy
    | TimerFlush(results: seq<WriteResult>)
    | Stop
    | Exit(results: seq<WriteResult>)

  predicate Enabled(p: Pipeline, a: Action) {
    match a
    case Append(_) => true
    case Pop => !p.exited && p.transit.None? && p.ring != []
    case CapacityFlush(_) => p.transit.Some? && !p.full && |p.buf| + ENTRY > BUF
    case Copy => p.transit.Some? && (p.full || |p.buf| + ENTRY <= BUF)
    case TimerFlush(_) => !p.exited && p.transit.None?
    case Stop => p.running
    case Exit(_) => !p.running && !p.exited && p.transit.None?
  }

  function Flush(p: Pipeline, results: seq<WriteResult>): Pipeline {
    var w := WrittenFrom(results, |p.buf|, 0);
    p.(file := p.file + p.buf[..w], buf := p.buf[w..], flushed := p.flushed + w)
  }

  function Step(p: Pipeline, a: Action): Pipeline
    requires Enabled(p, a)
  {
    match a
    case Append(e) =>
      if |p.ring| < SLOTS - 1 then p.(ring := p.ring + [e], accepted := p.accepted + [e])
      else p.(dropped := p.dropped + 1)
    case Pop => p.(transit := Some(p.ring[0]), ring := p.ring[1..])
    case CapacityFlush(results) => Flush(p, results).(full := true)
    case Copy => p.(buf := p.buf + p.transit.value, transit := None, full := false)
    case TimerFlush(results) => Flush(p, results)
    case Stop => p.(running := false)
    case Exit(results) => Flush(p, results).(exited := true)
  }

  const OPEN: Pipeline := Pipeline([], [], None, false, [], true, false, 0, 0, [])

  /** The copy that follows a capacity flush stays inside the buffer. */
  predicate Room(p: Pipeline, a: Action)
    requires Enabled(p, a)
  {
    a.CapacityFlush? ==> |Step(p, a).buf| + ENTRY <= BUF
  }

  /**
   The copy that follows a capacity flush stays inside the buffer exactly when the answers of write(2), up to the
   first bad one, take the bytes that are in the way.
   */
  lemma RoomExactly(p: Pipeline, results: seq<WriteResult>)
    requires Enabled(p, CapacityFlush(results)) && |p.buf| <= BUF
    ensures var q := Step(p, CapacityFlush(results));
            && Enabled(q, Copy)
            && (|Step(q, Copy).buf| <= BUF <==> Taken(results) >= |p.buf| + ENTRY - BUF)
            && (|Step(q, Copy).buf| <= BUF <==> Room(p, CapacityFlush(results)))
  {
    WrittenIsTaken(results, |p.buf|, 0);
  }

  function InTransit(p: Pipeline): seq<Byte> {
    if p.transit.Some? then p.transit.value else []
  }

  /** File, buffer, entry in transit and ring are, in this order, the accepted entries. */
  ghost predicate Inv(p: Pipeline) {
    && p.file + (p.buf + (InTransit(p) + Bytes(p.ring))) == Bytes(p.accepted)
    && |p.buf| <= BUF && |p.ring| < SLOTS && p.flushed == |p.file|
    && (p.full ==> p.transit.Some? && |p.buf| + ENTRY <= BUF)
    && (p.exited ==> !p.running && p.transit.None?)
  }

  lemma AppendKeeps(file: seq<Byte>, buf: seq<Byte>, t: seq<Byte>, ring: seq<Entry>, accepted: seq<Entry>, e: Entry)
    requires file + (buf + (t + Bytes(ring))) == Bytes(accepted)
    ensures file + (buf + (t + Bytes(ring + [e]))) == Bytes(accepted + [e])
  {
    BytesSnoc(ring, e);
    BytesSnoc(accepted, e);
    var r := Bytes(ring);
    Associative(t, r, e);
    Associative(buf, t + r, e);
    Associative(file, buf + (t + r), e);
  }

  lemma FlushKeeps(file: seq<Byte>, buf: seq<Byte>, rest: seq<Byte>, w: nat)
    requires w <= |buf|
    ensures (file + buf[..w]) + (buf[w..] + rest) == file + (buf + rest)
  {
    assert buf == buf[..w] + buf[w..];
    Associative(buf[..w], buf[w..], rest);
    Associative(file, buf[..w], buf[w..] + rest);
  }

  lemma StepKeeps(p: Pipeline, a: Action)
    requires Inv(p) && Enabled(p, a) && Room(p, a)
    ensures Inv(Step(p, a))
  {
    var rest := InTransit(p) + Bytes(p.ring);
    match a
    case Append(e) =>
      if |p.ring| < SLOTS - 1 { AppendKeeps(p.file, p.buf, InTransit(p), p.ring, p.accepted, e); }
    case Pop =>
      assert [] + Bytes(p.ring) == Bytes(p.ring);
    case CapacityFlush(results) => FlushKeeps(p.file, p.buf, rest, WrittenFrom(results, |p.buf|, 0));
    case Copy =>
      Associative(p.buf, p.transit.value, Bytes(p.ring));
      assert [] + Bytes(p.ring) == Bytes(p.ring);
    case TimerFlush(results) => FlushKeeps(p.file, p.buf, rest, WrittenFrom(results, |p.buf|, 0));
    case Stop =>
    case Exit(results) => FlushKeeps(p.file, p.buf, rest, WrittenFrom(results, |p.buf|, 0));
  }

  // ---------------------------------------------------------------------
  // Every run
  // ---------------------------------------------------------------------

  /** A run in which every capacity flush makes room for the entry that caused it. */
  ghost predicate IsRun(p: Pipeline, run: seq<Action>)
    decreases |run|
  {
    run != [] ==> Enabled(p, run[0]) && Room(p, run[0]) && IsRun(Step(p, run[0]), run[1..])
  }

  ghost function Final(p: Pipeline, run: seq<Action>): Pipeline
    requires IsRun(p, run)
    decreases |run|
  {
    if run == [] then p else Final(Step(p, run[0]), run[1..])
  }

  /** The entries offered by a run. */
  function Offered(run: seq<Action>): seq<Entry> {
    if run == [] then [] else (if run[0].Append? then [run[0].e] else []) + Offered(run[1..])
  }

  lemma {:induction false} RunKeeps(p: Pipeline, run: seq<Action>)
    requires Inv(p) && IsRun(p, run)
    ensures Inv(Final(p, run))
    decreases |run|
  {
    if run != [] {
      StepKeeps(p, run[0]);
      RunKeeps(Step(p, run[0]), run[1..]);
    }
  }

  /** between is what was offered; acc and drop before, acc' and drop' after. */
  ghost predicate Counted(acc: seq<Entry>, drop: nat, between: seq<Entry>, acc': seq<Entry>, drop': nat) {
    && |acc'| + drop' == |acc| + drop + |between| && drop' >= drop
    && (drop' == drop ==> acc' == acc + between)
  }

  lemma CountedChain(acc: seq<Entry>, drop: nat, b: seq<Entry>, acc': seq<Entry>, drop': nat,
                     c: seq<Entry>, acc'': seq<Entry>, drop'': nat)
    requires Counted(acc, drop, b, acc', drop') && Counted(acc', drop', c, acc'', drop'')
    ensures Counted(acc, drop, b + c, acc'', drop'')
  {
    assert (acc + b) + c == acc + (b + c);
  }

  lemma StepCounts(p: Pipeline, a: Action)
    requires Enabled(p, a)
    ensures Counted(p.accepted, p.dropped, if a.Append? then [a.e] else [], Step(p, a).accepted, Step(p, a).dropped)
  {
    assert p.accepted + [] == p.accepted;
  }

  /** Every offered entry is accepted or counted as dropped; without drops they are accepted in order. */
  lemma {:induction false} RunCounts(p: Pipeline, run: seq<Action>)
    requires IsRun(p, run)
    ensures Counted(p.accepted, p.dropped, Offered(run), Final(p, run).accepted, Final(p, run).dropped)
    decreases |run|
  {
    if run == [] {
      assert p.accepted + [] == p.accepted;
    } else {
      var q := Step(p, run[0]);
      StepCounts(p, run[0]);
      RunCounts(q, run[1..]);
      CountedChain(p.accepted, p.dropped, if run[0].Append? then [run[0].e] else [], q.accepted, q.dropped,
                   Offered(run[1..]), Final(q, run[1..]).accepted, Final(q, run[1..]).dropped);
    }
  }

  /** The file is at all times a byte prefix of the accepted entries, and nothing is lost on the way. */
  lemma FileIsPrefix(run: seq<Action>)
    requires IsRun(OPEN, run)
    ensures var p := Final(OPEN, run);
            && p.file <= Bytes(p.accepted)
            && p.file + (p.buf + (InTransit(p) + Bytes(p.ring))) == Bytes(p.accepted)
            && p.flushed == |p.file|
            && |p.accepted| + p.dropped == |Offered(run)|
            && (p.dropped == 0 ==> p.accepted == Offered(run))
  {
    RunKeeps(OPEN, run);
    RunCounts(OPEN, run);
    assert [] + Offered(run) == Offered(run);
  }

  /** After the writer has exited, what is missing is the unwritten buffer and the ring; the rest is on file. */
  lemma ExitedFile(run: seq<Action>)
    requires IsRun(OPEN, run) && Final(OPEN, run).exited
    ensures var p := Final(OPEN, run);
            && (p.buf == [] ==> p.file + Bytes(p.ring) == Bytes(p.accepted))
            && (p.file == Bytes(p.accepted) <==> p.buf == [] && p.ring == [])
  {
    RunKeeps(OPEN, run);
    var p := Final(OPEN, run);
    assert [] + Bytes(p.ring) == Bytes(p.ring);
    if p.ring != [] { assert |Bytes(p.ring)| >= ENTRY; }
  }

  // ---------------------------------------------------------------------
  // A run that overruns the buffer
  // ---------------------------------------------------------------------

  lemma {:induction false} RunSnoc(p: Pipeline, run: seq<Action>, a: Action)
    requires IsRun(p, run) && Enabled(Final(p, run), a) && Room(Final(p, run), a)
    ensures IsRun(p, run + [a]) && Final(p, run + [a]) == Step(Final(p, run), a)
    decreases |run|
  {
    if run != [] {
      assert (run + [a])[1..] == run[1..] + [a];
      RunSnoc(Step(p, run[0]), run[1..], a);
    }
  }

  /** n entries appended, popped and copied one after another. */
  function FillRun(e: Entry, n: nat): seq<Action> {
    if n == 0 then [] else FillRun(e, n - 1) + [Append(e)] + [Pop] + [Copy]
  }

  /** The writer waits with n entries in its buffer. */
  ghost predicate Filled(p: Pipeline, n: nat) {
    |p.buf| == n * ENTRY && p.transit.None? && !p.full && p.ring == [] && !p.exited
  }

  lemma {:induction false} FillReaches(e: Entry, n: nat)
    requires n * ENTRY <= BUF
    ensures IsRun(OPEN, FillRun(e, n)) && Filled(Final(OPEN, FillRun(e, n)), n)
  {
    if n > 0 {
      FillReaches(e, n - 1);
      var r := FillRun(e, n - 1);
      RunSnoc(OPEN, r, Append(e));
      RunSnoc(OPEN, r + [Append(e)], Pop);
      RunSnoc(OPEN, r + [Append(e)] + [Pop], Copy);
    }
  }

  /** With the buffer full of entries, a disk that refuses every byte makes the next copy overrun it. */
  lemma DiskFailureOverruns(e: Entry)
    ensures var run := FillRun(e, BUF / ENTRY) + [Append(e)] + [Pop];
            && IsRun(OPEN, run)
            && var p, a := Final(OPEN, run), CapacityFlush([Failed]);
            && Enabled(p, a) && !Room(p, a) && Enabled(Step(p, a), Copy) && |Step(Step(p, a), Copy).buf| > BUF
  {
    var n := BUF / ENTRY;
    FillReaches(e, n);
    RunSnoc(OPEN, FillRun(e, n), Append(e));
    RunSnoc(OPEN, FillRun(e, n) + [Append(e)], Pop);
    RoomExactly(Final(OPEN, FillRun(e, n) + [Append(e)] + [Pop]), [Failed]);
  }

  // ---------------------------------------------------------------------
  // The writer thread's buffer, in place
  // ---------------------------------------------------------------------

  class Writer {
    const buf: array<Byte>
    var offset: nat
    var file: seq<Byte>
    var flushes: nat
    var flushed: nat

    ghost predicate Valid()
      reads this
    {
      buf.Length == BUF && offset <= BUF && flushed == |file|
    }

    ghost function Buffered(): seq<Byte>
      reads this, buf
      requires Valid()
    {
      buf[..offset]
    }

    constructor ()
      ensures Valid() && fresh(buf) && Buffered() == [] && file == []
    {
      buf := new Byte[BUF](_ => 0);
      offset, file, flushes, flushed := 0, [], 0, 0;
    }

    /** The write loop of journal_do_flush. */
    method WriteOut(results: seq<WriteResult>) returns (done: nat)
      requires Valid()
      modifies this`file
      ensures done == WrittenFrom(results, offset, 0) && file == old(file) + buf[..done]
    {
      done := 0;
      var k := 0;
      while done < offset && k < |results|
        invariant 0 <= k <= |results| && done <= offset
        invariant WrittenFrom(results, offset, 0) == WrittenFrom(results[k..], offset, done)
        invariant file == old(file) + buf[..done]
        decreases |results| - k
      {
        assert results[k..][0] == results[k] && results[k..][1..] == results[k + 1..];
        match results[k] {
          case Interrupted =>
          case Failed => return;
          case Wrote(n) =>
            if n == 0 { return; }
            var next := if n < offset - done then done + n else offset;
            file := file + buf[done..next];
            assert buf[..next] == buf[..done] + buf[done..next];
            done := next;
        }
        k := k + 1;
      }
    }

    /** memmove of the unwritten bytes to the front. */
    method Shift(done: nat)
      requires Valid() && done <= offset
      modifies buf, this`offset
      ensures Valid() && Buffered() == old(Buffered())[done..]
    {
      var i, n := 0, offset - done;
      while i < n
        invariant 0 <= i <= n && offset == old(offset)
        invariant forall j :: 0 <= j < i ==> buf[j] == old(buf[done + j])
        invariant forall j :: i <= j < BUF ==> buf[j] == old(buf[j])
      {
        buf[i] := buf[done + i];
        i := i + 1;
      }
      offset := n;
    }

    /** journal_do_flush: written bytes go to the file, the remainder moves to the front. */
    method DoFlush(results: seq<WriteResult>)
      requires Valid()
      modifies this, buf
      ensures Valid()
      ensures var w := WrittenFrom(results, old(offset), 0);
              && file == old(file) + old(Buffered())[..w] && Buffered() == old(Buffered())[w..]
    {
      if offset == 0 { return; }
      ghost var b := Buffered();
      var done := WriteOut(results);
      assert buf[..done] == b[..done];
      if done > 0 {
        flushes := flushes + 1;
        flushed := flushed + done;
      }
      if done < offset {
        Shift(done);
      } else {
        offset := 0;
      }
    }

    /** memcpy of an entry behind the buffered bytes. */
    method CopyEntry(e: Entry)
      requires Valid() && offset + ENTRY <= BUF
      modifies this`offset, buf
      ensures Valid() && Buffered() == old(Buffered()) + e
    {
      forall i | 0 <= i < ENTRY { buf[offset + i] := e[i]; }
      assert forall i :: 0 <= i < offset ==> buf[i] == old(buf[i]);
      assert forall i :: 0 <= i < ENTRY ==> buf[offset + i] == e[i];
      offset := offset + ENTRY;
      CopiedBytes(buf[..], old(buf[..]), old(offset), e);
    }

    /** Capacity check, flush and copy for one popped entry; false means the copy would leave the buffer. */
    method TakeEntry(e: Entry, results: seq<WriteResult>) returns (ok: bool)
      requires Valid()
      modifies this, buf
      ensures Valid()
      ensures var w := if old(offset) + ENTRY > BUF then WrittenFrom(results, old(offset), 0) else 0;
              && (ok <==> old(offset) - w + ENTRY <= BUF)
              && file == old(file) + old(Buffered())[..w]
              && Buffered() == if ok then old(Buffered())[w..] + e else old(Buffered())[w..]
    {
      if offset + ENTRY > BUF { DoFlush(results); }
      if offset + ENTRY > BUF { return false; }
      CopyEntry(e);
      return true;
    }

    /** The batch drain: up to 64 entries from the ring, in order, nothing lost. */
    method Drain(ring: RingQueue<Entry>, results: nat -> seq<WriteResult>) returns (drained: nat, ok: bool)
      requires Valid() && ring.Valid() && ring.buffer as object != buf
      modifies this, buf, ring
      ensures Valid() && ring.Valid() && drained <= 64
      ensures ok ==> file + (Buffered() + Bytes(ring.Contents())) ==
                     old(file) + (old(Buffered()) + Bytes(old(ring.Contents())))
      ensures ok && drained < 64 ==> ring.Contents() == []
      ensures ok ==> drained <= |old(ring.Contents())| && ring.Contents() == old(ring.Contents())[drained..]
    {
      drained, ok := 0, true;
      while drained < 64
        invariant Valid() && ring.Valid() && drained <= 64 && ok
        invariant file + (Buffered() + Bytes(ring.Contents())) ==
                  old(file) + (old(Buffered()) + Bytes(old(ring.Contents())))
        invariant drained <= |old(ring.Contents())| && ring.Contents() == old(ring.Contents())[drained..]
        decreases 64 - drained
      {
        ghost var f, b, c := file, Buffered(), ring.Contents();
        var got, e := ring.Pop(seq(ENTRY, _ => 0));
        if got == 0 { break; }
        ghost var n := offset;
        var answers := results(drained);
        ok := TakeEntry(e, answers);
        if !ok { break; }
        ghost var w := if n + ENTRY > BUF then WrittenFrom(answers, n, 0) else 0;
        MoveEntry(f, b, e, ring.Contents(), w);
        assert c == [e] + ring.Contents();
        drained := drained + 1;
      }
    }
  }

  lemma CopiedBytes(buf: seq<Byte>, was: seq<Byte>, n: nat, e: seq<Byte>)
    requires |buf| == |was| && n + |e| <= |buf|
    requires forall i :: 0 <= i < n ==> buf[i] == was[i]
    requires forall i :: 0 <= i < |e| ==> buf[n + i] == e[i]
    ensures buf[..n + |e|] == was[..n] + e
  {
    forall i | 0 <= i < n + |e| ensures buf[i] == (was[..n] + e)[i] {
      if i >= n { assert buf[n + (i - n)] == e[i - n]; }
    }
  }

  lemma MoveEntry(file: seq<Byte>, buf: seq<Byte>, e: Entry, ring: seq<Entry>, w: nat)
    requires w <= |buf|
    ensures (file + buf[..w]) + ((buf[w..] + e) + Bytes(ring)) == file + (buf + Bytes([e] + ring))
  {
    assert ([e] + ring)[1..] == ring;
    Associative(buf[w..], e, Bytes(ring));
    FlushKeeps(file, buf, e + Bytes(ring), w);
  }
}
