/**
 Where every byte of the journal is, read off the run alone: which appends are accepted, how many entries have
 been popped and copied, and how many bytes the flushes have written.
 */
module JournalRuns {
  import opened Options
  import opened Framing
  import opened Journal

  function Min(a: nat, b: nat): nat {
    if a < b then a else b
  }

  /** A flush by timer, at the exit or for want of room moves what the answers of write take from buffer to file. */
  lemma FlushMoves(p: Pipeline, a: Action)
    requires Enabled(p, a) && (a.TimerFlush? || a.Exit? || a.CapacityFlush?)
    ensures var q, n := Step(p, a), Min(Taken(a.results), |p.buf|);
            && q.file == p.file + p.buf[..n] && q.buf == p.buf[n..] && q.flushed == p.flushed + n
            && q.ring == p.ring && q.transit == p.transit && q.accepted == p.accepted && q.dropped == p.dropped
            && q.exited == (p.exited || a.Exit?)
  {
    WrittenIsTaken(a.results, |p.buf|, 0);
  }

  /** An append is dropped, and counted as that, exactly when 262143 entries are in the ring. */
  lemma DropsExactly(p: Pipeline, e: Entry)
    requires Inv(p)
    ensures var q := Step(p, Append(e));
            if |p.ring| == 262143 then q == p.(dropped := p.dropped + 1)
            else q == p.(ring := p.ring + [e], accepted := p.accepted + [e])
  {
  }

  // ---------------------------------------------------------------------
  // The positions
  // ---------------------------------------------------------------------

  datatype Tally = Tally(accepted: seq<Entry>, dropped: nat, popped: nat, copied: nat, written: nat)

  function Account(c: Tally, a: Action): Tally {
    match a
    case Append(e) =>
      if |c.accepted| - c.popped < 262143 then c.(accepted := c.accepted + [e]) else c.(dropped := c.dropped + 1)
    case Pop => c.(popped := c.popped + 1)
    case Copy => c.(copied := c.copied + 1)
    case Stop => c
    case CapacityFlush(results) => c.(written := Min(c.written + Taken(results), c.copied * ENTRY))
    case TimerFlush(results) => c.(written := Min(c.written + Taken(results), c.copied * ENTRY))
    case Exit(results) => c.(written := Min(c.written + Taken(results), c.copied * ENTRY))
  }

  function AccountAll(c: Tally, run: seq<Action>): Tally
    decreases |run|
  {
    if run == [] then c else AccountAll(Account(c, run[0]), run[1..])
  }

  const NOTHING: Tally := Tally([], 0, 0, 0, 0)

  /** The state is the one the positions describe. */
  ghost predicate Matches(p: Pipeline, c: Tally) {
    && p.accepted == c.accepted && p.dropped == c.dropped
    && c.copied <= c.popped <= |c.accepted|
    && p.ring == c.accepted[c.popped..]
    && (if p.transit.Some? then c.popped == c.copied + 1 && p.transit.value == c.accepted[c.copied]
        else c.popped == c.copied)
    && c.written == |p.file| <= c.copied * ENTRY
    && p.file + p.buf == Bytes(c.accepted[..c.copied])
  }

  lemma {:induction false} BytesLength(es: seq<Entry>)
    ensures |Bytes(es)| == |es| * ENTRY
  {
    if es != [] { BytesLength(es[1..]); }
  }

  lemma AppendMatches(p: Pipeline, c: Tally, e: Entry)
    requires Inv(p) && Matches(p, c)
    ensures Matches(Step(p, Append(e)), Account(c, Append(e)))
  {
    DropsExactly(p, e);
    var es := c.accepted + [e];
    assert es[..c.copied] == c.accepted[..c.copied] && es[c.popped..] == c.accepted[c.popped..] + [e];
  }

  lemma PopMatches(p: Pipeline, c: Tally)
    requires Inv(p) && Matches(p, c) && Enabled(p, Pop)
    ensures Matches(Step(p, Pop), Account(c, Pop))
  {
  }

  lemma CopyMatches(p: Pipeline, c: Tally)
    requires Inv(p) && Matches(p, c) && Enabled(p, Copy)
    ensures Matches(Step(p, Copy), Account(c, Copy))
  {
    var es := c.accepted;
    assert es[..c.copied + 1] == es[..c.copied] + [es[c.copied]];
    BytesSnoc(es[..c.copied], es[c.copied]);
    Associative(p.file, p.buf, es[c.copied]);
  }

  lemma FlushMatches(p: Pipeline, c: Tally, a: Action)
    requires Inv(p) && Matches(p, c) && Enabled(p, a) && (a.TimerFlush? || a.Exit? || a.CapacityFlush?)
    ensures Matches(Step(p, a), Account(c, a))
  {
    FlushMoves(p, a);
    var n := Min(Taken(a.results), |p.buf|);
    FlushKeeps(p.file, p.buf, [], n);
    assert p.buf[n..] + [] == p.buf[n..] && p.buf + [] == p.buf;
    BytesLength(c.accepted[..c.copied]);
  }

  lemma StepMatches(p: Pipeline, c: Tally, a: Action)
    requires Inv(p) && Matches(p, c) && Enabled(p, a)
    ensures Matches(Step(p, a), Account(c, a))
  {
    match a
    case Append(e) => AppendMatches(p, c, e);
    case Pop => PopMatches(p, c);
    case Copy => CopyMatches(p, c);
    case Stop =>
    case _ => FlushMatches(p, c, a);
  }

  lemma {:induction false} RunMatches(p: Pipeline, c: Tally, run: seq<Action>)
    requires Inv(p) && Matches(p, c) && IsRun(p, run)
    ensures Matches(Final(p, run), AccountAll(c, run))
    decreases |run|
  {
    if run != [] {
      StepMatches(p, c, run[0]);
      StepKeeps(p, run[0]);
      RunMatches(Step(p, run[0]), Account(c, run[0]), run[1..]);
    }
  }

  /**
   In every run whose capacity flushes make room, the positions read off the run say where everything is: the
   file is that many bytes of the accepted entries, the buffer the bytes from there to the last entry copied,
   the ring the entries from the last one popped on.
   */
  lemma PositionsAreExact(run: seq<Action>)
    requires IsRun(OPEN, run)
    ensures var p, c := Final(OPEN, run), AccountAll(NOTHING, run);
            && p.accepted == c.accepted && p.dropped == c.dropped
            && c.copied <= c.popped <= |c.accepted| && p.ring == c.accepted[c.popped..]
            && c.written <= c.copied * ENTRY <= |Bytes(c.accepted)|
            && p.file == Bytes(c.accepted)[..c.written]
            && p.buf == Bytes(c.accepted)[c.written..c.copied * ENTRY]
  {
    var p, c := Final(OPEN, run), AccountAll(NOTHING, run);
    assert Bytes([]) == [] && Matches(OPEN, NOTHING);
    RunMatches(OPEN, NOTHING, run);
    BytesLength(c.accepted[..c.copied]);
    BytesPrefix(c.accepted, c.copied);
    var all := Bytes(c.accepted[..c.copied]);
    assert p.file == all[..c.written] && p.buf == all[c.written..];
  }

  lemma {:induction false} BytesPrefix(es: seq<Entry>, n: nat)
    requires n <= |es|
    ensures n * ENTRY <= |Bytes(es)| && Bytes(es[..n]) == Bytes(es)[..n * ENTRY]
    decreases n
  {
    BytesLength(es);
    if n > 0 {
      BytesPrefix(es[1..], n - 1);
      assert es[..n][1..] == es[1..][..n - 1];
      assert Bytes(es)[..n * ENTRY] == es[0] + Bytes(es[1..])[..(n - 1) * ENTRY];
    }
  }

  // ---------------------------------------------------------------------
  // The stop
  // ---------------------------------------------------------------------

  /** After the exit only appends happen, and they reach the ring or are dropped. */
  lemma {:induction false} NothingAfterExit(p: Pipeline, after: seq<Action>)
    requires Inv(p) && p.exited && IsRun(p, after)
    ensures var q := Final(p, after); q.file == p.file && q.buf == p.buf && q.exited
    decreases |after|
  {
    if after != [] {
      StepKeeps(p, after[0]);
      NothingAfterExit(Step(p, after[0]), after[1..]);
    }
  }

  lemma {:induction false} RunSplits(p: Pipeline, run: seq<Action>, more: seq<Action>)
    requires IsRun(p, run + more)
    ensures IsRun(p, run) && IsRun(Final(p, run), more) && Final(p, run + more) == Final(Final(p, run), more)
    decreases |run|
  {
    if run == [] {
      assert run + more == more;
    } else {
      assert (run + more)[0] == run[0] && (run + more)[1..] == run[1..] + more;
      RunSplits(Step(p, run[0]), run[1..], more);
    }
  }

  /**
   The stop path. The final flush writes what its answers take; whatever is appended later, the file is complete
   up to the ring exactly when they take the whole buffer, and complete exactly when the ring is empty besides.
   */
  lemma StopLosesOnlyTheRing(before: seq<Action>, results: seq<WriteResult>, after: seq<Action>)
    requires IsRun(OPEN, before + ([Exit(results)] + after))
    ensures IsRun(OPEN, before)
    ensures var p, q := Final(OPEN, before), Final(OPEN, before + ([Exit(results)] + after));
            && q.exited
            && q.file == p.file + p.buf[..Min(Taken(results), |p.buf|)]
            && (q.file + Bytes(q.ring) == Bytes(q.accepted) <==> Taken(results) >= |p.buf|)
            && (q.file == Bytes(q.accepted) <==> Taken(results) >= |p.buf| && q.ring == [])
  {
    var run := before + ([Exit(results)] + after);
    RunSplits(OPEN, before, [Exit(results)] + after);
    var p := Final(OPEN, before);
    RunKeeps(OPEN, before);
    FlushMoves(p, Exit(results));
    StepKeeps(p, Exit(results));
    assert ([Exit(results)] + after)[1..] == after;
    NothingAfterExit(Step(p, Exit(results)), after);
    ExitedFile(run);
    RunKeeps(OPEN, run);
    var q := Final(OPEN, run);
    assert [] + Bytes(q.ring) == Bytes(q.ring);
    if q.buf != [] { assert |q.file + (q.buf + Bytes(q.ring))| > |q.file + Bytes(q.ring)|; }
  }

  // ---------------------------------------------------------------------
  // The writer's calls are runs of the machine
  // ---------------------------------------------------------------------

  /** Popping an entry, making room for it where needed, and copying it. */
  function TakeRun(p: Pipeline, results: seq<WriteResult>): seq<Action> {
    [] + [Pop] + (if |p.buf| + ENTRY > BUF then [CapacityFlush(results)] else []) + [Copy]
  }

  /** With room for the copy that is a run, with the effect the in-place TakeEntry has on buffer and file. */
  lemma TakeIsRun(p: Pipeline, results: seq<WriteResult>)
    requires Enabled(p, Pop) && !p.full
    requires var w := if |p.buf| + ENTRY > BUF then WrittenFrom(results, |p.buf|, 0) else 0;
             |p.buf| - w + ENTRY <= BUF
    ensures IsRun(p, TakeRun(p, results))
    ensures var w := if |p.buf| + ENTRY > BUF then WrittenFrom(results, |p.buf|, 0) else 0;
            Final(p, TakeRun(p, results)) ==
            p.(file := p.file + p.buf[..w], buf := p.buf[w..] + p.ring[0], ring := p.ring[1..],
               flushed := p.flushed + w)
  {
    assert IsRun(p, []) && Final(p, []) == p;
    RunSnoc(p, [], Pop);
    var p1 := Step(p, Pop);
    if |p.buf| + ENTRY > BUF {
      RunSnoc(p, [] + [Pop], CapacityFlush(results));
      RunSnoc(p, [] + [Pop] + [CapacityFlush(results)], Copy);
    } else {
      assert [] + [Pop] + [] == [] + [Pop];
      RunSnoc(p, [] + [Pop], Copy);
      assert p.file + p.buf[..0] == p.file && p.buf[0..] == p.buf;
    }
  }
}
