/** The byte rings of a connection: index arithmetic as the code computes it, and the bytes between the cursors. */
module ByteRing {
  import opened Bits
  import opened Ring
  import opened Framing

  function Readable(head: nat, tail: nat, mask: nat): nat
    requires head <= mask
  {
    if tail >= head then tail - head else mask + 1 - head + tail
  }

  function Writable(head: nat, tail: nat, mask: nat): int
    requires head <= mask
  {
    mask - Readable(head, tail, mask)
  }

  function Advance(cursor: nat, delta: nat, mask: nat): nat {
    BitAnd(cursor + delta, mask)
  }

  lemma MaskIs(cursor: nat, delta: nat)
    ensures Advance(cursor, delta, RING - 1) == (cursor + delta) % RING
  {
    Pow2Word();
    AndLowMask(cursor + delta, 16);
  }

  /** The unread bytes of a ring. */
  ghost function Unread(buf: seq<Byte>, head: nat, tail: nat): (w: seq<Byte>)
    requires |buf| == RING && head < RING && tail < RING
  {
    Items(buf, head, Readable(head, tail, RING - 1))
  }

  lemma SlotPlain(head: nat, i: nat, cap: nat)
    requires head + i < 2 * cap && head < cap
    ensures Slot(head, i, cap) == if head + i < cap then head + i else head + i - cap
  {
    if head + i < cap { ModSmall(head + i, cap); } else { ModSmall(head + i - cap, cap); AddCap(head + i - cap, cap); }
  }

  /** A window is one slice of the buffer, or two when it wraps. */
  lemma ItemsSlices(buf: seq<Byte>, pos: nat, n: nat)
    requires pos < |buf| && n <= |buf|
    ensures Items(buf, pos, n) ==
            if |buf| - pos >= n then buf[pos..pos + n] else buf[pos..] + buf[..n - (|buf| - pos)]
  {
    var w := Items(buf, pos, n);
    var s := if |buf| - pos >= n then buf[pos..pos + n] else buf[pos..] + buf[..n - (|buf| - pos)];
    forall i | 0 <= i < n ensures w[i] == s[i] {
      SlotPlain(pos, i, |buf|);
    }
  }

  /** gw_ring_peek: copies len bytes at offset off from head, in one or two parts. */
  method Peek(buf: array<Byte>, head: nat, off: nat, len: nat) returns (dst: seq<Byte>)
    requires buf.Length == RING && len <= RING
    ensures dst == Items(buf[..], (head + off) % RING, len)
  {
    MaskIs(head, off);
    var pos := BitAnd(head + off, RING - 1);
    var first := RING - pos;
    ItemsSlices(buf[..], pos, len);
    if first >= len {
      dst := buf[pos..pos + len];
    } else {
      dst := buf[pos..] + buf[..len - first];
    }
  }

  lemma EmptyRing(buf: seq<Byte>, i: nat)
    requires |buf| == RING && i < RING
    ensures Unread(buf, i, i) == []
  {
  }

  lemma ReadableIsDistance(head: nat, tail: nat)
    requires head < RING && tail < RING
    ensures Readable(head, tail, RING - 1) == Distance(head, tail, RING) < RING
    ensures (head + Readable(head, tail, RING - 1)) % RING == tail
  {
    SlotAtEnd(head, tail, RING);
  }

  /** Consuming k unread bytes. */
  lemma Consume(buf: seq<Byte>, head: nat, tail: nat, k: nat)
    requires |buf| == RING && head < RING && tail < RING && k <= Readable(head, tail, RING - 1)
    ensures Unread(buf, (head + k) % RING, tail) == Unread(buf, head, tail)[k..]
  {
    var n := Readable(head, tail, RING - 1);
    ItemsDrop(buf, head, n, k);
    AdvanceReadable(head, tail, k);
  }

  lemma AdvanceReadable(head: nat, tail: nat, k: nat)
    requires head < RING && tail < RING && k <= Readable(head, tail, RING - 1)
    ensures Readable((head + k) % RING, tail, RING - 1) == Readable(head, tail, RING - 1) - k
  {
    SlotPlain(head, k, RING);
  }

  /** Appending bytes at the tail: every unread byte keeps its place and the new ones follow. */
  lemma Produce(buf: seq<Byte>, buf': seq<Byte>, head: nat, tail: nat, data: seq<Byte>)
    requires |buf| == |buf'| == RING && head < RING && tail < RING
    requires |data| <= Writable(head, tail, RING - 1)
    requires forall i :: 0 <= i < |data| ==> buf'[Slot(tail, i, RING)] == data[i]
    requires forall j :: 0 <= j < RING && !Fresh(tail, |data|, j) ==> buf'[j] == buf[j]
    ensures Unread(buf', head, (tail + |data|) % RING) == Unread(buf, head, tail) + data
  {
    var n := Readable(head, tail, RING - 1);
    ReadableIsDistance(head, tail);
    ProduceReadable(head, tail, |data|);
    var w := Unread(buf', head, (tail + |data|) % RING);
    var s := Unread(buf, head, tail) + data;
    forall i | 0 <= i < n + |data| ensures w[i] == s[i] {
      if i < n { NotFresh(head, tail, |data|, i); } else { SlotMoved(head, n, i - n, RING); }
    }
  }

  /** Slot j is one of the n slots from tail on. */
  ghost predicate Fresh(tail: nat, n: nat, j: nat) {
    exists i: nat :: i < n && Slot(tail, i, RING) == j
  }

  lemma ProduceReadable(head: nat, tail: nat, n: nat)
    requires head < RING && tail < RING && n <= Writable(head, tail, RING - 1)
    ensures Readable(head, (tail + n) % RING, RING - 1) == Readable(head, tail, RING - 1) + n
  {
    SlotPlain(tail, n, RING);
  }

  lemma NotFresh(head: nat, tail: nat, n: nat, i: nat)
    requires head < RING && tail < RING && n <= Writable(head, tail, RING - 1)
    requires i < Readable(head, tail, RING - 1)
    ensures !Fresh(tail, n, Slot(head, i, RING))
  {
    forall k: nat | k < n ensures Slot(tail, k, RING) != Slot(head, i, RING) {
      SlotPlain(tail, k, RING);
      SlotPlain(head, i, RING);
    }
  }

  lemma RunIsFresh(tail: nat, n: nat)
    requires tail + n <= RING
    ensures forall i: nat :: i < n ==> Slot(tail, i, RING) == tail + i
    ensures forall j: nat :: tail <= j < tail + n ==> Fresh(tail, n, j)
  {
    forall i: nat | i < n ensures Slot(tail, i, RING) == tail + i { SlotPlain(tail, i, RING); }
    forall j: nat | tail <= j < tail + n ensures Fresh(tail, n, j) {
      assert Slot(tail, j - tail, RING) == j;
    }
  }

  /** read(2) into the free run at the tail. */
  method WriteRun(buf: array<Byte>, ghost head: nat, tail: nat, data: seq<Byte>)
    requires buf.Length == RING && head < RING && tail < RING
    requires |data| <= RING - tail && |data| <= Writable(head, tail, RING - 1)
    modifies buf
    ensures Unread(buf[..], head, (tail + |data|) % RING) == Unread(old(buf[..]), head, tail) + data
  {
    forall i | 0 <= i < |data| { buf[tail + i] := data[i]; }
    RunIsFresh(tail, |data|);
    Produce(old(buf[..]), buf[..], head, tail, data);
  }

  lemma SlotInjective(tail: nat, i: nat, k: nat)
    requires tail < RING && i < RING && k < RING && Slot(tail, i, RING) == Slot(tail, k, RING)
    ensures i == k
  {
    SlotPlain(tail, i, RING);
    SlotPlain(tail, k, RING);
  }

  ghost predicate Written(buf: seq<Byte>, tail: nat, data: seq<Byte>, n: nat)
    requires |buf| == RING && n <= |data|
  {
    forall i :: 0 <= i < n ==> buf[Slot(tail, i, RING)] == data[i]
  }

  ghost predicate Kept(was: seq<Byte>, buf: seq<Byte>, tail: nat, n: nat)
    requires |was| == |buf| == RING
  {
    forall j :: 0 <= j < RING && !Fresh(tail, n, j) ==> buf[j] == was[j]
  }

  lemma WriteOne(was: seq<Byte>, buf: seq<Byte>, tail: nat, data: seq<Byte>, n: nat)
    requires |was| == |buf| == RING && tail < RING && n < |data| < RING
    requires Written(buf, tail, data, n) && Kept(was, buf, tail, n)
    ensures var next := buf[Slot(tail, n, RING) := data[n]];
            Written(next, tail, data, n + 1) && Kept(was, next, tail, n + 1)
  {
    var p := Slot(tail, n, RING);
    var next := buf[p := data[n]];
    forall i | 0 <= i < n + 1 ensures next[Slot(tail, i, RING)] == data[i] {
      if i < n && Slot(tail, i, RING) == p { SlotInjective(tail, i, n); }
    }
    forall j | 0 <= j < RING && !Fresh(tail, n + 1, j) ensures next[j] == was[j] {
      assert j != p && !Fresh(tail, n, j);
    }
  }

  /** Copies bytes one by one, wrapping each index with the mask. */
  method WriteWrapped(buf: array<Byte>, ghost head: nat, tail: nat, data: seq<Byte>)
    requires buf.Length == RING && head < RING && tail < RING
    requires |data| <= Writable(head, tail, RING - 1)
    modifies buf
    ensures Unread(buf[..], head, (tail + |data|) % RING) == Unread(old(buf[..]), head, tail) + data
  {
    ghost var was := buf[..];
    var i := 0;
    while i < |data|
      invariant 0 <= i <= |data|
      invariant Written(buf[..], tail, data, i) && Kept(was, buf[..], tail, i)
    {
      MaskIs(tail, i);
      WriteOne(was, buf[..], tail, data, i);
      ghost var here := buf[..];
      buf[BitAnd(tail + i, RING - 1)] := data[i];
      assert buf[..] == here[Slot(tail, i, RING) := data[i]];
      i := i + 1;
    }
    Produce(was, buf[..], head, tail, data);
  }
}
