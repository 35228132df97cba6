/** The hash table as the code runs it: an array of slots and two counters, changed in place. */
module HashMap {
  import opened Bits
  import opened Sets
  import opened HashTable
  import opened HashRefinement

  // ---------------------------------------------------------------------
  // Rounding the requested capacity up
  // ---------------------------------------------------------------------

  const TOP: nat := 0x8000_0000_0000_0000  // 2^63, the largest power of two in size_t

  /** The loop variable of the rounding loop after n shifts of a 64-bit word. */
  function Shifted(n: nat): nat {
    if n == 0 then 8 else (2 * Shifted(n - 1)) % WORD
  }

  /** The rounding loop ends exactly when the request is at most 2^63. */
  lemma RoundingEnds(capacity: nat)
    requires capacity < WORD
    ensures (exists n: nat :: Shifted(n) >= capacity) <==> capacity <= TOP
  {
    Pow2Word();
    ShiftedIsPow2(60);
    assert Shifted(60) == TOP;
    forall n: nat ensures Shifted(n) <= TOP {
      ShiftedIsPow2(n);
      if n <= 60 { Pow2Monotone(n + 3, 63); }
    }
  }

  lemma {:induction false} ShiftedIsPow2(n: nat)
    ensures Shifted(n) == if n <= 60 then Pow2(n + 3) else 0
  {
    if n == 0 {
      assert Pow2(3) == 8;
    } else {
      ShiftedIsPow2(n - 1);
      ShiftOnce(n, Shifted(n - 1));
    }
  }

  /** One shift doubles the power of two until it leaves the word. */
  lemma ShiftOnce(n: nat, prev: nat)
    requires n > 0 && prev == if n <= 61 then Pow2(n + 2) else 0
    ensures (2 * prev) % WORD == if n <= 60 then Pow2(n + 3) else 0
  {
    Pow2Word();
    if n <= 60 {
      Pow2Monotone(n + 3, 63);
      ModSmall(Pow2(n + 3), WORD);
    } else if n == 61 {
      assert prev == Pow2(63) == TOP;
    }
  }

  method RoundUp(capacity: nat) returns (cap: nat)
    requires capacity <= TOP
    ensures IsPow2(cap) && 8 <= cap <= TOP && capacity <= cap
    ensures cap > 8 ==> cap < 2 * capacity
  {
    cap := 8;
    ghost var n: nat := 3;
    assert Pow2(3) == 8;
    Pow2Word();
    while cap < capacity
      invariant 3 <= n <= 63 && cap == Pow2(n) && 8 <= cap <= TOP
      invariant cap > 8 ==> cap < 2 * capacity
      decreases 63 - n
    {
      assert n != 63;
      Pow2Monotone(n + 1, 63);
      cap := (2 * cap) % WORD;
      n := n + 1;
      ModSmall(Pow2(n), WORD);
    }
  }

  // ---------------------------------------------------------------------
  // The object
  // ---------------------------------------------------------------------

  class HashMap {
    var entries: array?<Entry>
    var count: nat
    var tombstones: nat

    constructor ()
      ensures entries == null
    {
      entries, count, tombstones := null, 0, 0;
    }

    ghost function View(): Table
      reads this, entries
      requires entries != null
    {
      Table(entries[..], count, tombstones)
    }

    /** A table that was initialised and not destroyed satisfies the invariant. */
    ghost predicate Valid()
      reads this, entries
    {
      entries != null ==> Inv(View())
    }

    /** calloc delivers cap zeroed slots, or fails; it always fails beyond size_t. */
    method Init(capacity: nat, mem: bool) returns (ret: int)
      requires capacity <= TOP && Valid()
      modifies this
      ensures Valid()
      ensures ret == 0 || ret == -1
      ensures ret == 0 ==> mem && entries != null && fresh(entries) && capacity <= entries.Length
                           && View() == Fresh(entries.Length) && (entries.Length > 8 ==> entries.Length < 2 * capacity)
      ensures ret == -1 ==> capacity < 8 || (entries == null && (!mem || capacity > WORD / 32))
      ensures ret == -1 ==> count == old(count) && tombstones == old(tombstones)
      ensures capacity < 8 ==> ret == -1 && entries == old(entries)
    {
      if capacity < 8 { return -1; }
      var cap := RoundUp(capacity);
      if !mem || cap * 16 >= WORD {
        entries := null;
        return -1;
      }
      entries := new Entry[cap](_ => Entry(0, NULL));
      count, tombstones := 0, 0;
      assert entries[..] == Fresh(cap).entries;
      FreshIsEmpty(cap);
      return 0;
    }

    method Destroy()
      modifies this
      ensures entries == null && count == 0 && tombstones == 0
    {
      entries := null;
      count, tombstones := 0, 0;
    }

    /** Rehashes into a new array of cap slots by putting every live entry again. */
    method Grow(cap: nat, mem: bool) returns (ret: int)
      requires entries != null && Inv(View()) && cap == 2 * entries.Length
      modifies this
      ensures entries != null && Inv(View())
      ensures ret == 0 ==> fresh(entries)
      ensures ret != 0 ==> entries == old(entries)
      ensures (View(), ret) == Resize(old(View()), cap, mem)
      decreases 1, 1
    {
      if !mem || cap * 16 >= WORD { return -1; }
      var src := entries;
      FreshInv(View(), cap);
      entries := new Entry[cap](_ => Entry(0, NULL));
      count, tombstones := 0, 0;
      assert entries[..] == Fresh(cap).entries;
      MoveAll(src, mem);
      return 0;
    }

    /** The rehash loop: puts the live entries of src into the fresh table. */
    method MoveAll(src: array<Entry>, mem: bool)
      requires entries != null && entries != src && View() == Fresh(entries.Length) && Inv(View())
      requires 4 * CountIf(IsLive, src[..]) <= 3 * entries.Length
      modifies this, entries
      ensures entries == old(entries) && Inv(View())
      ensures View() == Rehash(src[..], 0, Fresh(entries.Length), mem)
      decreases 1, 0
    {
      ghost var t, cap := Table(src[..], 0, 0), entries.Length;
      assert t.entries[0..] == t.entries;
      var i := 0;
      while i < src.Length
        invariant 0 <= i <= src.Length && src[..] == t.entries
        invariant entries != null && entries == old(entries) && entries.Length == cap
        invariant Inv(View()) && tombstones == 0
        invariant 4 * (count + CountIf(IsLive, t.entries[i..])) <= 3 * cap
        invariant Rehash(t.entries, 0, Fresh(cap), mem) == Rehash(t.entries, i, View(), mem)
      {
        assert src[i] == t.entries[i];
        RehashStep(t.entries, i, View(), mem);
        if src[i].value != NULL && src[i].value != TOMBSTONE {
          var r := Store(src[i].key, src[i].value, mem);
        }
        i := i + 1;
      }
    }

    /** The slot is taken; only then does the code look for the tombstone it may have held. */
    method Occupy(idx: nat, key: Word, value: Word)
      requires entries != null && idx < entries.Length
      modifies this`count, this`tombstones, entries
      ensures View() == Table(old(entries[..])[idx := Entry(key, value)], old(count) + 1,
                              if value == TOMBSTONE then (old(tombstones) + WORD - 1) % WORD else old(tombstones))
    {
      entries[idx] := Entry(key, value);
      count := count + 1;
      if entries[idx].value == TOMBSTONE {
        tombstones := (tombstones + WORD - 1) % WORD;
      }
    }

    /** The probing loop of bt_hashmap_put. */
    method Place(key: Word, value: Word) returns (ret: int)
      requires entries != null && Inv(View())
      modifies this, entries
      ensures entries == old(entries) && (View(), ret) == Insert(old(View()), key, value)
    {
      ghost var t := View();
      var i := 0;
      while i < entries.Length
        invariant entries != null && entries == old(entries) && 0 <= i <= entries.Length && View() == t
        invariant PutScan(t.entries, key, 0) == PutScan(t.entries, key, i)
      {
        ProbeIsMod(key, i, entries.Length);
        var idx := Probe(key, i, entries.Length);
        if entries[idx].value == NULL || entries[idx].value == TOMBSTONE {
          Occupy(idx, key, value);
          return 0;
        }
        if entries[idx].key == key { return -1; }
        i := i + 1;
      }
      return -1;
    }

    /** bt_hashmap_put. */
    method Store(key: Word, value: Word, mem: bool) returns (ret: int)
      requires Valid()
      modifies this, entries
      ensures entries == null <==> old(entries) == null
      ensures entries == null ==> ret == -1
      ensures entries != null ==>
                old(entries != null && Inv(View())) && (View(), ret) == Put(old(View()), key, value, mem)
      ensures entries == old(entries) || fresh(entries)
      ensures old(entries != null && !Overloaded(View())) ==> entries == old(entries)
      decreases if entries != null && Overloaded(View()) then 2 else 0
    {
      if entries == null || value == NULL { return -1; }
      if (count + tombstones) * 4 >= entries.Length * 3 {
        var g := Grow(2 * entries.Length, mem);
        if g != 0 { return -1; }
      }
      ret := Place(key, value);
    }

    /** bt_hashmap_get. */
    method Lookup(key: Word) returns (value: Word)
      requires Valid()
      ensures entries == null ==> value == NULL
      ensures entries != null ==> value == Get(View(), key)
    {
      if entries == null { return NULL; }
      var i := 0;
      while i < entries.Length
        invariant 0 <= i <= entries.Length
        invariant FindScan(entries[..], key, 0) == FindScan(entries[..], key, i)
      {
        ProbeIsMod(key, i, entries.Length);
        var idx := Probe(key, i, entries.Length);
        if entries[idx].value == NULL { return NULL; }
        if entries[idx].value != TOMBSTONE && entries[idx].key == key { return entries[idx].value; }
        i := i + 1;
      }
      return NULL;
    }

    /** The slot becomes a tombstone; its key stays. */
    method Bury(idx: nat)
      requires entries != null && idx < entries.Length && count > 0
      modifies this`count, this`tombstones, entries
      ensures View() == Table(old(entries[..])[idx := Entry(old(entries[idx].key), TOMBSTONE)], old(count) - 1,
                              old(tombstones) + 1)
    {
      entries[idx] := Entry(entries[idx].key, TOMBSTONE);
      count := count - 1;
      tombstones := tombstones + 1;
    }

    /** bt_hashmap_remove. */
    method Delete(key: Word) returns (ret: int)
      requires Valid()
      modifies this, entries
      ensures entries == old(entries) && Valid()
      ensures entries == null ==> ret == -1
      ensures entries != null ==> (View(), ret) == Remove(old(View()), key)
    {
      if entries == null { return -1; }
      ghost var t := View();
      RemoveKeepsInv(t, key);
      var i := 0;
      while i < entries.Length
        invariant entries != null && entries == old(entries) && 0 <= i <= entries.Length && View() == t
        invariant FindScan(t.entries, key, 0) == FindScan(t.entries, key, i)
      {
        ProbeIsMod(key, i, entries.Length);
        var idx := Probe(key, i, entries.Length);
        if entries[idx].value == NULL { return -1; }
        if entries[idx].value != TOMBSTONE && entries[idx].key == key {
          LiveIsCounted(t, idx);
          Bury(idx);
          return 0;
        }
        i := i + 1;
      }
      return -1;
    }

    /** bt_hashmap_size. */
    method Size() returns (n: nat)
      requires Valid()
      ensures n == count
      ensures entries != null ==> n == CountIf(IsLive, entries[..])
      ensures entries != null && Unique(entries[..]) ==> n == |Contents(entries[..])|
    {
      n := count;
      if entries != null && Unique(entries[..]) {
        SizeIsCount(entries[..]);
        assert Contents(entries[..]).Keys == Keys(entries[..]);
      }
    }

    /** bt_hashmap_clear. */
    method Reset()
      requires Valid()
      modifies this, entries
      ensures entries == old(entries) && Valid()
      ensures entries != null ==> View() == Clear(old(View()))
    {
      if entries == null { return; }
      FreshIsEmpty(entries.Length);
      var i := 0;
      while i < entries.Length
        invariant entries != null && entries == old(entries) && 0 <= i <= entries.Length
        invariant forall j :: 0 <= j < i ==> entries[j] == Entry(0, NULL)
      {
        entries[i] := Entry(0, NULL);
        i := i + 1;
      }
      count, tombstones := 0, 0;
      assert entries[..] == Fresh(entries.Length).entries;
    }
  }
}
