/** Concrete runs of the hash table from init that show where its promises end. */
module HashRuns {
  import opened Bits
  import opened Sets
  import opened HashTable
  import opened HashRefinement
  import opened HashAnswers

  const EMPTY: Entry := Entry(0, NULL)

  lemma EightIsCapacity()
    ensures Capacity(8) && Inv(Fresh(8))
  {
    assert Pow2(3) == 8;
    FreshIsEmpty(8);
  }

  /** The first n of the operations lead from a fresh table of eight slots to t. */
  ghost predicate Leads(ops: seq<Op>, n: nat, t: Table) {
    && n <= |ops| && (forall i :: 0 <= i < |ops| && ops[i].OpPut? ==> ops[i].value != TOMBSTONE)
    && Inv(Fresh(8)) && After(Fresh(8), ops[..n]) == t
  }

  lemma LeadsStart(ops: seq<Op>)
    requires forall i :: 0 <= i < |ops| && ops[i].OpPut? ==> ops[i].value != TOMBSTONE
    ensures Leads(ops, 0, Fresh(8))
  {
    EightIsCapacity();
  }

  lemma LeadsOn(ops: seq<Op>, n: nat, t: Table)
    requires Leads(ops, n, t) && n < |ops|
    ensures Inv(t) && Leads(ops, n + 1, Exec(t, ops[n]).0)
  {
    AfterSnoc(Fresh(8), ops[..n], ops[n]);
    assert ops[..n + 1] == ops[..n] + [ops[n]];
  }

  /** A put that stores at its p-th probe. */
  lemma PutAt(t: Table, key: Word, value: Word, p: nat, s': seq<Entry>)
    requires Inv(t) && !Overloaded(t) && value > TOMBSTONE && p < |t.entries|
    requires (forall j :: 0 <= j < p ==> !PutStops(t.entries, key, j)) && !IsLive(At(t.entries, key, p))
    requires s' == t.entries[(key + p) % |t.entries| := Entry(key, value)]
    ensures Put(t, key, value, true) == (Table(s', t.count + 1, t.tombstones), 0)
  {
    assert PutStops(t.entries, key, p);
  }

  /** A remove that finds its key at once. */
  lemma RemoveAt(t: Table, key: Word, s': seq<Entry>)
    requires |t.entries| > 0 && t.count > 0 && Hit(t.entries, key, 0)
    requires s' == t.entries[key % |t.entries| := Entry(key, TOMBSTONE)]
    ensures Remove(t, key) == (Table(s', t.count - 1, t.tombstones + 1), 0)
  {
    assert FindStops(t.entries, key, 0);
  }

  /** Step n of a run is a put that stores in its home slot h. */
  lemma NextPut(ops: seq<Op>, n: nat, t: Table, key: Word, value: Word, h: nat, s': seq<Entry>)
    requires Leads(ops, n, t) && n < |ops| && ops[n] == OpPut(key, value, true) && value > TOMBSTONE
    requires |t.entries| == 8 && h == key % 8 && !Overloaded(t) && !IsLive(t.entries[h])
    requires s' == t.entries[h := Entry(key, value)]
    ensures Leads(ops, n + 1, Table(s', t.count + 1, t.tombstones))
  {
    LeadsOn(ops, n, t);
    PutAt(t, key, value, 0, s');
  }

  /** Step n of a run is a put that finds its home slot h taken and stores in slot g behind it. */
  lemma NextPutBehind(ops: seq<Op>, n: nat, t: Table, key: Word, value: Word, h: nat, g: nat, s': seq<Entry>)
    requires Leads(ops, n, t) && n < |ops| && ops[n] == OpPut(key, value, true) && value > TOMBSTONE
    requires |t.entries| == 8 && h == key % 8 && g == (key + 1) % 8 && !Overloaded(t)
    requires IsLive(t.entries[h]) && t.entries[h].key != key && !IsLive(t.entries[g])
    requires s' == t.entries[g := Entry(key, value)]
    ensures Leads(ops, n + 1, Table(s', t.count + 1, t.tombstones))
  {
    LeadsOn(ops, n, t);
    assert !PutStops(t.entries, key, 0);
    PutAt(t, key, value, 1, s');
  }

  /** Step n of a run is a remove that finds its key in its home slot h. */
  lemma NextRemove(ops: seq<Op>, n: nat, t: Table, key: Word, h: nat, s': seq<Entry>)
    requires Leads(ops, n, t) && n < |ops| && ops[n] == OpRemove(key)
    requires |t.entries| == 8 && h == key % 8 && t.count > 0 && IsLive(t.entries[h]) && t.entries[h].key == key
    requires s' == t.entries[h := Entry(key, TOMBSTONE)]
    ensures Leads(ops, n + 1, Table(s', t.count - 1, t.tombstones + 1))
  {
    LeadsOn(ops, n, t);
    RemoveAt(t, key, s');
  }

  // ---------------------------------------------------------------------
  // A put that shadows
  // ---------------------------------------------------------------------

  const SHADOW_OPS: seq<Op> := [OpPut(0, 2, true), OpPut(8, 3, true), OpRemove(0)]

  const SHADOWING: Table :=
    Table([Entry(0, TOMBSTONE), Entry(8, 3), EMPTY, EMPTY, EMPTY, EMPTY, EMPTY, EMPTY], 1, 1)

  /** Keys 0 and 8 share their home slot. */
  lemma ShadowStart()
    ensures Leads(SHADOW_OPS, 2, Table(Fresh(8).entries[0 := Entry(0, 2)][1 := Entry(8, 3)], 2, 0))
  {
    LeadsStart(SHADOW_OPS);
    var s1 := Fresh(8).entries[0 := Entry(0, 2)];
    NextPut(SHADOW_OPS, 0, Fresh(8), 0, 2, 0, s1);
    NextPutBehind(SHADOW_OPS, 1, Table(s1, 1, 0), 8, 3, 0, 1, s1[1 := Entry(8, 3)]);
  }

  lemma ShadowRun()
    ensures Leads(SHADOW_OPS, 3, SHADOWING)
  {
    ShadowStart();
    var s2 := Fresh(8).entries[0 := Entry(0, 2)][1 := Entry(8, 3)];
    NextRemove(SHADOW_OPS, 2, Table(s2, 2, 0), 0, 0, SHADOWING.entries);
  }

  /** Put 0, put 8, remove 0 leaves key 8 behind a tombstone: the next put of 8 shadows. */
  lemma ShadowingReached()
    ensures Leads(SHADOW_OPS, |SHADOW_OPS|, SHADOWING)
    ensures !Overloaded(SHADOWING) && Present(SHADOWING.entries, 8)
    ensures TombBefore(SHADOWING.entries, 8, FindScan(SHADOWING.entries, 8, 0))
  {
    ShadowRun();
    var s := SHADOWING.entries;
    assert LiveKey(s, 1, 8);
    assert At(s, 8, 0).value == TOMBSTONE;
    assert !FindStops(s, 8, 0) && FindStops(s, 8, 1);
  }

  // ---------------------------------------------------------------------
  // A put of one key that changes the answer for another
  // ---------------------------------------------------------------------

  const STRADDLE_OPS: seq<Op> :=
    [OpPut(15, 2, true), OpPut(7, 3, true), OpRemove(15), OpPut(7, 5, true),
     OpPut(1, 2, true), OpPut(2, 2, true), OpPut(3, 2, true)]

  /** Key 7 in slot 0, then in its home slot 7. */
  const TWICE: Table := Table([Entry(7, 3), EMPTY, EMPTY, EMPTY, EMPTY, EMPTY, EMPTY, Entry(7, 5)], 2, 1)

  const STRADDLING: Table :=
    Table([Entry(7, 3), Entry(1, 2), Entry(2, 2), Entry(3, 2), EMPTY, EMPTY, EMPTY, Entry(7, 5)], 5, 1)

  lemma TwiceStart()
    ensures Leads(STRADDLE_OPS, 2, Table(Fresh(8).entries[7 := Entry(15, 2)][0 := Entry(7, 3)], 2, 0))
  {
    LeadsStart(STRADDLE_OPS);
    var s1 := Fresh(8).entries[7 := Entry(15, 2)];
    NextPut(STRADDLE_OPS, 0, Fresh(8), 15, 2, 7, s1);
    NextPutBehind(STRADDLE_OPS, 1, Table(s1, 1, 0), 7, 3, 7, 0, s1[0 := Entry(7, 3)]);
  }

  lemma TwiceRun()
    ensures Leads(STRADDLE_OPS, 4, TWICE)
  {
    TwiceStart();
    var s2 := Fresh(8).entries[7 := Entry(15, 2)][0 := Entry(7, 3)];
    var s3 := s2[7 := Entry(15, TOMBSTONE)];
    NextRemove(STRADDLE_OPS, 2, Table(s2, 2, 0), 15, 7, s3);
    NextPut(STRADDLE_OPS, 3, Table(s3, 1, 1), 7, 5, 7, TWICE.entries);
  }

  lemma StraddleStart()
    ensures Leads(STRADDLE_OPS, 5, Table(TWICE.entries[1 := Entry(1, 2)], 3, 1))
  {
    TwiceRun();
    NextPut(STRADDLE_OPS, 4, TWICE, 1, 2, 1, TWICE.entries[1 := Entry(1, 2)]);
  }

  lemma StraddleMiddle()
    ensures Leads(STRADDLE_OPS, 6, Table(TWICE.entries[1 := Entry(1, 2)][2 := Entry(2, 2)], 4, 1))
  {
    StraddleStart();
    var s5 := TWICE.entries[1 := Entry(1, 2)];
    NextPut(STRADDLE_OPS, 5, Table(s5, 3, 1), 2, 2, 2, s5[2 := Entry(2, 2)]);
  }

  lemma StraddleRun()
    ensures Leads(STRADDLE_OPS, 7, STRADDLING)
  {
    StraddleMiddle();
    var s6 := TWICE.entries[1 := Entry(1, 2)][2 := Entry(2, 2)];
    assert s6[3 := Entry(3, 2)] == STRADDLING.entries;
    NextPut(STRADDLE_OPS, 6, Table(s6, 4, 1), 3, 2, 3, STRADDLING.entries);
  }

  lemma StraddlingAnswers()
    requires Inv(STRADDLING)
    ensures Overloaded(STRADDLING) && Get(STRADDLING, 7) == 5 && LowestValue(STRADDLING.entries, 7) == 3
    ensures !Present(STRADDLING.entries, 4) && Present(STRADDLING.entries, 7) && Straddles(STRADDLING.entries, 7)
  {
    var s := STRADDLING.entries;
    assert LiveKey(s, 0, 7) && LiveKey(s, 7, 7);
    assert FindStops(s, 7, 0);
    assert First(s, 7, 0) == 0;
  }

  /**
   After these seven calls get(7) is 5. A put of key 4 succeeds and takes that answer back to 3; a put of key 7
   itself is rejected and does the same.
   */
  lemma AnswerGoesBack()
    ensures Leads(STRADDLE_OPS, |STRADDLE_OPS|, STRADDLING) && Inv(STRADDLING) && Get(STRADDLING, 7) == 5
    ensures var (r, ret) := Put(STRADDLING, 4, 6, true); ret == 0 && |r.entries| == 16 && Get(r, 7) == 3
    ensures var (r, ret) := Put(STRADDLING, 7, 6, true); ret == -1 && |r.entries| == 16 && Get(r, 7) == 3
  {
    StraddleRun();
    assert Inv(STRADDLING);
    StraddlingAnswers();
    ResizeKeeps(STRADDLING, true);
    PutStoresExactly(STRADDLING, 4, 6, true);
    PutStoresExactly(STRADDLING, 7, 6, true);
    PutAnswers(STRADDLING, 4, 6, true, 7);
    PutAnswers(STRADDLING, 7, 6, true, 7);
  }

  // ---------------------------------------------------------------------
  // The tombstone marker as a value
  // ---------------------------------------------------------------------

  /** Putting the marker in a fresh table is reported as a success and breaks the accounting. */
  lemma MarkerBreaks()
    ensures Inv(Fresh(8))
    ensures var (r, ret) := Put(Fresh(8), 0, TOMBSTONE, true); ret == 0 && !Inv(r) && Get(r, 0) == NULL
  {
    EightIsCapacity();
    var s := Fresh(8).entries;
    assert forall j: nat :: !LiveKey(s, j, 0);
    PutStoresExactly(Fresh(8), 0, TOMBSTONE, true);
    PutKeepsInvExactly(Fresh(8), 0, TOMBSTONE, true);
    var r := Put(Fresh(8), 0, TOMBSTONE, true).0;
    assert forall j: nat :: !LiveKey(r.entries, j, 0);
    GetAbsent(r, 0);
  }
}
