/**
 When the table doubles. Reusing a tombstone does not lower the tombstone
 counter, so count and tombstones together only ever grow between doublings, by
 one with every store, however few keys are live.
 */
module HashGrowth {
  import opened Bits
  import opened Sets
  import opened HashTable
  import opened HashRefinement

  /** What the load test of put looks at. */
  function Load(t: Table): nat {
    t.count + t.tombstones
  }

  lemma LoadOfPut(t: Table, key: Word, value: Word, mem: bool)
    requires Inv(t) && !Overloaded(t) && value != TOMBSTONE
    ensures var (r, ret) := Put(t, key, value, mem);
            |r.entries| == |t.entries| && Load(r) == Load(t) + if ret == 0 then 1 else 0
  {
  }

  lemma LoadOfRemove(t: Table, key: Word)
    requires Inv(t)
    ensures var r := Remove(t, key).0; |r.entries| == |t.entries| && Load(r) == Load(t)
  {
  }

  /** A doubling forgets the tombstones and the repeated keys: one is left for every key. */
  lemma LoadOfDoubling(t: Table)
    requires Inv(t) && |t.entries| * 32 < WORD
    ensures Load(Resize(t, 2 * |t.entries|, true).0) == |Contents(t.entries)|
  {
    ResizeKeeps(t, true);
    var r := Resize(t, 2 * |t.entries|, true).0;
    SizeIsCount(r.entries);
    assert Contents(r.entries).Keys == Keys(r.entries);
  }

  // ---------------------------------------------------------------------
  // When the next doubling comes
  // ---------------------------------------------------------------------

  ghost predicate Plain(ops: seq<Op>) {
    forall i :: 0 <= i < |ops| ==> !ops[i].OpClear? && (ops[i].OpPut? ==> ops[i].value != TOMBSTONE)
  }

  /** How many puts of the run store their value. */
  ghost function StoresIn(t: Table, ops: seq<Op>): nat
    requires Inv(t) && Plain(ops)
    decreases |ops|
  {
    if ops == [] then 0
    else
      ExecKeepsInv(t, ops[0]);
      (if ops[0].OpPut? && Exec(t, ops[0]).1 == 0 then 1 else 0) + StoresIn(Exec(t, ops[0]).0, ops[1..])
  }

  /** One call: the capacity stays and the load counts the stores, or the capacity doubles. */
  lemma LoadOfCall(t: Table, op: Op)
    requires Inv(t) && Plain([op])
    ensures var (r, ret) := Exec(t, op);
            || (|r.entries| == |t.entries| && Load(r) == Load(t) + if op.OpPut? && ret == 0 then 1 else 0)
            || (|r.entries| == 2 * |t.entries| && op.OpPut? && Overloaded(t))
  {
    assert [op][0] == op;
    if op.OpPut? {
      if Overloaded(t) { ResizeKeeps(t, op.mem); } else { LoadOfPut(t, op.key, op.value, op.mem); }
    } else if op.OpRemove? {
      LoadOfRemove(t, op.key);
    }
  }

  lemma {:induction false} CapacityGrows(t: Table, ops: seq<Op>)
    requires Inv(t) && Plain(ops)
    ensures |After(t, ops).entries| >= |t.entries|
    decreases |ops|
  {
    if ops != [] {
      LoadOfCall(t, ops[0]);
      ExecKeepsInv(t, ops[0]);
      CapacityGrows(Exec(t, ops[0]).0, ops[1..]);
    }
  }

  /** Along a run that does not double, count and tombstones together grow by one with every store. */
  lemma {:induction false} LoadCountsStores(t: Table, ops: seq<Op>)
    requires Inv(t) && Plain(ops) && |After(t, ops).entries| == |t.entries|
    ensures Load(After(t, ops)) == Load(t) + StoresIn(t, ops)
    decreases |ops|
  {
    if ops != [] {
      LoadOfCall(t, ops[0]);
      ExecKeepsInv(t, ops[0]);
      CapacityGrows(Exec(t, ops[0]).0, ops[1..]);
      LoadCountsStores(Exec(t, ops[0]).0, ops[1..]);
    }
  }

  /**
   When the next doubling comes: with memory at hand, a put after such a run doubles exactly when the stores
   since then have brought the load to three quarters, whatever was removed in between.
   */
  lemma NextDoubling(t: Table, ops: seq<Op>, key: Word, value: Word)
    requires Inv(t) && Plain(ops) && |After(t, ops).entries| == |t.entries| && |t.entries| * 32 < WORD && value != NULL
    ensures |Put(After(t, ops), key, value, true).0.entries| ==
            if 4 * (Load(t) + StoresIn(t, ops)) >= 3 * |t.entries| then 2 * |t.entries| else |t.entries|
  {
    LoadCountsStores(t, ops);
    ResizeKeeps(After(t, ops), true);
  }

  // ---------------------------------------------------------------------
  // One key put and removed again and again
  // ---------------------------------------------------------------------

  function Churn(n: nat): seq<Op> {
    if n == 0 then [] else Churn(n - 1) + [OpPut(0, 2, true)] + [OpRemove(0)]
  }

  lemma {:induction false} ChurnPlain(n: nat)
    ensures Plain(Churn(n))
  {
    if n > 0 { ChurnPlain(n - 1); }
  }

  lemma NoneLive(t: Table)
    requires Inv(t) && t.count == 0
    ensures Unique(t.entries) && Contents(t.entries) == map[]
  {
    forall j | 0 <= j < |t.entries| ensures !IsLive(t.entries[j]) {
      if IsLive(t.entries[j]) { LiveIsCounted(t, j); }
    }
    assert Keys(t.entries) == {};
  }

  /** Put and remove key 0 in a table that is below its load bound. */
  lemma PairFills(t: Table)
    requires Inv(t) && t.count == 0 && !Overloaded(t)
    ensures var t1 := Put(t, 0, 2, true).0;
            && Inv(t1)
            && var r := Remove(t1, 0).0;
            Inv(r) && r.count == 0 && r.tombstones == t.tombstones + 1 && |r.entries| == |t.entries|
  {
    NoneLive(t);
    InsertAgrees(t, 0, 2);
    RemoveAgrees(Put(t, 0, 2, true).0, 0);
  }

  /** The same at the load bound. */
  lemma PairDoubles(t: Table)
    requires Inv(t) && t.count == 0 && Overloaded(t) && |t.entries| * 32 < WORD
    ensures var t1 := Put(t, 0, 2, true).0;
            && Inv(t1)
            && var r := Remove(t1, 0).0;
            Inv(r) && r.count == 0 && r.tombstones == 1 && |r.entries| == 2 * |t.entries|
  {
    NoneLive(t);
    ResizeKeeps(t, true);
    LoadOfDoubling(t);
    var r := Resize(t, 2 * |t.entries|, true).0;
    InsertAgrees(r, 0, 2);
    RemoveAgrees(Insert(r, 0, 2).0, 0);
  }

  /** After n rounds from a fresh table: no live key, the given capacity and tombstone counter. */
  ghost predicate Churned(n: nat, cap: nat, tombs: nat) {
    && Plain(Churn(n)) && Inv(Fresh(8))
    && var t := After(Fresh(8), Churn(n));
    t.count == 0 && |t.entries| == cap && t.tombstones == tombs
  }

  lemma OneRound(n: nat)
    requires Inv(Fresh(8))
    ensures Plain(Churn(n)) && Plain(Churn(n + 1))
    ensures var t := After(Fresh(8), Churn(n));
            Inv(Put(t, 0, 2, true).0) && After(Fresh(8), Churn(n + 1)) == Remove(Put(t, 0, 2, true).0, 0).0
  {
    ChurnPlain(n);
    ChurnPlain(n + 1);
    PutKeepsInv(After(Fresh(8), Churn(n)), 0, 2, true);
    AfterSnoc(Fresh(8), Churn(n), OpPut(0, 2, true));
    AfterSnoc(Fresh(8), Churn(n) + [OpPut(0, 2, true)], OpRemove(0));
  }

  lemma RoundFills(n: nat, cap: nat, tombs: nat)
    requires Churned(n, cap, tombs) && 4 * tombs < 3 * cap
    ensures Churned(n + 1, cap, tombs + 1)
  {
    OneRound(n);
    PairFills(After(Fresh(8), Churn(n)));
  }

  lemma RoundDoubles(n: nat, cap: nat, tombs: nat)
    requires Churned(n, cap, tombs) && 4 * tombs >= 3 * cap && cap * 32 < WORD
    ensures Churned(n + 1, 2 * cap, 1)
  {
    OneRound(n);
    PairDoubles(After(Fresh(8), Churn(n)));
  }

  lemma {:induction false} FillUp(n: nat, cap: nat, tombs: nat) returns (m: nat, full: nat)
    requires Churned(n, cap, tombs)
    ensures Churned(m, cap, full) && 4 * full >= 3 * cap
    decreases 3 * cap - 4 * tombs
  {
    if 4 * tombs < 3 * cap {
      RoundFills(n, cap, tombs);
      m, full := FillUp(n + 1, cap, tombs + 1);
    } else {
      m, full := n, tombs;
    }
  }

  lemma {:induction false} GrowsTo(m: nat) returns (n: nat, tombs: nat)
    requires 8 * Pow2(m) * 16 < WORD
    ensures Churned(n, 8 * Pow2(m), tombs)
  {
    if m == 0 {
      assert Pow2(3) == 8;
      FreshIsEmpty(8);
      n, tombs := 0, 0;
    } else {
      n, tombs := GrowsTo(m - 1);
      n, tombs := FillUp(n, 8 * Pow2(m - 1), tombs);
      RoundDoubles(n, 8 * Pow2(m - 1), tombs);
      n, tombs := n + 1, 1;
    }
  }

  /**
   Putting and removing a single key makes the table grow to every capacity an array can have, with no key
   in it at the end.
   */
  lemma OneKeyGrowsForEver(m: nat)
    requires 8 * Pow2(m) * 16 < WORD
    ensures exists n: nat, tombs: nat :: Churned(n, 8 * Pow2(m), tombs)
  {
    var n, tombs := GrowsTo(m);
  }
}
