/**
 What put does to the answers of get, in every table the code can reach, also
 when a key is stored twice. Doubling keeps the lowest slot of such a key, which
 need not be the one get was answering with.
 */
module HashAnswers {
  import opened Bits
  import opened Sets
  import opened HashTable
  import opened HashRefinement

  /** The value in the lowest slot that holds k, NULL if there is none. */
  ghost function LowestValue(s: seq<Entry>, k: Word): Word {
    if First(s, k, 0) < |s| then s[First(s, k, 0)].value else NULL
  }

  /** k is stored on both sides of its home slot. */
  ghost predicate Straddles(s: seq<Entry>, k: Word)
    requires |s| > 0
  {
    exists i: nat, j: nat :: i < k % |s| <= j && LiveKey(s, i, k) && LiveKey(s, j, k)
  }

  // ---------------------------------------------------------------------
  // Which copy get answers with
  // ---------------------------------------------------------------------

  /** How many probes from the home slot h to slot j. */
  function Probes(h: nat, j: nat, n: nat): nat
    requires h < n && j < n
  {
    if j >= h then j - h else j + n - h
  }

  lemma ProbeReaches(k: Word, i: nat, n: nat)
    requires i < n
    ensures Probes(k % n, (k + i) % n, n) == i
  {
    var h := k % n;
    ModStep(k, i, n);
    if h + i < n { ModSmall(h + i, n); } else { DivModUnique(h + i, n, 1, h + i - n); }
  }

  /** get answers with the copy that the fewest probes reach. */
  lemma FoundIsNearest(t: Table, k: Word, j: nat)
    requires Inv(t) && LiveKey(t.entries, j, k)
    ensures var s := t.entries; var f := (k + FindScan(s, k, 0)) % |s|;
            && FindScan(s, k, 0) < |s| && LiveKey(s, f, k) && Get(t, k) == s[f].value
            && Probes(k % |s|, f, |s|) <= Probes(k % |s|, j, |s|)
  {
    var s := t.entries;
    FindMeets(s, j);
    var i := ProbeOnto(k, j, |s|);
    assert Hit(s, k, i) && FindStops(s, k, i);
    ProbeReaches(k, i, |s|);
    ProbeReaches(k, FindScan(s, k, 0), |s|);
  }

  /** The copy get answers with is the lowest one exactly when the key does not straddle its home slot. */
  lemma FoundIsLowestExactly(t: Table, k: Word)
    requires Inv(t) && Present(t.entries, k)
    ensures var s := t.entries;
            (k + FindScan(s, k, 0)) % |s| == First(s, k, 0) <==> !Straddles(s, k)
  {
    var s := t.entries;
    var f, a := (k + FindScan(s, k, 0)) % |s|, First(s, k, 0);
    PresentIsKey(s, k);
    KeyHasFirst(s, k);
    assert LiveKey(s, a, k);
    FoundIsNearest(t, k, a);
    assert a <= f;
    if Straddles(s, k) {
      var i: nat, j: nat :| i < k % |s| <= j && LiveKey(s, i, k) && LiveKey(s, j, k);
      FoundIsNearest(t, k, j);
    } else {
      assert a < k % |s| ==> f < k % |s|;
    }
  }

  lemma GetAbsent(t: Table, k: Word)
    requires |t.entries| > 0 && !Present(t.entries, k)
    ensures Get(t, k) == NULL && LowestValue(t.entries, k) == NULL
  {
    var i := FindScan(t.entries, k, 0);
    assert !LiveKey(t.entries, (k + i) % |t.entries|, k);
    assert !LiveKey(t.entries, First(t.entries, k, 0), k);
  }

  /** So without a straddling key get answers with the lowest copy of every key. */
  lemma LowestIsAnswer(t: Table, k: Word)
    requires Inv(t) && !Straddles(t.entries, k)
    ensures LowestValue(t.entries, k) == Get(t, k)
  {
    if Present(t.entries, k) {
      var j :| LiveKey(t.entries, j, k);
      FoundIsNearest(t, k, j);
      FoundIsLowestExactly(t, k);
    } else {
      GetAbsent(t, k);
    }
  }

  // ---------------------------------------------------------------------
  // Doubling and storing
  // ---------------------------------------------------------------------

  /** A put that doubles the table, whether it then stores or not. */
  predicate Doubles(t: Table, value: Word, mem: bool) {
    value != NULL && Overloaded(t) && mem && |t.entries| * 32 < WORD
  }

  /** After a doubling get answers with the lowest copy of every key. */
  lemma DoublingAnswers(t: Table, k: Word)
    requires Inv(t) && |t.entries| * 32 < WORD
    ensures Get(Resize(t, 2 * |t.entries|, true).0, k) == LowestValue(t.entries, k)
  {
    ResizeKeeps(t, true);
    GetAgrees(Resize(t, 2 * |t.entries|, true).0, k);
    KeyHasFirst(t.entries, k);
  }

  /** Storing another key leaves the first copy of k where the scan finds it. */
  lemma OthersFound(t: Table, key: Word, value: Word, k: Word)
    requires Inv(t) && value > TOMBSTONE && Insert(t, key, value).1 == 0 && k != key && Present(t.entries, k)
    ensures Get(Insert(t, key, value).0, k) == Get(t, k)
  {
    var s, e := t.entries, Entry(key, value);
    var slot := (key + PutScan(s, key, 0)) % |s|;
    var s' := s[slot := e];
    var j :| LiveKey(s, j, k);
    FindMeets(s, j);
    var i := FindScan(s, k, 0);
    forall b | 0 <= b < i ensures !FindStops(s', k, b) {
      AtUpdate(s, slot, e, k, b);
      assert !FindStops(s, k, b);
    }
    AtUpdate(s, slot, e, k, i);
    FindFrom(s', k, i);
  }

  /** The probing part of put changes the answer for its own key only, and only when it stores. */
  lemma InsertAnswers(t: Table, key: Word, value: Word, k: Word)
    requires Inv(t) && value > TOMBSTONE
    ensures var (r, ret) := Insert(t, key, value);
            Get(r, k) == if k == key && ret == 0 then value else Get(t, k)
  {
    var (r, ret) := Insert(t, key, value);
    if ret == 0 {
      var s, e := t.entries, Entry(key, value);
      var p := PutScan(s, key, 0);
      if k == key {
        ShadowScan(s, key, e, p, r.entries);
        assert Hit(r.entries, key, p);
        FindFrom(r.entries, key, p);
      } else if Present(s, k) {
        OthersFound(t, key, value, k);
      } else {
        GetAbsent(t, k);
        assert forall j: nat :: LiveKey(r.entries, j, k) ==> LiveKey(s, j, k);
        GetAbsent(r, k);
      }
    }
  }

  /**
   What every put does to every get, in every table: its own key is answered with the new value when it is
   stored; all other answers stay, unless the put doubles the table, and then they are the lowest copies.
   */
  lemma PutAnswers(t: Table, key: Word, value: Word, mem: bool, k: Word)
    requires Inv(t) && value != TOMBSTONE
    ensures Get(Put(t, key, value, mem).0, k) ==
            if k == key && Stores(t, key, value, mem) then value
            else if Doubles(t, value, mem) then LowestValue(t.entries, k)
            else Get(t, k)
  {
    PutStoresExactly(t, key, value, mem);
    if value != NULL {
      ResizeKeeps(t, mem);
      if Doubles(t, value, mem) {
        DoublingAnswers(t, k);
        InsertAnswers(Resize(t, 2 * |t.entries|, mem).0, key, value, k);
      } else if !Overloaded(t) {
        InsertAnswers(t, key, value, k);
      }
    }
  }

  /** A put leaves the answers for all other keys alone if it does not double, or no key straddles its home slot. */
  lemma PutLeavesOthers(t: Table, key: Word, value: Word, mem: bool, k: Word)
    requires Inv(t) && value != TOMBSTONE && k != key
    ensures var r := Put(t, key, value, mem).0;
            && (Get(r, k) == Get(t, k) <==> !Doubles(t, value, mem) || LowestValue(t.entries, k) == Get(t, k))
            && (!Straddles(t.entries, k) ==> Get(r, k) == Get(t, k))
  {
    PutAnswers(t, key, value, mem, k);
    if !Straddles(t.entries, k) { LowestIsAnswer(t, k); }
  }

  /** A rejected put leaves the table alone exactly when it does not double it; otherwise it is rebuilt all the same. */
  lemma RejectedPut(t: Table, key: Word, value: Word, mem: bool)
    requires Inv(t) && Put(t, key, value, mem).1 != 0
    ensures var r := Put(t, key, value, mem).0;
            && (r == t <==> !Doubles(t, value, mem))
            && (Doubles(t, value, mem) ==>
                  && r == Resize(t, 2 * |t.entries|, mem).0 && Inv(r) && |r.entries| == 2 * |t.entries|
                  && r.tombstones == 0 && NoTombs(r.entries) && Unique(r.entries))
  {
    ResizeKeeps(t, mem);
    InsertStoresExactly(t, key, value);
    if Doubles(t, value, mem) { InsertStoresExactly(Resize(t, 2 * |t.entries|, mem).0, key, value); }
  }
}
