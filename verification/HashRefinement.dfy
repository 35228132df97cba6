/**
 What the hash table means: a map from keys to values. Every run that puts
 absent keys behaves like that map, and a put of a key that is already present
 is characterised by the tombstones on its probe path.
 */
module HashRefinement {
  import opened Bits
  import opened Sets
  import opened HashTable

  // ---------------------------------------------------------------------
  // Contents, independent of probing
  // ---------------------------------------------------------------------

  ghost predicate LiveKey(s: seq<Entry>, j: nat, k: Word) {
    j < |s| && IsLive(s[j]) && s[j].key == k
  }

  ghost function Keys(s: seq<Entry>): set<Word> {
    set j | 0 <= j < |s| && IsLive(s[j]) :: s[j].key
  }

  /** Lowest slot at or after j holding k; |s| if there is none. */
  ghost function First(s: seq<Entry>, k: Word, j: nat): (r: nat)
    requires j <= |s|
    ensures j <= r <= |s|
    ensures r < |s| ==> LiveKey(s, r, k)
    ensures forall i :: j <= i < r ==> !LiveKey(s, i, k)
    decreases |s| - j
  {
    if j == |s| || LiveKey(s, j, k) then j else First(s, k, j + 1)
  }

  lemma KeyHasFirst(s: seq<Entry>, k: Word)
    ensures k in Keys(s) <==> First(s, k, 0) < |s|
  {
    if k in Keys(s) {
      var j :| 0 <= j < |s| && IsLive(s[j]) && s[j].key == k;
      assert LiveKey(s, j, k);
    }
  }

  /** The map a slot array stands for; a key stored twice takes its lowest slot. */
  ghost function Contents(s: seq<Entry>): map<Word, Word> {
    map k | k in Keys(s) :: (KeyHasFirst(s, k); s[First(s, k, 0)].value)
  }

  ghost predicate Unique(s: seq<Entry>) {
    forall i: nat, j: nat, k: Word :: LiveKey(s, i, k) && LiveKey(s, j, k) ==> i == j
  }

  lemma ContentsAt(s: seq<Entry>, j: nat)
    requires Unique(s) && j < |s| && IsLive(s[j])
    ensures s[j].key in Contents(s) && Contents(s)[s[j].key] == s[j].value
  {
    var k := s[j].key;
    assert LiveKey(s, j, k) && k in Keys(s);
    KeyHasFirst(s, k);
    assert LiveKey(s, First(s, k, 0), k);
  }

  lemma ContentsAbsent(s: seq<Entry>, k: Word)
    requires k !in Contents(s)
    ensures forall j: nat :: !LiveKey(s, j, k)
  {
    KeyHasFirst(s, k);
  }

  /** Storing an absent key in a slot that is not live adds exactly that binding. */
  lemma ContentsStore(s: seq<Entry>, slot: nat, key: Word, value: Word)
    requires Unique(s) && slot < |s| && !IsLive(s[slot]) && value > TOMBSTONE
    requires key !in Contents(s)
    ensures Unique(s[slot := Entry(key, value)])
    ensures Contents(s[slot := Entry(key, value)]) == Contents(s)[key := value]
  {
    var s' := s[slot := Entry(key, value)];
    ContentsAbsent(s, key);
    forall i: nat, j: nat, k: Word | LiveKey(s', i, k) && LiveKey(s', j, k) ensures i == j {
      assert i != slot ==> LiveKey(s, i, k);
      assert j != slot ==> LiveKey(s, j, k);
    }
    var m, m' := Contents(s)[key := value], Contents(s');
    forall k: Word ensures k in m' <==> k in m {
      if k in m' {
        var j :| 0 <= j < |s'| && IsLive(s'[j]) && s'[j].key == k;
        if j != slot { ContentsAt(s, j); }
      }
      if k in m && k != key {
        var j :| 0 <= j < |s| && IsLive(s[j]) && s[j].key == k;
        assert s'[j] == s[j];
        ContentsAt(s', j);
      }
      if k == key {
        assert IsLive(s'[slot]) && s'[slot].key == key;
        ContentsAt(s', slot);
      }
    }
    forall k: Word | k in m' ensures m'[k] == m[k] {
      var j :| 0 <= j < |s'| && IsLive(s'[j]) && s'[j].key == k;
      ContentsAt(s', j);
      if j != slot { ContentsAt(s, j); }
    }
  }

  /** Turning a live slot into a tombstone removes exactly its binding. */
  lemma ContentsErase(s: seq<Entry>, slot: nat)
    requires Unique(s) && slot < |s| && IsLive(s[slot])
    ensures Unique(s[slot := Entry(s[slot].key, TOMBSTONE)])
    ensures Contents(s[slot := Entry(s[slot].key, TOMBSTONE)]) == Contents(s) - {s[slot].key}
  {
    var key := s[slot].key;
    var s' := s[slot := Entry(key, TOMBSTONE)];
    forall i: nat, j: nat, k: Word | LiveKey(s', i, k) && LiveKey(s', j, k) ensures i == j {
      assert LiveKey(s, i, k) && LiveKey(s, j, k);
    }
    var m, m' := Contents(s) - {key}, Contents(s');
    forall k: Word ensures k in m' <==> k in m {
      if k in m' {
        var j :| 0 <= j < |s'| && IsLive(s'[j]) && s'[j].key == k;
        ContentsAt(s, j);
        assert LiveKey(s, j, k) && LiveKey(s, slot, key);
      }
      if k in m {
        var j :| 0 <= j < |s| && IsLive(s[j]) && s[j].key == k;
        assert s'[j] == s[j];
        ContentsAt(s', j);
      }
    }
    forall k: Word | k in m' ensures m'[k] == m[k] {
      var j :| 0 <= j < |s'| && IsLive(s'[j]) && s'[j].key == k;
      ContentsAt(s', j);
      ContentsAt(s, j);
    }
  }

  /** With unique keys the number of live slots is the size of the map. */
  lemma {:induction false} SizeIsCount(s: seq<Entry>)
    requires Unique(s)
    ensures |Keys(s)| == CountIf(IsLive, s)
  {
    if s != [] {
      var r := s[1..];
      forall i: nat, j: nat, k: Word | LiveKey(r, i, k) && LiveKey(r, j, k) ensures i == j {
        assert LiveKey(s, i + 1, k) && LiveKey(s, j + 1, k);
      }
      SizeIsCount(r);
      if IsLive(s[0]) {
        var k0 := s[0].key;
        assert k0 !in Keys(r) by {
          if k0 in Keys(r) {
            var j :| 0 <= j < |r| && IsLive(r[j]) && r[j].key == k0;
            assert LiveKey(s, 0, k0) && LiveKey(s, j + 1, k0);
          }
        }
        KeysCons(s);
        assert |Keys(r) + {k0}| == |Keys(r)| + 1;
      } else {
        KeysCons(s);
      }
    }
  }

  lemma KeysCons(s: seq<Entry>)
    requires s != []
    ensures Keys(s) == Keys(s[1..]) + (if IsLive(s[0]) then {s[0].key} else {})
  {
    var r := s[1..];
    forall k ensures k in Keys(s) <==> k in Keys(r) || (IsLive(s[0]) && k == s[0].key) {
      if k in Keys(s) {
        var j :| 0 <= j < |s| && IsLive(s[j]) && s[j].key == k;
        if j > 0 { assert r[j - 1] == s[j]; }
      }
      if k in Keys(r) {
        var j :| 0 <= j < |r| && IsLive(r[j]) && r[j].key == k;
        assert s[j + 1] == r[j];
      }
    }
  }

  // ---------------------------------------------------------------------
  // Scans find what the contents hold
  // ---------------------------------------------------------------------

  /** A live slot is met by its own key's scan before any empty slot. */
  lemma FindMeets(s: seq<Entry>, j: nat)
    requires Capacity(|s|) && Reachable(s) && j < |s| && IsLive(s[j])
    ensures FindScan(s, s[j].key, 0) < |s| && Hit(s, s[j].key, FindScan(s, s[j].key, 0))
  {
    var k := s[j].key;
    var i := ProbeOnto(k, j, |s|);
    assert Hit(s, k, i) && FindStops(s, k, i);
    var r := FindScan(s, k, 0);
    if r < i { assert IsUsed(At(s, k, r)); }
  }

  lemma FindIsLookup(t: Table, key: Word)
    requires Inv(t) && Unique(t.entries)
    ensures var s := t.entries; var i := FindScan(s, key, 0);
            && i < |s|
            && (Hit(s, key, i) <==> key in Contents(s))
            && (Hit(s, key, i) ==> At(s, key, i).value == Contents(s)[key])
  {
    var s := t.entries;
    var i := FindScan(s, key, 0);
    ScansStop(t, key);
    if Hit(s, key, i) { ContentsAt(s, (key + i) % |s|); }
    if key in Contents(s) {
      var j :| 0 <= j < |s| && IsLive(s[j]) && s[j].key == key;
      FindMeets(s, j);
    }
  }

  /** get agrees with the map. */
  lemma GetAgrees(t: Table, key: Word)
    requires Inv(t) && Unique(t.entries)
    ensures Get(t, key) == if key in Contents(t.entries) then Contents(t.entries)[key] else NULL
  {
    FindIsLookup(t, key);
  }

  lemma EraseKeepsReachable(s: seq<Entry>, slot: nat)
    requires |s| > 0 && Reachable(s) && slot < |s| && IsLive(s[slot])
    ensures Reachable(s[slot := Entry(s[slot].key, TOMBSTONE)])
  {
    var e := Entry(s[slot].key, TOMBSTONE);
    var s' := s[slot := e];
    forall k: Word, a: nat, b: nat | b < a < |s'| && Hit(s', k, a) ensures IsUsed(At(s', k, b)) {
      AtUpdate(s, slot, e, k, a);
      AtUpdate(s, slot, e, k, b);
      assert Hit(s, k, a);
    }
  }

  /** remove keeps the invariant in every table, with or without repeated keys. */
  lemma RemoveKeepsInv(t: Table, key: Word)
    requires Inv(t)
    ensures Inv(Remove(t, key).0)
  {
    var s := t.entries;
    var i := FindScan(s, key, 0);
    if i < |s| && Hit(s, key, i) && t.count > 0 {
      var slot := (key + i) % |s|;
      CountUpdate(IsLive, s, slot, Entry(key, TOMBSTONE));
      CountUpdate(IsUsed, s, slot, Entry(key, TOMBSTONE));
      EraseKeepsReachable(s, slot);
    }
  }

  lemma LiveIsCounted(t: Table, slot: nat)
    requires Inv(t) && slot < |t.entries| && IsLive(t.entries[slot])
    ensures t.count > 0
  {
    CountUpdate(IsLive, t.entries, slot, Entry(0, NULL));
  }

  /** remove agrees with the map. */
  lemma RemoveAgrees(t: Table, key: Word)
    requires Inv(t) && Unique(t.entries)
    ensures var r := Remove(t, key);
            && Inv(r.0) && Unique(r.0.entries)
            && Contents(r.0.entries) == Contents(t.entries) - {key}
            && r.1 == (if key in Contents(t.entries) then 0 else -1)
  {
    var s := t.entries;
    var i := FindScan(s, key, 0);
    FindIsLookup(t, key);
    RemoveKeepsInv(t, key);
    if Hit(s, key, i) {
      LiveIsCounted(t, (key + i) % |s|);
      ContentsErase(s, (key + i) % |s|);
    }
  }

  /** The probing part of put adds an absent key. */
  lemma InsertAgrees(t: Table, key: Word, value: Word)
    requires Inv(t) && Unique(t.entries) && !Overloaded(t) && value > TOMBSTONE
    requires key !in Contents(t.entries)
    ensures var r := Insert(t, key, value);
            && Inv(r.0) && Unique(r.0.entries) && r.1 == 0
            && Contents(r.0.entries) == Contents(t.entries)[key := value]
  {
    var s := t.entries;
    var i := PutScan(s, key, 0);
    ScansStop(t, key);
    InsertKeepsInv(t, key, value);
    ContentsAbsent(s, key);
    var slot := (key + i) % |s|;
    assert !LiveKey(s, slot, key);
    ContentsStore(s, slot, key, value);
  }

  // ---------------------------------------------------------------------
  // Rehashing
  // ---------------------------------------------------------------------

  ghost predicate NoTombs(s: seq<Entry>) {
    forall i :: 0 <= i < |s| && IsUsed(s[i]) ==> IsLive(s[i])
  }

  /** In a table without tombstone slots put of a present key changes nothing. */
  lemma InsertRejects(t: Table, key: Word, value: Word)
    requires Inv(t) && NoTombs(t.entries) && key in Contents(t.entries)
    ensures Insert(t, key, value) == (t, -1)
  {
    var s := t.entries;
    var j :| 0 <= j < |s| && IsLive(s[j]) && s[j].key == key;
    var i := ProbeOnto(key, j, |s|);
    assert Hit(s, key, i) && PutStops(s, key, i);
    var r := PutScan(s, key, 0);
    if r < i { assert IsUsed(At(s, key, r)); }
  }

  lemma ContentsSnoc(s: seq<Entry>, i: nat)
    requires i < |s|
    ensures Contents(s[..i + 1]) ==
            if IsLive(s[i]) && s[i].key !in Contents(s[..i]) then Contents(s[..i])[s[i].key := s[i].value]
            else Contents(s[..i])
  {
    var a, b := s[..i], s[..i + 1];
    forall k: Word ensures k in Keys(b) <==> k in Keys(a) || (IsLive(s[i]) && s[i].key == k) {
      KeyHasFirst(a, k);
      KeyHasFirst(b, k);
      FirstSnoc(s, i, k);
    }
    forall k: Word | k in Keys(b) ensures Contents(b)[k] == if k in Keys(a) then Contents(a)[k] else s[i].value {
      KeyHasFirst(a, k);
      KeyHasFirst(b, k);
      FirstSnoc(s, i, k);
    }
  }

  lemma FirstSnoc(s: seq<Entry>, i: nat, k: Word)
    requires i < |s|
    ensures First(s[..i + 1], k, 0) ==
            if First(s[..i], k, 0) < i then First(s[..i], k, 0)
            else if IsLive(s[i]) && s[i].key == k then i else i + 1
  {
    var a, b := First(s[..i], k, 0), First(s[..i + 1], k, 0);
    if a < i { assert LiveKey(s[..i + 1], a, k); }
    if b < i { assert LiveKey(s[..i], b, k); }
    if b > i { assert !LiveKey(s[..i + 1], i, k); }
  }

  /**
   Rehashing keeps the contents, removes every tombstone and every repeated key,
   and no put on the way doubles the table again.
   */
  lemma {:induction false} RehashKeeps(src: seq<Entry>, i: nat, acc: Table, mem: bool)
    requires i <= |src| && Inv(acc) && acc.tombstones == 0
    requires 4 * (acc.count + CountIf(IsLive, src[i..])) <= 3 * |acc.entries|
    requires Unique(acc.entries) && NoTombs(acc.entries)
    requires Contents(acc.entries) == Contents(src[..i])
    ensures var r := Rehash(src, i, acc, mem);
            && Inv(r) && Unique(r.entries) && NoTombs(r.entries) && r.tombstones == 0
            && |r.entries| == |acc.entries|
            && Contents(r.entries) == Contents(src)
            && r.count <= acc.count + CountIf(IsLive, src[i..])
    decreases |src| - i
  {
    if i == |src| {
      assert src[..i] == src;
    } else {
      assert src[i..][1..] == src[i + 1..];
      ContentsSnoc(src, i);
      var e := src[i];
      if IsLive(e) {
        var next := Put(acc, e.key, e.value, mem).0;
        assert !Overloaded(acc) && next == Insert(acc, e.key, e.value).0;
        InsertKeepsInv(acc, e.key, e.value);
        if e.key in Contents(acc.entries) {
          InsertRejects(acc, e.key, e.value);
        } else {
          InsertAgrees(acc, e.key, e.value);
        }
        RehashKeeps(src, i + 1, next, mem);
      } else {
        RehashKeeps(src, i + 1, acc, mem);
      }
    }
  }

  /** While a live entry is still to be moved the new table is below its load bound: no put inside doubles it. */
  lemma InnerPutDoesNotResize(src: seq<Entry>, i: nat, acc: Table, mem: bool)
    requires i < |src| && IsLive(src[i]) && Inv(acc) && acc.tombstones == 0
    requires 4 * (acc.count + CountIf(IsLive, src[i..])) <= 3 * |acc.entries|
    ensures !Overloaded(acc) && Put(acc, src[i].key, src[i].value, mem) == Insert(acc, src[i].key, src[i].value)
  {
    assert src[i..][0] == src[i];
  }

  /** So rehashing asks for memory only once, at the outset. */
  lemma {:induction false} RehashNeedsNoMemory(src: seq<Entry>, i: nat, acc: Table)
    requires i <= |src| && Inv(acc) && acc.tombstones == 0
    requires 4 * (acc.count + CountIf(IsLive, src[i..])) <= 3 * |acc.entries|
    ensures Rehash(src, i, acc, true) == Rehash(src, i, acc, false)
    decreases |src| - i
  {
    if i < |src| {
      assert src[i..][1..] == src[i + 1..];
      if IsLive(src[i]) {
        InnerPutDoesNotResize(src, i, acc, true);
        InnerPutDoesNotResize(src, i, acc, false);
        InsertKeepsInv(acc, src[i].key, src[i].value);
        RehashNeedsNoMemory(src, i + 1, Insert(acc, src[i].key, src[i].value).0);
      } else {
        RehashNeedsNoMemory(src, i + 1, acc);
      }
    }
  }

  /**
   Doubling: a failed allocation leaves the table alone, a successful one keeps the lowest slot of every key.
   What that does to the answers of get is in HashAnswers.
   */
  lemma ResizeKeeps(t: Table, mem: bool)
    requires Inv(t)
    ensures var (r, ret) := Resize(t, 2 * |t.entries|, mem);
            && Inv(r)
            && (ret == 0 <==> mem && |t.entries| * 32 < WORD)
            && (ret != 0 ==> r == t && ret == -1)
            && (ret == 0 ==>
                  && |r.entries| == 2 * |t.entries| && r.tombstones == 0 && !Overloaded(r)
                  && Unique(r.entries) && NoTombs(r.entries)
                  && Contents(r.entries) == Contents(t.entries))
  {
    var cap := 2 * |t.entries|;
    if mem && cap * 16 < WORD {
      FreshInv(t, cap);
      FreshIsEmpty(cap);
      assert Contents(Fresh(cap).entries) == map[] == Contents(t.entries[..0]);
      RehashKeeps(t.entries, 0, Fresh(cap), mem);
      assert t.entries[0..] == t.entries;
    }
  }

  /** put keeps the invariant in every table, for every value but the tombstone marker. */
  lemma PutKeepsInv(t: Table, key: Word, value: Word, mem: bool)
    requires Inv(t) && value != TOMBSTONE
    ensures Inv(Put(t, key, value, mem).0)
  {
    if value != NULL {
      if Overloaded(t) {
        ResizeKeeps(t, mem);
        var (r, ret) := Resize(t, 2 * |t.entries|, mem);
        if ret == 0 { InsertKeepsInv(r, key, value); }
      } else {
        InsertKeepsInv(t, key, value);
      }
    }
  }

  /** put agrees with the map on absent keys; it fails only when a doubling is due and memory is short. */
  lemma PutAgrees(t: Table, key: Word, value: Word, mem: bool)
    requires Inv(t) && Unique(t.entries) && key !in Contents(t.entries) && value != TOMBSTONE
    ensures var (r, ret) := Put(t, key, value, mem);
            && Inv(r) && Unique(r.entries)
            && (ret == 0 <==> value != NULL && (Overloaded(t) ==> mem && |t.entries| * 32 < WORD))
            && (ret == 0 ==> Contents(r.entries) == Contents(t.entries)[key := value])
            && (ret != 0 ==> ret == -1 && r == t)
  {
    if value != NULL {
      if Overloaded(t) {
        ResizeKeeps(t, mem);
        var (r, ret) := Resize(t, 2 * |t.entries|, mem);
        if ret == 0 { InsertAgrees(r, key, value); }
      } else {
        InsertAgrees(t, key, value);
      }
    }
  }

  // ---------------------------------------------------------------------
  // Whole runs
  // ---------------------------------------------------------------------

  datatype Op =
    | OpPut(key: Word, value: Word, mem: bool)
    | OpGet(key: Word)
    | OpRemove(key: Word)
    | OpClear

  /** One call on the table: the table after it and the value the call returns. */
  function Exec(t: Table, op: Op): (Table, int)
    requires Inv(t)
  {
    match op
    case OpPut(k, v, mem) => Put(t, k, v, mem)
    case OpGet(k) => (t, Get(t, k))
    case OpRemove(k) => Remove(t, k)
    case OpClear => (Clear(t), 0)
  }

  /** The same call on a map; room is whether a doubling that is due can get its memory. */
  ghost function MapExec(m: map<Word, Word>, op: Op, room: bool): (map<Word, Word>, int) {
    match op
    case OpPut(k, v, _) => if v != NULL && room then (m[k := v], 0) else (m, -1)
    case OpGet(k) => (m, if k in m then m[k] else NULL)
    case OpRemove(k) => (m - {k}, if k in m then 0 else -1)
    case OpClear => (map[], 0)
  }

  /** A put needs memory only when the load bound is reached; no array exceeds size_t. */
  predicate HasRoom(t: Table, op: Op) {
    op.OpPut? && Overloaded(t) ==> op.mem && |t.entries| * 32 < WORD
  }

  /** put is given an absent key and never the tombstone marker. */
  ghost predicate Legal(t: Table, op: Op) {
    op.OpPut? ==> op.key !in Contents(t.entries) && op.value != TOMBSTONE
  }

  lemma ExecKeepsInv(t: Table, op: Op)
    requires Inv(t) && (op.OpPut? ==> op.value != TOMBSTONE)
    ensures Inv(Exec(t, op).0)
  {
    match op
    case OpPut(k, v, mem) => PutKeepsInv(t, k, v, mem);
    case OpGet(k) =>
    case OpRemove(k) => RemoveKeepsInv(t, k);
    case OpClear => FreshIsEmpty(|t.entries|);
  }

  lemma ExecAgrees(t: Table, op: Op)
    requires Inv(t) && Unique(t.entries) && Legal(t, op)
    ensures var (t', ret) := Exec(t, op);
            && Inv(t') && Unique(t'.entries)
            && MapExec(Contents(t.entries), op, HasRoom(t, op)) == (Contents(t'.entries), ret)
  {
    match op
    case OpPut(k, v, mem) => PutAgrees(t, k, v, mem);
    case OpGet(k) => GetAgrees(t, k);
    case OpRemove(k) => RemoveAgrees(t, k);
    case OpClear =>
      FreshIsEmpty(|t.entries|);
      assert Keys(Clear(t).entries) == {};
  }

  /** Along the whole run, as long as its puts are legal, table and map agree on every answer and on the size. */
  ghost predicate Agrees(t: Table, m: map<Word, Word>, ops: seq<Op>)
    requires Inv(t)
    decreases |ops|
  {
    && Contents(t.entries) == m && t.count == |m|
    && (ops != [] && Legal(t, ops[0]) ==>
          var (t', ret) := Exec(t, ops[0]);
          var (m', answer) := MapExec(m, ops[0], HasRoom(t, ops[0]));
          && Inv(t') && ret == answer && Agrees(t', m', ops[1..]))
  }

  lemma {:induction false} RunAgrees(t: Table, ops: seq<Op>)
    requires Inv(t) && Unique(t.entries)
    ensures Agrees(t, Contents(t.entries), ops)
    decreases |ops|
  {
    SizeIsCount(t.entries);
    assert Contents(t.entries).Keys == Keys(t.entries);
    if ops != [] && Legal(t, ops[0]) {
      ExecAgrees(t, ops[0]);
      RunAgrees(Exec(t, ops[0]).0, ops[1..]);
    }
  }

  /** Every run from a fresh table refines a run of the empty map. */
  lemma HashTableRefinesMap(cap: nat, ops: seq<Op>)
    requires Capacity(cap)
    ensures Inv(Fresh(cap)) && Agrees(Fresh(cap), map[], ops)
  {
    FreshIsEmpty(cap);
    assert Keys(Fresh(cap).entries) == {};
    assert Contents(Fresh(cap).entries) == map[];
    RunAgrees(Fresh(cap), ops);
  }

  /** The table after a run of calls none of which puts the tombstone marker. */
  ghost function After(t: Table, ops: seq<Op>): (r: Table)
    requires Inv(t) && forall i :: 0 <= i < |ops| && ops[i].OpPut? ==> ops[i].value != TOMBSTONE
    ensures Inv(r)
    decreases |ops|
  {
    if ops == [] then t
    else
      ExecKeepsInv(t, ops[0]);
      After(Exec(t, ops[0]).0, ops[1..])
  }

  lemma {:induction false} AfterSnoc(t: Table, ops: seq<Op>, op: Op)
    requires Inv(t) && forall i :: 0 <= i < |ops| && ops[i].OpPut? ==> ops[i].value != TOMBSTONE
    requires op.OpPut? ==> op.value != TOMBSTONE
    ensures After(t, ops + [op]) == Exec(After(t, ops), op).0
    decreases |ops|
  {
    if ops == [] {
      assert ops + [op] == [op] && [op][1..] == [];
    } else {
      ExecKeepsInv(t, ops[0]);
      assert (ops + [op])[1..] == ops[1..] + [op];
      AfterSnoc(Exec(t, ops[0]).0, ops[1..], op);
    }
  }

  /**
   Accounting in every reachable table, repeated keys included: count is the number of live
   slots, the two counters cover the used slots, an empty slot is on every probe path, and
   so put never falls out of its probing loop.
   */
  lemma TombstoneAccounting(cap: nat, ops: seq<Op>, key: Word)
    requires Capacity(cap) && Inv(Fresh(cap))
    requires forall i :: 0 <= i < |ops| && ops[i].OpPut? ==> ops[i].value != TOMBSTONE
    ensures var t := After(Fresh(cap), ops);
            && t.count == CountIf(IsLive, t.entries)
            && CountIf(IsUsed, t.entries) <= t.count + t.tombstones <= |t.entries| * 3 / 4
            && IsPow2(|t.entries|)
            && (exists i: nat :: i < |t.entries| && !IsUsed(At(t.entries, key, i)))
            && PutScan(t.entries, key, 0) < |t.entries|
  {
    ScansStop(After(Fresh(cap), ops), key);
  }

  /** Storing the tombstone marker makes count exceed the number of live slots. */
  lemma InsertMarkerBreaks(t: Table, key: Word)
    requires Inv(t)
    ensures Insert(t, key, TOMBSTONE).1 == 0 ==> !Inv(Insert(t, key, TOMBSTONE).0)
    ensures Insert(t, key, TOMBSTONE).1 != 0 ==> Insert(t, key, TOMBSTONE).0 == t
  {
    var s := t.entries;
    var i := PutScan(s, key, 0);
    if i < |s| && !IsLive(At(s, key, i)) {
      CountUpdate(IsLive, s, (key + i) % |s|, Entry(key, TOMBSTONE));
    }
  }

  // ---------------------------------------------------------------------
  // Putting a key that is already there
  // ---------------------------------------------------------------------

  ghost predicate TombBefore(s: seq<Entry>, key: Word, i: nat)
    requires |s| > 0
  {
    exists j: nat :: j < i && At(s, key, j).value == TOMBSTONE
  }

  ghost predicate Present(s: seq<Entry>, key: Word) {
    exists j: nat :: LiveKey(s, j, key)
  }

  /** The probing part of put stores exactly when the key is absent or a tombstone precedes it, for every value. */
  lemma InsertStoresExactly(t: Table, key: Word, value: Word)
    requires Inv(t)
    ensures FindScan(t.entries, key, 0) < |t.entries|
    ensures var (r, ret) := Insert(t, key, value);
            && (ret == 0 <==> !Present(t.entries, key) || TombBefore(t.entries, key, FindScan(t.entries, key, 0)))
            && (ret != 0 ==> ret == -1 && r == t)
  {
    var s := t.entries;
    ScansStop(t, key);
    var i, p := FindScan(s, key, 0), PutScan(s, key, 0);
    if Present(s, key) {
      var j :| LiveKey(s, j, key);
      FindMeets(s, j);
      assert PutStops(s, key, i);
      if p < i {
        assert !FindStops(s, key, p);
        assert At(s, key, p).value == TOMBSTONE;
      }
      if TombBefore(s, key, i) {
        var b: nat :| b < i && At(s, key, b).value == TOMBSTONE;
        assert PutStops(s, key, b);
      }
    } else {
      assert !LiveKey(s, (key + p) % |s|, key);
    }
  }

  /** Without a doubling, put of a present key is rejected exactly when no tombstone precedes it. */
  lemma DuplicateRejected(t: Table, key: Word, value: Word, mem: bool)
    requires Inv(t) && !Overloaded(t) && value > TOMBSTONE && Present(t.entries, key)
    ensures FindScan(t.entries, key, 0) < |t.entries|
    ensures var (r, ret) := Put(t, key, value, mem);
            var i := FindScan(t.entries, key, 0);
            && (ret == -1 <==> !TombBefore(t.entries, key, i))
            && (ret == -1 ==> r == t)
            && (ret != -1 ==> ret == 0)
  {
    InsertStoresExactly(t, key, value);
  }

  /** When put stores its value, read off the table before the call. */
  ghost predicate Stores(t: Table, key: Word, value: Word, mem: bool)
    requires |t.entries| > 0
  {
    && value != NULL
    && if Overloaded(t) then mem && |t.entries| * 32 < WORD && !Present(t.entries, key)
       else !Present(t.entries, key) || TombBefore(t.entries, key, FindScan(t.entries, key, 0))
  }

  lemma PresentIsKey(s: seq<Entry>, key: Word)
    ensures Present(s, key) <==> key in Contents(s)
  {
    KeyHasFirst(s, key);
    if Present(s, key) {
      var j: nat :| LiveKey(s, j, key);
      assert s[j].key in Keys(s);
    }
  }

  /** put returns 0 exactly in those cases, whatever the value. */
  lemma PutStoresExactly(t: Table, key: Word, value: Word, mem: bool)
    requires Inv(t)
    ensures Put(t, key, value, mem).1 == 0 <==> Stores(t, key, value, mem)
    ensures Put(t, key, value, mem).1 == 0 || Put(t, key, value, mem).1 == -1
  {
    if value != NULL && Overloaded(t) {
      ResizeKeeps(t, mem);
      var (r, ret) := Resize(t, 2 * |t.entries|, mem);
      PresentIsKey(t.entries, key);
      if ret == 0 {
        PresentIsKey(r.entries, key);
        InsertStoresExactly(r, key, value);
        if key in Contents(r.entries) { InsertRejects(r, key, value); }
      }
    } else {
      InsertStoresExactly(t, key, value);
    }
  }

  /** Storing the tombstone marker as a value is what breaks the accounting, and nothing else does. */
  lemma PutKeepsInvExactly(t: Table, key: Word, value: Word, mem: bool)
    requires Inv(t)
    ensures Inv(Put(t, key, value, mem).0) <==> value != TOMBSTONE || !Stores(t, key, TOMBSTONE, mem)
  {
    PutStoresExactly(t, key, value, mem);
    if value != TOMBSTONE {
      PutKeepsInv(t, key, value, mem);
    } else if Overloaded(t) {
      ResizeKeeps(t, mem);
      InsertMarkerBreaks(Resize(t, 2 * |t.entries|, mem).0, key);
    } else {
      InsertMarkerBreaks(t, key);
    }
  }

  /** Otherwise it shadows: get returns the new value, and one remove brings the old one back. */
  lemma DuplicateShadows(t: Table, key: Word, value: Word, mem: bool)
    requires Inv(t) && !Overloaded(t) && value > TOMBSTONE && Present(t.entries, key)
    requires TombBefore(t.entries, key, FindScan(t.entries, key, 0))
    ensures var t1 := Put(t, key, value, mem).0;
            var t2 := Remove(t1, key).0;
            && |t1.entries| == |t.entries| == |t2.entries|
            && Get(t1, key) == value && t1.count == t.count + 1
            && Remove(t1, key).1 == 0
            && Get(t2, key) == Get(t, key) != NULL && t2.count == t.count
  {
    var s := t.entries;
    DuplicateRejected(t, key, value, mem);
    var i, p := FindScan(s, key, 0), PutScan(s, key, 0);
    var slot := (key + p) % |s|;
    var j :| LiveKey(s, j, key);
    FindMeets(s, j);
    assert PutStops(s, key, i);
    assert p < i && !FindStops(s, key, p) by {
      var b: nat :| b < i && At(s, key, b).value == TOMBSTONE;
      assert PutStops(s, key, b);
    }
    var s1 := s[slot := Entry(key, value)];
    ShadowScan(s, key, Entry(key, value), p, s1);
    assert Hit(s1, key, p);
    FindFrom(s1, key, p);
    var s2 := s1[slot := Entry(key, TOMBSTONE)];
    assert s2 == s[slot := Entry(key, TOMBSTONE)];
    TombScan(s, key, p, i);
  }

  /** A scan that reaches i without stopping continues from i. */
  lemma {:induction false} FindSkip(s: seq<Entry>, key: Word, a: nat, i: nat)
    requires |s| > 0 && a <= i <= |s|
    requires forall j :: a <= j < i ==> !FindStops(s, key, j)
    ensures FindScan(s, key, a) == FindScan(s, key, i)
    decreases i - a
  {
    if a < i { FindSkip(s, key, a + 1, i); }
  }

  lemma FindFrom(s: seq<Entry>, key: Word, i: nat)
    requires |s| > 0 && i < |s| && FindStops(s, key, i)
    requires forall j :: 0 <= j < i ==> !FindStops(s, key, j)
    ensures FindScan(s, key, 0) == i
  {
    FindSkip(s, key, 0, i);
  }

  lemma ShadowScan(s: seq<Entry>, key: Word, e: Entry, p: nat, s': seq<Entry>)
    requires |s| > 0 && p < |s| && s' == s[(key + p) % |s| := e]
    requires forall j :: 0 <= j < p ==> !PutStops(s, key, j)
    ensures At(s', key, p) == e
    ensures forall j :: 0 <= j < p ==> !FindStops(s', key, j)
  {
    var slot := (key + p) % |s|;
    AtUpdate(s, slot, e, key, p);
    forall j | 0 <= j < p ensures !FindStops(s', key, j) {
      AtUpdate(s, slot, e, key, j);
      assert !PutStops(s, key, j);
      if (key + j) % |s| == slot { ProbeInjective(key, j, p, |s|); }
    }
  }

  lemma TombScan(s: seq<Entry>, key: Word, p: nat, i: nat)
    requires |s| > 0 && p < i < |s| && Hit(s, key, i)
    requires forall j :: 0 <= j < i ==> !FindStops(s, key, j)
    requires !IsLive(At(s, key, p))
    ensures FindScan(s, key, 0) == i
    ensures var s2 := s[(key + p) % |s| := Entry(key, TOMBSTONE)];
            FindScan(s2, key, 0) == i && At(s2, key, i) == At(s, key, i)
  {
    var slot, e := (key + p) % |s|, Entry(key, TOMBSTONE);
    var s2 := s[slot := e];
    forall j | 0 <= j < i ensures !FindStops(s2, key, j) {
      AtUpdate(s, slot, e, key, j);
      assert !FindStops(s, key, j);
    }
    AtUpdate(s, slot, e, key, i);
    FindFrom(s, key, i);
    FindFrom(s2, key, i);
  }
}
