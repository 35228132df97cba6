/**
 The order-index hash table on values: open addressing, linear probing,
 tombstones and doubling, with the refinement to a mathematical map.
 Pointers are 64-bit words; 0 is NULL and 1 is the tombstone marker.
 */
module HashTable {
  import opened Bits
  import opened Sets

  type Word = k: nat | k < WORD

  const NULL: nat := 0
  const TOMBSTONE: nat := 1

  datatype Entry = Entry(key: Word, value: Word)

  datatype Table = Table(entries: seq<Entry>, count: nat, tombstones: nat)

  predicate IsLive(e: Entry) { e.value > TOMBSTONE }

  predicate IsUsed(e: Entry) { e.value != NULL }

  // ---------------------------------------------------------------------
  // Probing
  // ---------------------------------------------------------------------

  ghost predicate Capacity(cap: nat) {
    8 <= cap && cap * 16 < WORD && IsPow2(cap)
  }

  function Probe(key: Word, i: nat, cap: nat): nat
    requires cap > 0
  {
    BitAnd((key + i) % WORD, cap - 1)
  }

  lemma ProbeIsMod(key: Word, i: nat, cap: nat)
    requires Capacity(cap)
    ensures Probe(key, i, cap) == (key + i) % cap < cap
  {
    MaskIsMod((key + i) % WORD, cap);
    WrapKeepsResidue(key + i, cap);
  }

  /** The slot of the i-th probe for key. */
  function At(s: seq<Entry>, key: Word, i: nat): Entry
    requires |s| > 0
  {
    s[(key + i) % |s|]
  }

  /** The first cap probes of a key visit distinct slots ... */
  lemma ProbeInjective(key: Word, i: nat, j: nat, cap: nat)
    requires cap > 0 && i < cap && j < cap
    requires (key + i) % cap == (key + j) % cap
    ensures i == j
  {
    if i <= j { ModShift(key + i, key + j, cap); } else { ModShift(key + j, key + i, cap); }
  }

  /** ... and every slot is visited. */
  lemma ProbeOnto(key: Word, slot: nat, cap: nat) returns (i: nat)
    requires slot < cap
    ensures i < cap && (key + i) % cap == slot
  {
    var b := key % cap;
    i := if b <= slot then slot - b else slot - b + cap;
    var q := key / cap;
    assert key + i == cap * q + (if b <= slot then slot else slot + cap);
    if b <= slot {
      DivModUnique(key + i, cap, q, slot);
    } else {
      assert cap * (q + 1) == cap * q + cap;
      DivModUnique(key + i, cap, q + 1, slot);
    }
  }

  // ---------------------------------------------------------------------
  // The operations, as the code performs them
  // ---------------------------------------------------------------------

  /** put stops at an empty slot, at a tombstone, or at the key itself. */
  predicate PutStops(s: seq<Entry>, key: Word, i: nat)
    requires |s| > 0
  {
    !IsLive(At(s, key, i)) || At(s, key, i).key == key
  }

  /** get and remove stop at an empty slot or at the key itself. */
  predicate FindStops(s: seq<Entry>, key: Word, i: nat)
    requires |s| > 0
  {
    !IsUsed(At(s, key, i)) || Hit(s, key, i)
  }

  predicate Hit(s: seq<Entry>, key: Word, i: nat)
    requires |s| > 0
  {
    IsLive(At(s, key, i)) && At(s, key, i).key == key
  }

  /** Index of the first probe from i on at which put stops; |s| if there is none. */
  function PutScan(s: seq<Entry>, key: Word, i: nat): (r: nat)
    requires |s| > 0 && i <= |s|
    ensures i <= r <= |s|
    ensures forall j :: i <= j < r ==> !PutStops(s, key, j)
    ensures r < |s| ==> PutStops(s, key, r)
    decreases |s| - i
  {
    if i == |s| || PutStops(s, key, i) then i else PutScan(s, key, i + 1)
  }

  function FindScan(s: seq<Entry>, key: Word, i: nat): (r: nat)
    requires |s| > 0 && i <= |s|
    ensures i <= r <= |s|
    ensures forall j :: i <= j < r ==> !FindStops(s, key, j)
    ensures r < |s| ==> FindStops(s, key, r)
    decreases |s| - i
  {
    if i == |s| || FindStops(s, key, i) then i else FindScan(s, key, i + 1)
  }

  predicate Overloaded(t: Table) {
    (t.count + t.tombstones) * 4 >= |t.entries| * 3
  }

  /** The probing part of put. The code tests the slot for the marker after the new value is stored in it. */
  function Insert(t: Table, key: Word, value: Word): (r: (Table, int))
    requires |t.entries| > 0
    ensures |r.0.entries| == |t.entries| && r.0.count <= t.count + 1
    ensures value > TOMBSTONE ==> r.0.tombstones == t.tombstones
  {
    var i := PutScan(t.entries, key, 0);
    if i < |t.entries| && !IsLive(At(t.entries, key, i)) then
      var entries := t.entries[(key + i) % |t.entries| := Entry(key, value)];
      var tombstones := if value == TOMBSTONE then (t.tombstones + WORD - 1) % WORD else t.tombstones;
      (Table(entries, t.count + 1, tombstones), 0)
    else
      (t, -1)
  }

  function Fresh(cap: nat): Table {
    Table(seq(cap, _ => Entry(0, NULL)), 0, 0)
  }

  /** Moves the live entries src[i..] into acc, one put after another. */
  function Rehash(src: seq<Entry>, i: nat, acc: Table, mem: bool): (r: Table)
    requires i <= |src| && Inv(acc) && acc.tombstones == 0
    requires 4 * (acc.count + CountIf(IsLive, src[i..])) <= 3 * |acc.entries|
    ensures |r.entries| == |acc.entries|
    decreases 1, |src| - i
  {
    if i == |src| then acc
    else
      assert src[i..][1..] == src[i + 1..];
      if IsLive(src[i]) then
        InsertKeepsInv(acc, src[i].key, src[i].value);
        Rehash(src, i + 1, Put(acc, src[i].key, src[i].value, mem).0, mem)
      else Rehash(src, i + 1, acc, mem)
  }

  /** mem is whether calloc finds the memory; it cannot when the array exceeds size_t. */
  function Resize(t: Table, cap: nat, mem: bool): (r: (Table, int))
    requires Inv(t) && cap == 2 * |t.entries|
    ensures |r.0.entries| > 0
    decreases 1, |t.entries| + 1
  {
    if !mem || cap * 16 >= WORD then (t, -1)
    else
      FreshInv(t, cap);
      (Rehash(t.entries, 0, Fresh(cap), mem), 0)
  }

  function Put(t: Table, key: Word, value: Word, mem: bool): (r: (Table, int))
    requires Inv(t)
    decreases if Overloaded(t) then 2 else 0, 0
  {
    if value == NULL then (t, -1)
    else if Overloaded(t) then
      var (t', ret) := Resize(t, 2 * |t.entries|, mem);
      if ret != 0 then (t, -1)
      else Insert(t', key, value)
    else Insert(t, key, value)
  }

  function Get(t: Table, key: Word): Word
    requires |t.entries| > 0
  {
    var i := FindScan(t.entries, key, 0);
    if i < |t.entries| && Hit(t.entries, key, i) then At(t.entries, key, i).value else NULL
  }

  function Remove(t: Table, key: Word): (r: (Table, int))
    requires |t.entries| > 0
  {
    var i := FindScan(t.entries, key, 0);
    if i < |t.entries| && Hit(t.entries, key, i) && t.count > 0 then
      (Table(t.entries[(key + i) % |t.entries| := Entry(key, TOMBSTONE)], t.count - 1, t.tombstones + 1), 0)
    else
      (t, -1)
  }

  function Clear(t: Table): Table {
    Fresh(|t.entries|)
  }

  // ---------------------------------------------------------------------
  // The invariant of every reachable table
  // ---------------------------------------------------------------------

  /** No empty slot precedes an entry on its own probe path. */
  ghost predicate Reachable(s: seq<Entry>)
    requires |s| > 0
  {
    forall k: Word, i: nat, j: nat :: j < i < |s| && Hit(s, k, i) ==> IsUsed(At(s, k, j))
  }

  ghost predicate Inv(t: Table) {
    && Capacity(|t.entries|)
    && t.count == CountIf(IsLive, t.entries)
    && t.count + t.tombstones >= CountIf(IsUsed, t.entries)
    && 4 * (t.count + t.tombstones) <= 3 * |t.entries|
    && Reachable(t.entries)
  }

  lemma FreshIsEmpty(cap: nat)
    requires Capacity(cap)
    ensures Inv(Fresh(cap)) && forall i :: 0 <= i < cap ==> Fresh(cap).entries[i].value == NULL
  {
    CountNone(IsLive, Fresh(cap).entries);
    CountNone(IsUsed, Fresh(cap).entries);
  }

  lemma FreshInv(t: Table, cap: nat)
    requires Inv(t) && cap == 2 * |t.entries| && cap * 16 < WORD
    ensures Capacity(cap) && Inv(Fresh(cap))
    ensures 4 * (Fresh(cap).count + CountIf(IsLive, t.entries[0..])) <= 3 * |Fresh(cap).entries|
  {
    var n: nat :| Pow2(n) == |t.entries|;
    assert Pow2(n + 1) == cap;
    FreshIsEmpty(cap);
    assert t.entries[0..] == t.entries;
  }

  /** A table within its load bound has an empty slot on every probe path, so every scan stops. */
  lemma ScansStop(t: Table, key: Word)
    requires Inv(t)
    ensures exists i: nat :: i < |t.entries| && !IsUsed(At(t.entries, key, i))
    ensures PutScan(t.entries, key, 0) < |t.entries|
    ensures FindScan(t.entries, key, 0) < |t.entries|
  {
    var slot := CountMissing(IsUsed, t.entries);
    var i := ProbeOnto(key, slot, |t.entries|);
    assert !IsUsed(At(t.entries, key, i));
    assert PutStops(t.entries, key, i) && FindStops(t.entries, key, i);
  }

  lemma AtUpdate(s: seq<Entry>, slot: nat, e: Entry, k: Word, b: nat)
    requires slot < |s|
    ensures At(s[slot := e], k, b) == if (k + b) % |s| == slot then e else At(s, k, b)
  {
  }

  lemma StoreKeepsPath(s: seq<Entry>, key: Word, value: Word, i: nat, k: Word, a: nat, b: nat)
    requires |s| > 0 && Reachable(s) && i < |s|
    requires forall j :: 0 <= j < i ==> !PutStops(s, key, j)
    requires value != NULL && b < a < |s|
    requires Hit(s[(key + i) % |s| := Entry(key, value)], k, a)
    ensures IsUsed(At(s[(key + i) % |s| := Entry(key, value)], k, b))
  {
    var slot := (key + i) % |s|;
    AtUpdate(s, slot, Entry(key, value), k, a);
    AtUpdate(s, slot, Entry(key, value), k, b);
    if (k + a) % |s| == slot {
      ProbeInjective(key, a, i, |s|);
      assert !PutStops(s, key, b);
    } else {
      assert Hit(s, k, a);
    }
  }

  /** Writing a live entry at the slot where put stops keeps every path unbroken. */
  lemma StoreKeepsReachable(s: seq<Entry>, key: Word, value: Word, i: nat)
    requires |s| > 0 && Reachable(s) && i < |s|
    requires forall j :: 0 <= j < i ==> !PutStops(s, key, j)
    requires value != NULL
    ensures Reachable(s[(key + i) % |s| := Entry(key, value)])
  {
    var s' := s[(key + i) % |s| := Entry(key, value)];
    forall k: Word, a: nat, b: nat | b < a < |s'| && Hit(s', k, a) ensures IsUsed(At(s', k, b)) {
      StoreKeepsPath(s, key, value, i, k, a, b);
    }
  }

  /** Storing a live entry over a slot that is not live: one live slot more, at most one used slot more. */
  lemma StoreCounts(s: seq<Entry>, slot: nat, e: Entry)
    requires slot < |s| && !IsLive(s[slot]) && IsLive(e)
    ensures CountIf(IsLive, s[slot := e]) == CountIf(IsLive, s) + 1
    ensures CountIf(IsUsed, s[slot := e]) <= CountIf(IsUsed, s) + 1
  {
    CountUpdate(IsLive, s, slot, e);
    CountUpdate(IsUsed, s, slot, e);
  }

  lemma LoadStep(total: nat, cap: nat)
    requires Capacity(cap) && total * 4 < cap * 3
    ensures 4 * (total + 1) <= 3 * cap
  {
    Pow2AtLeast8(cap);
  }

  lemma InsertKeepsInv(t: Table, key: Word, value: Word)
    requires Inv(t) && !Overloaded(t) && value > TOMBSTONE
    ensures Inv(Insert(t, key, value).0)
  {
    var s := t.entries;
    var i := PutScan(s, key, 0);
    if i < |s| && !IsLive(At(s, key, i)) {
      var slot := (key + i) % |s|;
      StoreCounts(s, slot, Entry(key, value));
      StoreKeepsReachable(s, key, value, i);
      LoadStep(t.count + t.tombstones, |s|);
    }
  }

  /** One round of the rehash loop. */
  lemma RehashStep(src: seq<Entry>, i: nat, acc: Table, mem: bool)
    requires i < |src| && Inv(acc) && acc.tombstones == 0
    requires 4 * (acc.count + CountIf(IsLive, src[i..])) <= 3 * |acc.entries|
    ensures var acc' := if IsLive(src[i]) then Put(acc, src[i].key, src[i].value, mem).0 else acc;
            && Inv(acc') && acc'.tombstones == 0 && |acc'.entries| == |acc.entries|
            && 4 * (acc'.count + CountIf(IsLive, src[i + 1..])) <= 3 * |acc.entries|
            && Rehash(src, i, acc, mem) == Rehash(src, i + 1, acc', mem)
    ensures IsLive(src[i]) ==> !Overloaded(acc)
  {
    assert src[i..][1..] == src[i + 1..];
    if IsLive(src[i]) { InsertKeepsInv(acc, src[i].key, src[i].value); }
  }
}
