/** Sizes of sets of naturals and of sequences without repetition, and counting in sequences. */
module Sets {

  predicate Distinct(s: seq<nat>) {
    forall i, j :: 0 <= i < j < |s| ==> s[i] != s[j]
  }

  lemma {:induction false} SubsetOfRange(w: set<nat>, m: nat, n: nat)
    requires forall x :: x in w ==> m <= x < m + n
    ensures |w| <= n
    decreases n
  {
    if n > 0 {
      var last := m + n - 1;
      SubsetOfRange(w - {last}, m, n - 1);
    } else {
      assert w == {};
    }
  }

  lemma {:induction false} RangeSize(w: set<nat>, n: nat)
    requires forall x: nat :: x in w <==> x < n
    ensures |w| == n
    decreases n
  {
    if n > 0 {
      RangeSize(w - {n - 1}, n - 1);
    } else {
      assert w == {};
    }
  }

  ghost function Members(s: seq<nat>): set<nat> {
    set x | x in s
  }

  lemma {:induction false} DistinctSize(s: seq<nat>)
    requires Distinct(s)
    ensures |Members(s)| == |s|
  {
    if s != [] {
      var r := s[1..];
      DistinctSize(r);
      assert s[0] !in r;
      assert s == [s[0]] + r;
      assert Members(s) == Members(r) + {s[0]};
    }
  }

  /** Distinct numbers below n, none of them b, are fewer than n. */
  lemma MembersBelow(s: seq<nat>, n: nat, b: nat)
    requires Distinct(s) && b < n && b !in s && forall i :: 0 <= i < |s| ==> s[i] < n
    ensures |s| < n
  {
    DistinctSize(s);
    var w := Members(s) + {b};
    assert b !in Members(s);
    SubsetOfRange(w, 0, n);
  }

  lemma UnionSize(a: set<nat>, b: set<nat>)
    ensures |a + b| <= |a| + |b|
  {
    assert a + b == a + (b - a);
  }

  /** How many elements satisfy p. */
  function CountIf<T>(p: T -> bool, s: seq<T>): (n: nat)
    ensures n <= |s|
  {
    if s == [] then 0 else (if p(s[0]) then 1 else 0) + CountIf(p, s[1..])
  }

  lemma {:induction false} CountUpdate<T>(p: T -> bool, s: seq<T>, i: nat, e: T)
    requires i < |s|
    ensures CountIf(p, s[i := e]) == CountIf(p, s) - (if p(s[i]) then 1 else 0) + (if p(e) then 1 else 0)
  {
    if i == 0 {
      assert s[i := e][1..] == s[1..];
    } else {
      assert s[i := e][1..] == s[1..][i - 1 := e];
      CountUpdate(p, s[1..], i - 1, e);
    }
  }

  lemma {:induction false} CountNone<T>(p: T -> bool, s: seq<T>)
    requires forall i :: 0 <= i < |s| ==> !p(s[i])
    ensures CountIf(p, s) == 0
  {
    if s != [] { CountNone(p, s[1..]); }
  }

  /** Fewer matches than slots leaves a slot that does not match. */
  lemma {:induction false} CountMissing<T>(p: T -> bool, s: seq<T>) returns (i: nat)
    requires CountIf(p, s) < |s|
    ensures i < |s| && !p(s[i])
  {
    if p(s[0]) {
      var j := CountMissing(p, s[1..]);
      i := j + 1;
    } else {
      i := 0;
    }
  }
}
