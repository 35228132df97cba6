/**
 Machine words on unbounded naturals: powers of two, bitwise AND, and what the
 two masking idioms of the code base compute. `x & (cap - 1)` reduces an index
 modulo a power-of-two capacity, and `(n + 63) & ~63` rounds up to a cache line.
 */
module Bits {

  const WORD: nat := 0x1_0000_0000_0000_0000  // 2^64, the range of size_t and uint64_t
  const HALF: nat := 0x1_0000_0000            // 2^32, the range of uint32_t
  const CACHE_LINE: nat := 64

  function Pow2(n: nat): (p: nat)
    ensures p >= 1
  {
    if n == 0 then 1 else 2 * Pow2(n - 1)
  }

  ghost predicate IsPow2(c: nat) {
    exists n: nat :: Pow2(n) == c
  }

  /** Bitwise AND of two naturals, bit by bit. */
  function BitAnd(a: nat, b: nat): nat
    decreases a
  {
    if a == 0 || b == 0 then 0
    else (if a % 2 == 1 && b % 2 == 1 then 1 else 0) + 2 * BitAnd(a / 2, b / 2)
  }

  /** `~m` of a word. */
  function Complement(m: nat): nat
    requires m < WORD
  {
    WORD - 1 - m
  }

  lemma {:induction false} AndLowMask(x: nat, n: nat)
    ensures BitAnd(x, Pow2(n) - 1) == x % Pow2(n)
    decreases x
  {
    if x != 0 && n != 0 {
      var p := Pow2(n - 1);
      AndLowMask(x / 2, n - 1);
      assert (2 * p - 1) / 2 == p - 1 && (2 * p - 1) % 2 == 1;
      ModDouble(x, p);
    }
  }

  lemma ModDouble(x: nat, p: nat)
    requires p >= 1
    ensures x % (2 * p) == x % 2 + 2 * ((x / 2) % p)
  {
    var h, q, r := x / 2, (x / 2) / p, (x / 2) % p;
    assert h == p * q + r;
    assert x == 2 * h + x % 2;
    assert x == (2 * p) * q + (2 * r + x % 2) by {
      assert 2 * (p * q) == (2 * p) * q;
    }
    DivModUnique(x, 2 * p, q, 2 * r + x % 2);
  }

  lemma MulAtLeast(d: int, k: int)
    requires d > 0 && k >= 1
    ensures d * k >= d
  {
  }

  lemma DivModUnique(x: int, d: int, q: int, r: int)
    requires d > 0 && 0 <= r < d
    requires x == d * q + r
    ensures x / d == q && x % d == r
  {
    var q', r' := x / d, x % d;
    var k := q' - q;
    assert d * k == r - r' by {
      assert x == d * q' + r';
      assert d * (q' - q) == d * q' - d * q;
    }
    assert d * (-k) == r' - r;
    if k >= 1 {
      MulAtLeast(d, k);
    } else if k <= -1 {
      MulAtLeast(d, -k);
    }
  }

  /** Masking with capacity - 1 is reduction modulo the capacity, for every power of two. */
  lemma MaskIsMod(x: nat, cap: nat)
    requires IsPow2(cap)
    ensures cap >= 1 && BitAnd(x, cap - 1) == x % cap
  {
    var n: nat :| Pow2(n) == cap;
    AndLowMask(x, n);
  }

  /** Clearing the low n of n + m bits subtracts the remainder. */
  lemma {:induction false} AndHighMask(x: nat, n: nat, m: nat)
    requires x < Pow2(n + m)
    ensures Pow2(n + m) >= Pow2(n)
    ensures BitAnd(x, Pow2(n + m) - Pow2(n)) == x - x % Pow2(n)
    decreases n
  {
    Pow2Monotone(n, n + m);
    if n == 0 {
      AndLowMask(x, m);
      ModSmall(x, Pow2(m));
    } else {
      var p, q := Pow2(n - 1), Pow2(n - 1 + m);
      assert Pow2(n) == 2 * p && Pow2(n + m) == 2 * q;
      AndHighMask(x / 2, n - 1, m);
      AndEven(x, q - p);
      ModDouble(x, p);
    }
  }

  lemma AndEven(x: nat, h: nat)
    ensures BitAnd(x, 2 * h) == 2 * BitAnd(x / 2, h)
  {
    assert (2 * h) / 2 == h;
  }

  lemma ModSmall(x: nat, p: nat)
    requires x < p
    ensures x % p == x
  {
  }

  lemma {:induction false} Pow2Monotone(a: nat, b: nat)
    requires a <= b
    ensures Pow2(a) <= Pow2(b)
    decreases b
  {
    if a < b { Pow2Monotone(a, b - 1); }
  }

  lemma {:induction false} Pow2Add(a: nat, b: nat)
    ensures Pow2(a + b) == Pow2(a) * Pow2(b)
    decreases a
  {
    if a > 0 {
      Pow2Add(a - 1, b);
      assert 2 * (Pow2(a - 1) * Pow2(b)) == Pow2(a) * Pow2(b);
    }
  }

  lemma Pow2Word()
    ensures Pow2(6) == 64 && Pow2(12) == 4096 && Pow2(16) == 0x1_0000 && Pow2(32) == HALF
    ensures Pow2(63) == 0x8000_0000_0000_0000 && Pow2(64) == WORD
  {
    assert Pow2(2) == 4;
    Pow2Add(2, 2);
    Pow2Add(4, 2);
    Pow2Add(6, 6);
    Pow2Add(12, 4);
    Pow2Add(16, 16);
    Pow2Add(32, 32);
    assert Pow2(64) == 2 * Pow2(63);
  }

  /** The code's cache-line rounding `(n + 63) & ~63` on a 64-bit word. */
  function RoundLine(n: nat): nat {
    BitAnd((n + CACHE_LINE - 1) % WORD, Complement(CACHE_LINE - 1))
  }

  lemma AlignDown(s: nat, n: nat)
    requires s < WORD && n <= 64
    ensures Pow2(n) >= 1 && Pow2(n) <= WORD
    ensures BitAnd(s, Complement(Pow2(n) - 1)) == s - s % Pow2(n)
  {
    Pow2Word();
    Pow2Monotone(n, 64);
    AndHighMask(s, n, 64 - n);
    assert Complement(Pow2(n) - 1) == Pow2(64) - Pow2(n);
  }

  lemma RoundLineValue(n: nat)
    ensures var s := (n + 63) % WORD; RoundLine(n) == s - s % 64
  {
    AlignDown((n + 63) % WORD, 6);
    Pow2Word();
  }

  lemma RoundArithmetic(n: nat, r: nat)
    requires n < WORD && r == (n + 63) % WORD - (n + 63) % WORD % 64
    ensures r % 64 == 0
    ensures n <= WORD - 64 ==> n <= r < n + 64 && r < WORD
    ensures n > WORD - 64 ==> r == 0
  {
    var s := (n + 63) % WORD;
    assert s == if n <= WORD - 64 then n + 63 else n + 63 - WORD;
  }

  /** Exactly when the rounded size covers the request: the addition must not wrap. */
  lemma RoundLineCovers(n: nat)
    requires n < WORD
    ensures RoundLine(n) % CACHE_LINE == 0
    ensures RoundLine(n) >= n <==> n <= WORD - CACHE_LINE
    ensures n <= WORD - CACHE_LINE ==> n <= RoundLine(n) < n + CACHE_LINE && RoundLine(n) < WORD
    ensures n > WORD - CACHE_LINE ==> RoundLine(n) == 0
  {
    RoundLineValue(n);
    RoundArithmetic(n, RoundLine(n));
  }

  /** A power of two of at least eight is a multiple of eight. */
  lemma Pow2AtLeast8(c: nat)
    requires IsPow2(c) && c >= 8
    ensures c % 8 == 0
  {
    var n: nat :| Pow2(n) == c;
    assert Pow2(2) == 4;
    if n < 3 {
      Pow2Monotone(n, 2);
      assert false;
    }
    Pow2Add(n - 3, 3);
    assert Pow2(3) == 8;
    DivModUnique(c, 8, Pow2(n - 3), 0);
  }

  lemma ModOfMultiple(x: nat, cap: nat, k: nat)
    requires cap > 0 && k > 0
    ensures cap * k > 0 && (x % (cap * k)) % cap == x % cap
  {
    MulAtLeast(cap, k);
    var w := cap * k;
    var q, r := x / w, x % w;
    var a, b := r / cap, r % cap;
    var c := k * q;
    assert x == w * q + r;
    assert w * q == cap * c by { MulAssoc(cap, k, q); }
    assert cap * c + cap * a == cap * (c + a);
    DivModUnique(x, cap, c + a, b);
  }

  lemma MulAssoc(a: int, b: int, c: int)
    ensures (a * b) * c == a * (b * c)
  {
  }

  /** A power of two below 2^64 divides 2^64, so wrapping a 64-bit sum does not disturb its residue. */
  lemma WrapKeepsResidue(x: nat, cap: nat)
    requires IsPow2(cap) && cap <= WORD
    ensures (x % WORD) % cap == x % cap
  {
    var n: nat :| Pow2(n) == cap;
    Pow2Word();
    assert Pow2(65) == 2 * Pow2(64);
    if n > 64 {
      Pow2Monotone(65, n);
      assert false;
    }
    Pow2Add(n, 64 - n);
    ModOfMultiple(x, cap, Pow2(64 - n));
  }

  /** Two numbers less than c apart with the same residue are equal. */
  lemma ModShift(a: int, b: int, c: int)
    requires c > 0 && 0 <= b - a < c && a % c == b % c
    ensures a == b
  {
    var k := b / c - a / c;
    assert b - a == c * k by {
      assert a == c * (a / c) + a % c && b == c * (b / c) + b % c;
      assert c * (b / c) - c * (a / c) == c * (b / c - a / c);
    }
    if k >= 1 { MulAtLeast(c, k); }
    if k <= -1 { MulAtLeast(c, -k); }
  }

  /** Stepping a ring index with the mask is stepping the unwrapped counter. */
  lemma NextIndex(n: nat, k: nat, cap: nat)
    requires IsPow2(cap)
    ensures cap >= 1 && BitAnd(n % cap + k, cap - 1) == (n % cap + k) % cap == (n + k) % cap
  {
    MaskIsMod(0, cap);
    MaskIsMod(n % cap + k, cap);
    ModStep(n, k, cap);
  }

  lemma AddCap(x: nat, cap: nat)
    requires cap > 0
    ensures (x + cap) % cap == x % cap
  {
    assert cap * (x / cap + 1) == cap * (x / cap) + cap;
    DivModUnique(x + cap, cap, x / cap + 1, x % cap);
  }

  lemma ModStep(n: nat, k: nat, cap: nat)
    requires cap > 0
    ensures (n % cap + k) % cap == (n + k) % cap
  {
    var q, r := n / cap, (n % cap + k) / cap;
    assert n + k == cap * q + (n % cap + k);
    assert n % cap + k == cap * r + (n % cap + k) % cap;
    assert cap * q + cap * r == cap * (q + r);
    DivModUnique(n + k, cap, q + r, (n % cap + k) % cap);
  }

  /** Two numbers have the same residue exactly when their distance is a multiple. */
  lemma SameResidue(a: nat, b: nat, m: nat)
    requires m > 0 && a <= b
    ensures a % m == b % m <==> (b - a) % m == 0
  {
    var r := (b - a) % m;
    ModStep(b - a, a, m);
    if a % m == b % m { ModShift(a, a + r, m); }
  }
}
