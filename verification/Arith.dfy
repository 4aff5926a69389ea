/** Integer facts the index arithmetic needs: powers of two, quotients and remainders. */
module Arith {
  /** The largest `usize`. */
  const USIZE_MAX: nat := 0xFFFF_FFFF_FFFF_FFFF
  const USIZE_BITS: nat := 64

  datatype Result<+T> = Ok(value: T) | Err

  datatype Option<+T> = Some(value: T) | None

  /** The product, under a name: proofs that only move products around hide it. */
  function Times(a: int, b: int): int { a * b }

  lemma TimesIs(a: int, b: int) ensures Times(a, b) == a * b == b * a { }

  lemma TimesComm(a: int, b: int) ensures Times(a, b) == Times(b, a) { }

  lemma TimesNat(a: nat, b: nat) ensures Times(a, b) >= 0 { }

  lemma TimesOne(a: int) ensures Times(1, a) == a && Times(a, 1) == a { }

  lemma TimesZero(a: int) ensures Times(0, a) == 0 && Times(a, 0) == 0 { }

  lemma TimesMono(a: int, b: int, c: int)
    requires a <= b && c >= 0
    ensures Times(a, c) <= Times(b, c)
  {
    MulMono(a, b, c);
  }

  lemma TimesPow2(m: nat, n: nat)
    ensures Times(Pow2(m), Pow2(n)) == Pow2(m + n)
  {
    Pow2Add(m, n);
  }

  /** Dividing below a product. */
  lemma TimesBound(x: nat, d: nat, hi: nat, lo: nat, n: nat)
    requires lo < d && x == Times(hi, d) + lo
    ensures hi < n <==> x < Times(n, d)
  {
    if hi < n { MulMono(hi + 1, n, d); } else { MulMono(n, hi, d); }
  }

  lemma TimesStep(a: nat, b: nat) ensures Times(a + 1, b) == Times(a, b) + b { }

  /** The number with low digit `lo` in radix f and `hi` above it. */
  function Join(hi: nat, f: nat, lo: nat): nat { hi * f + lo }

  lemma JoinSplit(hi: nat, f: nat, lo: nat, n: nat)
    requires lo < f && hi < n
    ensures Join(hi, f, lo) / f == hi && Join(hi, f, lo) % f == lo && Join(hi, f, lo) < n * f
  {
    DivModUnique(hi * f + lo, f, hi, lo);
    MulMono(hi + 1, n, f);
  }

  lemma JoinIs(hi: nat, f: nat, lo: nat) ensures Join(hi, f, lo) == Times(hi, f) + lo { }

  function Min(a: int, b: int): int { if a <= b then a else b }

  function Max(a: int, b: int): int { if a >= b then a else b }

  function Pow2(n: nat): (r: nat)
    ensures r >= 1
  {
    if n == 0 then 1 else 2 * Pow2(n - 1)
  }

  lemma Pow2Step(n: nat) ensures Pow2(0) == 1 && Pow2(n + 1) == 2 * Pow2(n) { }

  lemma {:induction false} Pow2Add(m: nat, n: nat)
    ensures Pow2(m + n) == Pow2(m) * Pow2(n)
  {
    if m > 0 {
      Pow2Add(m - 1, n);
      assert Pow2(m) * Pow2(n) == 2 * (Pow2(m - 1) * Pow2(n));
    }
  }

  lemma {:induction false} Pow2Mono(m: nat, n: nat)
    requires m <= n
    ensures Pow2(m) <= Pow2(n)
    ensures m < n ==> Pow2(m) < Pow2(n)
  {
    Pow2Add(m, n - m);
    if m < n { Pow2Mono(m, n - 1); }
  }

  lemma DivModUnique(x: int, d: int, q: int, r: int)
    requires d > 0 && x == q * d + r && 0 <= r < d
    ensures x / d == q && x % d == r
  {
    var q', r' := x / d, x % d;
    assert (q' - q) * d == r - r';
    if q' < q { MulMono(1, q - q', d); } else if q' > q { MulMono(1, q' - q, d); }
  }

  /** Quotient and remainder, for proofs that only need their defining facts. */
  lemma DivModIs(x: nat, d: nat)
    requires d > 0
    ensures x / d >= 0 && 0 <= x % d < d && x == Times(x / d, d) + x % d
  { }

  lemma MulMono(a: int, b: int, c: int)
    requires a <= b && c >= 0
    ensures a * c <= b * c
  { }

  lemma QuotientBound(x: nat, d: nat, n: nat)
    requires d > 0 && x < d * n
    ensures x / d < n
  {
    if x / d >= n { MulMono(n, x / d, d); }
  }

  /** The k low bits of x and the number formed by the others, one bit at a time. */
  function Low(x: nat, k: nat): nat { if k == 0 then 0 else x % 2 + 2 * Low(x / 2, k - 1) }

  function High(x: nat, k: nat): nat { if k == 0 then x else High(x / 2, k - 1) }

  lemma LowHighStep(x: nat, k: nat)
    ensures if k == 0 then Pow2(k) == 1 && Low(x, k) == 0 && High(x, k) == x
            else Pow2(k) == 2 * Pow2(k - 1) && Low(x, k) == x % 2 + 2 * Low(x / 2, k - 1) && High(x, k) == High(x / 2, k - 1)
  { }

  lemma {:induction false} LowHigh(x: nat, k: nat)
    ensures Low(x, k) < Pow2(k)
    ensures x == High(x, k) * Pow2(k) + Low(x, k)
    ensures Low(x, k) == x % Pow2(k) && High(x, k) == x / Pow2(k)
  {
    hide *;
    LowHighStep(x, k);
    if k > 0 {
      LowHigh(x / 2, k - 1);
      var h, m := High(x, k), Pow2(k - 1);
      assert h * (2 * m) == 2 * (h * m);
    }
    DivModUnique(x, Pow2(k), High(x, k), Low(x, k));
  }

  lemma {:induction false} HighStep(x: nat, k: nat)
    ensures High(x, k + 1) == High(x, k) / 2
  {
    if k > 0 { HighStep(x / 2, k - 1); }
  }

  /** A `usize` has 64 bits. */
  lemma Pow2Of64()
    ensures Pow2(64) == USIZE_MAX + 1 && USIZE_BITS == 64
  {
    hide Pow2;
    Pow2Step(0); Pow2Step(1);
    Pow2Add(2, 2); Pow2Add(4, 4); Pow2Add(8, 8); Pow2Add(16, 16); Pow2Add(32, 32);
  }

  /** x in the mixed radix (a, b): digits of x modulo a b. */
  lemma MixedRadix(x: nat, a: nat, b: nat)
    requires a > 0 && b > 0
    ensures a * b > 0
    ensures x / (a * b) == (x / a) / b
    ensures x % (a * b) == (x / a) % b * a + x % a
    ensures (x % (a * b)) % a == x % a && (x % (a * b)) / a == (x / a) % b
  {
    var q, r := x / a, x % a;
    var q2, r2 := q / b, q % b;
    assert x == q2 * (a * b) + (r2 * a + r) by { assert x == q * a + r && q == q2 * b + r2; }
    assert r2 * a + r < a * b by { MulMono(r2 + 1, b, a); }
    DivModUnique(x, a * b, q2, r2 * a + r);
    DivModUnique(r2 * a + r, a, r2, r);
  }
}
