/**
 Integer enclosures of real numbers at a fixed-point scale, and alternating series.
 Models the interval operations of crates/akita-challenges/scripts/gen_op_norm_static_base.py.
 */
module Intervals {
  import opened Arith

  const I128_MAX: int := 0x7FFF_FFFF_FFFF_FFFF_FFFF_FFFF_FFFF_FFFF
  const I128_MIN: int := -0x8000_0000_0000_0000_0000_0000_0000_0000
  const TRIG_SCALE: nat := 61
  const TRIG_ONE: int := 0x2000_0000_0000_0000
  const ONE: real := TRIG_ONE as real

  datatype Interval = Interval(lo: int, hi: int)

  /** The interval holds v at the fixed-point scale. */
  ghost predicate In(i: Interval, v: real) { i.lo as real <= v * ONE <= i.hi as real }

  /** One at the fixed-point scale is 2^61. */
  lemma ScaleIsPower()
    ensures TRIG_ONE == Pow2(61) && TRIG_SCALE == 61 && ONE == Pow2(61) as real
  {
    hide Pow2;
    Pow2Step(0); Pow2Step(1); Pow2Add(2, 2); Pow2Add(4, 4); Pow2Add(8, 8); Pow2Add(16, 16); Pow2Add(32, 16); Pow2Add(48, 8); Pow2Add(56, 4);
    Pow2Step(60);
  }

  /** v at scale 2^q. */
  function AtScale(v: real, q: nat): real { v * Pow2(q) as real }

  lemma AtScaleIs(v: real, q: nat) ensures AtScale(v, q) == v * Pow2(q) as real { }

  lemma InMeans(i: Interval, v: real)
    ensures In(i, v) <==> i.lo as real <= v * Pow2(61) as real <= i.hi as real
  {
    ScaleIsPower();
    hide Pow2;
  }

  /** Moving from scale 2^61 down by 61 - q bits leaves scale 2^q. */
  lemma ScaleShift(q: nat, y: real)
    requires q <= 61
    ensures y * ONE / Pow2(61 - q) as real == AtScale(y, q)
  {
    hide *;
    ScaleFactor(q);
    Cancel(y, Pow2(q) as real, Pow2(61 - q) as real);
    AtScaleIs(y, q);
  }

  lemma ScaleFactor(q: nat)
    requires q <= 61
    ensures ONE == Pow2(q) as real * Pow2(61 - q) as real && Pow2(61 - q) >= 1
  {
    hide *;
    ScaleIsPower();
    Pow2Add(q, 61 - q);
    CastMul(Pow2(q), Pow2(61 - q));
  }

  lemma Cancel(y: real, a: real, b: real)
    requires b > 0.0
    ensures y * (a * b) / b == y * a
  {
    assert y * (a * b) == y * a * b;
  }

  // ----- checked integer operations

  predicate Fits(x: int) { I128_MIN <= x <= I128_MAX }

  function CeilDiv(a: int, d: int): int requires d > 0 { -((-a) / d) }

  /** `imul`: fails on a negative lower end and on products outside `i128`. */
  function Imul(a: Interval, b: Interval): Result<Interval> {
    if a.lo < 0 || b.lo < 0 || !Fits(a.lo * b.lo) || !Fits(a.hi * b.hi) then Err
    else Ok(Interval(a.lo * b.lo / TRIG_ONE, CeilDiv(a.hi * b.hi, TRIG_ONE)))
  }

  function Iadd(a: Interval, b: Interval): Result<Interval> {
    if Fits(a.lo + b.lo) && Fits(a.hi + b.hi) then Ok(Interval(a.lo + b.lo, a.hi + b.hi)) else Err
  }

  function Isub(a: Interval, b: Interval): Result<Interval> {
    if Fits(a.lo - b.hi) && Fits(a.hi - b.lo) then Ok(Interval(a.lo - b.hi, a.hi - b.lo)) else Err
  }

  /** Both ends divided outward. */
  function Idiv(a: Interval, d: int): Result<Interval>
    requires d > 0
  {
    if Fits(a.lo / d) && Fits(CeilDiv(a.hi, d)) then Ok(Interval(a.lo / d, CeilDiv(a.hi, d))) else Err
  }

  lemma CastMul(a: int, b: int) ensures (a * b) as real == (a as real) * (b as real) { }

  lemma RealMono(a: real, b: real, c: real, d: real)
    requires 0.0 <= a <= c && 0.0 <= b <= d
    ensures 0.0 <= a * b <= c * d
  { }

  lemma FloorBound(a: int, d: int)
    requires d > 0
    ensures (a / d) as real * (d as real) <= a as real < (a / d) as real * (d as real) + d as real
  {
    assert a == (a / d) * d + a % d;
    CastMul(a / d, d);
  }

  lemma CeilBound(a: int, d: int)
    requires d > 0
    ensures CeilDiv(a, d) as real * (d as real) - d as real < a as real <= CeilDiv(a, d) as real * (d as real)
  {
    FloorBound(-a, d);
  }

  lemma ScaleDown(x: real, y: real, d: real)
    requires d > 0.0
    ensures x * d <= y * d ==> x <= y
  { }

  lemma ImulEncloses(a: Interval, b: Interval, x: real, y: real)
    requires Imul(a, b).Ok? && In(a, x) && In(b, y) && x >= 0.0 && y >= 0.0
    ensures In(Imul(a, b).value, x * y) && Imul(a, b).value.lo >= 0
  {
    var r := Imul(a, b).value;
    FloorBound(a.lo * b.lo, TRIG_ONE); CeilBound(a.hi * b.hi, TRIG_ONE);
    CastMul(a.lo, b.lo); CastMul(a.hi, b.hi);
    assert r.lo >= 0 by { MulMono(0, a.lo, b.lo); }
    ProductScaled(a.lo as real, b.lo as real, x, y, a.hi as real, b.hi as real, ONE);
    ScaleDown(r.lo as real, x * y * ONE, ONE); ScaleDown(x * y * ONE, r.hi as real, ONE);
  }

  lemma ProductScaled(a: real, b: real, x: real, y: real, c: real, d: real, s: real)
    requires 0.0 <= a <= x * s <= c && 0.0 <= b <= y * s <= d
    ensures a * b <= (x * y * s) * s <= c * d
  {
    RealMono(a, b, x * s, y * s);
    RealMono(x * s, y * s, c, d);
    Regroup(x, y, s);
  }

  lemma Regroup(x: real, y: real, s: real) ensures (x * s) * (y * s) == (x * y * s) * s { }

  lemma IaddEncloses(a: Interval, b: Interval, x: real, y: real)
    requires Iadd(a, b).Ok? && In(a, x) && In(b, y)
    ensures In(Iadd(a, b).value, x + y)
  { }

  lemma IsubEncloses(a: Interval, b: Interval, x: real, y: real)
    requires Isub(a, b).Ok? && In(a, x) && In(b, y)
    ensures In(Isub(a, b).value, x - y)
  { }

  lemma IdivEncloses(a: Interval, d: int, x: real)
    requires d > 0 && Idiv(a, d).Ok? && In(a, x)
    ensures In(Idiv(a, d).value, x / d as real)
  {
    var r, e, v := Idiv(a, d).value, d as real, x / d as real;
    FloorBound(a.lo, d); CeilBound(a.hi, d);
    assert x == v * e;
    assert v * e * ONE == v * ONE * e;
    ScaleDown(r.lo as real, v * ONE, e); ScaleDown(v * ONE, r.hi as real, e);
  }

  // ----- alternating series

  function Sign(n: nat): real { if n % 2 == 0 then 1.0 else -1.0 }

  /** The first m terms of t(0) - t(1) + t(2) - ... */
  function Partial(t: nat -> real, m: nat): real { if m == 0 then 0.0 else Partial(t, m - 1) + Sign(m - 1) * t(m - 1) }

  ghost predicate Falls(t: nat -> real, n: nat) { 0.0 <= t(n + 1) <= t(n) }

  ghost predicate Decreasing(t: nat -> real) { forall n: nat :: Falls(t, n) }

  /** Every longer partial sum stays within the first omitted term, on its side. */
  lemma {:induction false} Tail(t: nat -> real, k: nat, m: nat)
    requires Decreasing(t) && k <= m
    ensures 0.0 <= Sign(k) * (Partial(t, m) - Partial(t, k)) <= t(k)
    decreases m - k
  {
    assert Falls(t, k);
    if k < m { Tail(t, k + 1, m); }
  }

  /** An enclosure of the first k terms, widened by the first omitted term, holds every longer partial sum. */
  lemma WidenedTail(i: Interval, t: nat -> real, k: nat, m: nat, rem: int)
    requires Decreasing(t) && k <= m && In(i, Partial(t, k)) && t(k) * ONE <= rem as real
    ensures In(Interval(i.lo - rem, i.hi + rem), Partial(t, m))
  {
    hide Partial, Decreasing;
    TailDistance(t, k, m);
    Near(Partial(t, m), Partial(t, k), t(k), ONE);
    var r := rem as real;
    assert (i.lo - rem) as real == i.lo as real - r && (i.hi + rem) as real == i.hi as real + r;
  }

  lemma TailDistance(t: nat -> real, k: nat, m: nat)
    requires Decreasing(t) && k <= m
    ensures -t(k) <= Partial(t, m) - Partial(t, k) <= t(k)
  {
    hide Partial;
    Tail(t, k, m);
    assert Falls(t, k);
  }

  lemma Near(x: real, y: real, e: real, s: real)
    requires -e <= x - y <= e && s > 0.0
    ensures y * s - e * s <= x * s <= y * s + e * s
  {
    assert (x - y + e) * s >= 0.0 && (e - (x - y)) * s >= 0.0;
  }

  // ----- powers and factorials

  function RealPow(x: real, n: nat): real { if n == 0 then 1.0 else x * RealPow(x, n - 1) }

  function Factorial(n: nat): (f: nat) ensures f >= 1 {
    if n == 0 then 1 else n * Factorial(n - 1)
  }

  lemma {:induction false} PowInUnit(x: real, n: nat)
    requires 0.0 <= x <= 1.0
    ensures 0.0 <= RealPow(x, n + 1) <= RealPow(x, n) <= 1.0
  {
    if n > 0 { PowInUnit(x, n - 1); }
    var p := RealPow(x, n);
    RealMono(0.0, p, x, p); RealMono(x, p, 1.0, p);
  }

  lemma PowTwice(x: real, n: nat) ensures RealPow(x, n + 2) == RealPow(x, n) * (x * x) { }

  lemma FactorialTwice(n: nat) ensures Factorial(n + 2) == Factorial(n) * (n + 1) * (n + 2) { }

  lemma {:induction false} FactorialMono(m: nat, n: nat)
    requires m <= n
    ensures Factorial(m) <= Factorial(n)
  {
    if m < n { FactorialMono(m, n - 1); MulMono(1, n, Factorial(n - 1)); }
  }

  lemma QuotientMono(a: real, b: real, c: real, d: real)
    requires 0.0 <= a <= b && 0.0 < d <= c
    ensures 0.0 <= a / c <= b / d
  {
    assert a / c <= b / c;
    assert b / c <= b / d;
  }
}
