/**
 Enclosures of arctan(1/x) and of pi.
 Models `arctan_inv` and `pi_enclosure` of crates/akita-challenges/scripts/gen_op_norm_static_base.py.
 */
module Machin {
  import opened Arith
  import opened Intervals

  function IntPow(x: int, n: nat): int { if n == 0 then 1 else x * IntPow(x, n - 1) }

  /** The denominator of term n of arctan(1/x). */
  function Denominator(x: nat, n: nat): (d: int)
    requires x >= 1
    ensures d >= 1
  {
    PowPositive(x, 2 * n + 1);
    MulMono(1, 2 * n + 1, IntPow(x, 2 * n + 1));
    (2 * n + 1) * IntPow(x, 2 * n + 1)
  }

  lemma {:induction false} PowPositive(x: nat, n: nat)
    requires x >= 1
    ensures IntPow(x, n) >= 1
  {
    if n > 0 { PowPositive(x, n - 1); MulMono(1, x, IntPow(x, n - 1)); }
  }

  function ArctanTerm(x: nat, n: nat): real requires x >= 1 { 1.0 / Denominator(x, n) as real }

  function ArctanTerms(x: nat): nat -> real requires x >= 1 { (n: nat) => ArctanTerm(x, n) }

  /** The first m terms of arctan(1/x). */
  function ArctanPartial(x: nat, m: nat): real requires x >= 1 { Partial(ArctanTerms(x), m) }

  lemma DenominatorGrows(x: nat, n: nat)
    requires x >= 1
    ensures Denominator(x, n) < Denominator(x, n + 1)
  {
    PowPositive(x, 2 * n + 1);
    PowSquare(x, n);
    DenominatorIs(x, n); DenominatorIs(x, n + 1);
    hide *;
    GrowingProduct(IntPow(x, 2 * n + 1), x * x, 2 * n + 1);
  }

  lemma GrowingProduct(p: int, s: int, k: int)
    requires p >= 1 && s >= 1 && k >= 1
    ensures k * p < (k + 2) * (p * s)
  {
    MulMono(1, s, p);
    MulMono(p, p * s, k + 2);
  }

  lemma PowSquare(x: nat, n: nat)
    ensures IntPow(x, 2 * n + 3) == IntPow(x, 2 * n + 1) * (x * x) && (x >= 1 ==> x * x >= 1)
  {
    var p := IntPow(x, 2 * n + 1);
    assert IntPow(x, 2 * n + 3) == x * IntPow(x, 2 * n + 2) && IntPow(x, 2 * n + 2) == x * p;
    if x >= 1 { MulMono(1, x, x); }
  }

  /** The series of arctan(1/x): term n is one over (2n + 1) x^(2n + 1), signs alternating. */
  lemma ArctanSeries(x: nat, n: nat)
    requires x >= 1
    ensures Denominator(x, 0) == x && (2 * n + 1) * Denominator(x, n + 1) == (2 * n + 3) * (Denominator(x, n) * (x * x))
    ensures ArctanTerm(x, n) * Denominator(x, n) as real == 1.0 && ArctanPartial(x, 0) == 0.0
    ensures ArctanPartial(x, n + 1) == ArctanPartial(x, n) + (if n % 2 == 0 then 1.0 else -1.0) * ArctanTerm(x, n)
  {
    assert IntPow(x, 1) == x * IntPow(x, 0) == x;
    assert ArctanTerm(x, n) == 1.0 / Denominator(x, n) as real;
    assert ArctanPartial(x, 0) == 0.0 && ArctanPartial(x, n + 1) == ArctanPartial(x, n) + Sign(n) * ArctanTerm(x, n);
    DenominatorIs(x, 0); DenominatorIs(x, n); DenominatorIs(x, n + 1);
    PowSquare(x, n);
    hide Denominator, IntPow, ArctanTerm, ArctanPartial;
    DenominatorRatio(IntPow(x, 2 * n + 1), x * x, 2 * n + 1);
  }

  lemma DenominatorRatio(p: int, s: int, k: int) ensures k * ((k + 2) * (p * s)) == (k + 2) * (k * p * s) { }

  lemma ArctanDecreasing(x: nat)
    requires x >= 1
    ensures Decreasing(ArctanTerms(x))
  {
    hide Denominator;
    forall n: nat ensures Falls(ArctanTerms(x), n) {
      DenominatorGrows(x, n);
      QuotientMono(1.0, 1.0, Denominator(x, n + 1) as real, Denominator(x, n) as real);
    }
  }

  /** `total` is within n of the exact partial sum: each truncated term is off by less than one unit. */
  ghost predicate Near(total: int, x: nat, n: nat)
    requires x >= 1
  {
    -(n as real) <= total as real - ArctanPartial(x, n) * ONE <= n as real
  }

  lemma NearNext(total: int, x: nat, n: nat)
    requires x >= 1 && Near(total, x, n)
    ensures
      var term := TRIG_ONE / Denominator(x, n);
      Near(if n % 2 == 0 then total + term else total - term, x, n + 1)
  {
    var d, p := Denominator(x, n), ArctanPartial(x, n);
    var term, t := TRIG_ONE / d, ArctanTerm(x, n);
    TruncatedTerm(d);
    PartialNext(x, n);
    hide ArctanPartial, ArctanTerm, Denominator;
    assert (p + t) * ONE == p * ONE + t * ONE && (p - t) * ONE == p * ONE - t * ONE;
  }

  lemma PartialNext(x: nat, n: nat)
    requires x >= 1
    ensures ArctanPartial(x, n + 1) == if n % 2 == 0 then ArctanPartial(x, n) + ArctanTerm(x, n) else ArctanPartial(x, n) - ArctanTerm(x, n)
  { }

  lemma TruncatedTerm(d: int)
    requires d >= 1
    ensures (TRIG_ONE / d) as real <= (1.0 / d as real) * ONE < (TRIG_ONE / d) as real + 1.0
  {
    FloorBound(TRIG_ONE, d);
    var e, q := d as real, (TRIG_ONE / d) as real;
    var v := (1.0 / e) * ONE;
    assert v * e == ONE;
    ScaleDown(q, v, e);
    if v >= q + 1.0 { RealMono(q + 1.0, e, v, e); }
  }

  /** Past a denominator above the scale, all later partial sums stay within one more unit. */
  lemma SlackCovers(total: int, x: nat, n: nat, m: nat)
    requires x >= 1 && Near(total, x, n) && Denominator(x, n) > TRIG_ONE && m >= n
    ensures In(Interval(total - (n + 1), total + (n + 1)), ArctanPartial(x, m))
  {
    ArctanDecreasing(x);
    TailDistance(ArctanTerms(x), n, m);
    var t := ArctanTerm(x, n);
    assert t * ONE <= 1.0 by { LastTerm(Denominator(x, n)); }
    assert ArctanTerms(x)(n) == t;
    hide Partial, ArctanTerm, Denominator, Decreasing;
    Intervals.Near(ArctanPartial(x, m), ArctanPartial(x, n), t, ONE);
  }

  lemma LastTerm(d: int)
    requires d > TRIG_ONE
    ensures (1.0 / d as real) * ONE <= 1.0
  {
    var e := d as real;
    QuotientMono(ONE, e, e, e);
  }

  lemma {:induction false} PowLowerBound(x: nat, n: nat)
    requires x >= 2
    ensures IntPow(x, n) >= Pow2(n)
  {
    if n > 0 { PowLowerBound(x, n - 1); MulMono(2, x, IntPow(x, n - 1)); }
  }

  /** `arctan_inv`: the enclosure holds every partial sum of at least `terms` terms. */
  method ArctanInv(x: nat) returns (i: Interval, ghost terms: nat)
    requires x >= 1
    ensures forall m: nat :: m >= terms ==> In(i, ArctanPartial(x, m))
    ensures i.hi - i.lo == 2 * (terms + 1)
    ensures Near(i.lo + terms + 1, x, terms) && (terms == 0 || Denominator(x, terms - 1) <= TRIG_ONE) && Denominator(x, terms) > TRIG_ONE
  {
    hide *;
    var total, xPow, x2, count, n := 0, x, x * x, 0, 0;
    StartPow(x);
    NearNothing(x);
    while true
      invariant n >= 0 && count == n && xPow == IntPow(x, 2 * n + 1) && x2 == x * x
      invariant Near(total, x, n) && (n == 0 || Denominator(x, n - 1) <= TRIG_ONE)
      decreases TRIG_ONE - Denominator(x, n)
    {
      DenominatorIs(x, n);
      var denom := (2 * n + 1) * xPow;
      if !Fits(denom) { FitsSmall(denom); break; }
      var term := TRIG_ONE / denom;
      TermZero(denom);
      if term == 0 { break; }
      NearNext(total, x, n);
      total := if n % 2 == 0 then total + term else total - term;
      DenominatorGrows(x, n);
      PowSquare(x, n);
      count := count + 1;
      n := n + 1;
      var next := xPow * x2;
      if !Fits(next) { DenominatorIs(x, n); NextBlocked(x, n, next); break; }
      xPow := next;
    }
    var slack := count + 1;
    i := Interval(total - slack, total + slack);
    terms := n;
    forall m: nat | m >= terms ensures In(i, ArctanPartial(x, m)) { SlackCovers(total, x, n, m); }
  }

  lemma StartPow(x: nat) ensures IntPow(x, 1) == x { assert IntPow(x, 1) == x * IntPow(x, 0); }

  lemma NearNothing(x: nat) requires x >= 1 ensures Near(0, x, 0) { }

  lemma DenominatorIs(x: nat, n: nat)
    requires x >= 1
    ensures Denominator(x, n) == (2 * n + 1) * IntPow(x, 2 * n + 1)
  { }

  lemma FitsSmall(d: int) requires !Fits(d) && d >= 1 ensures d > TRIG_ONE { }

  lemma TermZero(d: int)
    requires d >= 1
    ensures TRIG_ONE / d == 0 <==> d > TRIG_ONE
  {
    if d > TRIG_ONE { DivModUnique(TRIG_ONE, d, 0, TRIG_ONE); } else { MulMono(1, TRIG_ONE / d, d); }
  }

  lemma NextBlocked(x: nat, n: nat, next: int)
    requires x >= 1 && next == IntPow(x, 2 * n + 1) && !Fits(next)
    ensures Denominator(x, n) > TRIG_ONE
  {
    PowPositive(x, 2 * n + 1);
    MulMono(1, 2 * n + 1, next);
  }

  // ----- pi by Machin's formula

  /** With x at least 2 the loop takes at most 31 terms. */
  lemma FewTerms(x: nat, n: nat)
    requires x >= 2 && n >= 1 && Denominator(x, n - 1) <= TRIG_ONE
    ensures n <= 31
  {
    hide Pow2;
    PowPositive(x, 2 * n - 1);
    MulMono(1, 2 * n - 1, IntPow(x, 2 * n - 1));
    PowLowerBound(x, 2 * n - 1);
    Pow2Of64(); Pow2Step(63);
    if n > 31 { Pow2Mono(63, 2 * n - 1); }
  }

  /** The computed enclosure lies within t1 of 1/x, up to its slack, where t1 is the second term. */
  lemma ArctanRange(x: nat, i: Interval, n: nat, first: real, second: real)
    requires x >= 1 && 1 <= n <= 31 && Near(i.lo + n + 1, x, n) && i.hi - i.lo == 2 * (n + 1)
    requires ArctanTerm(x, 0) == first && ArctanTerm(x, 1) <= second
    ensures (first - second) * ONE - 64.0 <= i.lo as real && i.hi as real <= (first + second) * ONE + 64.0
  {
    hide *;
    PartialRange(x, n, first, second);
    NearIs(i.lo + n + 1, x, n);
    RangeScaled(first, second, ArctanPartial(x, n), i, n);
  }

  /** Every partial sum of at least one term is within the second term of the first. */
  lemma PartialRange(x: nat, n: nat, first: real, second: real)
    requires x >= 1 && n >= 1 && ArctanTerm(x, 0) == first && ArctanTerm(x, 1) <= second
    ensures first - second <= ArctanPartial(x, n) <= first + second
  {
    hide *;
    ArctanDecreasing(x);
    TailDistance(ArctanTerms(x), 1, n);
    PartialNext(x, 0);
    ArctanIs(x, 0); ArctanIs(x, 1); ArctanIs(x, n);
  }

  lemma ArctanIs(x: nat, n: nat)
    requires x >= 1
    ensures ArctanPartial(x, n) == Partial(ArctanTerms(x), n) && ArctanTerms(x)(n) == ArctanTerm(x, n)
    ensures n == 0 ==> ArctanPartial(x, n) == 0.0
  { }

  lemma NearIs(total: int, x: nat, n: nat)
    requires x >= 1 && Near(total, x, n)
    ensures -(n as real) <= total as real - ArctanPartial(x, n) * ONE <= n as real
  { }

  lemma RangeScaled(first: real, second: real, p: real, i: Interval, n: nat)
    requires first - second <= p <= first + second && n <= 31 && i.hi - i.lo == 2 * (n + 1)
    requires -(n as real) <= (i.lo + n + 1) as real - p * ONE <= n as real
    ensures (first - second) * ONE - 64.0 <= i.lo as real && i.hi as real <= (first + second) * ONE + 64.0
  {
    assert (first - second) * ONE <= p * ONE <= (first + second) * ONE;
    assert (i.lo + n + 1) as real == i.lo as real + n as real + 1.0;
    assert i.hi as real == i.lo as real + 2.0 * (n as real + 1.0);
  }

  lemma FirstTerms()
    ensures ArctanTerm(5, 0) == 0.2 && ArctanTerm(5, 1) <= 0.01
    ensures 0.0 <= ArctanTerm(239, 0) <= 0.01 && ArctanTerm(239, 1) <= 0.01
    ensures Denominator(5, 0) <= TRIG_ONE && Denominator(239, 0) <= TRIG_ONE
  {
    assert IntPow(5, 1) == 5 * IntPow(5, 0) && IntPow(239, 1) == 239 * IntPow(239, 0);
    assert Denominator(5, 0) == 5 && Denominator(239, 0) == 239;
    PowSquare(5, 0);
    assert Denominator(5, 1) == 375;
    DenominatorGrows(239, 0);
    hide Denominator, IntPow;
    QuotientMono(1.0, 1.0, Denominator(239, 1) as real, 239.0);
  }

  /** `pi_enclosure`: holds every Machin partial sum with enough terms, and lies within [0, 4]. */
  method PiEnclosure() returns (i: Interval, ghost terms: nat)
    ensures forall m: nat, n: nat :: m >= terms && n >= terms ==> In(i, 16.0 * ArctanPartial(5, m) - 4.0 * ArctanPartial(239, n))
    ensures 0 <= i.lo <= i.hi <= 4 * TRIG_ONE && i.hi - i.lo <= 1280
  {
    var a, aTerms := ArctanInv(5);
    var b, bTerms := ArctanInv(239);
    terms := if aTerms >= bTerms then aTerms else bTerms;
    i := Interval(16 * a.lo - 4 * b.hi, 16 * a.hi - 4 * b.lo);
    hide *;
    PiRange(a, aTerms, b, bTerms);
    forall m: nat, n: nat | m >= terms && n >= terms ensures In(i, 16.0 * ArctanPartial(5, m) - 4.0 * ArctanPartial(239, n)) {
      MachinEncloses(a, b, m, n);
    }
  }

  lemma MachinEncloses(a: Interval, b: Interval, m: nat, n: nat)
    requires In(a, ArctanPartial(5, m)) && In(b, ArctanPartial(239, n))
    ensures In(Interval(16 * a.lo - 4 * b.hi, 16 * a.hi - 4 * b.lo), 16.0 * ArctanPartial(5, m) - 4.0 * ArctanPartial(239, n))
  {
    hide ArctanPartial;
  }

  lemma PiRange(a: Interval, n: nat, b: Interval, m: nat)
    requires a.hi - a.lo == 2 * (n + 1) && b.hi - b.lo == 2 * (m + 1)
    requires Near(a.lo + n + 1, 5, n) && (n == 0 || Denominator(5, n - 1) <= TRIG_ONE) && Denominator(5, n) > TRIG_ONE
    requires Near(b.lo + m + 1, 239, m) && (m == 0 || Denominator(239, m - 1) <= TRIG_ONE) && Denominator(239, m) > TRIG_ONE
    ensures 0 <= 16 * a.lo - 4 * b.hi <= 16 * a.hi - 4 * b.lo <= 4 * TRIG_ONE && n <= 31 && m <= 31
  {
    hide *;
    FirstTerms();
    FewTerms(5, n); FewTerms(239, m);
    ArctanRange(5, a, n, 0.2, 0.01);
    ArctanRange(239, b, m, ArctanTerm(239, 0), 0.01);
    PiBounds(a, b, ArctanTerm(239, 0));
  }

  lemma PiBounds(a: Interval, b: Interval, t: real)
    requires 0.0 <= t <= 0.01 && a.lo <= a.hi && b.lo <= b.hi
    requires (0.2 - 0.01) * ONE - 64.0 <= a.lo as real && a.hi as real <= (0.2 + 0.01) * ONE + 64.0
    requires (t - 0.01) * ONE - 64.0 <= b.lo as real && b.hi as real <= (t + 0.01) * ONE + 64.0
    ensures 0 <= 16 * a.lo - 4 * b.hi <= 16 * a.hi - 4 * b.lo <= 4 * TRIG_ONE
  {
    var s := t * ONE;
    assert 0.0 <= s <= 0.01 * ONE;
    assert (t - 0.01) * ONE == s - 0.01 * ONE && (t + 0.01) * ONE == s + 0.01 * ONE;
    var al, ah, bl, bh := a.lo as real, a.hi as real, b.lo as real, b.hi as real;
    assert (16 * a.lo - 4 * b.hi) as real == 16.0 * al - 4.0 * bh >= 0.0;
    assert (16 * a.hi - 4 * b.lo) as real == 16.0 * ah - 4.0 * bl <= (4 * TRIG_ONE) as real;
  }
}
