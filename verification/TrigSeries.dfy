/**
 Cosine and sine enclosures by Taylor series.
 Models `taylor_cos`, `taylor_sin` and `add_remainder` of
 crates/akita-challenges/scripts/gen_op_norm_static_base.py.
 */
module TrigSeries {
  import opened Arith
  import opened Intervals

  const NTERMS: nat := 12

  lemma SeriesLength() ensures NTERMS == 12 { }

  // ----- the Taylor series

  /** Term n of cosine (odd = 0) or sine (odd = 1). */
  function TrigTerm(x: real, odd: nat, n: nat): real { RealPow(x, 2 * n + odd) / Factorial(2 * n + odd) as real }

  function TrigTerms(x: real, odd: nat): nat -> real { (n: nat) => TrigTerm(x, odd, n) }

  /** The first m terms of cos x or sin x. */
  function TrigPartial(x: real, odd: nat, m: nat): real { Partial(TrigTerms(x, odd), m) }

  /** The series of cosine and sine: first terms 1 and x, each next term x^2 over the next two factors, signs alternating. */
  lemma SeriesTerms(x: real, odd: nat, n: nat)
    requires odd <= 1
    ensures TrigTerm(x, 0, 0) == 1.0 && TrigTerm(x, 1, 0) == x
    ensures TrigTerm(x, odd, n + 1) * ((2 * n + 1 + odd) * (2 * n + 2 + odd)) as real == TrigTerm(x, odd, n) * (x * x)
    ensures TrigPartial(x, odd, 0) == 0.0
    ensures TrigPartial(x, odd, n + 1) == TrigPartial(x, odd, n) + (if n % 2 == 0 then 1.0 else -1.0) * TrigTerm(x, odd, n)
  {
    hide *;
    LeadingTerms(x);
    PartialStep(x, odd, n); NoTerms(x, odd);
    TermRatio(x, odd, n, 2 * n + odd);
  }

  lemma LeadingTerms(x: real)
    ensures TrigTerm(x, 0, 0) == 1.0 && TrigTerm(x, 1, 0) == x
  {
    assert RealPow(x, 1) == x * RealPow(x, 0) && Factorial(1) == 1 * Factorial(0);
  }

  lemma NoTerms(x: real, odd: nat) ensures TrigPartial(x, odd, 0) == 0.0 { }

  lemma TermRatio(x: real, odd: nat, n: nat, k: nat)
    requires k == 2 * n + odd
    ensures TrigTerm(x, odd, n + 1) * ((k + 1) * (k + 2)) as real == TrigTerm(x, odd, n) * (x * x)
  {
    hide *;
    PowTwice(x, k); FactorialTwice(k);
    TrigTermIs(x, odd, n); TrigTermIs(x, odd, n + 1);
    var f, g := Factorial(k), (k + 1) * (k + 2);
    FactorialSplit(f, k, g);
    CastMul(f, g);
    NextTermRatio(RealPow(x, k), x * x, f as real, g as real);
  }

  lemma FactorialSplit(f: int, k: nat, g: int)
    requires g == (k + 1) * (k + 2)
    ensures f * (k + 1) * (k + 2) == f * g && g >= 1
  { }

  lemma NextTermRatio(p: real, y: real, f: real, g: real)
    requires f > 0.0 && g > 0.0
    ensures p * y / (f * g) * g == p / f * y
  {
    var a, b := p * y / (f * g), p / f;
    assert a * (f * g) == p * y && b * f == p;
    assert (a * g - b * y) * f == a * (f * g) - b * f * y == 0.0;
  }

  lemma TrigFalls(x: real, odd: nat, n: nat)
    requires 0.0 <= x <= 1.0
    ensures Falls(TrigTerms(x, odd), n)
  {
    var k := 2 * n + odd;
    PowInUnit(x, k); PowInUnit(x, k + 1);
    FactorialMono(k, k + 2);
    hide RealPow, Factorial;
    QuotientMono(RealPow(x, k + 2), RealPow(x, k), Factorial(k + 2) as real, Factorial(k) as real);
  }

  lemma TrigDecreasing(x: real, odd: nat)
    requires 0.0 <= x <= 1.0
    ensures Decreasing(TrigTerms(x, odd))
  {
    hide TrigTerms;
    forall n: nat ensures Falls(TrigTerms(x, odd), n) { TrigFalls(x, odd, n); }
  }

  /** x is an angle of the input interval, between 0 and 1. */
  ghost predicate Angle(phi: Interval, x: real) { In(phi, x) && 0.0 <= x <= 1.0 }

  /** The loop's state after n terms: pw holds x^(2n + odd) and s the partial sum, for every angle. */
  ghost predicate Tracks(phi: Interval, odd: nat, n: nat, s: Interval, pw: Interval, fact: int) {
    && fact == Factorial(2 * n + odd) && pw.lo >= 0
    && forall x: real :: Angle(phi, x) ==> In(pw, RealPow(x, 2 * n + odd)) && In(s, TrigPartial(x, odd, n + 1))
  }

  function Width(i: Interval): int { i.hi - i.lo }

  /** How wide the power and the partial sum can be after n terms, from an input of width w. */
  function PowerWidth(w: int, n: nat): int { w + Times(n, 2 * w + 2) }

  function SumWidth(w: int, n: nat): int { if n == 0 then w else SumWidth(w, n - 1) + PowerWidth(w, n) + 1 }

  lemma SumWidthOfTerms(w: int)
    ensures SumWidth(w, NTERMS) == 169 * w + 168
  {
    assert SumWidth(w, 0) == w;
    hide SumWidth;
    SumWidthStep(w, 0); SumWidthStep(w, 1); SumWidthStep(w, 2); SumWidthStep(w, 3); SumWidthStep(w, 4); SumWidthStep(w, 5);
    SumWidthStep(w, 6); SumWidthStep(w, 7); SumWidthStep(w, 8); SumWidthStep(w, 9); SumWidthStep(w, 10); SumWidthStep(w, 11);
  }

  lemma SumWidthStep(w: int, n: nat)
    ensures SumWidth(w, n + 1) == SumWidth(w, n) + w + (n + 1) * (2 * w + 2) + 1
  { }

  /** No step overflows when the input interval lies within [0, 1], and widths grow slowly from its width w. */
  ghost predicate Bounded(n: nat, s: Interval, pw: Interval, w: int) {
    && 0 <= pw.lo <= pw.hi <= TRIG_ONE && Width(pw) <= PowerWidth(w, n) && Width(s) <= SumWidth(w, n)
    && -Times(n + 1, TRIG_ONE) <= s.lo && s.hi <= Times(n + 1, TRIG_ONE) && s.lo <= s.hi
  }

  ghost predicate InUnit(phi: Interval) { 0 <= phi.lo <= phi.hi <= TRIG_ONE }

  lemma TracksStart(phi: Interval, odd: nat)
    requires odd <= 1 && phi.lo >= 0
    ensures
      var start := if odd == 0 then Interval(TRIG_ONE, TRIG_ONE) else phi;
      Tracks(phi, odd, 0, start, start, 1) && (InUnit(phi) ==> Bounded(0, start, start, Width(phi)))
  {
    var start := if odd == 0 then Interval(TRIG_ONE, TRIG_ONE) else phi;
    forall x: real | Angle(phi, x) ensures In(start, RealPow(x, odd)) && In(start, TrigPartial(x, odd, 1)) {
      FirstTerm(x, odd);
    }
  }

  lemma FirstTerm(x: real, odd: nat)
    requires odd <= 1
    ensures RealPow(x, odd) == (if odd == 0 then 1.0 else x) && TrigPartial(x, odd, 1) == RealPow(x, odd)
  {
    assert Partial(TrigTerms(x, odd), 1) == Partial(TrigTerms(x, odd), 0) + Sign(0) * TrigTerm(x, odd, 0);
    assert RealPow(x, 1) == x * RealPow(x, 0) && Factorial(1) == 1 * Factorial(0);
  }

  /** One iteration: the next power, factorial and signed term. */
  function NextTerm(n: nat, odd: nat, s: Interval, pw: Interval, fact: int, phi2: Interval): Result<(Interval, Interval, int)>
    requires n >= 1 && fact >= 1
  {
    var p := Imul(pw, phi2);
    var f := fact * (2 * n - 1 + odd) * (2 * n + odd);
    if p.Err? || !Fits(f) then Err
    else
      NextFactorPositive(fact, n, odd);
      var term := Idiv(p.value, f);
      if term.Err? then Err
      else
        var t := if n % 2 == 1 then Isub(s, term.value) else Iadd(s, term.value);
        if t.Err? then Err else Ok((t.value, p.value, f))
  }

  lemma NextFactorPositive(fact: int, n: nat, odd: nat)
    requires n >= 1 && fact >= 1
    ensures fact * (2 * n - 1 + odd) * (2 * n + odd) >= 1
  {
    MulMono(1, 2 * n - 1 + odd, fact);
    MulMono(1, 2 * n + odd, fact * (2 * n - 1 + odd));
  }

  lemma NextTermFactor(n: nat, odd: nat)
    requires n >= 1
    ensures Factorial(2 * n + odd) == Factorial(2 * n - 2 + odd) * (2 * n - 1 + odd) * (2 * n + odd)
  {
    FactorialTwice(2 * n - 2 + odd);
  }

  /** For one angle, the step extends power and partial sum by one term. */
  lemma NextTermEncloses(phi: Interval, odd: nat, n: nat, s: Interval, pw: Interval, fact: int, phi2: Interval, x: real)
    requires n >= 1 && fact == Factorial(2 * n - 2 + odd) && NextTerm(n, odd, s, pw, fact, phi2).Ok?
    requires 0.0 <= x <= 1.0 && In(phi2, x * x) && In(pw, RealPow(x, 2 * n - 2 + odd)) && In(s, TrigPartial(x, odd, n))
    ensures
      var (t, p, f) := NextTerm(n, odd, s, pw, fact, phi2).value;
      In(p, RealPow(x, 2 * n + odd)) && In(t, TrigPartial(x, odd, n + 1))
  {
    hide *;
    NextTermParts(n, odd, s, pw, fact, phi2);
    var (t, p, f) := NextTerm(n, odd, s, pw, fact, phi2).value;
    var k := 2 * n - 2 + odd;
    PowTwice(x, k); PowInUnit(x, k); SquareNonneg(x);
    TrigTermIs(x, odd, n);
    PartialStep(x, odd, n);
    StepEncloses(n, pw, phi2, p, f, s, t, RealPow(x, k), x * x, RealPow(x, k + 2), TrigPartial(x, odd, n));
  }

  lemma StepEncloses(n: nat, pw: Interval, phi2: Interval, p: Interval, f: int, s: Interval, t: Interval, v: real, y: real, w: real, sum: real)
    requires v >= 0.0 && y >= 0.0 && w == v * y && In(pw, v) && In(phi2, y) && In(s, sum)
    requires Imul(pw, phi2) == Ok(p) && f >= 1 && Idiv(p, f).Ok?
    requires (if n % 2 == 1 then Isub(s, Idiv(p, f).value) else Iadd(s, Idiv(p, f).value)) == Ok(t)
    ensures In(p, w) && In(t, if n % 2 == 1 then sum - w / f as real else sum + w / f as real)
  {
    hide *;
    ImulEncloses(pw, phi2, v, y);
    IdivEncloses(p, f, w);
    if n % 2 == 1 {
      IsubEncloses(s, Idiv(p, f).value, sum, w / f as real);
    } else {
      IaddEncloses(s, Idiv(p, f).value, sum, w / f as real);
    }
  }

  lemma SquareNonneg(x: real) ensures x * x >= 0.0 { }

  lemma TrigTermIs(x: real, odd: nat, n: nat)
    ensures TrigTerm(x, odd, n) == RealPow(x, 2 * n + odd) / Factorial(2 * n + odd) as real
    ensures TrigTerms(x, odd)(n) == TrigTerm(x, odd, n)
  { }

  lemma NextTermParts(n: nat, odd: nat, s: Interval, pw: Interval, fact: int, phi2: Interval)
    requires n >= 1 && fact == Factorial(2 * n - 2 + odd) && NextTerm(n, odd, s, pw, fact, phi2).Ok?
    ensures
      var (t, p, f) := NextTerm(n, odd, s, pw, fact, phi2).value;
      && Imul(pw, phi2) == Ok(p) && f == Factorial(2 * n + odd) && f >= 1 && Idiv(p, f).Ok?
      && (if n % 2 == 1 then Isub(s, Idiv(p, f).value) else Iadd(s, Idiv(p, f).value)) == Ok(t)
  {
    hide Imul, Idiv, Isub, Iadd, Factorial;
    NextTermFactor(n, odd);
  }

  lemma PartialStep(x: real, odd: nat, n: nat)
    ensures TrigPartial(x, odd, n + 1) == if n % 2 == 1 then TrigPartial(x, odd, n) - TrigTerm(x, odd, n) else TrigPartial(x, odd, n) + TrigTerm(x, odd, n)
  { }

  lemma NextTermTracks(phi: Interval, odd: nat, n: nat, s: Interval, pw: Interval, fact: int, phi2: Interval)
    requires n >= 1 && Tracks(phi, odd, n - 1, s, pw, fact) && Imul(phi, phi) == Ok(phi2)
    requires NextTerm(n, odd, s, pw, fact, phi2).Ok?
    ensures var (t, p, f) := NextTerm(n, odd, s, pw, fact, phi2).value; Tracks(phi, odd, n, t, p, f)
  {
    var (t, p, f) := NextTerm(n, odd, s, pw, fact, phi2).value;
    NextTermFactor(n, odd);
    assert p.lo >= 0 by { FloorNonneg(pw.lo, phi2.lo); }
    hide In, RealPow, Factorial, TrigPartial, NextTerm, Imul;
    forall x: real | Angle(phi, x) ensures In(p, RealPow(x, 2 * n + odd)) && In(t, TrigPartial(x, odd, n + 1)) {
      ImulEncloses(phi, phi, x, x);
      NextTermEncloses(phi, odd, n, s, pw, fact, phi2, x);
    }
  }

  lemma FloorNonneg(a: int, b: int)
    requires a >= 0 && b >= 0
    ensures a * b / TRIG_ONE >= 0
  {
    MulMono(0, a, b);
  }

  // ----- no overflow on the unit interval

  lemma ImulUnit(a: Interval, b: Interval)
    requires InUnit(a) && InUnit(b)
    ensures Imul(a, b).Ok? && InUnit(Imul(a, b).value) && Width(Imul(a, b).value) <= Width(a) + Width(b) + 1
  {
    ProductWidth(a.lo, a.hi, b.lo, b.hi, TRIG_ONE);
    QuotientWidth(a.lo * b.lo, a.hi * b.hi, TRIG_ONE, Width(a) + Width(b));
    MulMono(a.hi, TRIG_ONE, b.hi); MulMono(b.hi, TRIG_ONE, TRIG_ONE);
    MulMono(a.lo, a.hi, b.lo); MulMono(b.lo, b.hi, a.hi);
    MulMono(0, a.lo, b.lo);
    UnitQuotients(a.lo * b.lo, a.hi * b.hi, TRIG_ONE, TRIG_ONE);
  }

  /** Outward quotients of 0 <= lo <= hi <= top d. */
  lemma UnitQuotients(lo: int, hi: int, d: int, top: int)
    requires d > 0 && 0 <= lo <= hi <= top * d
    ensures 0 <= lo / d <= CeilDiv(hi, d) <= top
  {
    var c, q := CeilDiv(hi, d), lo / d;
    CeilFacts(hi, d); FloorFacts(lo, d);
    hide *;
    Below(c - 1, top - 1, d);
    Below(q, c, d);
  }

  /** hi hi' - lo lo' within the unit square. */
  lemma ProductWidth(lo: int, hi: int, lo': int, hi': int, one: int)
    requires 0 <= lo <= hi <= one && 0 <= lo' <= hi' <= one
    ensures hi * hi' <= lo * lo' + (hi - lo + (hi' - lo')) * one
  {
    assert hi * hi' == lo * lo' + hi * (hi' - lo') + lo' * (hi - lo);
    MulMono(hi, one, hi' - lo'); MulMono(lo', one, hi - lo);
  }

  /** Outward quotients of values at most m d apart are at most m + 1 apart. */
  lemma QuotientWidth(lo: int, hi: int, d: int, m: int)
    requires d > 0 && hi <= lo + m * d
    ensures CeilDiv(hi, d) - lo / d <= m + 1
  {
    CeilFacts(hi, d); FloorFacts(lo, d);
    var c, q := CeilDiv(hi, d), lo / d;
    hide *;
    assert (c - 1) * d < (q + m) * d + d;
    Below(c - 1, q + m, d);
  }

  lemma FloorFacts(a: int, d: int)
    requires d > 0
    ensures (a / d) * d <= a < (a / d) * d + d && (a >= 0 ==> a / d >= 0)
  { }

  lemma CeilFacts(a: int, d: int)
    requires d > 0
    ensures (CeilDiv(a, d) - 1) * d < a <= CeilDiv(a, d) * d
  {
    FloorFacts(-a, d);
  }

  lemma Below(a: int, b: int, d: int)
    requires d > 0 && a * d < b * d + d
    ensures a <= b
  {
    if a > b { MulMono(b + 1, a, d); }
  }

  lemma IdivUnit(a: Interval, d: int)
    requires InUnit(a) && d >= 1
    ensures Idiv(a, d).Ok? && InUnit(Idiv(a, d).value) && Width(Idiv(a, d).value) <= Width(a) + 1
  {
    MulMono(1, d, TRIG_ONE);
    MulMono(1, d, Width(a));
    QuotientWidth(a.lo, a.hi, d, Width(a));
    UnitQuotients(a.lo, a.hi, d, TRIG_ONE);
    hide CeilDiv;
  }

  lemma LargeFactorials()
    ensures Factorial(25) == 15511210043330985984000000 && Factorial(27) == 10888869450418352160768000000
  {
    assert Factorial(1) == 1;
    hide *;
    FactorialValue(1, 1, 6);
    FactorialValue(3, 6, 120);
    FactorialValue(5, 120, 5040);
    FactorialValue(7, 5040, 362880);
    FactorialValue(9, 362880, 39916800);
    FactorialValue(11, 39916800, 6227020800);
    FactorialValue(13, 6227020800, 1307674368000);
    FactorialValue(15, 1307674368000, 355687428096000);
    FactorialValue(17, 355687428096000, 121645100408832000);
    FactorialValue(19, 121645100408832000, 51090942171709440000);
    FactorialValue(21, 51090942171709440000, 25852016738884976640000);
    FactorialValue(23, 25852016738884976640000, 15511210043330985984000000);
    FactorialValue(25, 15511210043330985984000000, 10888869450418352160768000000);
  }

  lemma FactorialsFit(k: nat)
    requires k <= 27
    ensures Factorial(k) <= 10888869450418352160768000000
  {
    hide Factorial;
    LargeFactorials();
    FactorialMono(k, 27);
  }

  lemma FactorialsLarge(k: nat)
    requires k >= 25
    ensures Factorial(k) >= TRIG_ONE
  {
    hide Factorial;
    LargeFactorials();
    FactorialMono(25, k);
  }

  lemma FactorialValue(n: nat, f: int, g: int)
    requires Factorial(n) == f && g == f * (n + 1) * (n + 2)
    ensures Factorial(n + 2) == g
  {
    FactorialTwice(n);
  }

  lemma NextTermFits(odd: nat, n: nat, s: Interval, pw: Interval, fact: int, phi2: Interval, w: int)
    requires 1 <= n <= NTERMS && odd <= 1 && fact == Factorial(2 * n - 2 + odd)
    requires InUnit(phi2) && Width(phi2) <= 2 * w + 1 && Bounded(n - 1, s, pw, w)
    ensures NextTerm(n, odd, s, pw, fact, phi2).Ok?
    ensures var (t, p, f) := NextTerm(n, odd, s, pw, fact, phi2).value; Bounded(n, t, p, w)
  {
    ImulUnit(pw, phi2);
    TimesStep(n - 1, 2 * w + 2);
    assert SumWidth(w, n) == SumWidth(w, n - 1) + PowerWidth(w, n) + 1;
    var p := Imul(pw, phi2).value;
    NextTermFactor(n, odd);
    FactorialsFit(2 * n + odd);
    NextFactorPositive(fact, n, odd);
    var f := fact * (2 * n - 1 + odd) * (2 * n + odd);
    IdivUnit(p, f);
    TimesStep(n, TRIG_ONE);
    assert Times(n, TRIG_ONE) <= 12 * TRIG_ONE;
    hide Factorial, Imul, Idiv, Times, SumWidth;
  }

  // ----- the series enclosures

  /** i holds every partial sum of more than NTERMS terms, for every angle. */
  ghost predicate HoldsSeries(i: Interval, phi: Interval, odd: nat) {
    forall x: real, m: nat :: Angle(phi, x) && m > NTERMS ==> In(i, TrigPartial(x, odd, m))
  }

  /** `add_remainder`: widens by the first omitted term. */
  function AddRemainder(s: Interval, phi2: Interval, pw: Interval, fact: int, nextFactor: nat): Result<Interval>
    requires fact >= 1 && nextFactor >= 1
  {
    var p := Imul(pw, phi2);
    if p.Err? then Err
    else
      var f := fact * nextFactor * (nextFactor + 1);
      if !Fits(f) then Err
      else
        RemainderFactor(fact, nextFactor);
        var rem := CeilDiv(p.value.hi, f);
        if !Fits(rem) then Err else Ok(Interval(s.lo - rem, s.hi + rem))
  }

  lemma RemainderFactor(fact: int, k: nat)
    requires fact >= 1 && k >= 1
    ensures fact * k * (k + 1) >= 1
  {
    MulMono(1, k, fact);
    MulMono(1, k + 1, fact * k);
  }

  lemma RemainderEncloses(phi: Interval, odd: nat, s: Interval, pw: Interval, fact: int, phi2: Interval, x: real, m: nat)
    requires Imul(phi, phi) == Ok(phi2) && fact == Factorial(2 * NTERMS + odd) && Angle(phi, x) && m > NTERMS
    requires In(pw, RealPow(x, 2 * NTERMS + odd)) && In(s, TrigPartial(x, odd, NTERMS + 1))
    requires AddRemainder(s, phi2, pw, fact, 2 * NTERMS + 1 + odd).Ok?
    ensures In(AddRemainder(s, phi2, pw, fact, 2 * NTERMS + 1 + odd).value, TrigPartial(x, odd, m))
  {
    hide *;
    RemainderParts(s, phi2, pw, odd);
    AngleIs(phi, x);
    var rem := CeilDiv(Imul(pw, phi2).value.hi, Factorial(2 * NTERMS + odd + 2));
    OmittedTerm(phi, odd, pw, phi2, x);
    TrigDecreasing(x, odd);
    TrigPartialIs(x, odd, NTERMS + 1); TrigPartialIs(x, odd, m);
    WidenedTail(s, TrigTerms(x, odd), NTERMS + 1, m, rem);
  }

  lemma AngleIs(phi: Interval, x: real) requires Angle(phi, x) ensures In(phi, x) && 0.0 <= x <= 1.0 { }

  /** The remainder covers the first omitted term. */
  lemma OmittedTerm(phi: Interval, odd: nat, pw: Interval, phi2: Interval, x: real)
    requires Imul(phi, phi) == Ok(phi2) && In(phi, x) && 0.0 <= x <= 1.0 && In(pw, RealPow(x, 2 * NTERMS + odd)) && Imul(pw, phi2).Ok?
    ensures Factorial(2 * NTERMS + odd + 2) > 0
    ensures TrigTerms(x, odd)(NTERMS + 1) * ONE <= CeilDiv(Imul(pw, phi2).value.hi, Factorial(2 * NTERMS + odd + 2)) as real
  {
    hide *;
    var k := 2 * NTERMS + odd;
    PowTwice(x, k); PowInUnit(x, k); SquareNonneg(x);
    ImulEncloses(phi, phi, x, x);
    RemainderBound(pw, phi2, Imul(pw, phi2).value, Factorial(k + 2), RealPow(x, k), x * x, RealPow(x, k + 2));
    TrigTermIs(x, odd, NTERMS + 1);
  }

  lemma RemainderBound(pw: Interval, phi2: Interval, p: Interval, f: int, v: real, y: real, w: real)
    requires v >= 0.0 && y >= 0.0 && w == v * y && In(pw, v) && In(phi2, y) && Imul(pw, phi2) == Ok(p) && f >= 1
    ensures w / f as real * ONE <= CeilDiv(p.hi, f) as real
  {
    hide *;
    ImulEncloses(pw, phi2, v, y);
    InHigh(p, w);
    CeilBound(p.hi, f);
    RemainderTerm(w, f as real, CeilDiv(p.hi, f) as real, p.hi as real);
  }

  lemma InHigh(i: Interval, v: real) requires In(i, v) ensures v * ONE <= i.hi as real { }

  lemma TrigPartialIs(x: real, odd: nat, m: nat) ensures TrigPartial(x, odd, m) == Partial(TrigTerms(x, odd), m) { }

  lemma RemainderParts(s: Interval, phi2: Interval, pw: Interval, odd: nat)
    requires AddRemainder(s, phi2, pw, Factorial(2 * NTERMS + odd), 2 * NTERMS + 1 + odd).Ok?
    ensures
      var f := Factorial(2 * NTERMS + odd + 2);
      && Imul(pw, phi2).Ok? && f >= 1
      && var rem := CeilDiv(Imul(pw, phi2).value.hi, f);
        AddRemainder(s, phi2, pw, Factorial(2 * NTERMS + odd), 2 * NTERMS + 1 + odd).value == Interval(s.lo - rem, s.hi + rem)
  {
    hide Factorial, Imul, CeilDiv;
    FactorialTwice(2 * NTERMS + odd);
  }

  lemma RemainderTerm(v: real, f: real, rem: real, hi: real)
    requires f > 0.0 && v * ONE <= hi <= rem * f
    ensures v / f * ONE <= rem
  {
    var w := v / f;
    assert v == w * f;
    assert w * f * ONE == w * ONE * f;
    ScaleDown(w * ONE, rem, f);
  }

  /** What the first square needs and gives. */
  lemma ImulSquare(phi: Interval)
    ensures Imul(phi, phi).Ok? ==> phi.lo >= 0
    ensures InUnit(phi) ==> Imul(phi, phi).Ok? && InUnit(Imul(phi, phi).value) && Width(Imul(phi, phi).value) <= 2 * Width(phi) + 1
  {
    hide Imul;
    if InUnit(phi) { ImulUnit(phi, phi); }
    ImulLow(phi);
  }

  lemma ImulLow(phi: Interval) ensures Imul(phi, phi).Ok? ==> phi.lo >= 0 { }

  lemma TracksFact(phi: Interval, odd: nat, n: nat, s: Interval, pw: Interval, fact: int)
    requires Tracks(phi, odd, n, s, pw, fact)
    ensures fact == Factorial(2 * n + odd) && fact >= 1
  { }

  lemma RemainderFits(odd: nat, s: Interval, pw: Interval, fact: int, phi2: Interval, w: int)
    requires odd <= 1 && fact == Factorial(2 * NTERMS + odd) && InUnit(phi2) && Bounded(NTERMS, s, pw, w)
    ensures AddRemainder(s, phi2, pw, fact, 2 * NTERMS + 1 + odd).Ok?
    ensures Width(AddRemainder(s, phi2, pw, fact, 2 * NTERMS + 1 + odd).value) <= 169 * w + 170
  {
    SumWidthOfTerms(w);
    FactorialsLarge(2 * NTERMS + 2 + odd);
    ImulUnit(pw, phi2);
    var nf, p := 2 * NTERMS + 1 + odd, Imul(pw, phi2).value;
    RemainderFactor(fact, nf);
    FactorialTwice(2 * NTERMS + odd);
    FactorialsFit(2 * NTERMS + 2 + odd);
    IdivUnit(p, fact * nf * (nf + 1));
    SmallQuotient(p.hi, fact * nf * (nf + 1));
    hide Factorial, Imul, CeilDiv, SumWidth;
  }

  lemma SmallQuotient(x: int, d: int)
    requires 0 <= x <= d && d > 0
    ensures CeilDiv(x, d) <= 1
  {
    CeilFacts(x, d);
    Below(CeilDiv(x, d) - 1, 0, d);
  }

  lemma SeriesHeld(phi: Interval, odd: nat, s: Interval, pw: Interval, fact: int, phi2: Interval)
    requires Imul(phi, phi) == Ok(phi2) && fact >= 1 && Tracks(phi, odd, NTERMS, s, pw, fact)
    requires AddRemainder(s, phi2, pw, fact, 2 * NTERMS + 1 + odd).Ok?
    ensures HoldsSeries(AddRemainder(s, phi2, pw, fact, 2 * NTERMS + 1 + odd).value, phi, odd)
  {
    hide Imul, AddRemainder, In, RealPow, Factorial, TrigPartial;
    var i := AddRemainder(s, phi2, pw, fact, 2 * NTERMS + 1 + odd).value;
    forall x: real, m: nat | Angle(phi, x) && m > NTERMS ensures In(i, TrigPartial(x, odd, m)) {
      RemainderEncloses(phi, odd, s, pw, fact, phi2, x, m);
    }
  }

  /** `taylor_cos` (odd = 0) and `taylor_sin` (odd = 1). */
  method Taylor(phi: Interval, odd: nat) returns (res: Result<Interval>)
    requires odd <= 1
    ensures res.Ok? ==> HoldsSeries(res.value, phi, odd)
    ensures InUnit(phi) ==> res.Ok? && Width(res.value) <= 169 * Width(phi) + 170
  {
    hide *;
    ImulSquare(phi);
    var square := Imul(phi, phi);
    if square.Err? { return Err; }
    var phi2 := square.value;
    var s := if odd == 0 then Interval(TRIG_ONE, TRIG_ONE) else phi;
    var pw, fact := s, 1;
    TracksStart(phi, odd);
    for n := 1 to NTERMS + 1
      invariant Tracks(phi, odd, n - 1, s, pw, fact)
      invariant InUnit(phi) ==> Bounded(n - 1, s, pw, Width(phi))
    {
      TracksFact(phi, odd, n - 1, s, pw, fact);
      if InUnit(phi) { NextTermFits(odd, n, s, pw, fact, phi2, Width(phi)); }
      var next := NextTerm(n, odd, s, pw, fact, phi2);
      if next.Err? { return Err; }
      NextTermTracks(phi, odd, n, s, pw, fact, phi2);
      s, pw, fact := next.value.0, next.value.1, next.value.2;
    }
    TracksFact(phi, odd, NTERMS, s, pw, fact);
    if InUnit(phi) { RemainderFits(odd, s, pw, fact, phi2, Width(phi)); }
    res := AddRemainder(s, phi2, pw, fact, 2 * NTERMS + 1 + odd);
    if res.Ok? { SeriesHeld(phi, odd, s, pw, fact, phi2); }
  }
}
