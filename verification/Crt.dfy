/**
 Capacity of a single CRT lift.
 Models `product` and `safe_width` of scripts/gen_crt_capacity_profile.py.
 */
module Crt {
  import opened Arith
  import opened NumberTheory

  /** `product`. */
  method ProductOf(values: seq<nat>) returns (out: nat)
    ensures out == Product(values)
  {
    out := 1;
    for i := 0 to |values|
      invariant out == Product(values[..i])
    {
      assert values[..i + 1] == values[..i] + [values[i]];
      ProductSnoc(values[..i], values[i]);
      out := out * values[i];
    }
    assert values[..|values|] == values;
  }

  /** Twice the largest magnitude one unit of width adds: D terms of at most floor(q / 2) times the bound. */
  function Load(q: nat, dim: nat, bound: nat): nat { 2 * dim * (q / 2) * bound }

  /** `safe_width`; a zero load divides by zero in the source. */
  function SafeWidth(q: nat, crt: nat, dim: nat, bound: nat): nat
    requires Load(q, dim, bound) > 0
  {
    if crt <= Load(q, dim, bound) then 0
    else
      DivModIs(crt - 1, Load(q, dim, bound));
      (crt - 1) / Load(q, dim, bound)
  }

  /** A width meets the published inequality exactly when it is at most the safe width. */
  lemma SafeWidthIsLargest(q: nat, crt: nat, dim: nat, bound: nat, width: nat)
    requires dim > 0 && q >= 2 && bound > 0 && crt > 0
    ensures 2 * dim * (q / 2) * bound > 0
    ensures 2 * width * dim * (q / 2) * bound < crt <==> width <= SafeWidth(q, crt, dim, bound)
  {
    var load := Load(q, dim, bound);
    LoadIs(q, dim, bound, width);
    SafeWidthParts(q, crt, dim, bound);
    hide *;
    TimesZero(load); TimesOne(load);
    if width >= 1 { TimesMono(1, width, load); }
    DivModIs(crt - 1, load);
    var w := (crt - 1) / load;
    if width <= w { TimesMono(width, w, load); } else { TimesMono(w + 1, width, load); TimesStep(w, load); }
  }

  lemma LoadIs(q: nat, dim: nat, bound: nat, width: nat)
    ensures Load(q, dim, bound) == 2 * dim * (q / 2) * bound
    ensures 2 * width * dim * (q / 2) * bound == Times(width, Load(q, dim, bound))
    ensures dim > 0 && q >= 2 && bound > 0 ==> Load(q, dim, bound) > 0
  {
    var half := q / 2;
    assert 2 * width * dim * half * bound == width * (2 * dim * half * bound);
    if dim > 0 && half > 0 && bound > 0 { MulMono(1, dim, half); MulMono(1, dim * half, bound); }
  }

  lemma SafeWidthParts(q: nat, crt: nat, dim: nat, bound: nat)
    requires Load(q, dim, bound) > 0
    ensures SafeWidth(q, crt, dim, bound) == if crt <= Load(q, dim, bound) then 0 else (crt - 1) / Load(q, dim, bound)
  { }

  // ----- the accumulated sum

  function Dot(x: seq<int>, y: seq<int>, n: nat): int
    requires n <= |x| && n <= |y|
  {
    if n == 0 then 0 else Dot(x, y, n - 1) + x[n - 1] * y[n - 1]
  }

  /** The sum of products over two sequences, one pair at a time. */
  lemma {:induction false} DotAppends(x: seq<int>, y: seq<int>, a: int, b: int)
    requires |x| == |y|
    ensures Dot([], [], 0) == 0 && Dot(x + [a], y + [b], |x| + 1) == Dot(x, y, |x|) + a * b
  {
    DotPrefix(x, y, [a], [b], |x|);
  }

  lemma {:induction false} DotPrefix(x: seq<int>, y: seq<int>, x': seq<int>, y': seq<int>, n: nat)
    requires n <= |x| && n <= |y| && |x| == |y|
    ensures Dot(x + x', y + y', n) == Dot(x, y, n)
  {
    if n > 0 { DotPrefix(x, y, x', y', n - 1); }
  }

  ghost predicate Within(x: seq<int>, b: nat) { forall i :: 0 <= i < |x| ==> 0 - b <= x[i] <= b }

  lemma MagnitudeOfProduct(x: int, y: int, a: nat, b: nat)
    requires 0 - a <= x <= a && 0 - b <= y <= b
    ensures -(a * b) <= x * y <= a * b
  {
    var u, v := if x >= 0 then x else -x, if y >= 0 then y else -y;
    MulMono(u, a, v); MulMono(v, b, a);
    assert x * y == u * v || x * y == -(u * v);
  }

  lemma {:induction false} MagnitudeOfSum(x: seq<int>, y: seq<int>, a: nat, b: nat, n: nat)
    requires Within(x, a) && Within(y, b) && n <= |x| && n <= |y|
    ensures -Times(n, a * b) <= Dot(x, y, n) <= Times(n, a * b)
  {
    TimesZero(a * b);
    if n > 0 {
      MagnitudeOfSum(x, y, a, b, n - 1);
      MagnitudeOfProduct(x[n - 1], y[n - 1], a, b);
      TimesStep(n - 1, a * b);
      hide Times;
    }
  }

  // ----- the lift is unique

  ghost predicate DistinctPrimes(ps: seq<nat>) {
    (forall i :: 0 <= i < |ps| ==> IsPrime(ps[i])) && forall i, j :: 0 <= i < j < |ps| ==> ps[i] != ps[j]
  }

  /** A number divisible by distinct primes is divisible by their product. */
  lemma {:induction false} ProductDivides(ps: seq<nat>, v: int)
    requires DistinctPrimes(ps) && forall i :: 0 <= i < |ps| ==> Divides(ps[i], v)
    ensures Divides(Product(ps), v)
  {
    if |ps| > 0 {
      var init, p := ps[..|ps| - 1], ps[|ps| - 1];
      ProductDivides(init, v);
      DividesMeans(Product(init), v);
      var k := v / Product(init);
      hide Divides, Product;
      Euclid(p, Product(init), k);
      if Divides(p, Product(init)) { PrimeInProduct(p, init); }
      CombineDivisors(Product(init), p, v, k);
      assert ps == init + [p];
      ProductSnoc(init, p);
    }
  }

  lemma CombineDivisors(a: int, p: int, v: int, k: int)
    requires a > 0 && v == a * k && Divides(p, k)
    ensures Divides(a * p, v)
  {
    DividesMeans(p, k);
    assert v == (a * p) * (k / p);
    MulMono(1, p, a);
    DividesMultiple(a * p, k / p);
  }

  /** Two integers with the same residues that are closer than the product are equal. */
  lemma SameResidues(ps: seq<nat>, u: int, v: int)
    requires DistinctPrimes(ps) && forall i :: 0 <= i < |ps| ==> ps[i] > 0 && u % ps[i] == v % ps[i]
    requires 0 - Product(ps) < u - v < Product(ps)
    ensures u == v
  {
    forall i | 0 <= i < |ps| ensures Divides(ps[i], u - v) { DifferenceDivides(ps[i], u, v); }
    ProductDivides(ps, u - v);
    DividesMeans(Product(ps), u - v);
    SmallMultiple(Product(ps), (u - v) / Product(ps), u - v);
  }

  lemma DifferenceDivides(p: int, u: int, v: int)
    requires p > 0 && u % p == v % p
    ensures Divides(p, u - v)
  {
    assert u - v == p * (u / p - v / p);
    DividesMultiple(p, u / p - v / p);
  }

  lemma SmallMultiple(m: int, k: int, d: int)
    requires d == m * k && -m < d < m
    ensures d == 0
  {
    if k >= 1 { MulMono(1, k, m); } else if k <= -1 { MulMono(k, -1, m); }
  }

  /** The largest magnitude of width * D products, in both groupings. */
  lemma Magnitude(width: nat, dim: nat, half: nat, bound: nat)
    ensures Times(width * dim, half * bound) == width * dim * half * bound
    ensures 2 * (width * dim * half * bound) == 2 * width * dim * half * bound >= 0
  {
    assert width * dim * (half * bound) == width * dim * half * bound;
    MulMono(0, width, dim); MulMono(0, width * dim, half); MulMono(0, width * dim * half, bound);
    assert 2 * width * dim * half * bound == 2 * (width * dim * half * bound);
  }

  /**
   For every width up to the safe one, the accumulated sum of width * D bounded products is the only integer
   of its range with its residues modulo the primes.
   */
  lemma LiftIsUnique(ps: seq<nat>, q: nat, dim: nat, bound: nat, width: nat, x: seq<int>, y: seq<int>, other: int)
    requires DistinctPrimes(ps) && Product(ps) > 0 && dim > 0 && q >= 2 && bound > 0 && 2 * dim * (q / 2) * bound > 0
    requires width <= SafeWidth(q, Product(ps), dim, bound)
    requires |x| == |y| == width * dim && Within(x, q / 2) && Within(y, bound)
    requires -(width * dim * (q / 2) * bound) <= other <= width * dim * (q / 2) * bound
    requires forall i :: 0 <= i < |ps| ==> ps[i] > 0 && other % ps[i] == Dot(x, y, |x|) % ps[i]
    ensures other == Dot(x, y, |x|)
  {
    hide *;
    SafeWidthIsLargest(q, Product(ps), dim, bound, width);
    MagnitudeOfSum(x, y, q / 2, bound, |x|);
    Magnitude(width, dim, q / 2, bound);
    SameResidues(ps, other, Dot(x, y, |x|));
  }

  /** Above the safe width, the least integer of the range shares its residues with another integer of the range. */
  lemma LiftIsAmbiguous(ps: seq<nat>, q: nat, dim: nat, bound: nat, width: nat, u: int, v: int)
    requires Product(ps) > 0 && (forall i :: 0 <= i < |ps| ==> ps[i] > 0)
    requires dim > 0 && q >= 2 && bound > 0 && 2 * dim * (q / 2) * bound > 0
    requires width > SafeWidth(q, Product(ps), dim, bound)
    requires u == -(width * dim * (q / 2) * bound) && v == u + Product(ps)
    ensures u < v <= width * dim * (q / 2) * bound
    ensures forall i :: 0 <= i < |ps| ==> u % ps[i] == v % ps[i]
  {
    hide *;
    SafeWidthIsLargest(q, Product(ps), dim, bound, width);
    Magnitude(width, dim, q / 2, bound);
    forall i | 0 <= i < |ps| ensures u % ps[i] == v % ps[i] {
      FactorDividesProduct(ps, i);
      SameModulo(ps[i], u, Product(ps));
    }
  }

  lemma {:induction false} FactorDividesProduct(ps: seq<nat>, i: nat)
    requires i < |ps| && forall j :: 0 <= j < |ps| ==> ps[j] > 0
    ensures Divides(ps[i], Product(ps))
  {
    hide *;
    var init, p := ps[..|ps| - 1], ps[|ps| - 1];
    assert ps == init + [p];
    ProductSnoc(init, p);
    if i == |ps| - 1 {
      DividesMultiple(p, Product(init));
    } else {
      FactorDividesProduct(init, i);
      DividesLarger(ps[i], Product(init), p);
    }
  }

  lemma DividesLarger(d: int, m: int, k: int)
    requires Divides(d, m) && d > 0
    ensures Divides(d, m * k)
  {
    DividesMeans(d, m);
    hide Divides;
    assert m * k == d * (m / d * k);
    DividesMultiple(d, m / d * k);
  }

  lemma SameModulo(p: int, u: int, m: int)
    requires Divides(p, m) && p > 0
    ensures u % p == (u + m) % p
  {
    DividesMeans(p, m);
    DivModUnique(u + m, p, u / p + m / p, u % p);
  }

  /** Every integer of the range [-T, T] of width * D products has its own residues. */
  ghost predicate ResiduesSeparate(ps: seq<nat>, t: int)
    requires DistinctPrimes(ps)
  {
    forall u: int, v: int :: -t <= u <= t && -t <= v <= t && Residues(ps, u) == Residues(ps, v) ==> u == v
  }

  ghost function Residues(ps: seq<nat>, u: int): seq<int>
    requires DistinctPrimes(ps)
  {
    seq(|ps|, i requires 0 <= i < |ps| => u % ps[i])
  }

  /** The residues determine every integer of the range exactly up to the safe width. */
  lemma SafeWidthIsExact(ps: seq<nat>, q: nat, dim: nat, bound: nat, width: nat)
    requires DistinctPrimes(ps) && dim > 0 && q >= 2 && bound > 0
    ensures 2 * dim * (q / 2) * bound > 0
    ensures ResiduesSeparate(ps, width * dim * (q / 2) * bound) <==> width <= SafeWidth(q, Product(ps), dim, bound)
  {
    ProductPositive(ps);
    SafeWidthIsLargest(q, Product(ps), dim, bound, width);
    Magnitude(width, dim, q / 2, bound);
    assert forall i :: 0 <= i < |ps| ==> ps[i] > 0;
    var t := width * dim * (q / 2) * bound;
    hide DistinctPrimes, Product, SafeWidth;
    if width <= SafeWidth(q, Product(ps), dim, bound) {
      forall u: int, v: int | -t <= u <= t && -t <= v <= t && Residues(ps, u) == Residues(ps, v) ensures u == v {
        forall i | 0 <= i < |ps| ensures u % ps[i] == v % ps[i] { assert Residues(ps, u)[i] == Residues(ps, v)[i]; }
        SameResidues(ps, u, v);
      }
    } else {
      LiftIsAmbiguous(ps, q, dim, bound, width, -t, -t + Product(ps));
      assert Residues(ps, -t) == Residues(ps, -t + Product(ps));
    }
  }
}
