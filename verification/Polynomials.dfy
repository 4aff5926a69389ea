/** Coefficient lists: sums, multiples, products with a line, and roots. */
module Polynomials {
  import opened Arith
  import opened Field
  import opened Sums
  import opened Powers

  lemma PolyTermAt(c: seq<F>, x: F, i: int) ensures PolyTerms(c, x)(i) == Mul(At(c, i), Pow(x, i)) { }

  lemma EvalNil(x: F)
    ensures EvalPoly([], x) == Zero
  {
    SumNil(PolyTerms([], x));
  }

  lemma AtCons(a: F, c: seq<F>, i: int) ensures i >= 0 ==> At([a] + c, 1 + i) == At(c, i) { }

  /** a + x c(x) */
  lemma EvalCons(a: F, c: seq<F>, x: F)
    ensures EvalPoly([a] + c, x) == Add(a, Mul(x, EvalPoly(c, x)))
  {
    assert At([a] + c, 0) == a;
    hide *;
    var f, g := PolyTerms([a] + c, x), PolyTerms(c, x);
    EvalPolyIs([a] + c, x); EvalPolyIs(c, x);
    SumFrom(f, 1, |c|);
    SumOne(f);
    PolyTermAt([a] + c, x, 0); PowNil(x); MulOne(a);
    forall i | 0 <= i < |c| ensures From(f, 1)(i) == Mul(x, g(i)) {
      FromAt(f, 1, i);
      PolyTermAt([a] + c, x, 1 + i); PolyTermAt(c, x, i);
      AtCons(a, c, i);
      PowStep(x, i + 1);
      var v, p := At(c, i), Pow(x, i);
      MulAssoc(v, x, p); MulComm(v, x); MulAssoc(x, v, p);
    }
    SumScale(x, g, From(f, 1), |c|);
  }

  /** The same for a nonempty list. */
  lemma EvalSplit(c: seq<F>, x: F)
    requires |c| > 0
    ensures EvalPoly(c, x) == Add(c[0], Mul(x, EvalPoly(c[1..], x)))
  {
    hide *;
    assert c == [c[0]] + c[1..];
    EvalCons(c[0], c[1..], x);
  }

  // ----- sums and multiples

  function PolyAdd(c: seq<F>, d: seq<F>): (e: seq<F>)
    requires |c| == |d|
    ensures |e| == |c|
  {
    if |c| == 0 then [] else [Add(c[0], d[0])] + PolyAdd(c[1..], d[1..])
  }

  lemma {:induction false} EvalAdd(c: seq<F>, d: seq<F>, x: F)
    requires |c| == |d|
    ensures EvalPoly(PolyAdd(c, d), x) == Add(EvalPoly(c, x), EvalPoly(d, x))
    decreases |c|
  {
    if |c| == 0 {
      assert c == [] && d == [];
      EvalNil(x); AddZero(Zero);
    } else {
      var rest := PolyAdd(c[1..], d[1..]);
      assert PolyAdd(c, d) == [Add(c[0], d[0])] + rest;
      hide *;
      EvalAdd(c[1..], d[1..], x);
      EvalCons(Add(c[0], d[0]), rest, x);
      EvalSplit(c, x); EvalSplit(d, x);
      var u, v := EvalPoly(c[1..], x), EvalPoly(d[1..], x);
      Distrib(x, u, v);
      Add4(c[0], d[0], Mul(x, u), Mul(x, v));
    }
  }

  function PolyScale(a: F, c: seq<F>): (e: seq<F>)
    ensures |e| == |c|
  {
    if |c| == 0 then [] else [Mul(a, c[0])] + PolyScale(a, c[1..])
  }

  lemma {:induction false} EvalScale(a: F, c: seq<F>, x: F)
    ensures EvalPoly(PolyScale(a, c), x) == Mul(a, EvalPoly(c, x))
    decreases |c|
  {
    if |c| == 0 {
      assert c == [];
      EvalNil(x); MulZero(a);
    } else {
      var rest := PolyScale(a, c[1..]);
      assert PolyScale(a, c) == [Mul(a, c[0])] + rest;
      hide *;
      EvalScale(a, c[1..], x);
      EvalCons(Mul(a, c[0]), rest, x);
      EvalSplit(c, x);
      var u := EvalPoly(c[1..], x);
      Distrib(a, c[0], Mul(x, u));
      MulAssoc(x, a, u); MulComm(x, a); MulAssoc(a, x, u);
    }
  }

  /** The coefficients of (at0 + slope X) c(X). */
  function TimesLine(c: seq<F>, at0: F, slope: F): (e: seq<F>)
    ensures |e| == |c| + 1
  {
    PolyAdd(PolyScale(at0, c) + [Zero], [Zero] + PolyScale(slope, c))
  }

  lemma {:induction false} EvalPadded(c: seq<F>, x: F)
    ensures EvalPoly(c + [Zero], x) == EvalPoly(c, x)
    decreases |c|
  {
    hide *;
    if |c| == 0 {
      assert c + [Zero] == [Zero] + [] && c == [];
      EvalCons(Zero, [], x); EvalNil(x); MulZero(x); AddZero(Zero);
    } else {
      EvalPadded(c[1..], x);
      assert c + [Zero] == [c[0]] + (c[1..] + [Zero]);
      EvalCons(c[0], c[1..] + [Zero], x);
      EvalSplit(c, x);
    }
  }

  lemma EvalTimesLine(c: seq<F>, at0: F, slope: F, x: F)
    ensures EvalPoly(TimesLine(c, at0, slope), x) == Mul(Add(at0, Mul(slope, x)), EvalPoly(c, x))
  {
    var p, q, v := PolyScale(at0, c), PolyScale(slope, c), EvalPoly(c, x);
    assert TimesLine(c, at0, slope) == PolyAdd(p + [Zero], [Zero] + q);
    hide *;
    EvalAdd(p + [Zero], [Zero] + q, x);
    EvalPadded(p, x);
    EvalCons(Zero, q, x);
    EvalScale(at0, c, x); EvalScale(slope, c, x);
    AddZero(Mul(x, Mul(slope, v)));
    MulAssoc(x, slope, v); MulComm(x, slope);
    Distrib(v, at0, Mul(slope, x));
  }

  // ----- roots

  /** The quotient of c by X - r. */
  function Quotient(c: seq<F>, r: F): (q: seq<F>)
    ensures |c| > 0 ==> |q| == |c| - 1
  {
    if |c| <= 1 then [] else [EvalPoly(c[1..], r)] + Quotient(c[1..], r)
  }

  lemma {:induction false} EvalQuotient(c: seq<F>, r: F, x: F)
    requires |c| > 0
    ensures EvalPoly(c, x) == Add(Mul(Sub(x, r), EvalPoly(Quotient(c, r), x)), EvalPoly(c, r))
    decreases |c|
  {
    if |c| == 1 {
      assert c[1..] == [] && Quotient(c, r) == [];
      hide *;
      EvalSplit(c, x); EvalSplit(c, r);
      EvalNil(x); EvalNil(r);
      MulZero(x); MulZero(r); AddZero(c[0]); MulZero(Sub(x, r));
    } else {
      var d, q := c[1..], Quotient(c[1..], r);
      assert Quotient(c, r) == [EvalPoly(d, r)] + q;
      hide *;
      EvalQuotient(d, r, x);
      EvalSplit(c, x); EvalSplit(c, r);
      EvalCons(EvalPoly(d, r), q, x);
      QuotientStep(c[0], EvalPoly(d, r), EvalPoly(q, x), x, r);
    }
  }

  /** a + x ((x - r) q + v) = (x - r)(v + x q) + (a + r v) */
  lemma QuotientStep(a: F, v: F, q: F, x: F, r: F)
    ensures Add(a, Mul(x, Add(Mul(Sub(x, r), q), v))) == Add(Mul(Sub(x, r), Add(v, Mul(x, q))), Add(a, Mul(r, v)))
  {
    hide *;
    var d := Sub(x, r);
    Distrib(x, Mul(d, q), v); Distrib(d, v, Mul(x, q));
    // x (d q) = d (x q)
    MulAssoc(x, d, q); MulComm(x, d); MulAssoc(d, x, q);
    // d v + r v = x v
    Distrib(v, d, r); AddSub(x, r);
    var s, t, u := Mul(d, Mul(x, q)), Mul(d, v), Mul(r, v);
    // a + (s + (t + u)) = (t + s) + (a + u)
    AddComm(t, s); Add4(s, t, a, u); AddComm(s, a); AddAssoc(a, s, Add(t, u));
  }

  /** Roots of c other than r are roots of its quotient by X - r. */
  lemma RootOfQuotient(c: seq<F>, r: F, x: F)
    requires |c| > 0 && EvalPoly(c, r) == Zero && EvalPoly(c, x) == Zero && x != r
    ensures EvalPoly(Quotient(c, r), x) == Zero
  {
    hide *;
    EvalQuotient(c, r, x);
    var v := Mul(Sub(x, r), EvalPoly(Quotient(c, r), x));
    AddZero(v);
    NoZeroDivisors(Sub(x, r), EvalPoly(Quotient(c, r), x));
    if Sub(x, r) == Zero { SubIsZero(x, r); }
  }

  /** A polynomial with a root and a zero quotient is zero. */
  lemma {:induction false} ZeroQuotient(c: seq<F>, r: F)
    requires |c| > 0 && EvalPoly(c, r) == Zero && forall i :: 0 <= i < |Quotient(c, r)| ==> Quotient(c, r)[i] == Zero
    ensures forall i :: 0 <= i < |c| ==> c[i] == Zero
    decreases |c|
  {
    var d := c[1..];
    EvalSplit(c, r);
    MulZero(r); AddZero(c[0]);
    if |c| == 1 {
      assert d == [];
      EvalNil(r);
    } else {
      var q := Quotient(d, r);
      assert Quotient(c, r) == [EvalPoly(d, r)] + q;
      assert EvalPoly(d, r) == Quotient(c, r)[0];
      forall i | 0 <= i < |q| ensures q[i] == Zero { assert q[i] == Quotient(c, r)[i + 1]; }
      hide EvalPoly, Quotient;
      ZeroQuotient(d, r);
      assert forall i :: 1 <= i < |c| ==> c[i] == d[i - 1];
    }
  }

  /** A polynomial with as many different roots as coefficients is zero. */
  lemma {:induction false} RootsForceZero(c: seq<F>, roots: int -> F)
    requires forall i :: 0 <= i < |c| ==> EvalPoly(c, roots(i)) == Zero
    requires forall i, j :: 0 <= i < j < |c| ==> roots(i) != roots(j)
    ensures forall i :: 0 <= i < |c| ==> c[i] == Zero
    decreases |c|
  {
    if |c| > 0 {
      var n, r := |c| - 1, roots(|c| - 1);
      var q := Quotient(c, r);
      hide *;
      forall i | 0 <= i < n ensures EvalPoly(q, roots(i)) == Zero { RootOfQuotient(c, r, roots(i)); }
      RootsForceZero(q, roots);
      ZeroQuotient(c, r);
    }
  }

  function PowersOf(w: F): int -> F { (i: int) => Pow(w, i) }

  lemma PowerAt(w: F, i: int) ensures PowersOf(w)(i) == Pow(w, i) { }

  /** 1 + u + ... + u^(n-1) as a polynomial value. */
  lemma EvalOnes(c: seq<F>, u: F, f: int -> F)
    requires forall i :: 0 <= i < |c| ==> c[i] == One && f(i) == Pow(u, i)
    ensures EvalPoly(c, u) == Sum(f, |c|)
  {
    hide *;
    EvalPolyIs(c, u);
    AtInside(c);
    forall i | 0 <= i < |c| ensures PolyTerms(c, u)(i) == f(i) { PolyTermAt(c, u, i); MulOne(Pow(u, i)); }
    SumExt(PolyTerms(c, u), f, |c|);
  }

  /** All n-th roots of unity would be roots of 1 + X + ... + X^(n-1) if n were zero in the field. */
  lemma OnesVanish(w: F, n: nat, i: nat, c: seq<F>)
    requires HasOrder(w, n) && FromNat(n) == Zero && i < n == |c| && forall k :: 0 <= k < n ==> c[k] == One
    ensures EvalPoly(c, Pow(w, i)) == Zero
  {
    hide *;
    var u, f := Pow(w, i), PowersOf(Pow(w, i));
    forall k | 0 <= k < n ensures f(k) == Pow(u, k) { PowerAt(u, k); }
    EvalOnes(c, u, f);
    OrderMeans(w, n, i);
    if i == 0 {
      PowNil(w);
      forall k | 0 <= k < n ensures f(k) == One { PowerAt(u, k); PowOfOne(k); }
      SumConst(One, f, n); MulOne(FromNat(n));
    } else {
      PowMul(w, i, n); PowMul(w, n, i); PowOfOne(i);
      assert i * n == n * i;
      GeometricSum(u, f, n);
    }
  }

  lemma OrderMeans(w: F, n: nat, i: nat)
    requires HasOrder(w, n) && i < n
    ensures Pow(w, n) == One && (i > 0 ==> Pow(w, i) != One)
  { }

  /** An element of order n exists only where n is invertible. */
  lemma OrderIsNonzero(w: F, n: nat)
    requires HasOrder(w, n)
    ensures FromNat(n) != Zero
  {
    var c: seq<F> := seq(n, _ => One);
    assert c[0] == One;
    hide *;
    OneIsNotZero();
    if FromNat(n) == Zero {
      forall i | 0 <= i < n ensures EvalPoly(c, PowersOf(w)(i)) == Zero { PowerAt(w, i); OnesVanish(w, n, i, c); }
      forall i, j | 0 <= i < j < n ensures PowersOf(w)(i) != PowersOf(w)(j) {
        PowerAt(w, i); PowerAt(w, j);
        OrderInjective(w, n, i, j);
      }
      RootsForceZero(c, PowersOf(w));
    }
  }
}
