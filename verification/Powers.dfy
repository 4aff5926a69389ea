/** Powers of field elements, integer multiples of one, and roots of unity. */
module Powers {
  import opened Arith
  import opened Field
  import opened Sums

  /** b^e; exponents below zero count as zero. */
  function Pow(b: F, e: int): F
    decreases if e < 0 then 0 else e
  {
    if e <= 0 then One else Mul(b, Pow(b, e - 1))
  }

  lemma PowNil(b: F) ensures Pow(b, 0) == One && Pow(b, 1) == b { MulOne(b); }

  lemma PowStep(b: F, e: nat)
    requires e > 0
    ensures Pow(b, e) == Mul(b, Pow(b, e - 1)) && Pow(b, e) == Mul(Pow(b, e - 1), b)
  {
    MulComm(b, Pow(b, e - 1));
  }

  lemma {:induction false} PowAdd(b: F, m: nat, n: nat)
    ensures Pow(b, m + n) == Mul(Pow(b, m), Pow(b, n))
  {
    hide *;
    PowNil(b);
    if m == 0 { MulOne(Pow(b, n)); } else {
      PowAdd(b, m - 1, n);
      PowStep(b, m); PowStep(b, m + n);
      MulAssoc(b, Pow(b, m - 1), Pow(b, n));
    }
  }

  lemma {:induction false} PowMul(b: F, m: nat, n: nat)
    ensures m * n >= 0
    ensures Pow(Pow(b, m), n) == Pow(b, m * n)
  {
    hide *;
    PowNil(b); PowNil(Pow(b, m));
    if n > 0 {
      PowMul(b, m, n - 1);
      PowStep(Pow(b, m), n);
      assert m * n == m * (n - 1) + m;
      PowAdd(b, m, m * (n - 1));
    }
  }

  lemma {:induction false} PowOfProduct(a: F, b: F, n: nat)
    ensures Pow(Mul(a, b), n) == Mul(Pow(a, n), Pow(b, n))
  {
    hide *;
    PowNil(a); PowNil(b); PowNil(Mul(a, b)); MulOne(One);
    if n > 0 {
      PowOfProduct(a, b, n - 1);
      PowStep(a, n); PowStep(b, n); PowStep(Mul(a, b), n);
      Mul4(a, b, Pow(a, n - 1), Pow(b, n - 1));
    }
  }

  lemma {:induction false} PowOfOne(n: nat)
    ensures Pow(One, n) == One
  {
    hide *;
    PowNil(One);
    if n > 0 { PowOfOne(n - 1); PowStep(One, n); MulOne(One); }
  }

  /** Exponents of an n-th root of unity matter modulo n. */
  lemma PowMod(w: F, n: nat, e: nat)
    requires n > 0 && Pow(w, n) == One
    ensures Pow(w, e) == Pow(w, e % n)
  {
    hide *;
    var q, r := e / n, e % n;
    assert e == n * q + r;
    PowMul(w, n, q); PowOfOne(q);
    PowAdd(w, n * q, r); MulOne(Pow(w, r));
  }

  /** `field_pow`: repeated squaring. */
  method FieldPow(base: F, exp: nat) returns (result: F)
    ensures result == Pow(base, exp)
  {
    hide *;
    result := One;
    var b, e := base, exp;
    MulOne(Pow(base, exp));
    while e > 0
      invariant Mul(result, Pow(b, e)) == Pow(base, exp)
    {
      SquareStep(result, b, e);
      if e % 2 == 1 { result := Mul(result, b); }
      b := Mul(b, b);
      e := e / 2;
    }
    PowNil(b); MulOne(result);
  }

  lemma SquareStep(result: F, b: F, e: nat)
    requires e > 0
    ensures Mul(result, Pow(b, e)) == Mul(if e % 2 == 1 then Mul(result, b) else result, Pow(Mul(b, b), e / 2))
  {
    hide *;
    var h := e / 2;
    PowOfProduct(b, b, h); PowAdd(b, h, h);
    if e % 2 == 1 {
      assert e - 1 == h + h;
      PowStep(b, e);
      MulAssoc(result, b, Pow(b, h + h));
    } else {
      assert e == h + h;
    }
  }

  // ----- integer multiples of one

  /** The image of n in the field (`from_u64`). */
  function FromNat(n: nat): F { Sum(_ => One, n) }

  lemma {:induction false} SumConst(c: F, f: int -> F, n: nat)
    requires forall i :: 0 <= i < n ==> f(i) == c
    ensures Sum(f, n) == Mul(c, FromNat(n))
  {
    MulOne(c);
    SumScale(c, _ => One, f, n);
  }

  // ----- roots of unity

  /** w has multiplicative order exactly n. */
  ghost predicate HasOrder(w: F, n: nat) {
    && n > 0 && Pow(w, n) == One
    && forall m :: 0 < m < n ==> Pow(w, m) != One
  }

  lemma RootIsNonzero(w: F, n: nat)
    requires n > 0 && Pow(w, n) == One
    ensures w != Zero
  {
    hide *;
    PowStep(w, n);
    MulZero(Pow(w, n - 1));
    OneIsNotZero();
  }

  /** A full geometric sum of a nontrivial root of unity vanishes. */
  lemma GeometricSum(u: F, f: int -> F, n: nat)
    requires Pow(u, n) == One && u != One
    requires forall k :: 0 <= k < n ==> f(k) == Pow(u, k)
    ensures Sum(f, n) == Zero
  {
    hide *;
    var s := Sum(f, n);
    Telescope(u, f, n);
    AddNeg(One);
    NoZeroDivisors(Sub(u, One), s);
    if Sub(u, One) == Zero { SubIsZero(u, One); }
  }

  lemma {:induction false} Telescope(u: F, f: int -> F, n: nat)
    requires forall k :: 0 <= k < n ==> f(k) == Pow(u, k)
    ensures Mul(Sub(u, One), Sum(f, n)) == Sub(Pow(u, n), One)
  {
    hide Sum, Pow, Add, Mul, Neg;
    PowNil(u); SumNil(f);
    if n == 0 { MulZero(Sub(u, One)); AddNeg(One); } else {
      Telescope(u, f, n - 1);
      SumSnoc(f, n);
      var p := Pow(u, n - 1);
      Distrib(Sub(u, One), Sum(f, n - 1), p);
      DistribSub(p, u, One); MulComm(p, u); MulComm(p, One); MulOne(p); MulComm(p, Sub(u, One));
      PowStep(u, n);
      // (p - 1) + (u p - p) = u p - 1
      AddComm(Sub(p, One), Sub(Mul(u, p), p));
      AddAssoc(Mul(u, p), Neg(p), Sub(p, One));
      AddAssoc(Neg(p), p, Neg(One)); AddComm(Neg(p), p); AddNeg(p); AddZero(Neg(One));
    }
  }

  /** Powers below the order are distinct. */
  lemma OrderInjective(w: F, n: nat, i: nat, j: nat)
    requires HasOrder(w, n) && i < j < n
    ensures Pow(w, i) != Pow(w, j)
  {
    if Pow(w, i) == Pow(w, j) {
      PowAdd(w, i, j - i);
      PowNonzero(w, i, n);
      MulOne(Pow(w, i));
      MulCancel(Pow(w, i), Pow(w, j - i), One);
    }
  }

  lemma PowNonzero(w: F, i: nat, n: nat)
    requires n > 0 && Pow(w, n) == One
    ensures Pow(w, i) != Zero
  {
    hide *;
    PowMul(w, n, i); PowOfOne(i); PowMul(w, i, n);
    assert n * i == i * n;
    RootIsNonzero(Pow(w, i), n);
  }

  lemma MulCancel(a: F, b: F, c: F)
    requires a != Zero && Mul(a, b) == Mul(a, c)
    ensures b == c
  {
    hide *;
    MulInv(a);
    MulAssoc(Inv(a), a, b); MulAssoc(Inv(a), a, c);
    MulOne(b); MulOne(c);
  }

  /** The inverse of a root of order n has order n, and its powers invert the root's. */
  lemma InverseRoot(w: F, n: nat)
    requires HasOrder(w, n)
    ensures HasOrder(Inv(w), n)
    ensures forall m: nat :: Mul(Pow(w, m), Pow(Inv(w), m)) == One
  {
    RootIsNonzero(w, n);
    MulInv(w);
    forall m: nat
      ensures Mul(Pow(w, m), Pow(Inv(w), m)) == One
    {
      PowOfProduct(w, Inv(w), m); PowOfOne(m);
    }
    MulOne(Pow(Inv(w), n));
    forall m | 0 < m < n ensures Pow(Inv(w), m) != One { MulOne(Pow(w, m)); }
  }

  // ----- polynomials

  function PolyTerms(c: seq<F>, z: F): int -> F { (i: int) => Mul(At(c, i), Pow(z, i)) }

  /** The polynomial with coefficients c at z. */
  function EvalPoly(c: seq<F>, z: F): F { Sum(PolyTerms(c, z), |c|) }

  lemma EvalPolyIs(c: seq<F>, x: F) ensures EvalPoly(c, x) == Sum(PolyTerms(c, x), |c|) { }
}
