/**
 The size-r transforms inside a butterfly and the per-stage tables they read.
 Models `winograd_consts_for_radix` and the per-radix kernels of crates/akita-algebra/src/fft.rs.
 */
module FftKernels {
  import opened Arith
  import opened Field
  import opened Sums
  import opened Powers
  import opened FftSpec

  datatype StageData = StageData(r: nat, block: nat, omegaRPow: seq<F>, twiddle: seq<F>, winograd: seq<F>)

  function Half(): F { Inv(Add(One, One)) }

  /** The constants of the radix-5 and radix-7 kernels, halved. */
  function Winograd(r: nat, w: seq<F>): seq<F>
    requires |w| == 8
  {
    var h := Half();
    if r == 5 then
      var alpha, beta := Mul(Add(w[1], w[4]), h), Mul(Add(w[2], w[3]), h);
      var gamma, delta := Mul(Sub(w[1], w[4]), h), Mul(Sub(w[2], w[3]), h);
      [alpha, beta, gamma, delta, Add(alpha, beta), Add(gamma, delta)]
    else if r == 7 then
      [Cos(w, 1), Cos(w, 2), Cos(w, 3), Cos(w, 2), Cos(w, 4), Cos(w, 6), Cos(w, 3), Cos(w, 6), Cos(w, 9),
       Sin(w, 1), Sin(w, 2), Sin(w, 3), Sin(w, 2), Sin(w, 4), Sin(w, 6), Sin(w, 3), Sin(w, 6), Sin(w, 9)]
    else []
  }

  /** (w^e + w^-e) / 2 and (w^e - w^-e) / 2 for a seventh root of unity. */
  function Cos(w: seq<F>, e: int): F
    requires |w| == 8
  {
    Mul(Add(w[e % 7], w[(-e) % 7]), Half())
  }

  function Sin(w: seq<F>, e: int): F
    requires |w| == 8
  {
    Mul(Sub(w[e % 7], w[(-e) % 7]), Half())
  }

  ghost predicate KernelReady(s: StageData) {
    && 2 <= s.r <= 8 && |s.omegaRPow| == 8 && s.winograd == Winograd(s.r, s.omegaRPow)
  }

  function Kernel2(x: seq<F>): seq<F>
    requires |x| == 2
  {
    [Add(x[0], x[1]), Sub(x[0], x[1])]
  }

  function Kernel3(x: seq<F>, w1: F, w2: F): seq<F>
    requires |x| == 3
  {
    var s, t := Add(x[1], x[2]), Add(Mul(x[1], w1), Mul(x[2], w2));
    [Add(x[0], s), Add(x[0], t), Sub(Sub(x[0], s), t)]
  }

  function Kernel5(x: seq<F>, c: seq<F>): seq<F>
    requires |x| == 5 && |c| == 6
  {
    var a, b, cc, d := Add(x[1], x[4]), Add(x[2], x[3]), Sub(x[1], x[4]), Sub(x[2], x[3]);
    var k1, k2, k3 := Mul(a, c[0]), Mul(b, c[1]), Mul(Add(a, b), c[4]);
    var p1, p2 := Add(k1, k2), Sub(Sub(k3, k1), k2);
    var m1, m2, m3 := Mul(cc, c[2]), Mul(d, c[3]), Mul(Sub(cc, d), c[5]);
    var q1, q2 := Add(m1, m2), Add(Sub(m3, m1), m2);
    [Add(Add(x[0], a), b), Add(Add(x[0], p1), q1), Add(Add(x[0], p2), q2), Sub(Add(x[0], p2), q2), Sub(Add(x[0], p1), q1)]
  }

  function Kernel7(x: seq<F>, c: seq<F>): seq<F>
    requires |x| == 7 && |c| == 18
  {
    var a1, a2, a3 := Add(x[1], x[6]), Add(x[2], x[5]), Add(x[3], x[4]);
    var b1, b2, b3 := Sub(x[1], x[6]), Sub(x[2], x[5]), Sub(x[3], x[4]);
    var s1 := Add(Add(Mul(a1, c[0]), Mul(a2, c[3])), Mul(a3, c[6]));
    var s2 := Add(Add(Mul(a1, c[1]), Mul(a2, c[4])), Mul(a3, c[7]));
    var s3 := Add(Add(Mul(a1, c[2]), Mul(a2, c[5])), Mul(a3, c[8]));
    var t1 := Add(Add(Mul(b1, c[9]), Mul(b2, c[12])), Mul(b3, c[15]));
    var t2 := Add(Add(Mul(b1, c[10]), Mul(b2, c[13])), Mul(b3, c[16]));
    var t3 := Add(Add(Mul(b1, c[11]), Mul(b2, c[14])), Mul(b3, c[17]));
    [Add(Add(Add(x[0], a1), a2), a3), Add(Add(x[0], s1), t1), Add(Add(x[0], s2), t2), Add(Add(x[0], s3), t3),
     Sub(Add(x[0], s3), t3), Sub(Add(x[0], s2), t2), Sub(Add(x[0], s1), t1)]
  }

  /** The naive fallback: terms p, p + 1, ... with w the running power of wq. */
  function NaiveFrom(x: seq<F>, wq: F, p: nat, w: F, value: F): F
    requires p <= |x|
    decreases |x| - p
  {
    if p == |x| then value else NaiveFrom(x, wq, p + 1, Mul(w, wq), Add(value, Mul(x[p], w)))
  }

  function Kernel(s: StageData, x: seq<F>): (y: seq<F>)
    requires KernelReady(s) && |x| == s.r
    ensures |y| == s.r
  {
    match s.r
    case 2 => Kernel2(x)
    case 3 => Kernel3(x, s.omegaRPow[1], s.omegaRPow[2])
    case 5 => Kernel5(x, s.winograd)
    case 7 => Kernel7(x, s.winograd)
    case _ => seq(s.r, (q: nat) requires q < s.r => NaiveFrom(x, s.omegaRPow[q], 1, s.omegaRPow[q], x[0]))
  }

  // ----- sums of a few terms

  lemma SumOf(f: int -> F, n: nat)
    requires 2 <= n <= 7
    ensures n == 2 ==> Sum(f, n) == Add(f(0), f(1))
    ensures n == 3 ==> Sum(f, n) == Add(Add(f(0), f(1)), f(2))
    ensures n == 5 ==> Sum(f, n) == Add(Add(Add(Add(f(0), f(1)), f(2)), f(3)), f(4))
    ensures n == 7 ==> Sum(f, n) == Add(Add(Add(Add(Add(Add(f(0), f(1)), f(2)), f(3)), f(4)), f(5)), f(6))
  {
    hide *;
    SumOne(f); SumSnoc(f, 2); SumSnoc(f, 3); SumSnoc(f, 4); SumSnoc(f, 5); SumSnoc(f, 6); SumSnoc(f, 7);
  }

  /** (((x + a) + b) + c) + d = (x + (a + d)) + (b + c) */
  lemma Pair5(x: F, a: F, b: F, c: F, d: F)
    ensures Add(Add(Add(Add(x, a), b), c), d) == Add(Add(x, Add(a, d)), Add(b, c))
  {
    hide *;
    AddAssoc(Add(x, a), b, c); AddAssoc(Add(x, a), Add(b, c), d); AddComm(Add(b, c), d);
    AddAssoc(Add(x, a), d, Add(b, c)); AddAssoc(x, a, d);
  }

  lemma Pair7(x: F, a: F, b: F, c: F, d: F, e: F, f: F)
    ensures Add(Add(Add(Add(Add(Add(x, a), b), c), d), e), f) == Add(Add(Add(x, Add(a, f)), Add(b, e)), Add(c, d))
  {
    hide *;
    Pair5(Add(x, a), b, c, d, e);
    var m := Add(Add(x, a), Add(b, e));
    AddAssoc(m, Add(c, d), f); AddComm(Add(c, d), f); AddAssoc(m, f, Add(c, d));
    AddAssoc(Add(x, a), Add(b, e), f); AddComm(Add(b, e), f); AddAssoc(Add(x, a), f, Add(b, e));
    AddAssoc(x, a, f);
  }

  // ----- conjugate pairs

  /** (x + y)(u + v) + (x - y)(u - v) = 2 (x u + y v) */
  lemma SumDifference(x: F, y: F, u: F, v: F)
    ensures
      var z := Add(Mul(x, u), Mul(y, v));
      Add(Mul(Add(x, y), Add(u, v)), Mul(Sub(x, y), Sub(u, v))) == Add(z, z)
  {
    hide Add, Mul, Neg;
    var a, b, c, d := Mul(x, u), Mul(x, v), Mul(y, u), Mul(y, v);
    Distrib(Add(x, y), u, v); Distrib(u, x, y); Distrib(v, x, y);
    DistribSub(Sub(x, y), u, v); DistribSub(u, x, y); DistribSub(v, x, y);
    Add4(Add(a, c), Add(b, d), Sub(a, c), Neg(Sub(b, d)));
    Add4(a, c, a, Neg(c)); AddNeg(c); AddZero(Add(a, a));
    NegAdd(b, Neg(d)); NegNeg(d);
    Add4(b, d, Neg(b), d); AddNeg(b); AddZero(Add(d, d));
    Add4(a, a, d, d);
  }

  /** A conjugate pair of inputs, from their sum and difference and the halved constants. */
  lemma ConjugatePair(x: F, y: F, u: F, v: F, h: F)
    requires Add(h, h) == One
    ensures Add(Mul(Add(x, y), Mul(Add(u, v), h)), Mul(Sub(x, y), Mul(Sub(u, v), h))) == Add(Mul(x, u), Mul(y, v))
  {
    hide *;
    var z := Add(Mul(x, u), Mul(y, v));
    var p, m := Mul(Add(x, y), Add(u, v)), Mul(Sub(x, y), Sub(u, v));
    SumDifference(x, y, u, v);
    MulAssoc(Add(x, y), Add(u, v), h); MulAssoc(Sub(x, y), Sub(u, v), h);
    Distrib(h, p, m);
    Distrib(h, z, z); Distrib(z, h, h); MulComm(z, h); MulOne(z);
  }

  /** The mirrored output flips the sign of the difference part and exchanges the pair's roots. */
  lemma ConjugateMirror(x: F, y: F, u: F, v: F, h: F)
    requires Add(h, h) == One
    ensures Add(Mul(Add(x, y), Mul(Add(u, v), h)), Neg(Mul(Sub(x, y), Mul(Sub(u, v), h)))) == Add(Mul(x, v), Mul(y, u))
  {
    hide Add, Mul, Neg;
    ConjugatePair(x, y, v, u, h);
    AddComm(u, v);
    NegAdd(u, Neg(v)); NegNeg(v); AddComm(Neg(u), v);
    assert Sub(v, u) == Neg(Sub(u, v));
    MulNeg(Sub(u, v), h); MulNeg(Sub(x, y), Mul(Sub(u, v), h));
  }

  lemma HalfDoubles()
    requires Add(One, One) != Zero
    ensures Add(Half(), Half()) == One
  {
    hide Add, Mul, Inv;
    var h := Half();
    MulInv(Add(One, One));
    Distrib(h, One, One); MulOne(h);
  }

  // ----- each kernel is the transform

  /** Term d of output q, for a root of order dividing r. */
  lemma TermIs(x: seq<F>, w: F, r: nat, q: nat, d: nat)
    requires |x| == r > 0 && d < r && Pow(w, r) == One
    ensures DftTerms(x, w, q)(d) == Mul(x[d], Pow(w, (d * q) % r))
  {
    hide Pow, DftTerms, At, Mul;
    DftTermAt(x, w, q, d);
    AtInside(x);
    TimesNat(d, q);
    PowMod(w, r, d * q);
  }

  lemma Kernel2IsDft(x: seq<F>, w: F, q: nat)
    requires |x| == 2 && Pow(w, 2) == One && w != One && q < 2
    ensures Kernel2(x)[q] == Dft(x, w, q)
  {
    hide Pow, DftTerms, Add, Mul, Neg, Sum;
    SumOf(DftTerms(x, w, q), 2);
    TermIs(x, w, 2, q, 0); TermIs(x, w, 2, q, 1);
    PowNil(w); MulOne(x[0]); MulOne(x[1]);
    GeometricSum(w, k => Pow(w, k), 2); SumOf(k => Pow(w, k), 2);
    NegUnique(One, w);
    MulNeg(x[1], One);
  }

  lemma Kernel3IsDft(x: seq<F>, w: F, q: nat)
    requires |x| == 3 && Pow(w, 3) == One && w != One && q < 3
    ensures Kernel3(x, Pow(w, 1), Pow(w, 2))[q] == Dft(x, w, q)
  {
    hide Pow, DftTerms, Add, Mul, Neg, Sum;
    SumOf(DftTerms(x, w, q), 3);
    TermIs(x, w, 3, q, 0); TermIs(x, w, 3, q, 1); TermIs(x, w, 3, q, 2);
    PowNil(w); MulOne(x[0]); MulOne(x[1]); MulOne(x[2]);
    var w1, w2 := Pow(w, 1), Pow(w, 2);
    if q == 0 { AddAssoc(x[0], x[1], x[2]); }
    else if q == 1 { AddAssoc(x[0], Mul(x[1], w1), Mul(x[2], w2)); }
    else { CubeRoots(w); Output2Of3(x[0], x[1], x[2], w1, w2); }
  }

  /** 1 + w + w^2 = 0 */
  lemma CubeRoots(w: F)
    requires Pow(w, 3) == One && w != One
    ensures Add(Add(One, Pow(w, 1)), Pow(w, 2)) == Zero
  {
    hide *;
    var f := (k: int) => Pow(w, k);
    GeometricSum(w, f, 3); SumOf(f, 3); PowNil(w);
  }

  lemma Output2Of3(x: F, y: F, z: F, w1: F, w2: F)
    requires Add(Add(One, w1), w2) == Zero
    ensures Sub(Sub(x, Add(y, z)), Add(Mul(y, w1), Mul(z, w2))) == Add(Add(x, Mul(y, w2)), Mul(z, w1))
  {
    hide Add, Mul, Neg;
    // y w2 + (y + y w1) = 0 and z w1 + (z + z w2) = 0
    NegUnique(Add(One, w1), w2);
    AddAssoc(One, w1, w2); AddComm(w1, w2); AddAssoc(One, w2, w1);
    NegUnique(Add(One, w2), w1);
    MulNeg(y, Add(One, w1)); Distrib(y, One, w1); MulOne(y);
    MulNeg(z, Add(One, w2)); Distrib(z, One, w2); MulOne(z);
    var a, b := Mul(y, w1), Mul(z, w2);
    AddAssoc(x, Neg(Add(y, z)), Neg(Add(a, b)));
    NegAdd(Add(y, z), Add(a, b)); Add4(y, z, a, b);
    NegAdd(Add(y, a), Add(z, b));
    AddAssoc(x, Neg(Add(y, a)), Neg(Add(z, b)));
  }

  // ----- radix 5

  /** (x + (a + b)) + (c + d) = (x + (a + c)) + (b + d) */
  lemma Regroup5(x: F, a: F, b: F, c: F, d: F)
    ensures Add(Add(x, Add(a, b)), Add(c, d)) == Add(Add(x, Add(a, c)), Add(b, d))
  {
    hide *;
    AddAssoc(x, Add(a, b), Add(c, d)); Add4(a, b, c, d); AddAssoc(x, Add(a, c), Add(b, d));
  }

  lemma Regroup5Minus(x: F, a: F, b: F, c: F, d: F)
    ensures Sub(Add(x, Add(a, b)), Add(c, d)) == Add(Add(x, Add(a, Neg(c))), Add(b, Neg(d)))
  {
    hide Add, Neg;
    NegAdd(c, d);
    Regroup5(x, a, b, Neg(c), Neg(d));
  }

  /** (a + b)(s + t) - a s - b t = a t + b s */
  lemma Karatsuba(a: F, b: F, s: F, t: F)
    ensures Sub(Sub(Mul(Add(a, b), Add(s, t)), Mul(a, s)), Mul(b, t)) == Add(Mul(a, t), Mul(b, s))
  {
    hide Add, Mul, Neg;
    var ast, bst := Add(Mul(a, s), Mul(a, t)), Add(Mul(b, s), Mul(b, t));
    Distrib(Add(s, t), a, b); Distrib(a, s, t); Distrib(b, s, t);
    AddAssoc(Mul(a, s), Mul(a, t), bst);
    SubUnique(Add(ast, bst), Mul(a, s), Add(Mul(a, t), bst));
    AddAssoc(Mul(a, t), Mul(b, s), Mul(b, t));
    AddSub(Add(Mul(a, t), Mul(b, s)), Mul(b, t));
  }

  /** (c - d)(s + t) - c s + d t = c t - d s */
  lemma KaratsubaDifference(c: F, d: F, s: F, t: F)
    ensures Add(Sub(Mul(Sub(c, d), Add(s, t)), Mul(c, s)), Mul(d, t)) == Add(Mul(c, t), Neg(Mul(d, s)))
  {
    hide Add, Mul, Neg;
    Karatsuba(c, Neg(d), s, t);
    MulNeg(d, s); MulNeg(d, t);
    NegNeg(Mul(d, t));
  }

  lemma DftExpand5(x: seq<F>, w: F, q: nat, t: int -> F)
    requires |x| == 5 && Pow(w, 5) == One && t == DftTerms(x, w, q)
    ensures Dft(x, w, q) == Add(Add(x[0], Add(t(1), t(4))), Add(t(2), t(3)))
  {
    hide *;
    DftIsSum(x, w, q); SumOf(t, 5);
    DftTermAt(x, w, q, 0); TimesZero(q); AtInside(x); PowNil(w); MulOne(x[0]);
    Pair5(x[0], t(1), t(2), t(3), t(4));
  }

  /** The five outputs of the kernel in terms of the pair sums, pair differences and constants. */
  lemma Kernel5Outputs(x: seq<F>, pw: seq<F>)
    requires |x| == 5 && |pw| == 8
    ensures
      var h := Half();
      var alpha, beta := Mul(Add(pw[1], pw[4]), h), Mul(Add(pw[2], pw[3]), h);
      var gamma, delta := Mul(Sub(pw[1], pw[4]), h), Mul(Sub(pw[2], pw[3]), h);
      var a, b, c, d := Add(x[1], x[4]), Add(x[2], x[3]), Sub(x[1], x[4]), Sub(x[2], x[3]);
      var p := Sub(Sub(Mul(Add(a, b), Add(alpha, beta)), Mul(a, alpha)), Mul(b, beta));
      var q := Add(Sub(Mul(Sub(c, d), Add(gamma, delta)), Mul(c, gamma)), Mul(d, delta));
      Kernel5(x, Winograd(5, pw)) ==
        [Add(Add(x[0], a), b),
         Add(Add(x[0], Add(Mul(a, alpha), Mul(b, beta))), Add(Mul(c, gamma), Mul(d, delta))),
         Add(Add(x[0], p), q),
         Sub(Add(x[0], p), q),
         Sub(Add(x[0], Add(Mul(a, alpha), Mul(b, beta))), Add(Mul(c, gamma), Mul(d, delta)))]
  {
    hide Add, Mul, Sub, Half;
  }

  lemma Kernel5At1(x: seq<F>, w: F, pw: seq<F>)
    requires |x| == 5 && Pow(w, 5) == One && Add(One, One) != Zero
    requires |pw| == 8 && forall i :: 0 <= i < 5 ==> pw[i] == Pow(w, i)
    ensures |Kernel5(x, Winograd(5, pw))| == 5 && Kernel5(x, Winograd(5, pw))[1] == Dft(x, w, 1)
  {
    hide *;
    HalfDoubles();
    var h := Half();
    var alpha, beta := Mul(Add(pw[1], pw[4]), h), Mul(Add(pw[2], pw[3]), h);
    var gamma, delta := Mul(Sub(pw[1], pw[4]), h), Mul(Sub(pw[2], pw[3]), h);
    var a, b, c, d := Add(x[1], x[4]), Add(x[2], x[3]), Sub(x[1], x[4]), Sub(x[2], x[3]);
    Kernel5Outputs(x, pw);
    DftExpand5(x, w, 1, DftTerms(x, w, 1));
    TermIs(x, w, 5, 1, 1); TermIs(x, w, 5, 1, 2); TermIs(x, w, 5, 1, 3); TermIs(x, w, 5, 1, 4);
    Regroup5(x[0], Mul(a, alpha), Mul(b, beta), Mul(c, gamma), Mul(d, delta));
    ConjugatePair(x[1], x[4], pw[1], pw[4], h); ConjugatePair(x[2], x[3], pw[2], pw[3], h);
  }

  lemma Kernel5At4(x: seq<F>, w: F, pw: seq<F>)
    requires |x| == 5 && Pow(w, 5) == One && Add(One, One) != Zero
    requires |pw| == 8 && forall i :: 0 <= i < 5 ==> pw[i] == Pow(w, i)
    ensures |Kernel5(x, Winograd(5, pw))| == 5 && Kernel5(x, Winograd(5, pw))[4] == Dft(x, w, 4)
  {
    hide *;
    HalfDoubles();
    var h := Half();
    var alpha, beta := Mul(Add(pw[1], pw[4]), h), Mul(Add(pw[2], pw[3]), h);
    var gamma, delta := Mul(Sub(pw[1], pw[4]), h), Mul(Sub(pw[2], pw[3]), h);
    var a, b, c, d := Add(x[1], x[4]), Add(x[2], x[3]), Sub(x[1], x[4]), Sub(x[2], x[3]);
    Kernel5Outputs(x, pw);
    DftExpand5(x, w, 4, DftTerms(x, w, 4));
    TermIs(x, w, 5, 4, 1); TermIs(x, w, 5, 4, 2); TermIs(x, w, 5, 4, 3); TermIs(x, w, 5, 4, 4);
    Regroup5Minus(x[0], Mul(a, alpha), Mul(b, beta), Mul(c, gamma), Mul(d, delta));
    ConjugateMirror(x[1], x[4], pw[1], pw[4], h); ConjugateMirror(x[2], x[3], pw[2], pw[3], h);
  }

  lemma Kernel5At2(x: seq<F>, w: F, pw: seq<F>)
    requires |x| == 5 && Pow(w, 5) == One && Add(One, One) != Zero
    requires |pw| == 8 && forall i :: 0 <= i < 5 ==> pw[i] == Pow(w, i)
    ensures |Kernel5(x, Winograd(5, pw))| == 5 && Kernel5(x, Winograd(5, pw))[2] == Dft(x, w, 2)
  {
    hide *;
    HalfDoubles();
    var h := Half();
    var alpha, beta := Mul(Add(pw[1], pw[4]), h), Mul(Add(pw[2], pw[3]), h);
    var gamma, delta := Mul(Sub(pw[1], pw[4]), h), Mul(Sub(pw[2], pw[3]), h);
    var a, b, c, d := Add(x[1], x[4]), Add(x[2], x[3]), Sub(x[1], x[4]), Sub(x[2], x[3]);
    Kernel5Outputs(x, pw);
    DftExpand5(x, w, 2, DftTerms(x, w, 2));
    TermIs(x, w, 5, 2, 1); TermIs(x, w, 5, 2, 2); TermIs(x, w, 5, 2, 3); TermIs(x, w, 5, 2, 4);
    Karatsuba(a, b, alpha, beta); KaratsubaDifference(c, d, gamma, delta);
    Regroup5(x[0], Mul(a, beta), Mul(b, alpha), Mul(c, delta), Neg(Mul(d, gamma)));
    ConjugatePair(x[1], x[4], pw[2], pw[3], h); ConjugateMirror(x[2], x[3], pw[1], pw[4], h);
  }

  lemma Kernel5At3(x: seq<F>, w: F, pw: seq<F>)
    requires |x| == 5 && Pow(w, 5) == One && Add(One, One) != Zero
    requires |pw| == 8 && forall i :: 0 <= i < 5 ==> pw[i] == Pow(w, i)
    ensures |Kernel5(x, Winograd(5, pw))| == 5 && Kernel5(x, Winograd(5, pw))[3] == Dft(x, w, 3)
  {
    hide *;
    HalfDoubles();
    var h := Half();
    var alpha, beta := Mul(Add(pw[1], pw[4]), h), Mul(Add(pw[2], pw[3]), h);
    var gamma, delta := Mul(Sub(pw[1], pw[4]), h), Mul(Sub(pw[2], pw[3]), h);
    var a, b, c, d := Add(x[1], x[4]), Add(x[2], x[3]), Sub(x[1], x[4]), Sub(x[2], x[3]);
    Kernel5Outputs(x, pw);
    DftExpand5(x, w, 3, DftTerms(x, w, 3));
    TermIs(x, w, 5, 3, 1); TermIs(x, w, 5, 3, 2); TermIs(x, w, 5, 3, 3); TermIs(x, w, 5, 3, 4);
    Karatsuba(a, b, alpha, beta); KaratsubaDifference(c, d, gamma, delta);
    Regroup5Minus(x[0], Mul(a, beta), Mul(b, alpha), Mul(c, delta), Neg(Mul(d, gamma)));
    NegNeg(Mul(d, gamma));
    ConjugateMirror(x[1], x[4], pw[2], pw[3], h); ConjugatePair(x[2], x[3], pw[1], pw[4], h);
  }

  lemma Kernel5IsDft(x: seq<F>, w: F, pw: seq<F>, q: nat)
    requires |x| == 5 && Pow(w, 5) == One && q < 5 && Add(One, One) != Zero
    requires |pw| == 8 && forall i :: 0 <= i < 5 ==> pw[i] == Pow(w, i)
    ensures |Kernel5(x, Winograd(5, pw))| == 5 && Kernel5(x, Winograd(5, pw))[q] == Dft(x, w, q)
  {
    hide *;
    match q
    case 0 =>
      Kernel5Outputs(x, pw);
      DftExpand5(x, w, 0, DftTerms(x, w, 0));
      TermIs(x, w, 5, 0, 1); TermIs(x, w, 5, 0, 2); TermIs(x, w, 5, 0, 3); TermIs(x, w, 5, 0, 4);
      PowNil(w); MulOne(x[1]); MulOne(x[2]); MulOne(x[3]); MulOne(x[4]);
    case 1 => Kernel5At1(x, w, pw);
    case 2 => Kernel5At2(x, w, pw);
    case 3 => Kernel5At3(x, w, pw);
    case 4 => Kernel5At4(x, w, pw);
  }

  // ----- radix 7

  lemma Regroup7(x: F, a: F, b: F, c: F, d: F, e: F, f: F)
    ensures Add(Add(x, Add(Add(a, b), c)), Add(Add(d, e), f)) == Add(Add(Add(x, Add(a, d)), Add(b, e)), Add(c, f))
  {
    hide *;
    Regroup5(x, Add(a, b), c, Add(d, e), f);
    Add4(a, b, d, e);
    AddAssoc(x, Add(a, d), Add(b, e));
  }

  lemma Regroup7Minus(x: F, a: F, b: F, c: F, d: F, e: F, f: F)
    ensures Sub(Add(x, Add(Add(a, b), c)), Add(Add(d, e), f)) ==
      Add(Add(Add(x, Add(a, Neg(d))), Add(b, Neg(e))), Add(c, Neg(f)))
  {
    hide Add, Neg;
    NegAdd(Add(d, e), f); NegAdd(d, e);
    Regroup7(x, a, b, c, Neg(d), Neg(e), Neg(f));
  }

  lemma DftExpand7(x: seq<F>, w: F, q: nat, t: int -> F)
    requires |x| == 7 && Pow(w, 7) == One && t == DftTerms(x, w, q)
    ensures Dft(x, w, q) == Add(Add(Add(x[0], Add(t(1), t(6))), Add(t(2), t(5))), Add(t(3), t(4)))
  {
    hide *;
    DftIsSum(x, w, q); SumOf(t, 7);
    DftTermAt(x, w, q, 0); TimesZero(q); AtInside(x); PowNil(w); MulOne(x[0]);
    Pair7(x[0], t(1), t(2), t(3), t(4), t(5), t(6));
  }

  /** Exponents of a mirrored pair modulo 7. */
  lemma Mirror7(j: nat, k: nat)
    requires 1 <= j <= 3 && 1 <= k <= 3
    ensures ((7 - j) * k) % 7 == (-(j * k)) % 7 && (j * (7 - k)) % 7 == (-(j * k)) % 7
    ensures ((7 - j) * (7 - k)) % 7 == (j * k) % 7
  { }

  /** The pair (x_j, x_(7-j)) of output k, and of output 7 - k, from the tabled constants. */
  lemma Pair7IsTerms(x: seq<F>, w: F, pw: seq<F>, j: nat, k: nat)
    requires |x| == 7 && Pow(w, 7) == One && 1 <= j <= 3 && 1 <= k <= 3 && Add(One, One) != Zero
    requires |pw| == 8 && forall i :: 0 <= i < 7 ==> pw[i] == Pow(w, i)
    ensures
      var a, b := Add(x[j], x[7 - j]), Sub(x[j], x[7 - j]);
      && Add(Mul(a, Cos(pw, j * k)), Mul(b, Sin(pw, j * k))) == Add(DftTerms(x, w, k)(j), DftTerms(x, w, k)(7 - j))
      && Add(Mul(a, Cos(pw, j * k)), Neg(Mul(b, Sin(pw, j * k)))) == Add(DftTerms(x, w, 7 - k)(j), DftTerms(x, w, 7 - k)(7 - j))
  {
    HalfDoubles();
    hide Pow, DftTerms, Add, Mul, Neg, Sub, Half;
    TermIs(x, w, 7, k, j); TermIs(x, w, 7, k, 7 - j);
    TermIs(x, w, 7, 7 - k, j); TermIs(x, w, 7, 7 - k, 7 - j);
    var u, v := pw[(j * k) % 7], pw[(-(j * k)) % 7];
    Mirror7(j, k);
    ConjugatePair(x[j], x[7 - j], u, v, Half());
    ConjugateMirror(x[j], x[7 - j], u, v, Half());
  }

  function Wave7(x: seq<F>, pw: seq<F>, k: nat): (F, F)
    requires |x| == 7 && |pw| == 8
  {
    (Add(Add(Mul(Add(x[1], x[6]), Cos(pw, k)), Mul(Add(x[2], x[5]), Cos(pw, 2 * k))), Mul(Add(x[3], x[4]), Cos(pw, 3 * k))),
     Add(Add(Mul(Sub(x[1], x[6]), Sin(pw, k)), Mul(Sub(x[2], x[5]), Sin(pw, 2 * k))), Mul(Sub(x[3], x[4]), Sin(pw, 3 * k))))
  }

  lemma Kernel7Outputs(x: seq<F>, pw: seq<F>)
    requires |x| == 7 && |pw| == 8
    ensures
      var k := Kernel7(x, Winograd(7, pw));
      var (s1, t1) := Wave7(x, pw, 1);
      var (s2, t2) := Wave7(x, pw, 2);
      var (s3, t3) := Wave7(x, pw, 3);
      k == [Add(Add(Add(x[0], Add(x[1], x[6])), Add(x[2], x[5])), Add(x[3], x[4])),
            Add(Add(x[0], s1), t1), Add(Add(x[0], s2), t2), Add(Add(x[0], s3), t3),
            Sub(Add(x[0], s3), t3), Sub(Add(x[0], s2), t2), Sub(Add(x[0], s1), t1)]
  {
    hide Add, Mul, Sub, Half, Cos, Sin;
  }

  /** Outputs k and 7 - k of the kernel, from the waves of k. */
  lemma Wave7IsDft(x: seq<F>, w: F, pw: seq<F>, k: nat)
    requires |x| == 7 && Pow(w, 7) == One && 1 <= k <= 3 && Add(One, One) != Zero
    requires |pw| == 8 && forall i :: 0 <= i < 7 ==> pw[i] == Pow(w, i)
    ensures Add(Add(x[0], Wave7(x, pw, k).0), Wave7(x, pw, k).1) == Dft(x, w, k)
    ensures Sub(Add(x[0], Wave7(x, pw, k).0), Wave7(x, pw, k).1) == Dft(x, w, 7 - k)
  {
    hide Pow, DftTerms, Add, Mul, Neg, Sub, Dft, Cos, Sin;
    DftExpand7(x, w, k, DftTerms(x, w, k)); DftExpand7(x, w, 7 - k, DftTerms(x, w, 7 - k));
    Pair7IsTerms(x, w, pw, 1, k); Pair7IsTerms(x, w, pw, 2, k); Pair7IsTerms(x, w, pw, 3, k);
    var s1, s2, s3 := Mul(Add(x[1], x[6]), Cos(pw, k)), Mul(Add(x[2], x[5]), Cos(pw, 2 * k)), Mul(Add(x[3], x[4]), Cos(pw, 3 * k));
    var t1, t2, t3 := Mul(Sub(x[1], x[6]), Sin(pw, k)), Mul(Sub(x[2], x[5]), Sin(pw, 2 * k)), Mul(Sub(x[3], x[4]), Sin(pw, 3 * k));
    Regroup7(x[0], s1, s2, s3, t1, t2, t3);
    Regroup7Minus(x[0], s1, s2, s3, t1, t2, t3);
  }

  lemma Kernel7IsDft(x: seq<F>, w: F, pw: seq<F>, q: nat)
    requires |x| == 7 && Pow(w, 7) == One && q < 7 && Add(One, One) != Zero
    requires |pw| == 8 && forall i :: 0 <= i < 7 ==> pw[i] == Pow(w, i)
    ensures |Kernel7(x, Winograd(7, pw))| == 7 && Kernel7(x, Winograd(7, pw))[q] == Dft(x, w, q)
  {
    hide *;
    Kernel7Outputs(x, pw);
    if q == 0 {
      DftExpand7(x, w, 0, DftTerms(x, w, 0));
      TermIs(x, w, 7, 0, 1); TermIs(x, w, 7, 0, 2); TermIs(x, w, 7, 0, 3);
      TermIs(x, w, 7, 0, 4); TermIs(x, w, 7, 0, 5); TermIs(x, w, 7, 0, 6);
      PowNil(w); MulOne(x[1]); MulOne(x[2]); MulOne(x[3]); MulOne(x[4]); MulOne(x[5]); MulOne(x[6]);
    } else {
      Wave7IsDft(x, w, pw, if q <= 3 then q else 7 - q);
    }
  }

  // ----- the fallback, and all radices together

  lemma {:induction false} NaiveIsSum(x: seq<F>, w: F, q: nat, p: nat)
    requires 1 <= p <= |x|
    ensures NaiveFrom(x, Pow(w, q), p, Pow(Pow(w, q), p), Sum(DftTerms(x, w, q), p)) == Dft(x, w, q)
    decreases |x| - p
  {
    hide Pow, DftTerms, Sum, Add, Mul;
    if p < |x| {
      var wq := Pow(w, q);
      SumSnoc(DftTerms(x, w, q), p + 1);
      DftTermAt(x, w, q, p); AtInside(x);
      PowMul(w, q, p); assert Times(p, q) == q * p;
      PowStep(wq, p + 1);
      NaiveIsSum(x, w, q, p + 1);
    }
  }

  /** The stage's tables belong to the r-th root w. */
  ghost predicate StageRoot(s: StageData, w: F) {
    && KernelReady(s)
    && Pow(w, s.r) == One && w != One
    && (s.r == 5 || s.r == 7 ==> Add(One, One) != Zero)
    && forall q :: 0 <= q < s.r ==> s.omegaRPow[q] == Pow(w, q)
  }

  /** Every radix kernel computes the size-r transform exactly. */
  lemma KernelIsDft(s: StageData, x: seq<F>, w: F, q: nat)
    requires StageRoot(s, w) && |x| == s.r && q < s.r
    ensures Kernel(s, x)[q] == Dft(x, w, q)
  {
    hide Pow, Dft, Add, Mul, Kernel2, Kernel3, Kernel5, Kernel7, Winograd, NaiveFrom;
    match s.r
    case 2 => Kernel2IsDft(x, w, q);
    case 3 => Kernel3IsDft(x, w, q);
    case 5 => Kernel5IsDft(x, w, s.omegaRPow, q);
    case 7 => Kernel7IsDft(x, w, s.omegaRPow, q);
    case _ =>
      NaiveIsSum(x, w, q, 1);
      SumOne(DftTerms(x, w, q)); DftTermAt(x, w, q, 0); AtInside(x);
      TimesZero(q); PowNil(w); PowNil(Pow(w, q)); MulOne(x[0]);
  }
}
