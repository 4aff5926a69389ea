/**
 The smooth domain: forward, inverse and coset transforms, and Reed-Solomon extension.
 Models `SmoothDomain` of crates/akita-algebra/src/fft.rs.
 */
module FftDomain {
  import opened Arith
  import opened NumberTheory
  import opened Field
  import opened Sums
  import opened Powers
  import opened Polynomials
  import opened FftSpec
  import opened FftKernels
  import opened FftPlan
  import opened FftTransform

  datatype SmoothDomain = SmoothDomain(
    n: nat, omega: F, nInv: F, digitRev: seq<nat>, fwdStages: seq<StageData>, invStages: seq<StageData>)

  /** Both directions are planned over the same factors, and nInv is 1/n. */
  ghost predicate Ready(d: SmoothDomain, fs: seq<nat>) {
    && Plan(d.fwdStages, d.digitRev, d.omega, fs, d.n)
    && Plan(d.invStages, d.digitRev, Inv(d.omega), fs, d.n)
    && Mul(d.nInv, FromNat(d.n)) == One
  }

  ghost predicate ValidDomain(d: SmoothDomain) { exists fs :: Ready(d, fs) }

  /** Every prime factor of n is at most 7, and 2 is invertible where the radix-5 and -7 kernels halve. */
  ghost predicate Smooth(n: nat) {
    && (forall p: nat :: IsPrime(p) && Divides(p, n) ==> p <= 7)
    && (Divides(5, n) || Divides(7, n) ==> Add(One, One) != Zero)
  }

  method NewDomain(omega: F, n: nat) returns (d: SmoothDomain)
    requires HasOrder(omega, n) && Smooth(n) && n <= USIZE_MAX
    ensures ValidDomain(d) && d.n == n && d.omega == omega
  {
    hide Pow, FromNat, Mul, StagesFor, TrialOverflows;
    OrderIsNonzero(omega, n);
    SmoothIsFine(n);
    var factorized := Factorize(n);
    var factors := factorized.value;
    SmoothFactors(n, factors);
    var digitRev := DigitReversal(n, factors);
    InverseRoot(omega, n);
    var fwd := PrecomputeStages(omega, n, factors);
    var bwd := PrecomputeStages(Inv(omega), n, factors);
    MulInv(FromNat(n));
    d := SmoothDomain(n, omega, Inv(FromNat(n)), digitRev, fwd, bwd);
    assert Ready(d, factors);
  }

  /** A smooth number is no large prime. */
  lemma SmoothIsFine(n: nat)
    requires n >= 1 && Smooth(n)
    ensures !TrialOverflows(n)
  {
    DividesMultiple(n, 1);
  }

  lemma SmoothFactors(n: nat, fs: seq<nat>)
    requires n >= 1 && Smooth(n) && Product(fs) == n && forall i :: 0 <= i < |fs| ==> IsPrime(fs[i])
    ensures Positive(fs) && forall i :: 0 <= i < |fs| ==> 2 <= fs[i] <= 8
    ensures 5 in fs || 7 in fs ==> Add(One, One) != Zero
  {
    forall i | 0 <= i < |fs| ensures Divides(fs[i], n) { FactorDivides(fs, i); }
  }

  // ----- the inverse transform

  /** The sum over k of w^(ik) * w^(-kj): n when i = j and zero otherwise. */
  lemma Orthogonality(w: F, n: nat, i: nat, j: nat, f: int -> F)
    requires HasOrder(w, n) && i < n && j < n
    requires forall k :: 0 <= k < n ==> f(k) == Mul(Pow(w, Times(i, k)), Pow(Inv(w), Times(k, j)))
    ensures Sum(f, n) == if i == j then FromNat(n) else Zero
  {
    hide Pow, Sum, FromNat, Mul, Times;
    InverseRoot(w, n);
    var v := Inv(w);
    var u := Mul(Pow(w, i), Pow(v, j));
    forall k | 0 <= k < n ensures f(k) == Pow(u, k) {
      PowTimes(w, i, k); PowTimes(v, j, k); TimesComm(k, j);
      PowOfProduct(Pow(w, i), Pow(v, j), k);
    }
    if i == j {
      forall k | 0 <= k < n ensures f(k) == One { PowOfOne(k); }
      SumConst(One, f, n); MulOne(FromNat(n));
    } else {
      RootQuotient(w, n, i, j);
      GeometricSum(u, f, n);
    }
  }

  lemma RootQuotient(w: F, n: nat, i: nat, j: nat)
    requires HasOrder(w, n) && i < n && j < n && i != j
    ensures var u := Mul(Pow(w, i), Pow(Inv(w), j)); u != One && Pow(u, n) == One
  {
    hide Pow, Mul, Times;
    InverseRoot(w, n);
    var v := Inv(w);
    var u := Mul(Pow(w, i), Pow(v, j));
    PowOfProduct(Pow(w, i), Pow(v, j), n);
    PowTimes(w, i, n); PowTimes(w, n, i); TimesComm(i, n); PowOfOne(i);
    PowTimes(v, j, n); PowTimes(v, n, j); TimesComm(j, n); PowOfOne(j);
    MulOne(One);
    if u == One {
      PowNonzero(v, j, n);
      MulComm(Pow(w, i), Pow(v, j)); MulComm(Pow(w, j), Pow(v, j));
      MulCancel(Pow(v, j), Pow(w, i), Pow(w, j));
      if i < j { OrderInjective(w, n, i, j); } else { OrderInjective(w, n, j, i); }
    }
  }

  /** Transforming back with the inverse root and dividing by n recovers the input. */
  lemma InverseOfDft(x: seq<F>, y: seq<F>, w: F, n: nat, nInv: F, j: nat)
    requires HasOrder(w, n) && |x| == n && IsDft(y, x, w) && Mul(nInv, FromNat(n)) == One && j < n
    ensures Mul(nInv, Dft(y, Inv(w), j)) == x[j]
  {
    hide *;
    IsDftParts(y, x, w);
    var v := Inv(w);
    // term (k, i) of the double sum
    var g := (k: int, i: int) => Mul(At(x, i), Mul(Pow(w, Times(i, k)), Pow(v, Times(k, j))));
    var rows := DftTerms(y, v, j);
    var cols := (i: int) => Sum(k => g(k, i), n);
    forall k | 0 <= k < n ensures rows(k) == Sum(i => g(k, i), n) { InverseRow(x, y, w, n, j, k, i => g(k, i)); }
    SumSwap(g, rows, cols, n, n);
    forall i | 0 <= i < n ensures cols(i) == if i == j then Mul(x[j], FromNat(n)) else Zero {
      InverseColumn(x, w, n, i, j, k => g(k, i));
    }
    SumPick(cols, n, j);
    DftIsSum(y, v, j);
    MulComm(x[j], FromNat(n)); MulAssoc(nInv, FromNat(n), x[j]); MulOne(x[j]);
  }

  lemma IsDftParts(y: seq<F>, x: seq<F>, w: F)
    requires IsDft(y, x, w)
    ensures |y| == |x| && forall k :: 0 <= k < |x| ==> y[k] == Dft(x, w, k)
  { }

  lemma InverseRow(x: seq<F>, y: seq<F>, w: F, n: nat, j: nat, k: nat, row: int -> F)
    requires |x| == n == |y| && k < n && y[k] == Dft(x, w, k)
    requires forall i :: 0 <= i < n ==> row(i) == Mul(At(x, i), Mul(Pow(w, Times(i, k)), Pow(Inv(w), Times(k, j))))
    ensures DftTerms(y, Inv(w), j)(k) == Sum(row, n)
  {
    hide *;
    var v := Inv(w);
    var p := Pow(v, Times(k, j));
    var terms := DftTerms(x, w, k);
    forall i | 0 <= i < n ensures row(i) == Mul(p, terms(i)) {
      DftTermAt(x, w, k, i);
      MulAssoc(At(x, i), Pow(w, Times(i, k)), p);
      MulComm(p, Mul(At(x, i), Pow(w, Times(i, k))));
    }
    SumScale(p, terms, row, n);
    DftIsSum(x, w, k); DftTermAt(y, v, j, k); AtInside(y);
    MulComm(p, y[k]);
  }

  lemma InverseColumn(x: seq<F>, w: F, n: nat, i: nat, j: nat, column: int -> F)
    requires HasOrder(w, n) && |x| == n && i < n && j < n
    requires forall k :: 0 <= k < n ==> column(k) == Mul(At(x, i), Mul(Pow(w, Times(i, k)), Pow(Inv(w), Times(k, j))))
    ensures Sum(column, n) == if i == j then Mul(x[j], FromNat(n)) else Zero
  {
    hide *;
    var f := (k: int) => Mul(Pow(w, Times(i, k)), Pow(Inv(w), Times(k, j)));
    SumScale(At(x, i), f, column, n);
    Orthogonality(w, n, i, j, f);
    AtInside(x); MulZero(x[i]);
  }

  // ----- interpolation

  /** The coefficients the inverse transform returns for the values `evals`. */
  function Interpolant(d: SmoothDomain, evals: seq<F>): (c: seq<F>)
    ensures |c| == |evals|
  {
    seq(|evals|, (j: nat) => Mul(d.nInv, Dft(evals, Inv(d.omega), j)))
  }

  /** A polynomial of degree below n on the subgroup is its coefficients' transform. */
  lemma EvalOnSubgroup(c: seq<F>, w: F, i: nat)
    ensures EvalPoly(c, Pow(w, i)) == Dft(c, w, i)
  {
    hide Pow, Mul, Sum, Times, At;
    forall l | 0 <= l < |c| ensures PolyTerms(c, Pow(w, i))(l) == DftTerms(c, w, i)(l) {
      PowTimes(w, i, l); TimesComm(i, l);
    }
    SumExt(PolyTerms(c, Pow(w, i)), DftTerms(c, w, i), |c|);
  }

  lemma {:induction false} DftScaled(c: seq<F>, y: seq<F>, s: F, w: F, k: int)
    requires |c| == |y| && forall i :: 0 <= i < |c| ==> c[i] == Mul(s, y[i])
    ensures Dft(c, w, k) == Mul(s, Dft(y, w, k))
  {
    hide *;
    DftIsSum(c, w, k); DftIsSum(y, w, k);
    var e, g := DftTerms(y, w, k), DftTerms(c, w, k);
    forall i | 0 <= i < |c| ensures g(i) == Mul(s, e(i)) {
      DftTermAt(c, w, k, i); DftTermAt(y, w, k, i); AtInside(c); AtInside(y);
      MulAssoc(s, y[i], Pow(w, Times(i, k)));
    }
    SumScale(s, e, g, |c|);
  }

  /** The inverse transform's result passes through the given values: forward after inverse is the identity. */
  lemma InterpolantPasses(d: SmoothDomain, evals: seq<F>, i: nat)
    requires ValidDomain(d) && |evals| == d.n && i < d.n
    ensures EvalPoly(Interpolant(d, evals), Pow(d.omega, i)) == evals[i]
  {
    hide Pow, Mul, Sum, Dft, EvalPoly, FromNat, StagesFor;
    var fs :| Ready(d, fs);
    var v, c := Inv(d.omega), Interpolant(d, evals);
    EvalOnSubgroup(c, d.omega, i);
    var y := seq(d.n, (j: nat) => Dft(evals, v, j));
    DftScaled(c, y, d.nInv, d.omega, i);
    InverseInvolution(d.omega, d.n);
    InverseOfDft(evals, y, v, d.n, d.nInv, i);
  }

  lemma InverseInvolution(w: F, n: nat)
    requires HasOrder(w, n)
    ensures Inv(Inv(w)) == w
  {
    hide Mul, Inv, Pow;
    RootIsNonzero(w, n);
    MulInv(w);
    MulZero(w); OneIsNotZero();
    MulInv(Inv(w));
    MulCancel(Inv(w), Inv(Inv(w)), w);
  }

  /** It is the only polynomial of degree below n that does: inverse after forward is the identity. */
  lemma InterpolantUnique(d: SmoothDomain, evals: seq<F>, c: seq<F>)
    requires ValidDomain(d) && |evals| == d.n == |c|
    requires forall i :: 0 <= i < d.n ==> EvalPoly(c, Pow(d.omega, i)) == evals[i]
    ensures c == Interpolant(d, evals)
  {
    hide Pow, Mul, Sum, Dft, EvalPoly, FromNat, StagesFor;
    var fs :| Ready(d, fs);
    forall i | 0 <= i < d.n ensures evals[i] == Dft(c, d.omega, i) { EvalOnSubgroup(c, d.omega, i); }
    forall j | 0 <= j < d.n ensures c[j] == Interpolant(d, evals)[j] { InverseOfDft(c, evals, d.omega, d.n, d.nInv, j); }
  }

  // ----- transforms

  method Forward(d: SmoothDomain, input: seq<F>) returns (out: seq<F>)
    requires ValidDomain(d) && |input| == d.n
    ensures IsDft(out, input, d.omega)
  {
    ghost var fs :| Ready(d, fs);
    var ws := new FftWorkspace(d.n);
    out := ws.Execute(input, d.fwdStages, d.digitRev, d.omega, fs);
  }

  method Inverse(d: SmoothDomain, input: seq<F>) returns (out: seq<F>)
    requires ValidDomain(d) && |input| == d.n
    ensures out == Interpolant(d, input)
  {
    var ws := new FftWorkspace(d.n);
    out := InverseWith(d, input, ws);
  }

  /** The inverse transform in a caller's workspace, whatever it holds. */
  method InverseWith(d: SmoothDomain, input: seq<F>, ws: FftWorkspace) returns (out: seq<F>)
    requires ValidDomain(d) && |input| == d.n && ws.Valid() && ws.n == d.n
    modifies ws.bufA
    ensures out == Interpolant(d, input)
  {
    hide Dft, Mul, Plan;
    ghost var fs :| Ready(d, fs);
    var raw := ws.Execute(input, d.invStages, d.digitRev, Inv(d.omega), fs);
    out := [];
    for j := 0 to d.n
      invariant |out| == j && forall i :: 0 <= i < j ==> out[i] == Mul(d.nInv, Dft(input, Inv(d.omega), i))
    {
      MulComm(raw[j], d.nInv);
      out := out + [Mul(raw[j], d.nInv)];
    }
  }

  method ForwardInto(d: SmoothDomain, input: seq<F>, output: array<F>, ws: FftWorkspace)
    requires ValidDomain(d) && |input| == d.n == output.Length && ws.Valid() && ws.n == d.n
    modifies output, ws.bufA
    ensures IsDft(output[..], input, d.omega)
  {
    hide IsDft, Plan;
    ghost var fs :| Ready(d, fs);
    var out := ws.Execute(input, d.fwdStages, d.digitRev, d.omega, fs);
    IsDftLength(out, input, d.omega);
    forall i | 0 <= i < d.n { output[i] := out[i]; }
    assert output[..] == out;
  }

  lemma IsDftLength(y: seq<F>, x: seq<F>, w: F)
    requires IsDft(y, x, w)
    ensures |y| == |x|
  { }

  /** Inverse after forward returns the input. */
  method RoundTrip(d: SmoothDomain, input: seq<F>) returns (out: seq<F>)
    requires ValidDomain(d) && |input| == d.n
    ensures out == input
  {
    hide Plan, EvalPoly, Dft, Interpolant;
    var y := Forward(d, input);
    out := Inverse(d, y);
    forall i | 0 <= i < d.n ensures EvalPoly(input, Pow(d.omega, i)) == y[i] { EvalOnSubgroup(input, d.omega, i); }
    InterpolantUnique(d, y, input);
  }

  /** The pre-twisted, zero-padded coefficients of a coset transform. */
  ghost predicate Twisted(buf: seq<F>, coeffs: seq<F>, shift: F) {
    && |coeffs| <= |buf|
    && forall i :: 0 <= i < |buf| ==> buf[i] == if i < |coeffs| then Mul(coeffs[i], Pow(shift, i)) else Zero
  }

  /** The transform of twisted coefficients is the polynomial on the shifted coset. */
  lemma TwistedDft(buf: seq<F>, coeffs: seq<F>, shift: F, w: F, i: nat)
    requires Twisted(buf, coeffs, shift)
    ensures Dft(buf, w, i) == EvalPoly(coeffs, Mul(shift, Pow(w, i)))
  {
    hide *;
    var z := Mul(shift, Pow(w, i));
    var terms, poly, m := DftTerms(buf, w, i), PolyTerms(coeffs, z), |coeffs|;
    DftIsSum(buf, w, i); EvalPolyIs(coeffs, z);
    TwistedFits(buf, coeffs, shift);
    forall l | 0 <= l < m ensures terms(l) == poly(l) { TwistedTerm(buf, coeffs, shift, w, i, l); }
    forall l | 0 <= l < |buf| - m ensures From(terms, m)(l) == Zero { FromAt(terms, m, l); PaddedTerm(buf, coeffs, shift, w, i, m + l); }
    SumFrom(terms, m, |buf| - m);
    SumZero(From(terms, m), |buf| - m);
    AddZero(Sum(terms, m));
    SumExt(terms, poly, m);
  }

  lemma TwistedFits(buf: seq<F>, coeffs: seq<F>, shift: F)
    requires Twisted(buf, coeffs, shift)
    ensures |coeffs| <= |buf|
  { }

  lemma TwistedTerm(buf: seq<F>, coeffs: seq<F>, shift: F, w: F, i: nat, l: nat)
    requires Twisted(buf, coeffs, shift) && l < |coeffs|
    ensures DftTerms(buf, w, i)(l) == PolyTerms(coeffs, Mul(shift, Pow(w, i)))(l)
  {
    hide Pow, Mul, Times;
    PowOfProduct(shift, Pow(w, i), l);
    PowTimes(w, i, l); TimesComm(i, l);
    MulAssoc(coeffs[l], Pow(shift, l), Pow(w, Times(l, i)));
  }

  lemma PaddedTerm(buf: seq<F>, coeffs: seq<F>, shift: F, w: F, i: nat, l: nat)
    requires Twisted(buf, coeffs, shift) && |coeffs| <= l < |buf|
    ensures DftTerms(buf, w, i)(l) == Zero
  {
    hide Pow, Mul, Times;
    MulZero(Pow(w, Times(l, i)));
  }

  method Twist(ws: FftWorkspace, coeffs: seq<F>, shift: F)
    requires ws.Valid() && |coeffs| <= ws.n
    modifies ws.bufB
    ensures Twisted(ws.bufB[..], coeffs, shift)
  {
    hide Pow, Mul;
    var tw := One;
    PowNil(shift);
    for i := 0 to |coeffs|
      invariant tw == Pow(shift, i)
      invariant forall k :: 0 <= k < i ==> ws.bufB[k] == Mul(coeffs[k], Pow(shift, k))
    {
      ws.bufB[i] := Mul(coeffs[i], tw);
      PowStep(shift, i + 1);
      tw := Mul(tw, shift);
    }
    for i := |coeffs| to ws.n
      invariant forall k :: 0 <= k < |coeffs| ==> ws.bufB[k] == Mul(coeffs[k], Pow(shift, k))
      invariant forall k :: |coeffs| <= k < i ==> ws.bufB[k] == Zero
    {
      ws.bufB[i] := Zero;
    }
  }

  /** `coset_forward`: the polynomial at shift * omega^i, for i from 0. */
  method CosetForward(d: SmoothDomain, coeffs: seq<F>, shift: F) returns (out: seq<F>)
    requires ValidDomain(d) && |coeffs| <= d.n
    ensures |out| == d.n && forall i :: 0 <= i < d.n ==> out[i] == EvalPoly(coeffs, Mul(shift, Pow(d.omega, i)))
  {
    var ws := new FftWorkspace(d.n);
    out := CosetWith(d, coeffs, shift, ws);
  }

  /**
   `rs_extend_batch`: coset j, for j from 1 to blowup - 1, holds the values at omegaN^j * omega^i of the
   polynomial of degree below n through `evals`. One workspace serves every transform.
   */
  method RsExtendBatch(d: SmoothDomain, evals: seq<F>, omegaN: F, blowup: nat) returns (extension: seq<F>)
    requires ValidDomain(d) && |evals| == d.n && blowup >= 1
    ensures |extension| == Times(blowup - 1, d.n)
    ensures forall j: nat, i: nat {:trigger Join(j, d.n, i)} :: j < blowup - 1 && i < d.n ==>
      At(extension, Join(j, d.n, i)) == EvalPoly(Interpolant(d, evals), Mul(Pow(omegaN, j + 1), Pow(d.omega, i)))
  {
    hide *;
    var ws := new FftWorkspace(d.n);
    var coeffs := InverseWith(d, evals, ws);
    extension := [];
    TimesZero(d.n);
    var j := 1;
    while j < blowup
      invariant 1 <= j <= blowup
      invariant |extension| == Times(j - 1, d.n)
      invariant forall k: nat, i: nat {:trigger Join(k, d.n, i)} :: k < j - 1 && i < d.n ==>
        At(extension, Join(k, d.n, i)) == EvalPoly(coeffs, Mul(Pow(omegaN, k + 1), Pow(d.omega, i)))
    {
      var shift := FieldPow(omegaN, j);
      var values := CosetWith(d, coeffs, shift, ws);
      ExtendCosets(extension, values, coeffs, omegaN, d.omega, d.n, j - 1);
      extension := extension + values;
      j := j + 1;
    }
  }

  /** The coset transform in a caller's workspace, whatever it holds. */
  method CosetWith(d: SmoothDomain, coeffs: seq<F>, shift: F, ws: FftWorkspace) returns (out: seq<F>)
    requires ValidDomain(d) && |coeffs| <= d.n && ws.Valid() && ws.n == d.n
    modifies ws.bufA, ws.bufB
    ensures |out| == d.n && forall i :: 0 <= i < d.n ==> out[i] == EvalPoly(coeffs, Mul(shift, Pow(d.omega, i)))
  {
    hide Plan, EvalPoly, Dft, Twisted, Mul, Pow;
    ghost var fs :| Ready(d, fs);
    Twist(ws, coeffs, shift);
    ghost var twisted := ws.bufB[..];
    out := ws.ExecuteFromB(d.fwdStages, d.digitRev, d.omega, fs);
    forall i | 0 <= i < d.n ensures out[i] == EvalPoly(coeffs, Mul(shift, Pow(d.omega, i))) {
      TwistedDft(twisted, coeffs, shift, d.omega, i);
    }
  }

  /** Appending the values of coset k + 1 to those of the first k cosets. */
  lemma ExtendCosets(ext: seq<F>, values: seq<F>, coeffs: seq<F>, omegaN: F, omega: F, n: nat, k: nat)
    requires |ext| == Times(k, n) && |values| == n
    requires forall i :: 0 <= i < n ==> values[i] == EvalPoly(coeffs, Mul(Pow(omegaN, k + 1), Pow(omega, i)))
    requires forall m: nat, i: nat {:trigger Join(m, n, i)} :: m < k && i < n ==>
      At(ext, Join(m, n, i)) == EvalPoly(coeffs, Mul(Pow(omegaN, m + 1), Pow(omega, i)))
    ensures |ext + values| == Times(k + 1, n)
    ensures forall m: nat, i: nat {:trigger Join(m, n, i)} :: m < k + 1 && i < n ==>
      At(ext + values, Join(m, n, i)) == EvalPoly(coeffs, Mul(Pow(omegaN, m + 1), Pow(omega, i)))
  {
    hide EvalPoly, Mul, Pow;
    forall m: nat, i: nat {:trigger Join(m, n, i)} | m < k + 1 && i < n
      ensures At(ext + values, Join(m, n, i)) == EvalPoly(coeffs, Mul(Pow(omegaN, m + 1), Pow(omega, i)))
    {
      if m < k { JoinSplit(m, n, i, k); }
    }
  }
}
