/**
 Round polynomials of the split equality sumcheck, and their recovery from a claim.
 Models `gruen_mul`, `mul_linear` and `PreparedLinearQRecovery` of crates/akita-algebra/src/split_eq.rs.
 */
module Sumcheck {
  import opened Arith
  import opened Field
  import opened Sums
  import opened Powers
  import opened Polynomials
  import opened EqPoly
  import opened Poly
  import opened SplitEq

  // ----- products of a line and a polynomial

  /** Adding v to coefficient i adds v x^i to the value. */
  lemma {:induction false} SumUpdate(c: seq<F>, d: seq<F>, i: nat, v: F, x: F, n: nat)
    requires i < |c| == |d| && n <= |c| && d == c[i := Add(c[i], v)]
    ensures Sum(PolyTerms(d, x), n) == if i < n then Add(Sum(PolyTerms(c, x), n), Mul(v, Pow(x, i))) else Sum(PolyTerms(c, x), n)
  {
    hide *;
    if n == 0 { SumNil(PolyTerms(c, x)); SumNil(PolyTerms(d, x)); } else {
      var k := n - 1;
      SumUpdate(c, d, i, v, x, k);
      SumSnoc(PolyTerms(c, x), n); SumSnoc(PolyTerms(d, x), n);
      PolyTermAt(c, x, k); PolyTermAt(d, x, k);
      AtInside(c); AtInside(d);
      var a, b, e := Sum(PolyTerms(c, x), k), Mul(c[k], Pow(x, k)), Mul(v, Pow(x, i));
      if k == i {
        Distrib(Pow(x, i), c[i], v);
        AddAssoc(a, b, e);
      } else if i < k {
        AddAssoc(a, e, b); AddComm(e, b); AddAssoc(a, b, e);
      }
    }
  }

  lemma EvalUpdate(c: seq<F>, i: nat, v: F, x: F)
    requires i < |c|
    ensures EvalPoly(c[i := Add(c[i], v)], x) == Add(EvalPoly(c, x), Mul(v, Pow(x, i)))
  {
    hide *;
    var d := c[i := Add(c[i], v)];
    SumUpdate(c, d, i, v, x, |c|);
    EvalPolyIs(c, x); EvalPolyIs(d, x);
  }

  /** The first i coefficients of q have been multiplied by the line into `out`. */
  ghost predicate LineTimes(out: seq<F>, q: seq<F>, i: nat, at0: F, slope: F) {
    forall x: F :: EvalPoly(out, x) == Mul(Add(at0, Mul(slope, x)), Sum(PolyTerms(q, x), i))
  }

  lemma EvalZeros(c: seq<F>, x: F)
    requires forall i :: 0 <= i < |c| ==> c[i] == Zero
    ensures EvalPoly(c, x) == Zero
  {
    hide Sum, Mul, Pow;
    forall i | 0 <= i < |c| ensures PolyTerms(c, x)(i) == Zero { MulZero(Pow(x, i)); }
    SumZero(PolyTerms(c, x), |c|);
  }

  lemma LineTimesNothing(out: seq<F>, q: seq<F>, at0: F, slope: F)
    requires forall i :: 0 <= i < |out| ==> out[i] == Zero
    ensures LineTimes(out, q, 0, at0, slope)
  {
    hide EvalPoly, Sum, Mul, Add, PolyTerms;
    forall x: F ensures EvalPoly(out, x) == Mul(Add(at0, Mul(slope, x)), Sum(PolyTerms(q, x), 0)) {
      EvalZeros(out, x);
      SumNil(PolyTerms(q, x));
      MulZero(Add(at0, Mul(slope, x)));
    }
  }

  lemma LineTimesNext(out: seq<F>, q: seq<F>, i: nat, at0: F, slope: F, mid: seq<F>, next: seq<F>)
    requires LineTimes(out, q, i, at0, slope) && i < |q| && |out| == |q| + 1
    requires mid == out[i := Add(out[i], Mul(q[i], at0))]
    requires next == mid[i + 1 := Add(mid[i + 1], Mul(q[i], slope))]
    ensures LineTimes(next, q, i + 1, at0, slope)
  {
    hide EvalPoly, Sum, Mul, Add, PolyTerms, Pow;
    forall x: F ensures EvalPoly(next, x) == Mul(Add(at0, Mul(slope, x)), Sum(PolyTerms(q, x), i + 1)) {
      LineStep(out, q, i, at0, slope, mid, next, x);
    }
  }

  lemma LineStep(out: seq<F>, q: seq<F>, i: nat, at0: F, slope: F, mid: seq<F>, next: seq<F>, x: F)
    requires i < |q| && |out| == |q| + 1
    requires EvalPoly(out, x) == Mul(Add(at0, Mul(slope, x)), Sum(PolyTerms(q, x), i))
    requires mid == out[i := Add(out[i], Mul(q[i], at0))]
    requires next == mid[i + 1 := Add(mid[i + 1], Mul(q[i], slope))]
    ensures EvalPoly(next, x) == Mul(Add(at0, Mul(slope, x)), Sum(PolyTerms(q, x), i + 1))
  {
    hide *;
    var line, p := Add(at0, Mul(slope, x)), Mul(q[i], Pow(x, i));
    EvalUpdate(out, i, Mul(q[i], at0), x);
    EvalUpdate(mid, i + 1, Mul(q[i], slope), x);
    SumSnoc(PolyTerms(q, x), i + 1);
    PolyTermAt(q, x, i); AtInside(q);
    Distrib(line, Sum(PolyTerms(q, x), i), p);
    StepTerms(q[i], at0, slope, x, i);
    AddAssoc(EvalPoly(out, x), Mul(Mul(q[i], at0), Pow(x, i)), Mul(Mul(q[i], slope), Pow(x, i + 1)));
  }

  lemma StepTerms(c: F, at0: F, slope: F, x: F, i: nat)
    ensures Add(Mul(Mul(c, at0), Pow(x, i)), Mul(Mul(c, slope), Pow(x, i + 1))) == Mul(Add(at0, Mul(slope, x)), Mul(c, Pow(x, i)))
  {
    hide *;
    var p := Pow(x, i);
    PowStep(x, i + 1);
    Distrib(Mul(c, p), at0, Mul(slope, x));
    MulComm(c, at0); MulAssoc(at0, c, p);
    // (c slope)(x p) = (c x)(slope p) ... regrouped as (slope x)(c p)
    MulComm(c, slope); Mul4(slope, c, x, p);
  }

  /** `mul_linear`: the coefficients of (at0 + slope X) q(X). */
  method MulLinear(q: seq<F>, at0: F, slope: F) returns (coeffs: seq<F>)
    ensures |coeffs| == |q| + 1
    ensures forall x: F :: EvalPoly(coeffs, x) == Mul(Add(at0, Mul(slope, x)), EvalPoly(q, x))
  {
    hide *;
    coeffs := seq(|q| + 1, _ => Zero);
    LineTimesNothing(coeffs, q, at0, slope);
    for i := 0 to |q|
      invariant |coeffs| == |q| + 1 && LineTimes(coeffs, q, i, at0, slope)
    {
      ghost var before := coeffs;
      coeffs := coeffs[i := Add(coeffs[i], Mul(q[i], at0))];
      ghost var mid := coeffs;
      coeffs := coeffs[i + 1 := Add(coeffs[i + 1], Mul(q[i], slope))];
      LineTimesNext(before, q, i, at0, slope, mid, coeffs);
    }
    LineTimesAll(coeffs, q, at0, slope);
  }

  lemma LineTimesAll(out: seq<F>, q: seq<F>, at0: F, slope: F)
    requires LineTimes(out, q, |q|, at0, slope)
    ensures forall x: F :: EvalPoly(out, x) == Mul(Add(at0, Mul(slope, x)), EvalPoly(q, x))
  {
    hide Sum, Mul, Add;
  }

  /** out = l q for the linear factor of the state reached by rs. */
  ghost predicate IsRoundPoly(out: seq<F>, q: seq<F>, c: F, tau: seq<F>, rs: seq<F>)
    requires |rs| < |tau|
  {
    forall x: F :: EvalPoly(out, x) == Mul(LineAt(BoundScalar(c, tau, rs), tau[|rs|], x), EvalPoly(q, x))
  }

  lemma RoundPolyIntro(out: seq<F>, q: seq<F>, c: F, tau: seq<F>, rs: seq<F>, at0: F, at1: F)
    requires |rs| < |tau|
    requires at1 == Mul(BoundScalar(c, tau, rs), tau[|rs|]) && at0 == Sub(BoundScalar(c, tau, rs), at1)
    requires forall x: F :: EvalPoly(out, x) == Mul(Add(at0, Mul(Sub(at1, at0), x)), EvalPoly(q, x))
    ensures IsRoundPoly(out, q, c, tau, rs)
  {
    hide EvalPoly, Mul, Add, BoundScalar, LineAt;
    forall x: F ensures EvalPoly(out, x) == Mul(LineAt(BoundScalar(c, tau, rs), tau[|rs|], x), EvalPoly(q, x)) {
      LineIsLinear(BoundScalar(c, tau, rs), tau[|rs|], x);
    }
  }

  /** `gruen_mul`. */
  method GruenMul(state: GruenSplitEq, q: seq<F>, ghost c: F, ghost rs: seq<F>) returns (out: seq<F>)
    requires state.Reached(c, rs) && |rs| < |state.tau|
    ensures |out| == |q| + 1 && IsRoundPoly(out, q, c, state.tau, rs)
  {
    hide *;
    state.ReachedParts(c, rs);
    var at0, at1 := state.LinearFactorEvals(c, rs);
    out := MulLinear(q, at0, Sub(at1, at0));
    RoundPolyIntro(out, q, c, state.tau, rs, at0, at1);
  }

  // ----- recovery of the linear coefficient

  function Coeffs(c: seq<F>): int -> F { (i: int) => At(c, i) }

  lemma EvalAtOne(c: seq<F>)
    ensures EvalPoly(c, One) == Sum(Coeffs(c), |c|)
  {
    hide Sum, Mul, Pow;
    forall i | 0 <= i < |c| ensures PolyTerms(c, One)(i) == Coeffs(c)(i) { PowOfOne(i); MulOne(At(c, i)); }
    SumExt(PolyTerms(c, One), Coeffs(c), |c|);
  }

  lemma EvalAtZero(c: seq<F>)
    requires |c| > 0
    ensures EvalPoly(c, Zero) == c[0]
  {
    hide Sum, Mul, Pow;
    forall i | 0 <= i < |c| && i != 0 ensures PolyTerms(c, Zero)(i) == Zero {
      PowStep(Zero, i); MulZero(Pow(Zero, i - 1)); MulZero(At(c, i));
    }
    SumPick(PolyTerms(c, Zero), |c|, 0);
    PowNil(Zero); MulOne(c[0]);
  }

  /** `[q_0, q_2, ..., q_d]` completed by the linear coefficient. */
  function WithLinear(coeffs: seq<F>, linear: F): seq<F>
    requires |coeffs| > 0
  {
    [coeffs[0], linear] + coeffs[1..]
  }

  lemma WithLinearAtOne(coeffs: seq<F>, linear: F)
    requires |coeffs| > 0
    ensures EvalPoly(WithLinear(coeffs, linear), One) == Add(Sum(Coeffs(coeffs), |coeffs|), linear)
  {
    hide *;
    var rest := coeffs[1..];
    WithLinearIs(coeffs, linear);
    EvalAtOne(coeffs);
    EvalSplit(coeffs, One);
    EvalCons(coeffs[0], [linear] + rest, One); EvalCons(linear, rest, One);
    LinearAtOne(coeffs[0], linear, EvalPoly(rest, One));
  }

  lemma WithLinearIs(coeffs: seq<F>, linear: F)
    requires |coeffs| > 0
    ensures WithLinear(coeffs, linear) == [coeffs[0]] + ([linear] + coeffs[1..])
  { }

  /** a + (linear + v) = (a + v) + linear */
  lemma LinearAtOne(a: F, linear: F, v: F)
    ensures Add(a, Mul(One, Add(linear, Mul(One, v)))) == Add(Add(a, Mul(One, v)), linear)
  {
    hide *;
    MulOne(v); MulOne(Add(linear, v));
    AddComm(linear, v); AddAssoc(a, v, linear);
  }

  lemma WithLinearLength(coeffs: seq<F>, linear: F)
    requires |coeffs| > 0
    ensures |WithLinear(coeffs, linear)| == |coeffs| + 1 && WithLinear(coeffs, linear)[0] == coeffs[0]
  { }

  /** s(0) + s(1) for s = l q. */
  function ClaimOf(at0: F, at1: F, q: seq<F>): F { Add(Mul(at0, EvalPoly(q, Zero)), Mul(at1, EvalPoly(q, One))) }

  /** `linear_term`. */
  function LinearTerm(at0: F, at1: F, constant: F, sum: F, claim: F): F
    requires at1 != Zero
  {
    Sub(Mul(Sub(claim, Mul(at0, constant)), Inv(at1)), sum)
  }

  /** When l(1) is nonzero, the recovered coefficient is the only one that meets the claim. */
  lemma LinearTermUnique(at0: F, at1: F, coeffs: seq<F>, claim: F, linear: F)
    requires at1 != Zero && |coeffs| > 0
    ensures ClaimOf(at0, at1, WithLinear(coeffs, linear)) == claim <==>
      linear == LinearTerm(at0, at1, coeffs[0], Sum(Coeffs(coeffs), |coeffs|), claim)
  {
    var q, sum := WithLinear(coeffs, linear), Sum(Coeffs(coeffs), |coeffs|);
    assert ClaimOf(at0, at1, q) == Add(Mul(at0, EvalPoly(q, Zero)), Mul(at1, EvalPoly(q, One)));
    assert LinearTerm(at0, at1, coeffs[0], sum, claim) == Sub(Mul(Sub(claim, Mul(at0, coeffs[0])), Inv(at1)), sum);
    hide *;
    WithLinearLength(coeffs, linear);
    EvalAtZero(q); WithLinearAtOne(coeffs, linear);
    SolveLinear(Mul(at0, coeffs[0]), at1, sum, linear, claim);
  }

  /** a + b (s + x) = claim exactly when x = (claim - a) / b - s. */
  lemma SolveLinear(a: F, b: F, s: F, x: F, claim: F)
    requires b != Zero
    ensures Add(a, Mul(b, Add(s, x))) == claim <==> x == Sub(Mul(Sub(claim, a), Inv(b)), s)
  {
    hide *;
    var rest := Sub(claim, a);
    MulInv(b);
    if Add(a, Mul(b, Add(s, x))) == claim {
      SubUnique(claim, a, Mul(b, Add(s, x)));
      MulComm(rest, Inv(b)); MulAssoc(Inv(b), b, Add(s, x)); MulOne(Add(s, x));
      SubUnique(Add(s, x), s, x);
    }
    if x == Sub(Mul(rest, Inv(b)), s) {
      AddSub(Mul(rest, Inv(b)), s);
      MulComm(rest, Inv(b)); MulAssoc(b, Inv(b), rest); MulOne(rest);
      AddSub(claim, a);
    }
  }

  /** When l(1) is zero, every linear coefficient gives the same claim. */
  lemma NotRecoverable(at0: F, coeffs: seq<F>, linear: F)
    requires |coeffs| > 0
    ensures ClaimOf(at0, Zero, WithLinear(coeffs, linear)) == Mul(at0, coeffs[0])
  {
    var q := WithLinear(coeffs, linear);
    hide EvalPoly, Mul, Add;
    EvalAtZero(q);
    MulZero(EvalPoly(q, One)); AddZero(Mul(at0, coeffs[0]));
  }

  /** A line that vanishes at 0 and 1 has a zero scalar, so l q is zero for every q. */
  lemma ZeroLine(scalar: F, t: F, x: F)
    requires LineAt(scalar, t, Zero) == Zero && LineAt(scalar, t, One) == Zero
    ensures LineAt(scalar, t, x) == Zero
  {
    LineEnds(scalar, t);
    hide EqOne;
    SubZero(scalar);
    MulZero(EqOne(t, x));
  }

  /** Then the zero polynomial is the round polynomial of every inner polynomial. */
  lemma ZeroRound(c: F, tau: seq<F>, rs: seq<F>, q: seq<F>)
    requires |rs| < |tau|
    requires LineAt(BoundScalar(c, tau, rs), tau[|rs|], Zero) == Zero && LineAt(BoundScalar(c, tau, rs), tau[|rs|], One) == Zero
    ensures IsRoundPoly([Zero], q, c, tau, rs)
  {
    hide EvalPoly, BoundScalar, LineAt, Mul;
    forall x: F ensures EvalPoly([Zero], x) == Mul(LineAt(BoundScalar(c, tau, rs), tau[|rs|], x), EvalPoly(q, x)) {
      ZeroLine(BoundScalar(c, tau, rs), tau[|rs|], x);
      MulZero(EvalPoly(q, x));
      EvalZeros([Zero], x);
    }
  }

  method SumOf(c: seq<F>) returns (sum: F)
    ensures sum == Sum(Coeffs(c), |c|)
  {
    sum := Zero;
    for i := 0 to |c|
      invariant sum == Sum(Coeffs(c), i)
    {
      sum := Add(sum, c[i]);
    }
  }

  /** `gruen_poly_from_coeffs_except_linear` of a prepared recovery with ends at0, at1. */
  method RecoverPrepared(coeffs: seq<F>, claim: F, at0: F, at1: F) returns (out: seq<F>, ghost linear: F)
    requires at1 != Zero && |coeffs| > 0
    ensures linear == LinearTerm(at0, at1, coeffs[0], Sum(Coeffs(coeffs), |coeffs|), claim)
    ensures |out| == |coeffs| + 2
    ensures forall x: F :: EvalPoly(out, x) == Mul(Add(at0, Mul(Sub(at1, at0), x)), EvalPoly(WithLinear(coeffs, linear), x))
  {
    hide EvalPoly, Sum, Mul, Add, Coeffs, LinearTerm;
    var sum := SumOf(coeffs);
    var term := LinearTerm(at0, at1, coeffs[0], sum, claim);
    linear := term;
    out := MulLinear([coeffs[0], term] + coeffs[1..], at0, Sub(at1, at0));
  }

  /** `can_recover_linear_q_term_from_claim`: before the last bind, exactly when l(1) is nonzero. */
  method CanRecover(state: GruenSplitEq, ghost c: F, ghost rs: seq<F>) returns (ok: bool)
    requires state.Reached(c, rs)
    ensures ok <==> |rs| < |state.tau| && LineAt(BoundScalar(c, state.tau, rs), state.tau[|rs|], One) != Zero
  {
    hide *;
    state.ReachedParts(c, rs);
    if state.currentRound >= |state.tau| { return false; }
    var at0, at1 := state.LinearFactorEvals(c, rs);
    ok := at1 != Zero;
  }

  /**
   `try_gruen_poly_from_coeffs_except_linear`: the zero polynomial for no coefficients or a zero line, None
   exactly when the line is nonzero but l(1) = 0, and otherwise l q for the one q that meets the claim. With
   coefficients to complete there must be a current variable: the source panics after the last one.
   */
  method TryRecover(state: GruenSplitEq, coeffs: seq<F>, claim: F, ghost c: F, ghost rs: seq<F>)
    returns (res: Option<seq<F>>, ghost q: seq<F>)
    requires state.Reached(c, rs) && (|coeffs| > 0 ==> |rs| < |state.tau|)
    ensures |coeffs| == 0 ==> res == Some([Zero])
    ensures |coeffs| > 0 ==>
      var at0, at1 := LineAt(BoundScalar(c, state.tau, rs), state.tau[|rs|], Zero), LineAt(BoundScalar(c, state.tau, rs), state.tau[|rs|], One);
      && (at0 == Zero && at1 == Zero ==> res == Some([Zero]) && forall p: seq<F> :: IsRoundPoly([Zero], p, c, state.tau, rs))
      && (!(at0 == Zero && at1 == Zero) ==> (res.Some? <==> at1 != Zero))
      && (at1 != Zero ==>
            && q == WithLinear(coeffs, LinearTerm(at0, at1, coeffs[0], Sum(Coeffs(coeffs), |coeffs|), claim))
            && IsRoundPoly(res.value, q, c, state.tau, rs) && ClaimOf(at0, at1, q) == claim)
  {
    hide *;
    q := [];
    if |coeffs| == 0 { return Some([Zero]), q; }
    state.ReachedParts(c, rs);
    var at0, at1 := state.LinearFactorEvals(c, rs);
    if at0 == Zero && at1 == Zero {
      forall p: seq<F> ensures IsRoundPoly([Zero], p, c, state.tau, rs) { ZeroRound(c, state.tau, rs, p); }
      return Some([Zero]), q;
    }
    if at1 == Zero { return None, q; }
    var out, linear := RecoverPrepared(coeffs, claim, at0, at1);
    LinearTermUnique(at0, at1, coeffs, claim, linear);
    q := WithLinear(coeffs, linear);
    RoundPolyIntro(out, q, c, state.tau, rs, at0, at1);
    res := Some(out);
  }

  // ----- the sumcheck over a whole run

  /** The product of the tables' entries at x. */
  function EntryProduct(ps: seq<seq<F>>, x: int): F {
    if |ps| == 0 then One else Mul(At(ps[0], x), EntryProduct(ps[1..], x))
  }

  function ClaimTerms(scalar: F, tau: seq<F>, ps: seq<seq<F>>): int -> F {
    (x: int) => Mul(Mul(scalar, EqInt(tau, x)), EntryProduct(ps, x))
  }

  /** scalar times the sum over the hypercube of eq(tau, x) times the tables' product at x. */
  function Claim(scalar: F, tau: seq<F>, ps: seq<seq<F>>): F { Sum(ClaimTerms(scalar, tau, ps), Pow2(|tau|)) }

  /** Every table folded by the same challenges. */
  function FoldTables(ps: seq<seq<F>>, rs: seq<F>): (qs: seq<seq<F>>)
    ensures |qs| == |ps|
  {
    seq(|ps|, i requires 0 <= i < |ps| => FoldAll(ps[i], rs))
  }

  lemma ClaimTermAt(scalar: F, tau: seq<F>, ps: seq<seq<F>>, x: int)
    ensures ClaimTerms(scalar, tau, ps)(x) == Mul(Mul(scalar, EqInt(tau, x)), EntryProduct(ps, x))
  { }

  lemma ClaimIs(scalar: F, tau: seq<F>, ps: seq<seq<F>>)
    ensures Claim(scalar, tau, ps) == Sum(ClaimTerms(scalar, tau, ps), Pow2(|tau|))
  { }

  /** A scalar moves in and out of a claim. */
  lemma ClaimScale(scalar: F, tau: seq<F>, ps: seq<seq<F>>)
    ensures Claim(scalar, tau, ps) == Mul(scalar, Claim(One, tau, ps))
  {
    hide *;
    var f, g := ClaimTerms(One, tau, ps), ClaimTerms(scalar, tau, ps);
    forall x | 0 <= x < Pow2(|tau|) ensures g(x) == Mul(scalar, f(x)) {
      ClaimTermAt(One, tau, ps, x); ClaimTermAt(scalar, tau, ps, x);
      MulOne(EqInt(tau, x));
      MulAssoc(scalar, EqInt(tau, x), EntryProduct(ps, x));
    }
    SumScale(scalar, f, g, Pow2(|tau|));
    ClaimIs(One, tau, ps); ClaimIs(scalar, tau, ps);
  }

  lemma FoldTablesOne(ps: seq<seq<F>>, i: nat, r: F)
    requires i < |ps|
    ensures FoldTables(ps, [r])[i] == FoldOnce(ps[i], r)
  {
    hide FoldOnce;
    FoldAllStep(ps[i], [r]);
    assert [r][1..] == [];
    FoldAllStep(FoldOnce(ps[i], r), []);
  }

  /** Folding at 0 keeps the even entries, folding at 1 the odd ones. */
  lemma FoldAtBit(s: seq<F>, x: nat)
    ensures At(FoldOnce(s, Zero), x) == At(s, 2 * x) && At(FoldOnce(s, One), x) == At(s, 2 * x + 1)
  {
    var a, b := At(s, 2 * x), At(s, 2 * x + 1);
    assert FoldOne(a, b, Zero) == a by { MulZero(Sub(b, a)); AddZero(a); }
    assert FoldOne(a, b, One) == b by { MulOne(Sub(b, a)); AddSub(b, a); }
  }

  lemma {:induction false} ProductAtBit(ps: seq<seq<F>>, x: nat)
    ensures EntryProduct(FoldTables(ps, [Zero]), x) == EntryProduct(ps, 2 * x)
    ensures EntryProduct(FoldTables(ps, [One]), x) == EntryProduct(ps, 2 * x + 1)
    decreases |ps|
  {
    if |ps| > 0 {
      FoldTablesRest(ps, Zero); FoldTablesRest(ps, One);
      FoldAtBit(ps[0], x);
      hide FoldTables, FoldOnce, Mul, At;
      ProductAtBit(ps[1..], x);
    }
  }

  lemma FoldTablesRest(ps: seq<seq<F>>, r: F)
    requires |ps| > 0
    ensures FoldTables(ps, [r])[0] == FoldOnce(ps[0], r) && FoldTables(ps, [r])[1..] == FoldTables(ps[1..], [r])
  {
    FoldTablesOne(ps, 0, r);
  }

  /** What a round polynomial's inner polynomial must be at X: the claim of the tables folded at X, over the later variables. */
  function InnerAt(tau: seq<F>, ps: seq<seq<F>>, x: F): F
    requires |tau| > 0
  {
    Claim(One, tau[1..], FoldTables(ps, [x]))
  }

  /** l(0) q(0) + l(1) q(1) is the claim before the round. */
  lemma RoundSums(scalar: F, tau: seq<F>, ps: seq<seq<F>>)
    requires |tau| > 0
    ensures Add(Mul(LineAt(scalar, tau[0], Zero), InnerAt(tau, ps, Zero)), Mul(LineAt(scalar, tau[0], One), InnerAt(tau, ps, One))) ==
      Claim(scalar, tau, ps)
  {
    hide *;
    var n := Pow2(|tau| - 1);
    Pow2Step(|tau| - 1);
    var l0, l1 := LineAt(scalar, tau[0], Zero), LineAt(scalar, tau[0], One);
    var e, g := ClaimTerms(scalar, tau, ps), (x: int) => Add(ClaimTerms(scalar, tau, ps)(2 * x), ClaimTerms(scalar, tau, ps)(2 * x + 1));
    SumPairs(e, g, n);
    var f0, f1 := ClaimTerms(l0, tau[1..], FoldTables(ps, [Zero])), ClaimTerms(l1, tau[1..], FoldTables(ps, [One]));
    forall x | 0 <= x < n ensures g(x) == Add(f0(x), f1(x)) { RoundPair(scalar, tau, ps, x); }
    SumAdd(f0, f1, g, n);
    ClaimIs(scalar, tau, ps);
    ClaimIs(l0, tau[1..], FoldTables(ps, [Zero])); ClaimIs(l1, tau[1..], FoldTables(ps, [One]));
    ClaimScale(l0, tau[1..], FoldTables(ps, [Zero])); ClaimScale(l1, tau[1..], FoldTables(ps, [One]));
    InnerIs(tau, ps, Zero); InnerIs(tau, ps, One);
  }

  lemma InnerIs(tau: seq<F>, ps: seq<seq<F>>, x: F)
    requires |tau| > 0
    ensures InnerAt(tau, ps, x) == Claim(One, tau[1..], FoldTables(ps, [x]))
  { }

  lemma RoundPair(scalar: F, tau: seq<F>, ps: seq<seq<F>>, x: nat)
    requires |tau| > 0
    ensures ClaimTerms(scalar, tau, ps)(2 * x) == ClaimTerms(LineAt(scalar, tau[0], Zero), tau[1..], FoldTables(ps, [Zero]))(x)
    ensures ClaimTerms(scalar, tau, ps)(2 * x + 1) == ClaimTerms(LineAt(scalar, tau[0], One), tau[1..], FoldTables(ps, [One]))(x)
  {
    hide *;
    ClaimTermAt(scalar, tau, ps, 2 * x); ClaimTermAt(scalar, tau, ps, 2 * x + 1);
    var l0, l1, e := LineAt(scalar, tau[0], Zero), LineAt(scalar, tau[0], One), EqAt(tau[1..], x);
    ClaimTermAt(l0, tau[1..], FoldTables(ps, [Zero]), x); ClaimTermAt(l1, tau[1..], FoldTables(ps, [One]), x);
    EqIntIs(tau, 2 * x); EqIntIs(tau, 2 * x + 1); EqIntIs(tau[1..], x);
    EqCons(tau, 2 * x); EqCons(tau, 2 * x + 1);
    FactorIs(tau[0]);
    ProductAtBit(ps, x);
    LineEnds(scalar, tau[0]);
    DistribSub(scalar, One, tau[0]); MulOne(scalar);
    MulAssoc(scalar, Factor(tau[0], 0), e); MulAssoc(scalar, Factor(tau[0], 1), e);
  }

  /** l(r) q(r) is the claim after binding r. */
  lemma RoundBinds(scalar: F, tau: seq<F>, ps: seq<seq<F>>, r: F)
    requires |tau| > 0
    ensures Mul(LineAt(scalar, tau[0], r), InnerAt(tau, ps, r)) == Claim(Mul(scalar, EqOne(tau[0], r)), tau[1..], FoldTables(ps, [r]))
  {
    hide Claim, EqOne, FoldTables;
    ClaimScale(LineAt(scalar, tau[0], r), tau[1..], FoldTables(ps, [r]));
  }

  lemma {:induction false} FoldSnoc(s: seq<F>, rs: seq<F>, r: F)
    ensures FoldAll(s, rs + [r]) == FoldOnce(FoldAll(s, rs), r)
    decreases |rs|
  {
    hide *;
    FoldAllStep(s, rs); FoldAllStep(s, rs + [r]);
    if |rs| == 0 {
      assert (rs + [r])[1..] == [];
      FoldAllStep(FoldOnce(s, r), []);
    } else {
      assert (rs + [r])[1..] == rs[1..] + [r];
      FoldSnoc(FoldOnce(s, rs[0]), rs[1..], r);
    }
  }

  lemma FoldTablesSnoc(ps: seq<seq<F>>, rs: seq<F>, r: F)
    ensures FoldTables(ps, rs + [r]) == FoldTables(FoldTables(ps, rs), [r])
  {
    hide FoldAll, FoldOnce;
    forall i | 0 <= i < |ps| ensures FoldTables(ps, rs + [r])[i] == FoldTables(FoldTables(ps, rs), [r])[i] {
      FoldSnoc(ps[i], rs, r);
      FoldTablesOne(FoldTables(ps, rs), i, r);
    }
  }

  /** The claim after binding rs: the state's scalar and unbound variables against the folded tables. */
  function ClaimAfter(c: F, tau: seq<F>, ps: seq<seq<F>>, rs: seq<F>): F
    requires |rs| <= |tau|
  {
    Claim(BoundScalar(c, tau, rs), tau[|rs|..], FoldTables(ps, rs))
  }

  /** poly is a correct round polynomial after rs: l times the inner polynomial of the folded tables, at X. */
  ghost predicate CorrectRound(poly: seq<F>, c: F, tau: seq<F>, ps: seq<seq<F>>, rs: seq<F>)
    requires |rs| < |tau|
  {
    forall x: F :: EvalPoly(poly, x) ==
      Mul(LineAt(BoundScalar(c, tau, rs), tau[|rs|], x), InnerAt(tau[|rs|..], FoldTables(ps, rs), x))
  }

  /** `gruen_mul` of coefficients of the inner polynomial is a correct round polynomial. */
  lemma GruenMulIsCorrect(out: seq<F>, q: seq<F>, c: F, tau: seq<F>, ps: seq<seq<F>>, rs: seq<F>)
    requires |rs| < |tau| && IsRoundPoly(out, q, c, tau, rs)
    requires forall x: F :: EvalPoly(q, x) == InnerAt(tau[|rs|..], FoldTables(ps, rs), x)
    ensures CorrectRound(out, c, tau, ps, rs)
  {
    hide EvalPoly, InnerAt, LineAt, BoundScalar, Mul;
  }

  /** One round of any run: the sum of the ends is the claim before it, the value at r the claim after binding r. */
  lemma RoundKeepsClaim(poly: seq<F>, c: F, tau: seq<F>, ps: seq<seq<F>>, rs: seq<F>, r: F)
    requires |rs| < |tau| && CorrectRound(poly, c, tau, ps, rs)
    ensures Add(EvalPoly(poly, Zero), EvalPoly(poly, One)) == ClaimAfter(c, tau, ps, rs)
    ensures EvalPoly(poly, r) == ClaimAfter(c, tau, ps, rs + [r])
  {
    CorrectAt(poly, c, tau, ps, rs, Zero); CorrectAt(poly, c, tau, ps, rs, One); CorrectAt(poly, c, tau, ps, rs, r);
    ClaimAfterIs(c, tau, ps, rs); ClaimAfterIs(c, tau, ps, rs + [r]);
    hide *;
    var scalar, rest, qs := BoundScalar(c, tau, rs), tau[|rs|..], FoldTables(ps, rs);
    assert rest[0] == tau[|rs|] && rest[1..] == tau[|rs| + 1..];
    RoundSums(scalar, rest, qs);
    RoundBinds(scalar, rest, qs, r);
    BoundNext(c, tau, rs, r);
    FoldTablesSnoc(ps, rs, r);
  }

  lemma CorrectAt(poly: seq<F>, c: F, tau: seq<F>, ps: seq<seq<F>>, rs: seq<F>, x: F)
    requires |rs| < |tau| && CorrectRound(poly, c, tau, ps, rs)
    ensures EvalPoly(poly, x) == Mul(LineAt(BoundScalar(c, tau, rs), tau[|rs|], x), InnerAt(tau[|rs|..], FoldTables(ps, rs), x))
  {
    hide EvalPoly, InnerAt, LineAt, BoundScalar, Mul;
  }

  lemma ClaimAfterIs(c: F, tau: seq<F>, ps: seq<seq<F>>, rs: seq<F>)
    requires |rs| <= |tau|
    ensures ClaimAfter(c, tau, ps, rs) == Claim(BoundScalar(c, tau, rs), tau[|rs|..], FoldTables(ps, rs))
  { }

  /** The product of the tables' multilinear evaluations at a point. */
  function EvalProduct(ps: seq<seq<F>>, point: seq<F>): F {
    if |ps| == 0 then One else Mul(Opening(true, ps[0], point), EvalProduct(ps[1..], point))
  }

  lemma {:induction false} FoldedProduct(ps: seq<seq<F>>, rs: seq<F>)
    requires forall i :: 0 <= i < |ps| ==> 0 < |ps[i]| <= Pow2(|rs|)
    ensures EntryProduct(FoldTables(ps, rs), 0) == EvalProduct(ps, rs)
    decreases |ps|
  {
    if |ps| > 0 {
      FoldAllIsOpening(ps[0], rs);
      assert FoldTables(ps, rs)[1..] == FoldTables(ps[1..], rs);
      assert At(FoldTables(ps, rs)[0], 0) == Opening(true, ps[0], rs);
      hide Opening, FoldAll, Mul, Pow2;
      FoldedProduct(ps[1..], rs);
    }
  }

  /** After the last variable the claim is the scalar times the product of the tables' evaluations at the challenges. */
  lemma FinalClaim(c: F, tau: seq<F>, ps: seq<seq<F>>, rs: seq<F>)
    requires |rs| == |tau| && forall i :: 0 <= i < |ps| ==> 0 < |ps[i]| <= Pow2(|tau|)
    ensures ClaimAfter(c, tau, ps, rs) == Mul(BoundScalar(c, tau, rs), EvalProduct(ps, rs))
  {
    var scalar, qs := BoundScalar(c, tau, rs), FoldTables(ps, rs);
    assert tau[|rs|..] == [];
    ClaimAfterIs(c, tau, ps, rs);
    ClaimIs(scalar, [], qs);
    SumOne(ClaimTerms(scalar, [], qs));
    ClaimTermAt(scalar, [], qs, 0);
    EqIntIs([], 0); EqNil(0); MulOne(scalar);
    hide EntryProduct, FoldTables, BoundScalar, Mul, EvalProduct;
    FoldedProduct(ps, rs);
  }

  /**
   Every run of the sumcheck: the first round's ends sum to the initial claim, each later round's ends sum to
   the previous round polynomial at its challenge, and the last value is the final scalar times the product of
   the tables' multilinear evaluations.
   */
  lemma SumcheckRun(c: F, tau: seq<F>, ps: seq<seq<F>>, rs: seq<F>, polys: seq<seq<F>>)
    requires |rs| == |tau| == |polys| > 0
    requires forall i :: 0 <= i < |ps| ==> 0 < |ps[i]| <= Pow2(|tau|)
    requires forall k :: 0 <= k < |tau| ==> CorrectRound(polys[k], c, tau, ps, rs[..k])
    ensures Add(EvalPoly(polys[0], Zero), EvalPoly(polys[0], One)) == ClaimAfter(c, tau, ps, [])
    ensures forall k :: 1 <= k < |tau| ==> Add(EvalPoly(polys[k], Zero), EvalPoly(polys[k], One)) == EvalPoly(polys[k - 1], rs[k - 1])
    ensures EvalPoly(polys[|tau| - 1], rs[|tau| - 1]) == Mul(BoundScalar(c, tau, rs), EvalProduct(ps, rs))
  {
    hide *;
    var n := |tau|;
    assert rs[..0] == [];
    RoundKeepsClaim(polys[0], c, tau, ps, rs[..0], rs[0]);
    forall k | 1 <= k < n ensures Add(EvalPoly(polys[k], Zero), EvalPoly(polys[k], One)) == EvalPoly(polys[k - 1], rs[k - 1]) {
      RoundKeepsClaim(polys[k - 1], c, tau, ps, rs[..k - 1], rs[k - 1]);
      assert rs[..k - 1] + [rs[k - 1]] == rs[..k];
      RoundKeepsClaim(polys[k], c, tau, ps, rs[..k], rs[k]);
    }
    RoundKeepsClaim(polys[n - 1], c, tau, ps, rs[..n - 1], rs[n - 1]);
    assert rs[..n - 1] + [rs[n - 1]] == rs;
    FinalClaim(c, tau, ps, rs);
  }

  // ----- the inner polynomial has coefficients

  /** The product over the tables of the lines through entries 2 j and 2 j + 1. */
  function EntryPoly(ps: seq<seq<F>>, j: nat): (q: seq<F>)
    ensures |q| == |ps| + 1
  {
    if |ps| == 0 then [One]
    else TimesLine(EntryPoly(ps[1..], j), At(ps[0], 2 * j), Sub(At(ps[0], 2 * j + 1), At(ps[0], 2 * j)))
  }

  lemma {:induction false} EvalEntryPoly(ps: seq<seq<F>>, j: nat, x: F)
    ensures EvalPoly(EntryPoly(ps, j), x) == EntryProduct(FoldTables(ps, [x]), j)
    decreases |ps|
  {
    if |ps| == 0 {
      assert [One][1..] == [] && FoldTables(ps, [x]) == [];
      EvalSplit([One], x); EvalNil(x); MulZero(x); AddZero(One);
    } else {
      var a, b, rest := At(ps[0], 2 * j), At(ps[0], 2 * j + 1), EntryPoly(ps[1..], j);
      assert EntryPoly(ps, j) == TimesLine(rest, a, Sub(b, a));
      FoldTablesRest(ps, x);
      AtFoldOnce(ps[0], x, j);
      assert Combine(true, a, b, x) == Add(a, Mul(Sub(b, a), x));
      assert EntryProduct(FoldTables(ps, [x]), j) == Mul(At(FoldTables(ps, [x])[0], j), EntryProduct(FoldTables(ps, [x])[1..], j));
      hide *;
      EvalEntryPoly(ps[1..], j, x);
      EvalTimesLine(rest, a, Sub(b, a), x);
    }
  }

  /** The first n terms of the inner polynomial over the later variables t. */
  function InnerCoeffs(t: seq<F>, ps: seq<seq<F>>, n: nat): (q: seq<F>)
    ensures |q| == |ps| + 1
  {
    if n == 0 then seq(|ps| + 1, _ => Zero)
    else PolyAdd(InnerCoeffs(t, ps, n - 1), PolyScale(EqInt(t, n - 1), EntryPoly(ps, n - 1)))
  }

  lemma InnerCoeffsAre(t: seq<F>, ps: seq<seq<F>>, n: nat)
    ensures n == 0 ==> forall i :: 0 <= i < |InnerCoeffs(t, ps, n)| ==> InnerCoeffs(t, ps, n)[i] == Zero
    ensures n > 0 ==> InnerCoeffs(t, ps, n) == PolyAdd(InnerCoeffs(t, ps, n - 1), PolyScale(EqInt(t, n - 1), EntryPoly(ps, n - 1)))
  {
    hide PolyAdd, PolyScale, EntryPoly, EqInt;
  }

  lemma {:induction false} EvalInnerCoeffs(t: seq<F>, ps: seq<seq<F>>, n: nat, x: F)
    ensures EvalPoly(InnerCoeffs(t, ps, n), x) == Sum(ClaimTerms(One, t, FoldTables(ps, [x])), n)
  {
    hide *;
    var terms := ClaimTerms(One, t, FoldTables(ps, [x]));
    InnerCoeffsAre(t, ps, n);
    if n == 0 {
      EvalZeros(InnerCoeffs(t, ps, 0), x);
      SumNil(terms);
    } else {
      var before, entry, w := InnerCoeffs(t, ps, n - 1), EntryPoly(ps, n - 1), EqInt(t, n - 1);
      EvalInnerCoeffs(t, ps, n - 1, x);
      EvalAdd(before, PolyScale(w, entry), x);
      EvalScale(w, entry, x);
      EvalEntryPoly(ps, n - 1, x);
      SumSnoc(terms, n);
      ClaimTermAt(One, t, FoldTables(ps, [x]), n - 1);
      MulOne(w);
    }
  }

  /** For any tables the inner polynomial has one more coefficient than there are tables. */
  lemma InnerPolynomial(tau: seq<F>, ps: seq<seq<F>>) returns (q: seq<F>)
    requires |tau| > 0
    ensures |q| == |ps| + 1 && forall x: F :: EvalPoly(q, x) == InnerAt(tau, ps, x)
  {
    hide *;
    var n := Pow2(|tau| - 1);
    q := InnerCoeffs(tau[1..], ps, n);
    forall x: F ensures EvalPoly(q, x) == InnerAt(tau, ps, x) {
      EvalInnerCoeffs(tau[1..], ps, n, x);
      InnerIs(tau, ps, x);
      ClaimIs(One, tau[1..], FoldTables(ps, [x]));
    }
  }

  /** So every state has a correct round polynomial for any tables: the hypothesis of the run is always met. */
  lemma CorrectRoundExists(c: F, tau: seq<F>, ps: seq<seq<F>>, rs: seq<F>) returns (poly: seq<F>)
    requires |rs| < |tau|
    ensures |poly| == |ps| + 2 && CorrectRound(poly, c, tau, ps, rs)
  {
    hide *;
    var rest, scalar := tau[|rs|..], BoundScalar(c, tau, rs);
    var q := InnerPolynomial(rest, FoldTables(ps, rs));
    var at1 := Mul(scalar, tau[|rs|]);
    var at0 := Sub(scalar, at1);
    poly := TimesLine(q, at0, Sub(at1, at0));
    forall x: F ensures EvalPoly(poly, x) == Mul(Add(at0, Mul(Sub(at1, at0), x)), EvalPoly(q, x)) {
      EvalTimesLine(q, at0, Sub(at1, at0), x);
    }
    RoundPolyIntro(poly, q, c, tau, rs, at0, at1);
    GruenMulIsCorrect(poly, q, c, tau, ps, rs);
  }

  // ----- one table, run with the state machine

  function EvenTerms(t: seq<F>, p: seq<F>): int -> F { (j: int) => Mul(EqInt(t, j), At(p, 2 * j)) }

  function SlopeTerms(t: seq<F>, p: seq<F>): int -> F { (j: int) => Mul(EqInt(t, j), Sub(At(p, 2 * j + 1), At(p, 2 * j))) }

  lemma PairTermsAt(t: seq<F>, p: seq<F>, j: int)
    ensures EvenTerms(t, p)(j) == Mul(EqInt(t, j), At(p, 2 * j))
    ensures SlopeTerms(t, p)(j) == Mul(EqInt(t, j), Sub(At(p, 2 * j + 1), At(p, 2 * j)))
  { }

  /** One table's inner polynomial is the line through its even sum with its slope sum. */
  lemma LineIsInner(tau: seq<F>, p: seq<F>, x: F, q: seq<F>)
    requires |tau| > 0 && |q| == 2
    requires q[0] == Sum(EvenTerms(tau[1..], p), Pow2(|tau| - 1)) && q[1] == Sum(SlopeTerms(tau[1..], p), Pow2(|tau| - 1))
    ensures EvalPoly(q, x) == InnerAt(tau, [p], x)
  {
    hide *;
    var t, n := tau[1..], Pow2(|tau| - 1);
    var f, e, s := ClaimTerms(One, t, FoldTables([p], [x])), EvenTerms(t, p), SlopeTerms(t, p);
    forall j | 0 <= j < n ensures f(j) == Add(Mul(One, e(j)), Mul(x, s(j))) { PairTerm(t, p, x, j); }
    SumOfTwo(f, e, s, One, x, n);
    MulOne(Sum(e, n));
    InnerIs(tau, [p], x); ClaimIs(One, t, FoldTables([p], [x]));
    assert q == [q[0]] + ([q[1]] + []);
    EvalCons(q[0], [q[1]] + [], x); EvalCons(q[1], [], x); EvalNil(x); MulZero(x); AddZero(q[1]);
  }

  lemma PairTerm(t: seq<F>, p: seq<F>, x: F, j: nat)
    ensures ClaimTerms(One, t, FoldTables([p], [x]))(j) == Add(Mul(One, EvenTerms(t, p)(j)), Mul(x, SlopeTerms(t, p)(j)))
  {
    var a, b, w := At(p, 2 * j), At(p, 2 * j + 1), EqInt(t, j);
    FoldTablesOne([p], 0, x);
    AtFoldOnce(p, x, j);
    SingleProduct(FoldTables([p], [x]), j);
    assert Combine(true, a, b, x) == Add(a, Mul(Sub(b, a), x));
    MulComm(x, Sub(b, a));
    hide *;
    ClaimTermAt(One, t, FoldTables([p], [x]), j);
    PairTermsAt(t, p, j);
    MulOne(w); MulOne(Mul(w, a));
    Distrib(w, a, Mul(x, Sub(b, a)));
    MulAssoc(w, x, Sub(b, a)); MulComm(w, x); MulAssoc(x, w, Sub(b, a));
  }

  lemma SingleProduct(ps: seq<seq<F>>, x: int)
    requires |ps| == 1
    ensures EntryProduct(ps, x) == At(ps[0], x)
  {
    assert ps[1..] == [];
    MulOne(At(ps[0], x));
  }

  /** The inner coefficients of one table, from the two table tops of the round. */
  method InnerFromTops(first: seq<F>, second: seq<F>, p: seq<F>, ghost tau: seq<F>, ghost round: nat) returns (q: seq<F>)
    requires round < |tau| && (first, second) == TopTables(tau, round)
    ensures |q| == 2 && forall x: F :: EvalPoly(q, x) == InnerAt(tau[round..], [p], x)
  {
    hide *;
    TopsCover(tau, round);
    ghost var t, e, s := tau[round..][1..], EvenTerms(tau[round..][1..], p), SlopeTerms(tau[round..][1..], p);
    assert t == tau[round + 1..];
    var q0, q1 := Zero, Zero;
    SumNil(e); SumNil(s);
    AtInside(p);
    for j := 0 to |first| * |second|
      invariant q0 == Sum(e, j) && q1 == Sum(s, j)
    {
      TablesFactorEq(tau, round, j);
      EqIntIs(t, j);
      var weight := Mul(first[j % |first|], second[j / |first|]);
      var low, high := At(p, 2 * j), At(p, 2 * j + 1);
      PairTermsAt(t, p, j);
      SumSnoc(e, j + 1); SumSnoc(s, j + 1);
      q0 := Add(q0, Mul(weight, low));
      q1 := Add(q1, Mul(weight, Sub(high, low)));
    }
    q := [q0, q1];
    forall x: F ensures EvalPoly(q, x) == InnerAt(tau[round..], [p], x) { LineIsInner(tau[round..], p, x, q); }
  }

  lemma TopsCover(tau: seq<F>, round: nat)
    requires round < |tau|
    ensures var (first, second) := TopTables(tau, round); |first| > 0 && |first| * |second| == Pow2(|tau| - 1 - round)
  {
    hide *;
    var a, b := SuffixOf(FirstHalf(tau), FirstLevels(|tau|, round)), SuffixOf(SecondHalf(tau), SecondLevels(|tau|, round));
    TopTablesAre(tau, round);
    SuffixesAreUnbound(tau, round);
    assert |a + b| == |tau| - 1 - round;
    Pow2Add(|a|, |b|);
  }

  lemma FoldOneTable(table: seq<F>, rs: seq<F>) ensures FoldTables([table], rs) == [FoldAll(table, rs)] { }

  /**
   The sumcheck of one table: each round its inner coefficients from the tops, `gruen_mul`, `bind` and one fold.
   Over every run the rounds chain from the initial claim to the final scalar times the multilinear evaluation.
   */
  method RunSumcheck(tau: seq<F>, c: F, table: seq<F>, rs: seq<F>) returns (res: Result<seq<seq<F>>>, last: F)
    requires |rs| == |tau| && 0 < |table| <= Pow2(|tau|)
    ensures res.Ok? <==> 1 <= |tau| <= 125
    ensures res.Ok? ==> |res.value| == |tau|
    ensures res.Ok? ==> Add(EvalPoly(res.value[0], Zero), EvalPoly(res.value[0], One)) == Mul(c, Opening(true, table, tau))
    ensures res.Ok? ==> forall k :: 1 <= k < |tau| ==>
      Add(EvalPoly(res.value[k], Zero), EvalPoly(res.value[k], One)) == EvalPoly(res.value[k - 1], rs[k - 1])
    ensures res.Ok? ==> EvalPoly(res.value[|tau| - 1], rs[|tau| - 1]) == last == Mul(BoundScalar(c, tau, rs), Opening(true, table, rs))
  {
    hide *;
    last := Zero;
    var made := GruenSplitEq.WithInitialScalar(tau, c);
    if made.Err? { return Err, last; }
    var state := made.value;
    var p, polys: seq<seq<F>> := table, [];
    FoldAllStep(table, []);
    assert rs[..0] == [];
    for k := 0 to |tau|
      invariant fresh(state) && state.tau == tau && state.Reached(c, rs[..k])
      invariant |p| > 0 && p == FoldAll(table, rs[..k]) && |polys| == k
      invariant forall i :: 0 <= i < k ==> CorrectRound(polys[i], c, tau, [table], rs[..i])
    {
      state.ReachedParts(c, rs[..k]);
      var first, second := state.RemainingEqTables(c, rs[..k]);
      var q := InnerFromTops(first, second, p, tau, k);
      FoldOneTable(table, rs[..k]);
      var poly := GruenMul(state, q, c, rs[..k]);
      GruenMulIsCorrect(poly, q, c, tau, [table], rs[..k]);
      polys := polys + [poly];
      state.Bind(rs[k], c, rs[..k]);
      FoldSnoc(table, rs[..k], rs[k]);
      assert rs[..k + 1] == rs[..k] + [rs[k]];
      p := FoldEvalsInPlace(p, rs[k]);
    }
    assert rs[..|tau|] == rs;
    SumcheckRun(c, tau, [table], rs, polys);
    FoldAllIsOpening(table, rs);
    SingleEvaluation(table, rs);
    InitialClaim(c, tau, table);
    state.ReachedParts(c, rs);
    last := Mul(state.currentScalar, p[0]);
    res := Ok(polys);
  }

  /** Before any round, the claim for one table is the scalar times its multilinear evaluation at tau. */
  lemma InitialClaim(c: F, tau: seq<F>, table: seq<F>)
    ensures ClaimAfter(c, tau, [table], []) == Mul(c, Opening(true, table, tau))
  {
    hide *;
    ClaimAfterIs(c, tau, [table], []);
    BoundNothing(c, tau);
    FoldOneTable(table, []); FoldAllStep(table, []);
    assert tau[0..] == tau;
    ClaimIs(c, tau, [table]); OpeningIsSum(true, table, tau);
    forall x | 0 <= x < Pow2(|tau|) ensures ClaimTerms(c, tau, [table])(x) == Mul(c, Terms(true, table, tau)(x)) {
      ClaimTermAt(c, tau, [table], x); TermAt(true, table, tau, x);
      SingleEntry(table, x);
      EqIntIs(tau, x); LagrangeWeightIsEq(tau, x);
      MulAssoc(c, EqAt(tau, x), At(table, x));
    }
    SumScale(c, Terms(true, table, tau), ClaimTerms(c, tau, [table]), Pow2(|tau|));
  }

  lemma SingleEntry(table: seq<F>, x: int)
    ensures EntryProduct([table], x) == At(table, x)
  {
    assert [table][1..] == [];
    MulOne(At(table, x));
  }

  lemma SingleEvaluation(table: seq<F>, rs: seq<F>)
    ensures EvalProduct([table], rs) == Opening(true, table, rs)
  {
    assert [table][1..] == [];
    MulOne(Opening(true, table, rs));
  }
}
