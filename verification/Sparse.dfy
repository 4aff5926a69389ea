/**
 Sparse challenges: their bitmap validator and their evaluation.
 Models crates/akita-challenges/src/challenge.rs.
 */
module Sparse {
  import opened Arith
  import opened Field
  import opened Sums
  import opened Powers

  datatype SparseChallenge = SparseChallenge(positions: seq<nat>, coeffs: seq<int>)

  /** The sampler's invariants for ring dimension d. */
  ghost predicate WellFormed(c: SparseChallenge, d: nat) {
    && |c.positions| == |c.coeffs|
    && (forall i :: 0 <= i < |c.positions| ==> c.positions[i] < d && c.coeffs[i] != 0)
    && forall i, j :: 0 <= i < j < |c.positions| ==> c.positions[i] != c.positions[j]
  }

  // ----- words of a bitmap

  /** Bit i of a word: `word & (1 << i) != 0`. */
  predicate Bit(w: nat, i: nat) { if i == 0 then w % 2 == 1 else Bit(w / 2, i - 1) }

  /** `word | (1 << i)`. */
  function WithBit(w: nat, i: nat): nat { if i == 0 then w / 2 * 2 + 1 else w % 2 + 2 * WithBit(w / 2, i - 1) }

  lemma {:induction false} WithBitSets(w: nat, i: nat, j: nat)
    ensures Bit(WithBit(w, i), j) <==> i == j || Bit(w, j)
  {
    if i > 0 && j > 0 { WithBitSets(w / 2, i - 1, j - 1); }
  }

  lemma {:induction false} ZeroHasNoBits(i: nat)
    ensures !Bit(0, i)
  {
    if i > 0 { ZeroHasNoBits(i - 1); }
  }

  const WORD_BITS: nat := 64

  /** The bitmap marks exactly the first n positions. */
  ghost predicate Marks(seen: seq<nat>, positions: seq<nat>, n: nat, d: nat)
    requires n <= |positions|
  {
    && |seen| * WORD_BITS >= d
    && forall p: nat :: p < d ==> (Bit(seen[p / WORD_BITS], p % WORD_BITS) <==> p in positions[..n])
  }

  lemma MarksNext(seen: seq<nat>, positions: seq<nat>, n: nat, d: nat)
    requires n < |positions| && positions[n] < d && Marks(seen, positions, n, d)
    ensures
      var p := positions[n];
      Marks(seen[p / WORD_BITS := WithBit(seen[p / WORD_BITS], p % WORD_BITS)], positions, n + 1, d)
  {
    hide Bit, WithBit;
    var p := positions[n];
    var next := seen[p / WORD_BITS := WithBit(seen[p / WORD_BITS], p % WORD_BITS)];
    assert positions[..n + 1] == positions[..n] + [p];
    forall x: nat | x < d ensures Bit(next[x / WORD_BITS], x % WORD_BITS) <==> x in positions[..n + 1] {
      WithBitSets(seen[p / WORD_BITS], p % WORD_BITS, x % WORD_BITS);
    }
  }

  /** The checks passed so far. */
  ghost predicate Passed(c: SparseChallenge, n: nat, d: nat)
    requires n <= |c.positions| == |c.coeffs|
  {
    && (forall i :: 0 <= i < n ==> c.positions[i] < d && c.coeffs[i] != 0)
    && forall i, j :: 0 <= i < j < n ==> c.positions[i] != c.positions[j]
  }

  /** `validate_dyn`: accepts exactly the well-formed challenges. */
  method ValidateDyn(c: SparseChallenge, d: nat) returns (ok: bool)
    ensures ok <==> WellFormed(c, d)
    ensures ok <==>
      && |c.positions| == |c.coeffs|
      && (forall i :: 0 <= i < |c.positions| ==> c.positions[i] < d && c.coeffs[i] != 0)
      && forall i, j :: 0 <= i < j < |c.positions| ==> c.positions[i] != c.positions[j]
  {
    if |c.positions| != |c.coeffs| { return false; }
    var seen: seq<nat> := seq((d + WORD_BITS - 1) / WORD_BITS, _ => 0);
    NothingMarked(seen, c.positions, d);
    hide Marks;
    for n := 0 to |c.positions|
      invariant |seen| * WORD_BITS >= d && Marks(seen, c.positions, n, d) && Passed(c, n, d)
    {
      var p := c.positions[n];
      if p >= d { return false; }
      if c.coeffs[n] == 0 { return false; }
      MarkedMeans(seen, c.positions, n, d, p);
      if Bit(seen[p / WORD_BITS], p % WORD_BITS) {
        RepeatedPosition(c.positions, n);
        return false;
      }
      FreshPosition(c.positions, n);
      MarksNext(seen, c.positions, n, d);
      seen := seen[p / WORD_BITS := WithBit(seen[p / WORD_BITS], p % WORD_BITS)];
    }
    ok := true;
  }

  lemma NothingMarked(seen: seq<nat>, positions: seq<nat>, d: nat)
    requires |seen| * WORD_BITS >= d && forall i :: 0 <= i < |seen| ==> seen[i] == 0
    ensures Marks(seen, positions, 0, d)
  {
    hide Bit;
    forall p: nat | p < d ensures !Bit(seen[p / WORD_BITS], p % WORD_BITS) { ZeroHasNoBits(p % WORD_BITS); }
  }

  lemma MarkedMeans(seen: seq<nat>, positions: seq<nat>, n: nat, d: nat, p: nat)
    requires n <= |positions| && p < d && Marks(seen, positions, n, d)
    ensures p / WORD_BITS < |seen| && (Bit(seen[p / WORD_BITS], p % WORD_BITS) <==> p in positions[..n])
  { }

  lemma RepeatedPosition(positions: seq<nat>, n: nat)
    requires n < |positions| && positions[n] in positions[..n]
    ensures exists i :: 0 <= i < n && positions[i] == positions[n]
  { }

  lemma FreshPosition(positions: seq<nat>, n: nat)
    requires n < |positions| && positions[n] !in positions[..n]
    ensures forall i :: 0 <= i < n ==> positions[i] != positions[n]
  {
    forall i | 0 <= i < n ensures positions[i] != positions[n] { assert positions[..n][i] == positions[i]; }
  }

  // ----- evaluation

  /** A small signed integer in the field. */
  function FromInt(c: int): F { if c >= 0 then FromNat(c) else Neg(FromNat(-c)) }

  function SparseTerm(c: SparseChallenge, pows: seq<F>, stride: nat, i: int): F {
    if 0 <= i < |c.positions| && i < |c.coeffs| then Mul(FromInt(c.coeffs[i]), At(pows, Times(c.positions[i], stride))) else Zero
  }

  function SparseTerms(c: SparseChallenge, pows: seq<F>, stride: nat): int -> F { (i: int) => SparseTerm(c, pows, stride, i) }

  /** The sparse polynomial X^(stride * position) at the powers. */
  function Evaluation(c: SparseChallenge, pows: seq<F>, stride: nat): F { Sum(SparseTerms(c, pows, stride), |c.positions|) }

  lemma SmallInts(v: F)
    ensures Mul(FromInt(1), v) == v && Mul(FromInt(-1), v) == Neg(v)
    ensures Mul(FromInt(2), v) == Add(v, v) && Mul(FromInt(-2), v) == Neg(Add(v, v))
  {
    assert FromNat(1) == One by { SumSnoc(_ => One, 1); SumNil(_ => One); AddZero(One); }
    assert FromNat(2) == Add(One, One) by { SumSnoc(_ => One, 2); }
    hide *;
    FromIntIs(1); FromIntIs(2);
    MulOne(v); MulNeg(One, v);
    Distrib(v, One, One); MulNeg(Add(One, One), v);
  }

  lemma FromIntIs(n: nat)
    ensures FromInt(n) == FromNat(n) && (n > 0 ==> FromInt(0 - n) == Neg(FromNat(n)))
  { }

  /** `accumulate_small_signed`: additions for magnitudes one and two, a multiplication otherwise. */
  function Accumulate(acc: F, v: F, c: int): F {
    if c == 1 then Add(acc, v)
    else if c == -1 then Sub(acc, v)
    else if c == 2 then Add(Add(acc, v), v)
    else if c == -2 then Sub(Sub(acc, v), v)
    else Add(acc, Mul(v, FromInt(c)))
  }

  lemma AccumulateAdds(acc: F, v: F, c: int)
    ensures Accumulate(acc, v, c) == Add(acc, Mul(FromInt(c), v))
  {
    SmallInts(v);
    hide FromInt, Mul;
    AddAssoc(acc, v, v); AddAssoc(acc, Neg(v), Neg(v)); NegAdd(v, v);
    MulComm(v, FromInt(c));
  }

  /** What `eval_at_pows` checks. */
  ghost predicate Evaluable(c: SparseChallenge, d: nat) {
    |c.positions| == |c.coeffs| && forall i :: 0 <= i < |c.positions| ==> c.positions[i] < d && c.coeffs[i] != 0
  }

  /** `eval_at_pows`. */
  method EvalAtPows(c: SparseChallenge, pows: seq<F>) returns (res: Result<F>)
    ensures res.Ok? <==> Evaluable(c, |pows|)
    ensures res.Ok? <==> |c.positions| == |c.coeffs| && forall i :: 0 <= i < |c.positions| ==> c.positions[i] < |pows| && c.coeffs[i] != 0
    ensures res.Ok? ==> res.value == Evaluation(c, pows, 1)
  {
    if |c.positions| != |c.coeffs| { return Err; }
    var signed := true;
    for i := 0 to |c.positions|
      invariant forall j :: 0 <= j < i ==> c.positions[j] < |pows| && c.coeffs[j] != 0
      invariant signed ==> forall j :: 0 <= j < i ==> c.coeffs[j] in {-2, -1, 1, 2}
    {
      if c.positions[i] >= |pows| || c.coeffs[i] == 0 { return Err; }
      signed := signed && c.coeffs[i] in {-2, -1, 1, 2};
    }
    var acc := Zero;
    ghost var terms := SparseTerms(c, pows, 1);
    SumNil(terms);
    hide Sum, FromInt, Accumulate, SparseTerms;
    for i := 0 to |c.positions|
      invariant acc == Sum(terms, i)
    {
      var v, coefficient := pows[c.positions[i]], c.coeffs[i];
      SparseTermAt(c, pows, i);
      SumSnoc(terms, i + 1);
      AccumulateAdds(acc, v, coefficient);
      if signed {
        acc := SignedSum(acc, v, coefficient);
      } else {
        acc := Accumulate(acc, v, coefficient);
      }
    }
    res := Ok(acc);
  }

  lemma SparseTermAt(c: SparseChallenge, pows: seq<F>, i: nat)
    requires i < |c.positions| == |c.coeffs| && c.positions[i] < |pows|
    ensures SparseTerms(c, pows, 1)(i) == Mul(FromInt(c.coeffs[i]), pows[c.positions[i]])
  {
    TimesOne(c.positions[i]);
  }

  /** One position of `signed_sum`: the power repeated |coefficient| times with the coefficient's sign. */
  method SignedSum(acc0: F, v: F, c: int) returns (acc: F)
    requires c in {-2, -1, 1, 2}
    ensures acc == Add(acc0, Mul(FromInt(c), v))
  {
    AccumulateAdds(acc0, v, c);
    hide FromInt, Mul;
    var times := if c < 0 then -c else c;
    acc := acc0;
    var k := 0;
    while k < times
      invariant 0 <= k <= times <= 2
      invariant acc == if k == 0 then acc0 else if k == 1 then (if c < 0 then Sub(acc0, v) else Add(acc0, v))
        else if c < 0 then Sub(Sub(acc0, v), v) else Add(Add(acc0, v), v)
    {
      acc := if c < 0 then Sub(acc, v) else Add(acc, v);
      k := k + 1;
    }
  }

  // ----- what the evaluation is

  /** Field integers count up by one. */
  lemma FromIntCounts(c: int)
    ensures FromInt(0) == Zero && FromInt(c + 1) == Add(FromInt(c), One)
  {
    SumNil(_ => One);
    if c >= 0 {
      SumSnoc(_ => One, c + 1);
    } else {
      SumSnoc(_ => One, -c);
      var n := FromNat(-c - 1);
      hide *;
      FromIntIs(-c); FromIntIs(-c - 1);
      NegZero();
      NegAdd(n, One); AddAssoc(Neg(n), Neg(One), One); AddNeg(One); AddComm(Neg(One), One); AddZero(Neg(n));
    }
  }

  /** No terms evaluate to zero, and one more term adds its coefficient times its power. */
  lemma EvaluationAppends(c: SparseChallenge, pows: seq<F>, stride: nat, position: nat, coefficient: int)
    requires |c.positions| == |c.coeffs|
    ensures Evaluation(SparseChallenge([], []), pows, stride) == Zero
    ensures Evaluation(SparseChallenge(c.positions + [position], c.coeffs + [coefficient]), pows, stride) ==
      Add(Evaluation(c, pows, stride), Mul(FromInt(coefficient), At(pows, position * stride)))
  {
    hide *;
    var longer, n := SparseChallenge(c.positions + [position], c.coeffs + [coefficient]), |c.positions|;
    EvaluationIs(SparseChallenge([], []), pows, stride); SumNil(SparseTerms(SparseChallenge([], []), pows, stride));
    EvaluationIs(longer, pows, stride); EvaluationIs(c, pows, stride);
    SumSnoc(SparseTerms(longer, pows, stride), n + 1);
    LastTerm(longer, pows, stride, n);
    forall i | 0 <= i < n ensures SparseTerms(longer, pows, stride)(i) == SparseTerms(c, pows, stride)(i) {
      SameTerm(c, longer, pows, stride, i);
    }
    SumExt(SparseTerms(longer, pows, stride), SparseTerms(c, pows, stride), n);
  }

  lemma EvaluationIs(c: SparseChallenge, pows: seq<F>, stride: nat)
    ensures Evaluation(c, pows, stride) == Sum(SparseTerms(c, pows, stride), |c.positions|)
  { }

  lemma LastTerm(c: SparseChallenge, pows: seq<F>, stride: nat, i: nat)
    requires i < |c.positions| == |c.coeffs|
    ensures SparseTerms(c, pows, stride)(i) == Mul(FromInt(c.coeffs[i]), At(pows, c.positions[i] * stride))
  { }

  lemma SameTerm(c: SparseChallenge, e: SparseChallenge, pows: seq<F>, stride: nat, i: nat)
    requires i < |c.positions| == |c.coeffs| && i < |e.positions| == |e.coeffs| && c.positions[i] == e.positions[i] && c.coeffs[i] == e.coeffs[i]
    ensures SparseTerms(e, pows, stride)(i) == SparseTerms(c, pows, stride)(i)
  { }

  /** The coefficient list of the first n terms: each coefficient at its strided position, zero elsewhere. */
  ghost predicate IsDense(c: SparseChallenge, stride: nat, n: nat, dense: seq<F>)
    requires n <= |c.positions| == |c.coeffs|
  {
    && (forall i :: 0 <= i < n ==> Times(c.positions[i], stride) < |dense| && At(dense, Times(c.positions[i], stride)) == FromInt(c.coeffs[i]))
    && forall x :: 0 <= x < |dense| && (forall i :: 0 <= i < n ==> Times(c.positions[i], stride) != x) ==> dense[x] == Zero
  }

  lemma ScaleIsInjective(p: nat, q: nat, s: nat)
    requires s >= 1 && Times(p, s) == Times(q, s)
    ensures p == q
  {
    if p < q { MulMono(p + 1, q, s); } else if q < p { MulMono(q + 1, p, s); }
  }

  lemma DropTerm(c: SparseChallenge, d: nat, stride: nat, n: nat, dense: seq<F>)
    requires WellFormed(c, d) && 0 < n <= |c.positions| && stride >= 1 && IsDense(c, stride, n, dense)
    ensures
      var p := Times(c.positions[n - 1], stride);
      0 <= p < |dense| && dense[p] == FromInt(c.coeffs[n - 1]) && IsDense(c, stride, n - 1, dense[p := Zero])
  {
    var p := Times(c.positions[n - 1], stride);
    TimesNat(c.positions[n - 1], stride);
    hide Times, FromInt;
    forall i | 0 <= i < n - 1 ensures Times(c.positions[i], stride) != p && Times(c.positions[i], stride) >= 0 {
      TimesNat(c.positions[i], stride);
      if Times(c.positions[i], stride) == p { ScaleIsInjective(c.positions[i], c.positions[n - 1], stride); }
    }
    var next := dense[p := Zero];
    forall x | 0 <= x < |next| && (forall i :: 0 <= i < n - 1 ==> Times(c.positions[i], stride) != x) ensures next[x] == Zero {
      if x != p { assert forall i :: 0 <= i < n ==> Times(c.positions[i], stride) != x; }
    }
  }

  /** Two sums that differ in one summand. */
  lemma {:induction false} SumDiffers(f: int -> F, g: int -> F, n: nat, k: nat, v: F)
    requires k < n && (forall i :: 0 <= i < n && i != k ==> f(i) == g(i)) && f(k) == Zero && g(k) == v
    ensures Sum(g, n) == Add(Sum(f, n), v)
  {
    hide *;
    SumSnoc(f, n); SumSnoc(g, n);
    if k == n - 1 {
      SumExt(f, g, n - 1);
      AddZero(Sum(f, n - 1));
    } else {
      SumDiffers(f, g, n - 1, k, v);
      AddAssoc(Sum(f, n - 1), v, f(n - 1)); AddComm(v, f(n - 1)); AddAssoc(Sum(f, n - 1), f(n - 1), v);
    }
  }

  lemma DenseTermDrops(dense: seq<F>, p: nat, a: F)
    requires p < |dense|
    ensures EvalPoly(dense, a) == Add(EvalPoly(dense[p := Zero], a), Mul(dense[p], Pow(a, p)))
  {
    var f, g := PolyTerms(dense[p := Zero], a), PolyTerms(dense, a);
    hide Sum, Mul, Pow;
    MulZero(Pow(a, p));
    SumDiffers(f, g, |dense|, p, Mul(dense[p], Pow(a, p)));
  }

  lemma {:induction false} PartialIsPoly(c: SparseChallenge, d: nat, pows: seq<F>, stride: nat, a: F, n: nat, dense: seq<F>)
    requires WellFormed(c, d) && n <= |c.positions| && stride >= 1 && |pows| == |dense| && IsDense(c, stride, n, dense)
    requires forall i :: 0 <= i < |pows| ==> pows[i] == Pow(a, i)
    ensures Sum(SparseTerms(c, pows, stride), n) == EvalPoly(dense, a)
  {
    hide *;
    EvalPolyIs(dense, a);
    WellFormedShape(c, d);
    if n == 0 {
      SumNil(SparseTerms(c, pows, stride));
      forall i | 0 <= i < |dense| ensures PolyTerms(dense, a)(i) == Zero { NoTermLeft(c, stride, dense, a, i); }
      SumZero(PolyTerms(dense, a), |dense|);
    } else {
      DropTerm(c, d, stride, n, dense);
      var p := Times(c.positions[n - 1], stride);
      PartialIsPoly(c, d, pows, stride, a, n - 1, dense[p := Zero]);
      DenseTermDrops(dense, p, a);
      SumSnoc(SparseTerms(c, pows, stride), n);
      TermAt(c, pows, stride, n - 1);
    }
  }

  lemma WellFormedShape(c: SparseChallenge, d: nat) requires WellFormed(c, d) ensures |c.positions| == |c.coeffs| { }

  lemma TermAt(c: SparseChallenge, pows: seq<F>, s: nat, i: nat)
    requires i < |c.positions| == |c.coeffs| && 0 <= Times(c.positions[i], s) < |pows|
    ensures SparseTerms(c, pows, s)(i) == Mul(FromInt(c.coeffs[i]), pows[Times(c.positions[i], s)])
  { }

  lemma NoTermLeft(c: SparseChallenge, stride: nat, dense: seq<F>, a: F, i: nat)
    requires |c.positions| == |c.coeffs| && IsDense(c, stride, 0, dense) && i < |dense|
    ensures PolyTerms(dense, a)(i) == Zero
  {
    hide Pow, Mul;
    MulZero(Pow(a, i));
  }

  /**
   At the powers of a, a well-formed challenge is its polynomial at a: any dense coefficient list that has each
   coefficient at its strided position and zero elsewhere.
   */
  lemma EvaluationIsPoly(c: SparseChallenge, d: nat, pows: seq<F>, stride: nat, a: F, dense: seq<F>)
    requires WellFormed(c, d) && stride >= 1 && |pows| == |dense| && forall i :: 0 <= i < |pows| ==> pows[i] == Pow(a, i)
    requires forall i :: 0 <= i < |c.positions| ==> Times(c.positions[i], stride) < |dense| && At(dense, Times(c.positions[i], stride)) == FromInt(c.coeffs[i])
    requires forall x :: 0 <= x < |dense| && (forall i :: 0 <= i < |c.positions| ==> Times(c.positions[i], stride) != x) ==> dense[x] == Zero
    ensures Evaluation(c, pows, stride) == EvalPoly(dense, a)
  {
    hide EvalPoly, Sum, FromInt, Times, At, Pow;
    PartialIsPoly(c, d, pows, stride, a, |c.positions|, dense);
  }
}
