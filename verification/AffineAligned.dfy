/**
 The bit-aligned specialization: a power-of-two outer stride and no low factor.
 Models `try_eval_bit_aligned_digit_intervals` of crates/akita-algebra/src/offset_eq.rs.
 */
module AffineAligned {
  import opened Arith
  import opened Field
  import opened Sums
  import opened EqPoly
  import opened Buckets
  import opened OffsetWindow
  import opened AffineSpec
  import opened AffineLow
  import opened AffineGroup

  /** No low factor, and a stride of 2^j inside the point. */
  ghost predicate Aligned(g: Affine, j: nat) {
    |g.low| == 0 && j <= |g.challenges| && g.outerStride == Pow2(j) && StrideCovers(g)
  }

  lemma AlignedParts(g: Affine, j: nat)
    requires Aligned(g, j)
    ensures |g.low| == 0 && LowLen(g) == 1 && j <= |g.challenges| && g.outerStride == Pow2(j) && g.outerStride > 0 && |g.digits| > 0
  { }

  // ----- the two carry classes

  function DigitShift(g: Affine, low: nat, d: nat): nat { TimesNat(g.digitStride, d); low + Times(g.digitStride, d) }

  function DigitCarry(g: Affine, low: nat, d: int): int
    requires g.outerStride > 0
  {
    if d < 0 then 0 else DigitShift(g, low, d) / g.outerStride
  }

  function DigitValue(g: Affine, j: nat, low: nat, d: int): F
    requires j <= |g.challenges| && g.outerStride > 0
  {
    if d < 0 then Zero else Mul(At(g.digits, d), EqAt(g.challenges[..j], DigitShift(g, low, d) % g.outerStride))
  }

  function DigitCarries(g: Affine, low: nat): int -> int requires g.outerStride > 0 { (d: int) => DigitCarry(g, low, d) }

  function DigitValues(g: Affine, j: nat, low: nat): int -> F
    requires j <= |g.challenges| && g.outerStride > 0
  {
    (d: int) => DigitValue(g, j, low, d)
  }

  /** Carry class c: the digits whose low address wraps c times. */
  function Class(g: Affine, j: nat, low: nat, c: int): F
    requires j <= |g.challenges| && g.outerStride > 0
  {
    Bucket(DigitValues(g, j, low), DigitCarries(g, low), c, |g.digits|)
  }

  /** Every digit lies in class 0 or class 1. */
  lemma TwoClasses(g: Affine, j: nat, low: nat, d: nat)
    requires Aligned(g, j) && low < g.outerStride && d < |g.digits|
    ensures 0 <= DigitCarry(g, low, d) < 2
  {
    MulMono2(g.digitStride, d, |g.digits| - 1);
    QuotientBound(DigitShift(g, low, d), g.outerStride, 2);
  }

  lemma DigitParts(g: Affine, j: nat, low: nat, d: nat)
    requires j <= |g.challenges| && g.outerStride > 0
    ensures DigitShift(g, low, d) == low + Times(g.digitStride, d)
    ensures DigitCarries(g, low)(d) == DigitCarry(g, low, d) == DigitShift(g, low, d) / g.outerStride
    ensures DigitValues(g, j, low)(d) == Mul(At(g.digits, d), EqAt(g.challenges[..j], DigitShift(g, low, d) % g.outerStride))
  { }

  function ClassTerms(g: Affine, j: nat, low: nat, x: int): int -> F
    requires j <= |g.challenges| && g.outerStride > 0
  {
    (c: int) => Mul(Class(g, j, low, c), EqInt(g.challenges[j..], x + c))
  }

  lemma ClassTermAt(g: Affine, j: nat, low: nat, x: int, c: int)
    requires j <= |g.challenges| && g.outerStride > 0
    ensures ClassTerms(g, j, low, x)(c) == Mul(Class(g, j, low, c), EqInt(g.challenges[j..], x + c))
  { }

  /** One digit's term, by its class. */
  lemma DigitSplits(g: Affine, j: nat, x: nat, low: nat, d: nat)
    requires Aligned(g, j) && d < |g.digits|
    ensures g.outerStride > 0 && j <= |g.challenges| && DigitCarry(g, low, d) >= 0
    ensures DigitTerms(g, Times(x, g.outerStride) + low)(d) ==
      Mul(DigitValues(g, j, low)(d), EqInt(g.challenges[j..], x + DigitCarry(g, low, d)))
  {
    hide *;
    AlignedParts(g, j);
    var shift := DigitShift(g, low, d);
    DigitTermAt(g, Times(x, g.outerStride) + low, d);
    DigitParts(g, j, low, d);
    EqCarry(g.challenges, j, x, shift);
    EqIntIs(g.challenges, Times(x, g.outerStride) + shift);
    EqIntIs(g.challenges[j..], x + shift / g.outerStride);
    MulAssoc(At(g.digits, d), EqAt(g.challenges[..j], shift % g.outerStride), EqAt(g.challenges[j..], x + shift / g.outerStride));
  }

  /** The digits at one outer position: both classes against eq of the high point. */
  lemma DigitSumByClass(g: Affine, j: nat, x: nat, low: nat)
    requires Aligned(g, j) && low < g.outerStride
    ensures g.outerStride > 0 && j <= |g.challenges|
    ensures DigitSum(g, Times(x, g.outerStride) + low) ==
      Add(Mul(Class(g, j, low, 0), EqInt(g.challenges[j..], x)), Mul(Class(g, j, low, 1), EqInt(g.challenges[j..], x + 1)))
  {
    hide *;
    AlignedParts(g, j);
    var v, key, dot := DigitValues(g, j, low), DigitCarries(g, low), ClassTerms(g, j, low, x);
    var eq := (c: int) => EqInt(g.challenges[j..], x + c);
    var direct := DigitTerms(g, Times(x, g.outerStride) + low);
    forall d | 0 <= d < |g.digits| ensures 0 <= key(d) < 2 && direct(d) == Mul(v(d), eq(key(d))) {
      TwoClasses(g, j, low, d);
      DigitSplits(g, j, x, low, d);
      DigitParts(g, j, low, d);
    }
    forall c | 0 <= c < 2 ensures dot(c) == Mul(Bucket(v, key, c, |g.digits|), eq(c)) {
      ClassTermAt(g, j, low, x, c);
      ClassIs(g, j, low, c);
    }
    BucketDot(v, key, eq, dot, direct, |g.digits|, 2);
    DigitSumIs(g, Times(x, g.outerStride) + low);
    SumSnoc(dot, 2); SumOne(dot);
    ClassTermAt(g, j, low, x, 0); ClassTermAt(g, j, low, x, 1);
  }

  lemma ClassIs(g: Affine, j: nat, low: nat, c: int)
    requires j <= |g.challenges| && g.outerStride > 0
    ensures Class(g, j, low, c) == Bucket(DigitValues(g, j, low), DigitCarries(g, low), c, |g.digits|)
  { }

  // ----- the outer contraction

  function OuterTerms(g: Affine, j: nat, x: int): int -> F
    requires j <= |g.challenges|
  {
    (t: int) => Mul(At(g.high, g.outerStart + t), EqInt(g.challenges[j..], x + t))
  }

  /** The window's high weights against consecutive entries of eq of the high point, from x on. */
  function OuterSum(g: Affine, j: nat, x: int): F
    requires j <= |g.challenges|
  {
    Sum(OuterTerms(g, j, x), g.liveLen)
  }

  lemma OuterTermAt(g: Affine, j: nat, x: int, t: int)
    requires j <= |g.challenges|
    ensures OuterTerms(g, j, x)(t) == Mul(At(g.high, g.outerStart + t), EqInt(g.challenges[j..], x + t))
  { }

  lemma OuterSumIs(g: Affine, j: nat, x: int)
    requires j <= |g.challenges|
    ensures OuterSum(g, j, x) == Sum(OuterTerms(g, j, x), g.liveLen)
  { }

  /** Without a low factor, outer position t of a base is its high weight times its digits. */
  lemma WindowTermIs(g: Affine, base: int, t: nat)
    requires |g.low| == 0
    ensures BaseTerms(g, base)(t) == Mul(At(g.high, g.outerStart + t), DigitSum(g, base + Times(g.outerStride, t)))
  {
    hide DigitSum, At;
    var h := At(g.high, g.outerStart + t);
    MulOne(h);
  }

  lemma AlignedAddress(base: nat, stride: nat, t: nat)
    requires stride > 0
    ensures Times(base / stride + t, stride) + base % stride == base + Times(stride, t)
  {
    assert (base / stride + t) * stride == base / stride * stride + stride * t;
  }

  lemma AlignedTerm(g: Affine, j: nat, base: nat, t: nat)
    requires Aligned(g, j)
    ensures g.outerStride > 0 && j <= |g.challenges|
    ensures
      var x, low := base / g.outerStride, base % g.outerStride;
      BaseTerms(g, base)(t) ==
        Add(Mul(Class(g, j, low, 0), OuterTerms(g, j, x)(t)), Mul(Class(g, j, low, 1), OuterTerms(g, j, x + 1)(t)))
  {
    hide *;
    AlignedParts(g, j);
    var x, low := base / g.outerStride, base % g.outerStride;
    LowResidue(base, g.outerStride);
    Quotient(base, g.outerStride);
    WindowTermIs(g, base, t);
    AlignedAddress(base, g.outerStride, t);
    DigitSumByClass(g, j, x + t, low);
    OuterTermAt(g, j, x, t); OuterTermAt(g, j, x + 1, t);
    DistribInto(At(g.high, g.outerStart + t), Class(g, j, low, 0), Class(g, j, low, 1),
                 EqInt(g.challenges[j..], x + t), EqInt(g.challenges[j..], x + t + 1));
    assert x + 1 + t == x + t + 1;
  }

  lemma Quotient(x: nat, d: nat) requires d > 0 ensures x / d >= 0 { }

  /** A base's whole window factors into two digit classes times two outer contractions. */
  lemma BaseByClass(g: Affine, j: nat, base: nat)
    requires Aligned(g, j)
    ensures g.outerStride > 0 && j <= |g.challenges|
    ensures
      var x, low := base / g.outerStride, base % g.outerStride;
      BaseSum(g, base) == Add(Mul(Class(g, j, low, 0), OuterSum(g, j, x)), Mul(Class(g, j, low, 1), OuterSum(g, j, x + 1)))
  {
    hide *;
    AlignedParts(g, j);
    var x, low := base / g.outerStride, base % g.outerStride;
    LowResidue(base, g.outerStride);
    var c0, c1 := Class(g, j, low, 0), Class(g, j, low, 1);
    forall t | 0 <= t < g.liveLen
      ensures BaseTerms(g, base)(t) == Add(Mul(c0, OuterTerms(g, j, x)(t)), Mul(c1, OuterTerms(g, j, x + 1)(t)))
    {
      AlignedTerm(g, j, base, t);
    }
    SumOfTwo(BaseTerms(g, base), OuterTerms(g, j, x), OuterTerms(g, j, x + 1), c0, c1, g.liveLen);
    OuterSumIs(g, j, x); OuterSumIs(g, j, x + 1);
    BaseSumIs(g, base);
  }

  lemma BaseSumIs(g: Affine, base: int) ensures BaseSum(g, base) == Sum(BaseTerms(g, base), g.liveLen) { }

  // ----- bounds

  /** The last address of the window from `base` is a `usize`. */
  ghost predicate BaseFits(g: Affine, base: nat) {
    |g.digits| > 0 && g.liveLen > 0 &&
    base + Times(g.outerStride, g.liveLen - 1) + Times(g.digitStride, |g.digits| - 1) <= USIZE_MAX
  }

  /** A nonzero class only reaches high indices that are `usize`s. */
  lemma ClassFits(g: Affine, j: nat, base: nat, c: nat)
    requires Aligned(g, j) && BaseFits(g, base) && c < 2
    ensures g.outerStride > 0 && j <= |g.challenges|
    ensures Class(g, j, base % g.outerStride, c) != Zero ==> base / g.outerStride + c + g.liveLen - 1 <= USIZE_MAX
  {
    AlignedParts(g, j);
    FitsParts(g, base);
    hide *;
    var low, digits := base % g.outerStride, Times(g.digitStride, |g.digits| - 1);
    LowResidue(base, g.outerStride);
    DigitParts(g, j, low, |g.digits| - 1);
    if c <= DigitShift(g, low, |g.digits| - 1) / g.outerStride {
      TopFits(base, g.outerStride, base / g.outerStride, low, g.liveLen - 1, digits, c);
    } else {
      NoSuchCarry(g, j, low, c);
    }
  }

  lemma TopFits(base: nat, stride: nat, x: int, low: nat, steps: nat, digits: int, c: nat)
    requires stride > 0 && x == base / stride && low == base % stride && low + digits >= 0
    requires c <= (low + digits) / stride && base + Times(stride, steps) + digits <= USIZE_MAX
    ensures x + c + steps <= USIZE_MAX
  {
    hide *;
    AlignedAddress(base, stride, steps);
    Quotient(base, stride);
    IndexFits(x + steps, stride, low + digits, c);
  }

  lemma FitsParts(g: Affine, base: nat)
    requires BaseFits(g, base)
    ensures g.liveLen > 0 && base + Times(g.outerStride, g.liveLen - 1) + Times(g.digitStride, |g.digits| - 1) <= USIZE_MAX
  { }

  lemma IndexFits(x: nat, stride: nat, top: nat, c: nat)
    requires stride > 0 && c <= top / stride && Times(x, stride) + top <= USIZE_MAX
    ensures x + c <= USIZE_MAX
  {
    MulMono(c, top / stride, stride);
    assert top / stride * stride <= top;
    assert (x + c) * stride <= USIZE_MAX;
    MulMono(1, stride, x + c);
  }

  lemma NoSuchCarry(g: Affine, j: nat, low: nat, c: nat)
    requires Aligned(g, j) && g.outerStride > 0 && j <= |g.challenges|
    requires c > DigitShift(g, low, |g.digits| - 1) / g.outerStride
    ensures Class(g, j, low, c) == Zero
  {
    var v, key := DigitValues(g, j, low), DigitCarries(g, low);
    hide EqAt, Sum, Pow2;
    forall d | 0 <= d < |g.digits| ensures BucketTerms(v, key, c)(d) == Zero {
      MulMono2(g.digitStride, d, |g.digits| - 1);
      DivMono(DigitShift(g, low, d), DigitShift(g, low, |g.digits| - 1), g.outerStride);
    }
    SumZero(BucketTerms(v, key, c), |g.digits|);
  }

  // ----- the evaluator

  /** The two digit evaluations of a base. */
  method DigitClasses(g: Affine, j: nat, low: nat) returns (e: seq<F>)
    requires Aligned(g, j) && low < g.outerStride <= USIZE_MAX
    ensures |e| == 2 && j <= |g.challenges|
    ensures e[0] == Class(g, j, low, 0) && e[1] == Class(g, j, low, 1)
  {
    hide *;
    AlignedParts(g, j);
    ghost var v, key := DigitValues(g, j, low), DigitCarries(g, low);
    e := [Zero, Zero];
    HoldsNothing(e, v, key);
    for digit := 0 to |g.digits|
      invariant |e| == 2 && Holds(e, v, key, digit)
    {
      TwoClasses(g, j, low, digit);
      DigitParts(g, j, low, digit);
      var shifted := low + Times(g.digitStride, digit);
      var carry, lowIndex := shifted / g.outerStride, shifted % g.outerStride;
      LowResidue(shifted, g.outerStride);
      EqEvalAtIndexIsEq(g.challenges[..j], lowIndex);
      AtInside(g.digits);
      HoldsNext(e, v, key, digit);
      e := e[carry := Add(e[carry], Mul(g.digits[digit], EqEvalAtIndex(g.challenges[..j], lowIndex)))];
    }
    ClassIs(g, j, low, 0); ClassIs(g, j, low, 1);
    HoldsAt(e, v, key, |g.digits|, 0); HoldsAt(e, v, key, |g.digits|, 1);
  }

  /** One outer contraction, skipping zero equality values. */
  method OuterEvaluation(g: Affine, j: nat, window: Window, x: nat) returns (sum: F)
    requires j <= |g.challenges| && WindowFor(window, g.challenges[j..])
    requires g.outerStart + g.liveLen <= |g.high| && x + g.liveLen - 1 <= USIZE_MAX
    ensures sum == OuterSum(g, j, x)
  {
    hide *;
    ghost var terms := OuterTerms(g, j, x);
    sum := Zero;
    SumNil(terms);
    for t := 0 to g.liveLen
      invariant sum == Sum(terms, t)
    {
      var eqHigh := Eval(window, x + t);
      WindowEvalIsEq(window, g.challenges[j..], x + t);
      EqIntIs(g.challenges[j..], x + t);
      OuterTermAt(g, j, x, t);
      AtInside(g.high);
      SumSnoc(terms, t + 1);
      MulZero(g.high[g.outerStart + t]); AddZero(sum);
      if eqHigh != Zero {
        sum := Add(sum, Mul(g.high[g.outerStart + t], eqHigh));
      }
    }
    OuterSumIs(g, j, x);
  }

  /** One carry class of a base. */
  method AddClass(g: Affine, j: nat, window: Window, base: nat, scale: Option<F>, c: nat, class_: F, out0: F) returns (out: F)
    requires Aligned(g, j) && BaseFits(g, base) && c < 2
    requires j <= |g.challenges| && g.outerStride > 0 && WindowFor(window, g.challenges[j..])
    requires g.outerStart + g.liveLen <= |g.high| && class_ == Class(g, j, base % g.outerStride, c)
    ensures out == Add(out0, Mul(if scale.Some? then scale.value else One, Mul(class_, OuterSum(g, j, base / g.outerStride + c))))
  {
    hide *;
    var value := if scale.Some? then Mul(class_, scale.value) else class_;
    ghost var sc, sum := if scale.Some? then scale.value else One, OuterSum(g, j, base / g.outerStride + c);
    MulOne(class_); MulComm(class_, sc);
    MulAssoc(sc, class_, sum);
    if value == Zero {
      MulZero(sum); AddZero(out0);
      out := out0;
    } else {
      MulZero(sc);
      ClassFits(g, j, base, c);
      Quotient(base, g.outerStride);
      var outer := OuterEvaluation(g, j, window, base / g.outerStride + c);
      MulComm(outer, value);
      out := Add(out0, Mul(outer, value));
    }
  }

  lemma ScaledSum(s: F, a: F, b: F, out: F)
    ensures Add(Add(out, Mul(s, a)), Mul(s, b)) == Add(out, Mul(s, Add(a, b)))
  {
    hide *;
    AddAssoc(out, Mul(s, a), Mul(s, b));
    Distrib(s, a, b);
  }

  /** One base: both classes. */
  method AddBase(g: Affine, j: nat, window: Window, b: nat, out0: F) returns (out: F)
    requires Aligned(g, j) && b < |g.bases| && BaseFits(g, g.bases[b]) && g.outerStride <= USIZE_MAX
    requires j <= |g.challenges| && WindowFor(window, g.challenges[j..])
    requires g.outerStart + g.liveLen <= |g.high| && (|g.scales| == 0 || |g.scales| == |g.bases|)
    ensures out == Add(out0, TripleTerms(g)(b))
  {
    hide *;
    AlignedParts(g, j);
    var base := g.bases[b];
    LowResidue(base, g.outerStride);
    var scale := if b < |g.scales| then Some(g.scales[b]) else None;
    var e := DigitClasses(g, j, base % g.outerStride);
    out := AddClass(g, j, window, base, scale, 0, e[0], out0);
    out := AddClass(g, j, window, base, scale, 1, e[1], out);
    BaseByClass(g, j, base);
    BaseTermIs(g, b);
    ScaledSum(BaseScale(g, b), Mul(e[0], OuterSum(g, j, base / g.outerStride)), Mul(e[1], OuterSum(g, j, base / g.outerStride + 1)), out0);
  }

  lemma BaseTermIs(g: Affine, b: nat)
    requires b < |g.bases| && (|g.scales| == 0 || |g.scales| == |g.bases|)
    ensures TripleTerms(g)(b) == Mul(BaseScale(g, b), BaseSum(g, g.bases[b]))
    ensures BaseScale(g, b) == if b < |g.scales| then g.scales[b] else One
  { }

  /** Over all bases, the specialization returns the triple sum. */
  method EvalAligned(g: Affine, j: nat) returns (out: F)
    requires Aligned(g, j) && g.outerStride <= USIZE_MAX
    requires forall b :: 0 <= b < |g.bases| ==> BaseFits(g, g.bases[b])
    requires g.outerStart + g.liveLen <= |g.high| && (|g.scales| == 0 || |g.scales| == |g.bases|)
    ensures out == TripleSum(g)
  {
    hide *;
    AlignedParts(g, j);
    var window := WithLowBits(g.challenges[j..], LOW_BITS_CAP);
    out := Zero;
    SumNil(TripleTerms(g));
    for b := 0 to |g.bases|
      invariant out == Sum(TripleTerms(g), b)
    {
      SumSnoc(TripleTerms(g), b + 1);
      out := AddBase(g, j, window, b, out);
    }
    TripleSumIs(g);
  }

  lemma TripleSumIs(g: Affine) ensures TripleSum(g) == Sum(TripleTerms(g), |g.bases|) { }
}
