/**
 Multilinear evaluation by folding, and the oracles it is compared with.
 Models crates/akita-algebra/src/poly.rs and fuzz/src/oracle.rs.
 */
module Poly {
  import opened Arith
  import opened Field
  import opened Sums
  import opened EqPoly

  /** `Fold::fold_one`: the line through `left` and `right` at r. */
  function FoldOne(left: F, right: F, r: F): F { Add(left, Mul(r, Sub(right, left))) }

  /** Binding the lowest variable to r; a missing last entry is zero. */
  function FoldOnce(s: seq<F>, r: F): (t: seq<F>)
    ensures |t| == (|s| + 1) / 2
    ensures forall i {:trigger t[i]} :: 0 <= i < |t| ==> t[i] == FoldOne(At(s, 2 * i), At(s, 2 * i + 1), r)
  {
    seq((|s| + 1) / 2, (i: nat) => FoldOne(At(s, 2 * i), At(s, 2 * i + 1), r))
  }

  lemma AtPast(s: seq<F>) ensures At(s, |s|) == Zero { }

  /** `fold_evals_in_place`: slot i is overwritten while slots 2i and up are still unread. */
  method FoldEvalsInPlace(evals: seq<F>, r: F) returns (out: seq<F>)
    requires |evals| > 0
    ensures out == FoldOnce(evals, r)
  {
    hide *;
    AtInside(evals); AtPast(evals);
    out := evals;
    var nextLen := (|evals| + 1) / 2;
    for target := 0 to nextLen
      invariant |out| == |evals|
      invariant forall i {:trigger out[i]} :: 0 <= i < target ==> out[i] == FoldOne(At(evals, 2 * i), At(evals, 2 * i + 1), r)
      invariant forall i {:trigger out[i]} :: target <= i < |evals| ==> out[i] == evals[i]
    {
      var source := 2 * target;
      var left := out[source];
      var right := if source + 1 < |out| then out[source + 1] else Zero;
      out := out[target := FoldOne(left, right, r)];
    }
    out := out[..nextLen];
  }

  function FoldAll(s: seq<F>, point: seq<F>): seq<F>
    decreases |point|
  {
    if |point| == 0 then s else FoldAll(FoldOnce(s, point[0]), point[1..])
  }

  /** The weight of index x in the Lagrange basis (eq) or the monomial basis. */
  function WeightFactor(lagrange: bool, r: F, bit: int): F {
    if bit == 1 then r else if lagrange then Sub(One, r) else One
  }

  function Weight(lagrange: bool, r: seq<F>, x: nat): F {
    if |r| == 0 then (if x == 0 then One else Zero)
    else Mul(WeightFactor(lagrange, r[0], x % 2), Weight(lagrange, r[1..], x / 2))
  }

  lemma WeightCons(lagrange: bool, r: seq<F>, x: nat)
    requires |r| > 0
    ensures Weight(lagrange, r, x) == Mul(WeightFactor(lagrange, r[0], x % 2), Weight(lagrange, r[1..], x / 2))
  { }

  lemma {:induction false} LagrangeWeightIsEq(r: seq<F>, x: nat)
    ensures Weight(true, r, x) == EqAt(r, x)
  {
    hide *;
    if |r| == 0 { WeightNil(true, r, x); EqNil(x); assert r == []; } else {
      WeightCons(true, r, x); EqCons(r, x); FactorIsWeight(r[0], x % 2);
      LagrangeWeightIsEq(r[1..], x / 2);
    }
  }

  /**
   Both bases from the top coordinate: a new highest coordinate y multiplies the weight by y where its bit is
   set; where it is clear, by 1 - y in the Lagrange basis and by nothing in the monomial one.
   */
  lemma {:induction false} WeightAppends(lagrange: bool, r: seq<F>, y: F, x: nat, bit: nat)
    requires x < Pow2(|r|) && bit <= 1
    ensures Weight(lagrange, [], 0) == One
    ensures Weight(lagrange, r + [y], x + bit * Pow2(|r|)) ==
      Mul(Weight(lagrange, r, x), if bit == 1 then y else if lagrange then Sub(One, y) else One)
  {
    hide *;
    WeightNil(lagrange, [], 0);
    var s, z := r + [y], x + bit * Pow2(|r|);
    var top := if bit == 1 then y else if lagrange then Sub(One, y) else One;
    WeightFactorIs(lagrange, y, bit);
    WeightCons(lagrange, s, z);
    Pow2Step(if |r| == 0 then 0 else |r| - 1);
    if |r| == 0 {
      assert r == [] && s[1..] == [];
      MulOne(top);
    } else {
      var half := bit * Pow2(|r| - 1);
      assert z == x + 2 * half && z % 2 == x % 2 && z / 2 == x / 2 + half;
      assert s[1..] == r[1..] + [y] && s[0] == r[0];
      WeightCons(lagrange, r, x);
      WeightAppends(lagrange, r[1..], y, x / 2, bit);
      MulAssoc(WeightFactor(lagrange, r[0], x % 2), Weight(lagrange, r[1..], x / 2), top);
    }
  }

  lemma WeightFactorIs(lagrange: bool, r: F, bit: int)
    ensures WeightFactor(lagrange, r, bit) == if bit == 1 then r else if lagrange then Sub(One, r) else One
  { }

  lemma FactorIsWeight(r: F, bit: int) ensures WeightFactor(true, r, bit) == Factor(r, bit) { }

  lemma WeightNil(lagrange: bool, r: seq<F>, x: nat)
    requires |r| == 0
    ensures Weight(lagrange, r, x) == if x == 0 then One else Zero
  { }

  function Terms(lagrange: bool, s: seq<F>, r: seq<F>): int -> F {
    (x: int) => if x < 0 then Zero else Mul(Weight(lagrange, r, x), At(s, x))
  }

  /** The opening: the sum over the hypercube of weight times entry, missing entries being zero. */
  function Opening(lagrange: bool, s: seq<F>, r: seq<F>): F { Sum(Terms(lagrange, s, r), Pow2(|r|)) }

  lemma TermAt(lagrange: bool, s: seq<F>, r: seq<F>, x: nat)
    ensures Terms(lagrange, s, r)(x) == Mul(Weight(lagrange, r, x), At(s, x))
  { }

  lemma OpeningIsSum(lagrange: bool, s: seq<F>, r: seq<F>)
    ensures Opening(lagrange, s, r) == Sum(Terms(lagrange, s, r), Pow2(|r|))
  { }

  /** With no variables left the opening is the only entry. */
  lemma OpeningNil(lagrange: bool, s: seq<F>, r: seq<F>)
    requires |r| == 0 && |s| > 0
    ensures Opening(lagrange, s, r) == s[0]
  {
    SumOne(Terms(lagrange, s, r));
    WeightNil(lagrange, r, 0);
    MulOne(s[0]);
  }

  function Combine(lagrange: bool, low: F, high: F, x: F): F {
    if lagrange then Add(low, Mul(Sub(high, low), x)) else Add(low, Mul(high, x))
  }

  lemma CombineIsWeighted(lagrange: bool, low: F, high: F, x: F)
    ensures Combine(lagrange, low, high, x) == Add(Mul(WeightFactor(lagrange, x, 0), low), Mul(WeightFactor(lagrange, x, 1), high))
  {
    MulComm(high, x); MulOne(low);
    if lagrange {
      MulComm(Sub(high, low), x);
      DistribSub(x, high, low); DistribSub(low, One, x);
      MulComm(low, x);
      var xl, xh := Mul(x, low), Mul(x, high);
      AddComm(xh, Neg(xl)); AddAssoc(low, Neg(xl), xh);
    }
  }

  lemma FoldOneIsCombine(low: F, high: F, x: F)
    ensures FoldOne(low, high, x) == Combine(true, low, high, x)
  {
    MulComm(Sub(high, low), x);
  }

  /** Folding one variable away keeps the opening. */
  lemma OpeningFold(lagrange: bool, s: seq<F>, t: seq<F>, r: seq<F>)
    requires |r| > 0
    requires forall i :: 0 <= i < Pow2(|r| - 1) ==> At(t, i) == Combine(lagrange, At(s, 2 * i), At(s, 2 * i + 1), r[0])
    ensures Opening(lagrange, s, r) == Opening(lagrange, t, r[1..])
  {
    hide *;
    OpeningIsSum(lagrange, s, r); OpeningIsSum(lagrange, t, r[1..]);
    var e, g := Terms(lagrange, s, r), Terms(lagrange, t, r[1..]);
    var n := Pow2(|r| - 1);
    Pow2Step(|r| - 1);
    forall x | 0 <= x < n ensures g(x) == Add(e(2 * x), e(2 * x + 1)) {
      var w := Weight(lagrange, r[1..], x);
      TermAt(lagrange, s, r, 2 * x); TermAt(lagrange, s, r, 2 * x + 1); TermAt(lagrange, t, r[1..], x);
      WeightCons(lagrange, r, 2 * x); WeightCons(lagrange, r, 2 * x + 1);
      CombineIsWeighted(lagrange, At(s, 2 * x), At(s, 2 * x + 1), r[0]);
      WeightedPair(w, WeightFactor(lagrange, r[0], 0), WeightFactor(lagrange, r[0], 1), At(s, 2 * x), At(s, 2 * x + 1));
    }
    SumPairs(e, g, n);
  }

  /** w (a x + b y) = (a w) x + (b w) y */
  lemma WeightedPair(w: F, a: F, b: F, x: F, y: F)
    ensures Mul(w, Add(Mul(a, x), Mul(b, y))) == Add(Mul(Mul(a, w), x), Mul(Mul(b, w), y))
  {
    hide *;
    Distrib(w, Mul(a, x), Mul(b, y));
    MulAssoc(w, a, x); MulAssoc(w, b, y); MulComm(w, a); MulComm(w, b);
  }

  lemma AtFoldOnce(s: seq<F>, r: F, i: nat)
    ensures At(FoldOnce(s, r), i) == Combine(true, At(s, 2 * i), At(s, 2 * i + 1), r)
  {
    hide FoldOnce, Combine;
    FoldOneIsCombine(At(s, 2 * i), At(s, 2 * i + 1), r);
    if i >= |FoldOnce(s, r)| { AddNeg(Zero); MulZero(r); AddZero(Zero); }
  }

  /**
   Folding any nonempty live prefix of at most 2^n entries by all n coordinates leaves one entry: the
   sum of eq weights times entries.
   */
  lemma {:induction false} FoldAllIsOpening(s: seq<F>, point: seq<F>)
    requires 0 < |s| <= Pow2(|point|)
    ensures FoldAll(s, point) == [Opening(true, s, point)]
    decreases |point|
  {
    hide *;
    FoldAllStep(s, point);
    if |point| == 0 {
      Pow2Step(0);
      OpeningNil(true, s, point);
    } else {
      var t := FoldOnce(s, point[0]);
      forall i | 0 <= i < Pow2(|point| - 1)
        ensures At(t, i) == Combine(true, At(s, 2 * i), At(s, 2 * i + 1), point[0])
      {
        AtFoldOnce(s, point[0], i);
      }
      OpeningFold(true, s, t, point);
      Pow2Step(|point| - 1);
      FoldAllIsOpening(t, point[1..]);
    }
  }

  lemma FoldAllStep(s: seq<F>, point: seq<F>)
    ensures FoldAll(s, point) == if |point| == 0 then s else FoldAll(FoldOnce(s, point[0]), point[1..])
  { }

  /** `multilinear_eval_ref`: halves split on the last variable. */
  function MultilinearEvalRef(evals: seq<F>, point: seq<F>): F
    requires |evals| == Pow2(|point|)
    decreases |point|
  {
    if |point| == 0 then evals[0]
    else
      var n := |point| - 1;
      var half := |evals| / 2;
      var lo := MultilinearEvalRef(evals[..half], point[..n]);
      var hi := MultilinearEvalRef(evals[half..], point[..n]);
      Add(lo, Mul(point[n], Sub(hi, lo)))
  }

  /** The recursive reference is the opening. */
  lemma {:induction false} RefIsOpening(evals: seq<F>, point: seq<F>)
    requires |evals| == Pow2(|point|)
    ensures MultilinearEvalRef(evals, point) == Opening(true, evals, point)
    decreases |point|
  {
    hide *;
    RefUnfold(evals, point);
    if |point| == 0 {
      Pow2Step(0);
      OpeningNil(true, evals, point);
    } else {
      var n, half := |point| - 1, |evals| / 2;
      Pow2Step(n);
      RefIsOpening(evals[..half], point[..n]);
      RefIsOpening(evals[half..], point[..n]);
      RefStep(evals, point);
    }
  }

  lemma RefUnfold(evals: seq<F>, point: seq<F>)
    requires |evals| == Pow2(|point|)
    ensures
      var n, half := |point| - 1, |evals| / 2;
      MultilinearEvalRef(evals, point) ==
        if |point| == 0 then evals[0]
        else FoldOne(MultilinearEvalRef(evals[..half], point[..n]), MultilinearEvalRef(evals[half..], point[..n]), point[n])
  { }

  lemma HalfTerms(evals: seq<F>, point: seq<F>, n: nat, half: nat, x: nat)
    requires |point| == n + 1 && half == Pow2(n) && x < half && |evals| == 2 * half
    ensures Terms(true, evals, point)(x) == Mul(WeightFactor(true, point[n], 0), Terms(true, evals[..half], point[..n])(x))
    ensures Terms(true, evals, point)(half + x) == Mul(WeightFactor(true, point[n], 1), Terms(true, evals[half..], point[..n])(x))
  {
    hide *;
    TermAt(true, evals, point, x); TermAt(true, evals, point, half + x);
    TermAt(true, evals[..half], point[..n], x); TermAt(true, evals[half..], point[..n], x);
    AtInside(evals); AtInside(evals[..half]); AtInside(evals[half..]);
    assert evals[..half][x] == evals[x] && evals[half..][x] == evals[half + x];
    SnocWeight(point, x, 0, evals[x]); SnocWeight(point, x, 1, evals[half + x]);
  }

  /** Splitting the opening on the last variable. */
  lemma RefStep(evals: seq<F>, point: seq<F>)
    requires |evals| == Pow2(|point|) && |point| > 0
    ensures
      var n, half := |point| - 1, |evals| / 2;
      Opening(true, evals, point) ==
        FoldOne(Opening(true, evals[..half], point[..n]), Opening(true, evals[half..], point[..n]), point[n])
  {
    hide *;
    var n, half := |point| - 1, |evals| / 2;
    Pow2Step(n);
    HalvesOpen(evals, point, n, half);
    var lo, hi := Opening(true, evals[..half], point[..n]), Opening(true, evals[half..], point[..n]);
    CombineIsWeighted(true, lo, hi, point[n]);
    FoldOneIsCombine(lo, hi, point[n]);
  }

  lemma HalvesOpen(evals: seq<F>, point: seq<F>, n: nat, half: nat)
    requires |point| == n + 1 && half == Pow2(n) && |evals| == 2 * half && Pow2(|point|) == 2 * half
    ensures Opening(true, evals, point) ==
        Add(Mul(WeightFactor(true, point[n], 0), Opening(true, evals[..half], point[..n])),
            Mul(WeightFactor(true, point[n], 1), Opening(true, evals[half..], point[..n])))
  {
    hide *;
    var r, all := point[n], Terms(true, evals, point);
    var low, high := Terms(true, evals[..half], point[..n]), Terms(true, evals[half..], point[..n]);
    OpeningIsSum(true, evals, point); OpeningIsSum(true, evals[..half], point[..n]); OpeningIsSum(true, evals[half..], point[..n]);
    forall x | 0 <= x < half ensures all(x) == Mul(WeightFactor(true, r, 0), low(x)) { HalfTerms(evals, point, n, half, x); }
    forall x | 0 <= x < half ensures From(all, half)(x) == Mul(WeightFactor(true, r, 1), high(x)) {
      HalfTerms(evals, point, n, half, x);
      FromAt(all, half, x);
    }
    SumFrom(all, half, half);
    SumScale(WeightFactor(true, r, 0), low, all, half);
    SumScale(WeightFactor(true, r, 1), high, From(all, half), half);
  }

  lemma SnocWeight(point: seq<F>, x: nat, b: nat, v: F)
    requires |point| > 0 && x < Pow2(|point| - 1) && b < 2
    ensures
      var n := |point| - 1;
      Mul(Weight(true, point, b * Pow2(n) + x), v) == Mul(WeightFactor(true, point[n], b), Mul(Weight(true, point[..n], x), v))
  {
    hide *;
    var n := |point| - 1;
    assert point[..n] + [point[n]] == point;
    EqSnoc(point[..n], point[n], x, b);
    LagrangeWeightIsEq(point, b * Pow2(n) + x); LagrangeWeightIsEq(point[..n], x); FactorIsWeight(point[n], b);
    MulComm(EqAt(point[..n], x), Factor(point[n], b));
    MulAssoc(Factor(point[n], b), EqAt(point[..n], x), v);
  }

  /** The table of 2^n entries a live prefix stands for. */
  function Pad(s: seq<F>, n: nat): (t: seq<F>)
    ensures |t| == Pow2(n)
  {
    seq(Pow2(n), (i: nat) => At(s, i))
  }

  /** In-place folding of a live prefix computes the recursive evaluation of its zero-padded table. */
  lemma FoldAllIsRef(s: seq<F>, point: seq<F>)
    requires 0 < |s| <= Pow2(|point|)
    ensures FoldAll(s, point) == [MultilinearEvalRef(Pad(s, |point|), point)]
  {
    FoldAllIsOpening(s, point);
    RefIsOpening(Pad(s, |point|), point);
    hide Weight, Sum;
    SumExt(Terms(true, s, point), Terms(true, Pad(s, |point|), point), Pow2(|point|));
  }

  /** `multilinear_eval`, on the recursive or on the table path. */
  method MultilinearEval(evals: seq<F>, point: seq<F>, tablePath: bool) returns (res: Result<F>)
    ensures res.Ok? <==> |point| < USIZE_BITS && |evals| == Pow2(|point|)
    ensures res.Ok? ==> res.value == Opening(true, evals, point)
  {
    hide Opening, Pow2, MultilinearEvalRef, EqTable, Terms, Sum, Weight, EqAt, Mul, Add;
    if |point| >= USIZE_BITS || |evals| != Pow2(|point|) { return Err; }
    if !tablePath {
      RefIsOpening(evals, point);
      return Ok(MultilinearEvalRef(evals, point));
    }
    var table := EvalsParallel(point, None);
    ScaledByOne(point); EqEntries(point);
    var value := DotTable(evals, table.value);
    DotIsOpening(evals, point);
    res := Ok(value);
  }

  function Products(a: seq<F>, b: seq<F>): int -> F { (x: int) => Mul(At(a, x), At(b, x)) }

  method DotTable(evals: seq<F>, eq: seq<F>) returns (acc: F)
    requires |evals| == |eq|
    ensures acc == Sum(Products(evals, eq), |evals|)
  {
    acc := Zero;
    for x := 0 to |evals|
      invariant acc == Sum(Products(evals, eq), x)
    {
      acc := Add(acc, Mul(evals[x], eq[x]));
    }
  }

  lemma DotIsOpening(evals: seq<F>, point: seq<F>)
    requires |evals| == Pow2(|point|)
    ensures Sum(Products(evals, EqTable(point)), |evals|) == Opening(true, evals, point)
  {
    hide Opening, Pow2, Sum, Weight, EqAt, Terms, EqTable;
    var dots, terms := Products(evals, EqTable(point)), Terms(true, evals, point);
    EqEntries(point);
    forall x | 0 <= x < |evals| ensures dots(x) == terms(x) {
      TermAt(true, evals, point, x);
      LagrangeWeightIsEq(point, x);
      MulComm(evals[x], EqAt(point, x));
    }
    SumExt(dots, terms, |evals|);
    OpeningIsSum(true, evals, point);
  }

  /** The oracles' `fold`: `dense_lagrange` and `dense_monomial`. */
  method OracleFold(table: seq<F>, point: seq<F>, lagrange: bool) returns (value: F)
    requires |table| == Pow2(|point|)
    ensures value == Opening(lagrange, table, point)
  {
    hide *;
    var layer: seq<F> := table;
    assert point[0..] == point;
    for k := 0 to |point|
      invariant |layer| == Pow2(|point| - k)
      invariant Opening(lagrange, layer, point[k..]) == Opening(lagrange, table, point)
    {
      Pow2Step(|point| - k - 1);
      ghost var before := layer;
      layer := CombineLayer(layer, point[k], lagrange);
      assert point[k..][1..] == point[k + 1..];
      AtInside(before); AtInside(layer);
      OpeningFold(lagrange, before, layer, point[k..]);
    }
    value := layer[0];
    OpeningNil(lagrange, layer, point[|point|..]);
  }

  method CombineLayer(table: seq<F>, x: F, lagrange: bool) returns (layer: seq<F>)
    ensures |layer| == |table| / 2
    ensures forall i {:trigger layer[i]} :: 0 <= i < |layer| ==> layer[i] == Combine(lagrange, table[2 * i], table[2 * i + 1], x)
  {
    hide *;
    layer := table;
    var half := |layer| / 2;
    for index := 0 to half
      invariant |layer| == |table|
      invariant forall i {:trigger layer[i]} :: 0 <= i < index ==> layer[i] == Combine(lagrange, table[2 * i], table[2 * i + 1], x)
      invariant forall i {:trigger layer[i]} :: index <= i < |table| ==> layer[i] == table[i]
    {
      layer := layer[index := Combine(lagrange, layer[2 * index], layer[2 * index + 1], x)];
    }
    layer := layer[..half];
  }

  // ----- one-hot openings

  /**
   `index_weight`: the fold over the coordinates' bits of `index`. Shifting a `usize` by 64 or more overflows,
   which the fuzz profile turns into a panic: None.
   */
  function IndexWeightFrom(point: seq<F>, index: nat, lagrange: bool, bit: nat, acc: F): Option<F>
    requires bit <= |point|
    decreases |point| - bit
  {
    if bit == |point| then Some(acc)
    else if bit >= USIZE_BITS then None
    else
      var b := High(index, bit) % 2;
      IndexWeightFrom(point, index, lagrange, bit + 1,
        if b == 1 then Mul(acc, point[bit]) else if lagrange then Mul(acc, Sub(One, point[bit])) else acc)
  }

  function IndexWeight(point: seq<F>, index: nat, lagrange: bool): Option<F> {
    IndexWeightFrom(point, index, lagrange, 0, One)
  }

  /** Halving a residue modulo 2 m. */
  lemma HalfMod(h: nat, m: nat)
    requires m > 0
    ensures 0 <= h % (2 * m) && h % (2 * m) % 2 == h % 2 && h % (2 * m) / 2 == h / 2 % m
  {
    MixedRadix(h, 2, m);
  }

  lemma {:induction false} IndexWeightFromIsWeight(point: seq<F>, index: nat, lagrange: bool, bit: nat, acc: F)
    requires bit <= |point| <= USIZE_BITS
    ensures IndexWeightFrom(point, index, lagrange, bit, acc) ==
      Some(Mul(acc, Weight(lagrange, point[bit..], High(index, bit) % Pow2(|point| - bit))))
    decreases |point| - bit
  {
    hide Weight, Pow2;
    MulOne(acc);
    if bit == |point| {
      Pow2Step(0);
      WeightNil(lagrange, point[bit..], 0);
    } else {
      var h, m := High(index, bit), Pow2(|point| - bit - 1);
      HighStep(index, bit);
      Pow2Step(|point| - bit - 1);
      HalfMod(h, m);
      var next := Mul(acc, WeightFactor(lagrange, point[bit], h % 2));
      IndexWeightFromIsWeight(point, index, lagrange, bit + 1, next);
      WeightCons(lagrange, point[bit..], h % (2 * m));
      assert point[bit..][1..] == point[bit + 1..];
      MulAssoc(acc, WeightFactor(lagrange, point[bit], h % 2), Weight(lagrange, point[bit + 1..], h / 2 % m));
    }
  }

  lemma {:induction false} IndexWeightOverflows(point: seq<F>, index: nat, lagrange: bool, bit: nat, acc: F)
    requires bit <= USIZE_BITS < |point|
    ensures IndexWeightFrom(point, index, lagrange, bit, acc).None?
    decreases USIZE_BITS - bit
  {
    if bit < USIZE_BITS {
      var b := High(index, bit) % 2;
      IndexWeightOverflows(point, index, lagrange, bit + 1,
        if b == 1 then Mul(acc, point[bit]) else if lagrange then Mul(acc, Sub(One, point[bit])) else acc);
    }
  }

  /**
   The oracle's index weight is defined exactly for points of at most 64 coordinates; it is then the basis
   weight of the index modulo the domain, so of the index itself inside the domain.
   */
  lemma IndexWeightIsWeight(point: seq<F>, index: nat, lagrange: bool)
    ensures IndexWeight(point, index, lagrange).Some? <==> |point| <= USIZE_BITS
    ensures |point| <= USIZE_BITS ==> IndexWeight(point, index, lagrange) == Some(Weight(lagrange, point, index % Pow2(|point|)))
    ensures |point| <= USIZE_BITS && index < Pow2(|point|) ==> IndexWeight(point, index, lagrange) == Some(Weight(lagrange, point, index))
  {
    hide Pow2, Weight;
    if |point| <= USIZE_BITS {
      IndexWeightFromIsWeight(point, index, lagrange, 0, One);
      assert point[0..] == point;
      MulOne(Weight(lagrange, point, index % Pow2(|point|)));
      if index < Pow2(|point|) { DivModUnique(index, Pow2(|point|), 0, index); }
    } else {
      IndexWeightOverflows(point, index, lagrange, 0, One);
    }
  }

  /** A point of 65 coordinates has a basis weight at index 1, and the oracle panics on it. */
  lemma LongPointFails(point: seq<F>, lagrange: bool)
    requires |point| == 65
    ensures IndexWeight(point, 1, lagrange).None? && OneHot([Some(1)], 2, point, lagrange, 1).None?
  {
    hide IndexWeight;
    IndexWeightIsWeight(point, 1, lagrange);
    assert OneHot([Some(1)], 2, point, lagrange, 0) == Some(Zero);
  }

  /** `onehot` over the first `count` chunks; an index past `usize` panics as well. */
  function OneHot(indices: seq<Option<nat>>, chunkSize: nat, point: seq<F>, lagrange: bool, count: nat): Option<F>
    requires count <= |indices|
  {
    if count == 0 then Some(Zero)
    else
      var before := OneHot(indices, chunkSize, point, lagrange, count - 1);
      match indices[count - 1]
      case None => before
      case Some(position) =>
        var index := (count - 1) * chunkSize + position;
        if before.None? || index > USIZE_MAX then None
        else
          var weight := IndexWeight(point, index, lagrange);
          if weight.None? then None else Some(Add(before.value, weight.value))
  }

  /** The position chunk i marks, if any, modulo a domain of n entries. */
  function HotAt(indices: seq<Option<nat>>, chunkSize: nat, n: nat, i: nat): Option<nat>
    requires i < |indices| && n > 0
  {
    match indices[i]
    case None => None
    case Some(position) => Some((i * chunkSize + position) % n)
  }

  /** How often the first `count` chunks mark entry x. */
  function HotCount(indices: seq<Option<nat>>, chunkSize: nat, n: nat, x: int, count: nat): F
    requires count <= |indices| && n > 0
  {
    if count == 0 then Zero
    else Add(HotCount(indices, chunkSize, n, x, count - 1), if HotAt(indices, chunkSize, n, count - 1) == Some(x) then One else Zero)
  }

  /** The dense table with the marks counted in each entry. */
  function HotTable(indices: seq<Option<nat>>, chunkSize: nat, n: nat, count: nat): (t: seq<F>)
    requires count <= |indices| && n > 0
    ensures |t| == n
  {
    seq(n, (x: nat) => HotCount(indices, chunkSize, n, x, count))
  }

  /** What makes the opening defined: without any mark nothing is evaluated. */
  ghost predicate HotFits(indices: seq<Option<nat>>, chunkSize: nat, point: seq<F>, count: nat)
    requires count <= |indices|
  {
    forall i :: 0 <= i < count && indices[i].Some? ==> |point| <= USIZE_BITS && Times(i, chunkSize) + indices[i].value <= USIZE_MAX
  }

  lemma HotEntry(indices: seq<Option<nat>>, chunkSize: nat, n: nat, count: nat, x: nat)
    requires count <= |indices| && x < n
    ensures At(HotTable(indices, chunkSize, n, count), x) == HotCount(indices, chunkSize, n, x, count)
  { }

  lemma HotNext(indices: seq<Option<nat>>, chunkSize: nat, n: nat, x: int, count: nat)
    requires count < |indices| && n > 0
    ensures HotCount(indices, chunkSize, n, x, count + 1) ==
      Add(HotCount(indices, chunkSize, n, x, count), if HotAt(indices, chunkSize, n, count) == Some(x) then One else Zero)
  { }

  /** One more mark at k adds the weight of k to the opening; no mark adds nothing. */
  lemma OpeningOfMark(lagrange: bool, s: seq<F>, t: seq<F>, r: seq<F>, mark: Option<nat>)
    requires mark.Some? ==> mark.value < Pow2(|r|)
    requires forall x :: 0 <= x < Pow2(|r|) ==> At(t, x) == Add(At(s, x), if mark == Some(x) then One else Zero)
    ensures Opening(lagrange, t, r) == if mark.Some? then Add(Opening(lagrange, s, r), Weight(lagrange, r, mark.value)) else Opening(lagrange, s, r)
  {
    hide *;
    var n := Pow2(|r|);
    var f, g, h := Terms(lagrange, s, r), Terms(lagrange, t, r), MarkTerms(lagrange, r, mark);
    forall x | 0 <= x < n ensures g(x) == Add(f(x), h(x)) {
      TermAt(lagrange, s, r, x); TermAt(lagrange, t, r, x); MarkTermAt(lagrange, r, mark, x);
      var w := Weight(lagrange, r, x);
      Distrib(w, At(s, x), if mark == Some(x) then One else Zero);
      MulOne(w); MulZero(w);
    }
    SumAdd(f, h, g, n);
    OpeningIsSum(lagrange, s, r); OpeningIsSum(lagrange, t, r);
    if mark.Some? {
      forall x | 0 <= x < n && x != mark.value ensures h(x) == Zero { MarkTermAt(lagrange, r, mark, x); }
      SumPick(h, n, mark.value);
      MarkTermAt(lagrange, r, mark, mark.value);
    } else {
      forall x | 0 <= x < n ensures h(x) == Zero { MarkTermAt(lagrange, r, mark, x); }
      SumZero(h, n);
      AddZero(Sum(f, n));
    }
  }

  function MarkTerms(lagrange: bool, r: seq<F>, mark: Option<nat>): int -> F {
    (x: int) => if x >= 0 && mark == Some(x) then Weight(lagrange, r, x) else Zero
  }

  lemma MarkTermAt(lagrange: bool, r: seq<F>, mark: Option<nat>, x: nat)
    ensures MarkTerms(lagrange, r, mark)(x) == if mark == Some(x) then Weight(lagrange, r, x) else Zero
  { }

  /** Without entries there is nothing to open. */
  lemma OpeningOfZeros(lagrange: bool, s: seq<F>, r: seq<F>)
    requires forall x :: 0 <= x < Pow2(|r|) ==> At(s, x) == Zero
    ensures Opening(lagrange, s, r) == Zero
  {
    hide *;
    forall x | 0 <= x < Pow2(|r|) ensures Terms(lagrange, s, r)(x) == Zero { TermAt(lagrange, s, r, x); MulZero(Weight(lagrange, r, x)); }
    SumZero(Terms(lagrange, s, r), Pow2(|r|));
    OpeningIsSum(lagrange, s, r);
  }

  /**
   For every input, one-hot opening is defined exactly when each mark has an index within `usize` and the point
   at most 64 coordinates; it is then the dense opening of the table of marks.
   */
  lemma {:induction false} OneHotIsHotTable(indices: seq<Option<nat>>, chunkSize: nat, point: seq<F>, lagrange: bool, count: nat)
    requires count <= |indices|
    ensures OneHot(indices, chunkSize, point, lagrange, count).Some? <==> HotFits(indices, chunkSize, point, count)
    ensures HotFits(indices, chunkSize, point, count) ==>
      OneHot(indices, chunkSize, point, lagrange, count) == Some(Opening(lagrange, HotTable(indices, chunkSize, Pow2(|point|), count), point))
  {
    var n := Pow2(|point|);
    if count == 0 {
      hide Opening, Pow2;
      var none := HotTable(indices, chunkSize, n, 0);
      forall x | 0 <= x < n ensures At(none, x) == Zero { }
      OpeningOfZeros(lagrange, none, point);
    } else {
      OneHotIsHotTable(indices, chunkSize, point, lagrange, count - 1);
      OneHotStep(indices, chunkSize, point, lagrange, count - 1);
    }
  }

  /** When the one-hot opening is defined, in its own arguments. */
  lemma OneHotDefined(indices: seq<Option<nat>>, chunkSize: nat, point: seq<F>, lagrange: bool)
    ensures OneHot(indices, chunkSize, point, lagrange, |indices|).Some? <==>
      forall i :: 0 <= i < |indices| && indices[i].Some? ==> |point| <= 64 && i * chunkSize + indices[i].value <= 0xFFFF_FFFF_FFFF_FFFF
  {
    hide OneHot;
    OneHotIsHotTable(indices, chunkSize, point, lagrange, |indices|);
    if HotFits(indices, chunkSize, point, |indices|) {
      forall i | 0 <= i < |indices| && indices[i].Some? ensures |point| <= 64 && i * chunkSize + indices[i].value <= 0xFFFF_FFFF_FFFF_FFFF {
        assert Times(i, chunkSize) == i * chunkSize;
      }
    }
  }

  lemma OneHotStep(indices: seq<Option<nat>>, chunkSize: nat, point: seq<F>, lagrange: bool, c: nat)
    requires c < |indices|
    requires OneHot(indices, chunkSize, point, lagrange, c).Some? <==> HotFits(indices, chunkSize, point, c)
    requires HotFits(indices, chunkSize, point, c) ==>
      OneHot(indices, chunkSize, point, lagrange, c) == Some(Opening(lagrange, HotTable(indices, chunkSize, Pow2(|point|), c), point))
    ensures OneHot(indices, chunkSize, point, lagrange, c + 1).Some? <==> HotFits(indices, chunkSize, point, c + 1)
    ensures HotFits(indices, chunkSize, point, c + 1) ==>
      OneHot(indices, chunkSize, point, lagrange, c + 1) == Some(Opening(lagrange, HotTable(indices, chunkSize, Pow2(|point|), c + 1), point))
  {
    hide *;
    HotFitsNext(indices, chunkSize, point, c);
    OneHotNext(indices, chunkSize, point, lagrange, c);
    HotMark(indices, chunkSize, Pow2(|point|), c);
    MarkOpens(indices, chunkSize, point, lagrange, c);
    if indices[c].Some? { IndexWeightIsWeight(point, Times(c, chunkSize) + indices[c].value, lagrange); }
  }

  /** The next chunk's mark adds its weight to the opening of the table of marks. */
  lemma MarkOpens(indices: seq<Option<nat>>, chunkSize: nat, point: seq<F>, lagrange: bool, c: nat)
    requires c < |indices|
    ensures
      var n := Pow2(|point|);
      var before, mark := Opening(lagrange, HotTable(indices, chunkSize, n, c), point), HotAt(indices, chunkSize, n, c);
      Opening(lagrange, HotTable(indices, chunkSize, n, c + 1), point) == if mark.Some? then Add(before, Weight(lagrange, point, mark.value)) else before
  {
    hide *;
    var n := Pow2(|point|);
    var s, t := HotTable(indices, chunkSize, n, c), HotTable(indices, chunkSize, n, c + 1);
    HotMark(indices, chunkSize, n, c);
    forall x | 0 <= x < n ensures At(t, x) == Add(At(s, x), if HotAt(indices, chunkSize, n, c) == Some(x) then One else Zero) {
      HotEntry(indices, chunkSize, n, c, x); HotEntry(indices, chunkSize, n, c + 1, x);
      HotNext(indices, chunkSize, n, x, c);
    }
    OpeningOfMark(lagrange, s, t, point, HotAt(indices, chunkSize, n, c));
  }

  lemma HotMark(indices: seq<Option<nat>>, chunkSize: nat, n: nat, i: nat)
    requires i < |indices| && n > 0
    ensures Times(i, chunkSize) >= 0
    ensures HotAt(indices, chunkSize, n, i) == if indices[i].Some? then Some((Times(i, chunkSize) + indices[i].value) % n) else None
    ensures HotAt(indices, chunkSize, n, i).Some? ==> HotAt(indices, chunkSize, n, i).value < n
  {
    TimesNat(i, chunkSize);
  }

  lemma HotFitsNext(indices: seq<Option<nat>>, chunkSize: nat, point: seq<F>, c: nat)
    requires c < |indices|
    ensures HotFits(indices, chunkSize, point, c + 1) <==>
      HotFits(indices, chunkSize, point, c) && (indices[c].Some? ==> |point| <= USIZE_BITS && Times(c, chunkSize) + indices[c].value <= USIZE_MAX)
  {
    hide Times;
  }

  lemma OneHotNext(indices: seq<Option<nat>>, chunkSize: nat, point: seq<F>, lagrange: bool, c: nat)
    requires c < |indices|
    ensures Times(c, chunkSize) >= 0
    ensures
      var before := OneHot(indices, chunkSize, point, lagrange, c);
      OneHot(indices, chunkSize, point, lagrange, c + 1) ==
        if indices[c].None? then before
        else
          var index := Times(c, chunkSize) + indices[c].value;
          if before.None? || index > USIZE_MAX || IndexWeight(point, index, lagrange).None? then None
          else Some(Add(before.value, IndexWeight(point, index, lagrange).value))
  {
    TimesNat(c, chunkSize);
    hide IndexWeight;
  }

  /** The table with a one at each hot position of each chunk. */
  function Indicator(indices: seq<Option<nat>>, chunkSize: nat): (t: seq<F>)
    requires chunkSize > 0
    ensures |t| == |indices| * chunkSize
  {
    seq(|indices| * chunkSize, (x: nat) requires x < |indices| * chunkSize =>
      QuotientBound(x, chunkSize, |indices|);
      if indices[x / chunkSize] == Some(x % chunkSize) then One else Zero)
  }

  /** Positions inside their chunks mark each entry at most once. */
  lemma {:induction false} HotCountIsIndicator(indices: seq<Option<nat>>, chunkSize: nat, n: nat, q: nat, r: nat, count: nat)
    requires chunkSize > 0 && count <= |indices| && r < chunkSize && Times(|indices|, chunkSize) <= n
    requires forall i :: 0 <= i < |indices| && indices[i].Some? ==> indices[i].value < chunkSize
    requires n > 0 && Times(q, chunkSize) >= 0
    ensures HotCount(indices, chunkSize, n, Times(q, chunkSize) + r, count) ==
      if q < count && indices[q] == Some(r) then One else Zero
  {
    if count > 0 {
      var c := count - 1;
      HotCountIsIndicator(indices, chunkSize, n, q, r, c);
      HotNext(indices, chunkSize, n, Times(q, chunkSize) + r, c);
      HotMark(indices, chunkSize, n, c);
      if indices[c].Some? { MarkInside(c, indices[c].value, q, r, chunkSize, |indices|, n); }
      hide *;
      AddZero(Zero); AddZero(One);
    }
  }

  /** Marks of different chunks or positions are different entries. */
  lemma MarkInside(c: nat, p: nat, q: nat, r: nat, chunkSize: nat, chunks: nat, n: nat)
    requires c < chunks && p < chunkSize && r < chunkSize && Times(chunks, chunkSize) <= n
    ensures Times(c, chunkSize) >= 0 && Times(q, chunkSize) >= 0
    ensures (Times(c, chunkSize) + p) % n == Times(q, chunkSize) + r <==> c == q && p == r
  {
    MulMono(c + 1, chunks, chunkSize);
    DivModUnique(Times(c, chunkSize) + p, n, 0, Times(c, chunkSize) + p);
    DivModUnique(Times(c, chunkSize) + p, chunkSize, c, p);
    DivModUnique(Times(q, chunkSize) + r, chunkSize, q, r);
  }

  lemma IndicatorIs(indices: seq<Option<nat>>, chunkSize: nat, q: nat, r: nat)
    requires chunkSize > 0 && r < chunkSize
    ensures Times(q, chunkSize) >= 0
    ensures At(Indicator(indices, chunkSize), Times(q, chunkSize) + r) == if q < |indices| && indices[q] == Some(r) then One else Zero
  {
    TimesNat(q, chunkSize);
    DivModUnique(Times(q, chunkSize) + r, chunkSize, q, r);
    if q < |indices| { MulMono(q + 1, |indices|, chunkSize); } else { MulMono(|indices|, q, chunkSize); }
  }

  /**
   When positions stay inside their chunks and the chunks inside the domain, on a point of at most 64
   coordinates, one-hot opening is the dense opening of the indicator table, in both bases.
   */
  lemma OneHotIsDense(indices: seq<Option<nat>>, chunkSize: nat, point: seq<F>, lagrange: bool)
    requires chunkSize > 0 && |point| <= USIZE_BITS
    requires Times(|indices|, chunkSize) <= Pow2(|point|)
    requires forall i :: 0 <= i < |indices| && indices[i].Some? ==> indices[i].value < chunkSize
    ensures OneHot(indices, chunkSize, point, lagrange, |indices|) == Some(Opening(lagrange, Indicator(indices, chunkSize), point))
  {
    DomainFits(|point|);
    hide *;
    var n, m := Pow2(|point|), |indices|;
    var hot, table := HotTable(indices, chunkSize, n, m), Indicator(indices, chunkSize);
    MarksFit(indices, chunkSize, point);
    OneHotIsHotTable(indices, chunkSize, point, lagrange, m);
    forall x | 0 <= x < n ensures At(table, x) == At(hot, x) { SameEntry(indices, chunkSize, n, x); }
    SameOpening(lagrange, table, hot, point);
  }

  lemma SameEntry(indices: seq<Option<nat>>, chunkSize: nat, n: nat, x: nat)
    requires chunkSize > 0 && x < n && Times(|indices|, chunkSize) <= n
    requires forall i :: 0 <= i < |indices| && indices[i].Some? ==> indices[i].value < chunkSize
    ensures At(Indicator(indices, chunkSize), x) == At(HotTable(indices, chunkSize, n, |indices|), x)
  {
    hide *;
    DivModIs(x, chunkSize);
    HotEntry(indices, chunkSize, n, |indices|, x);
    HotCountIsIndicator(indices, chunkSize, n, x / chunkSize, x % chunkSize, |indices|);
    IndicatorIs(indices, chunkSize, x / chunkSize, x % chunkSize);
  }

  lemma DomainFits(bits: nat)
    requires bits <= USIZE_BITS
    ensures Pow2(bits) <= USIZE_MAX + 1
  {
    hide Pow2;
    Pow2Of64(); Pow2Mono(bits, 64);
  }

  lemma MarksFit(indices: seq<Option<nat>>, chunkSize: nat, point: seq<F>)
    requires |point| <= USIZE_BITS && Times(|indices|, chunkSize) <= USIZE_MAX + 1
    requires forall i :: 0 <= i < |indices| && indices[i].Some? ==> indices[i].value < chunkSize
    ensures HotFits(indices, chunkSize, point, |indices|)
  {
    forall i | 0 <= i < |indices| && indices[i].Some? ensures Times(i, chunkSize) + indices[i].value <= USIZE_MAX {
      MulMono(i + 1, |indices|, chunkSize);
    }
  }

  lemma SameOpening(lagrange: bool, s: seq<F>, t: seq<F>, r: seq<F>)
    requires forall x :: 0 <= x < Pow2(|r|) ==> At(s, x) == At(t, x)
    ensures Opening(lagrange, s, r) == Opening(lagrange, t, r)
  {
    hide *;
    forall x | 0 <= x < Pow2(|r|) ensures Terms(lagrange, s, r)(x) == Terms(lagrange, t, r)(x) {
      TermAt(lagrange, s, r, x); TermAt(lagrange, t, r, x);
    }
    SumExt(Terms(lagrange, s, r), Terms(lagrange, t, r), Pow2(|r|));
    OpeningIsSum(lagrange, s, r); OpeningIsSum(lagrange, t, r);
  }
}
