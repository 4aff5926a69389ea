/**
 Row tables of adjacent digits: the digits and low factor folded against eq of one block.
 Models the table construction of crates/akita-algebra/src/offset_eq/prepared_digits.rs.
 */
module PreparedTables {
  import opened Arith
  import opened Field
  import opened Sums
  import opened Powers
  import opened EqPoly
  import opened AffineSpec
  import opened AffineLow
  import opened AffineBuckets

  // ----- what a table entry is

  function LaneTerms(digits: seq<F>, e: seq<F>, t: int): int -> F { (d: int) => Mul(At(digits, d), At(e, t + d)) }

  /** The digits against consecutive entries of e from t on, zero outside e. */
  function LaneSum(digits: seq<F>, e: seq<F>, t: int): F { Sum(LaneTerms(digits, e, t), |digits|) }

  lemma LaneTermAt(digits: seq<F>, e: seq<F>, t: int, d: int)
    ensures LaneTerms(digits, e, t)(d) == Mul(At(digits, d), At(e, t + d))
  { }

  lemma LaneSumIs(digits: seq<F>, e: seq<F>, t: int) ensures LaneSum(digits, e, t) == Sum(LaneTerms(digits, e, t), |digits|) { }

  function RowEntries(g: Affine, e: seq<F>, t: int): int -> F {
    (lane: int) => Mul(LowWeight(g, lane), LaneSum(g.digits, e, t + Times(lane, |g.digits|)))
  }

  /** One full row of lanes against consecutive entries of e from t on. */
  function RowEntry(g: Affine, e: seq<F>, t: int): F { Sum(RowEntries(g, e, t), LowLen(g)) }

  lemma RowEntryAt(g: Affine, e: seq<F>, t: int, lane: int)
    ensures RowEntries(g, e, t)(lane) == Mul(LowWeight(g, lane), LaneSum(g.digits, e, t + Times(lane, |g.digits|)))
  { }

  lemma RowEntryIs(g: Affine, e: seq<F>, t: int) ensures RowEntry(g, e, t) == Sum(RowEntries(g, e, t), LowLen(g)) { }

  // ----- a row of the contraction from its two table entries

  /** Adjacent digits: the addresses of a row are consecutive. */
  ghost predicate Adjacent(g: Affine) { |g.digits| > 0 && g.digitStride == 1 && g.outerStride == |g.digits| }

  lemma AdjacentParts(g: Affine)
    requires Adjacent(g)
    ensures |g.digits| > 0 && g.digitStride == 1 && g.outerStride == |g.digits|
  { }

  /** A lane against eq of the whole point splits into the block's part and the next block's. */
  lemma LaneByBlock(g: Affine, b: nat, a: nat, lane: nat, block: nat, p: nat)
    requires Adjacent(g) && b <= |g.challenges| && p < Pow2(b) && a == Times(block, Pow2(b)) + p
    requires Times(lane, |g.digits|) >= 0 && Times(lane, |g.digits|) + |g.digits| <= Pow2(b)
    ensures
      var e, at := EqTable(g.challenges[..b]), Times(lane, |g.digits|);
      DigitSum(g, a + at) ==
        Add(Mul(EqInt(g.challenges[b..], block), LaneSum(g.digits, e, p + at)),
            Mul(EqInt(g.challenges[b..], block + 1), LaneSum(g.digits, e, p + at - Pow2(b))))
  {
    hide *;
    AdjacentParts(g);
    var e, at, n := EqTable(g.challenges[..b]), Times(lane, |g.digits|), |g.digits|;
    var h0, h1 := EqInt(g.challenges[b..], block), EqInt(g.challenges[b..], block + 1);
    var f0, f1 := LaneTerms(g.digits, e, p + at), LaneTerms(g.digits, e, p + at - Pow2(b));
    forall d | 0 <= d < n ensures DigitTerms(g, a + at)(d) == Add(Mul(h0, f0(d)), Mul(h1, f1(d))) {
      DigitByBlock(g, b, a, at, block, p, d);
    }
    SumOfTwo(DigitTerms(g, a + at), f0, f1, h0, h1, n);
    LaneSumIs(g.digits, e, p + at); LaneSumIs(g.digits, e, p + at - Pow2(b));
    DigitSumIs(g, a + at);
  }

  lemma DigitByBlock(g: Affine, b: nat, a: nat, at: nat, block: nat, p: nat, d: nat)
    requires Adjacent(g) && b <= |g.challenges| && p < Pow2(b) && a == Times(block, Pow2(b)) + p
    requires d < |g.digits| && at + |g.digits| <= Pow2(b)
    ensures
      var e := EqTable(g.challenges[..b]);
      DigitTerms(g, a + at)(d) ==
        Add(Mul(EqInt(g.challenges[b..], block), LaneTerms(g.digits, e, p + at)(d)),
            Mul(EqInt(g.challenges[b..], block + 1), LaneTerms(g.digits, e, p + at - Pow2(b))(d)))
  {
    hide *;
    AdjacentParts(g);
    var e, digit := EqTable(g.challenges[..b]), At(g.digits, d);
    DigitTermAt(g, a + at, d);
    TimesOne(d);
    EqWindowAt(g.challenges, b, a, at + d, block, p);
    InsideAt(e, at + d, p);
    LaneTermAt(g.digits, e, p + at, d); LaneTermAt(g.digits, e, p + at - Pow2(b), d);
    DistribInto(digit, EqInt(g.challenges[b..], block), EqInt(g.challenges[b..], block + 1), At(e, p + at + d), At(e, p + at - Pow2(b) + d));
    assert a + at + d == a + (at + d) && p + (at + d) == p + at + d && p + (at + d) - |e| == p + at - Pow2(b) + d;
  }

  /** The row starting at address block 2^b + p, from the block's table entry and the next block's. */
  lemma RowByBlock(g: Affine, s: Seg, b: nat, a: nat, block: nat, p: nat)
    requires Adjacent(g) && SegOk(g, s) && s.lowStart == 0 && s.lowEnd == LowLen(g)
    requires b <= |g.challenges| && p < Pow2(b) && a == Times(block, Pow2(b)) + p && Times(LowLen(g), |g.digits|) <= Pow2(b)
    ensures
      var e := EqTable(g.challenges[..b]);
      RowSum(g, s, a) ==
        Add(Mul(EqInt(g.challenges[b..], block), RowEntry(g, e, p)),
            Mul(EqInt(g.challenges[b..], block + 1), RowEntry(g, e, p - Pow2(b))))
  {
    hide *;
    AdjacentParts(g);
    SegSpan(g, s);
    var e, q := EqTable(g.challenges[..b]), LowLen(g);
    var h0, h1 := EqInt(g.challenges[b..], block), EqInt(g.challenges[b..], block + 1);
    var f0, f1 := RowEntries(g, e, p), RowEntries(g, e, p - Pow2(b));
    var byLow := LowTerms(g, a);
    forall l | 0 <= l < q ensures byLow(l) == Mul(LowWeight(g, s.lowStart + l), DigitSum(g, a + Times(g.outerStride, l))) { LowTermAt(g, a, l); }
    RowByLow(g, s, a, byLow);
    forall l | 0 <= l < q ensures byLow(l) == Add(Mul(h0, f0(l)), Mul(h1, f1(l))) {
      LowTermAt(g, a, l);
      TimesComm(g.outerStride, l);
      LaneInside(l, q, |g.digits|);
      LaneByBlock(g, b, a, l, block, p);
      RowEntryAt(g, e, p, l); RowEntryAt(g, e, p - Pow2(b), l);
      var at := Times(l, |g.digits|);
      DistribInto(LowWeight(g, l), h0, h1, LaneSum(g.digits, e, p + at), LaneSum(g.digits, e, p + at - Pow2(b)));
      assert p - Pow2(b) + at == p + at - Pow2(b);
    }
    SumOfTwo(byLow, f0, f1, h0, h1, q);
    RowEntryIs(g, e, p); RowEntryIs(g, e, p - Pow2(b));
  }

  function LowTerms(g: Affine, a: int): int -> F { (l: int) => Mul(LowWeight(g, l), DigitSum(g, a + Times(g.outerStride, l))) }

  lemma LowTermAt(g: Affine, a: int, l: int)
    ensures LowTerms(g, a)(l) == Mul(LowWeight(g, l), DigitSum(g, a + Times(g.outerStride, l)))
  { }

  lemma LaneInside(l: nat, q: nat, n: nat)
    requires l < q
    ensures 0 <= Times(l, n) && Times(l, n) + n <= Times(q, n)
  {
    MulMono(l + 1, q, n);
  }

  // ----- interleaved geometric digits

  /** Lane j of the digits, every p-th one, is geometric with ratio beta; the first digit is one. */
  ghost predicate Interleaved(digits: seq<F>, p: nat) {
    && 0 < p <= |digits| && |digits| % p == 0 && digits[0] == One
    && forall i :: p <= i < |digits| ==> Mul(digits[i - p], Beta(digits, p)) == digits[i]
  }

  function Beta(digits: seq<F>, p: nat): F { if p < |digits| then digits[p] else Zero }

  /** Every digit from p on is the one p places before it times beta. */
  ghost predicate LanesBy(digits: seq<F>, p: nat, beta: F) {
    forall i :: p <= i < |digits| ==> digits[i] == Mul(digits[i - p], beta)
  }

  /** The test with the digit at the period finds the ratio whenever there is one. */
  lemma InterleavedMeans(digits: seq<F>, p: nat)
    ensures Interleaved(digits, p) <==>
      0 < p <= |digits| && |digits| % p == 0 && digits[0] == One && exists beta: F :: LanesBy(digits, p, beta)
  {
    if Interleaved(digits, p) { assert LanesBy(digits, p, Beta(digits, p)); }
    if 0 < p <= |digits| && |digits| % p == 0 && digits[0] == One && exists beta: F :: LanesBy(digits, p, beta) {
      var beta: F :| LanesBy(digits, p, beta);
      if p < |digits| {
        assert digits[p] == Mul(digits[p - p], beta);
        MulOne(beta);
      }
    }
  }

  const PERIODS: seq<nat> := [1, 2, 4, 8, 16]

  /** The first of the recognized periods that fits, if any does. */
  method FindPeriod(digits: seq<F>) returns (period: Option<nat>)
    requires |digits| > 0
    ensures period.Some? ==> Interleaved(digits, period.value) && period.value in {1, 2, 4, 8, 16}
    ensures period.Some? <==> exists k :: 0 <= k < |PERIODS| && Interleaved(digits, PERIODS[k])
    ensures period.Some? ==> forall k :: 0 <= k < |PERIODS| && Interleaved(digits, PERIODS[k]) ==> period.value <= PERIODS[k]
  {
    hide Beta;
    var periods := PERIODS;
    for k := 0 to |periods|
      invariant forall i :: 0 <= i < k ==> !Interleaved(digits, PERIODS[i])
    {
      var p := periods[k];
      if digits[0] == One && |digits| % p == 0 {
        var beta, geometric := Beta(digits, p), true;
        var i := p;
        while i < |digits| && geometric
          invariant p <= i && (geometric ==> forall m :: p <= m < i && m < |digits| ==> Mul(digits[m - p], beta) == digits[m])
          invariant !geometric ==> i < |digits| && Mul(digits[i - p], beta) != digits[i]
          decreases |digits| - i, geometric
        {
          if Mul(digits[i - p], beta) != digits[i] { geometric := false; } else { i := i + 1; }
        }
        if geometric {
          PeriodFits(|digits|, p);
          assert Interleaved(digits, PERIODS[k]);
          return Some(p);
        }
      }
    }
    period := None;
  }

  lemma PeriodFits(n: nat, p: nat)
    requires n > 0 && p > 0 && n % p == 0
    ensures p <= n
  {
    if n < p { DivModUnique(n, p, 0, n); }
  }

  /** Digit k p + j is digit j times beta^k. */
  lemma {:induction false} InterleavedDigit(digits: seq<F>, p: nat, k: nat, j: nat)
    requires Interleaved(digits, p) && j < p && Times(k, p) >= 0 && Times(k, p) + j < |digits|
    ensures At(digits, Times(k, p) + j) == Mul(At(digits, j), Pow(Beta(digits, p), k))
  {
    var beta := Beta(digits, p);
    TimesZero(p);
    if k == 0 { PowNil(beta); MulOne(digits[j]); } else {
      TimesStep(k - 1, p); TimesNat(k - 1, p);
      hide Times;
      InterleavedDigit(digits, p, k - 1, j);
      PowStep(beta, k);
      MulAssoc(At(digits, j), Pow(beta, k - 1), beta);
    }
  }

  function RatioTerms(beta: F, e: seq<F>, p: nat, t: int): int -> F { (k: int) => Mul(Pow(beta, k), At(e, t + Times(k, p))) }

  /** One geometric lane: beta^k against every p-th entry of e from t on. */
  function RatioSum(beta: F, e: seq<F>, p: nat, count: nat, t: int): F { Sum(RatioTerms(beta, e, p, t), count) }

  lemma RatioTermAt(beta: F, e: seq<F>, p: nat, t: int, k: int)
    ensures RatioTerms(beta, e, p, t)(k) == Mul(Pow(beta, k), At(e, t + Times(k, p)))
  { }

  lemma RatioSumIs(beta: F, e: seq<F>, p: nat, count: nat, t: int)
    ensures RatioSum(beta, e, p, count, t) == Sum(RatioTerms(beta, e, p, t), count)
  { }

  /** The recurrence: one more entry in front, one fewer behind. */
  lemma RatioStep(beta: F, e: seq<F>, p: nat, count: nat, t: int)
    ensures RatioSum(beta, e, p, count, t) ==
      Sub(Add(Mul(beta, RatioSum(beta, e, p, count, t + p)), At(e, t)), Mul(Pow(beta, count), At(e, t + Times(count, p))))
  {
    hide *;
    var f, g := RatioTerms(beta, e, p, t), RatioTerms(beta, e, p, t + p);
    SumSnoc(f, count + 1);
    SumFrom(f, 1, count);
    SumOne(f);
    forall k | 0 <= k < count ensures From(f, 1)(k) == Mul(beta, g(k)) {
      FromAt(f, 1, k);
      RatioTermAt(beta, e, p, t, 1 + k); RatioTermAt(beta, e, p, t + p, k);
      PowStep(beta, k + 1);
      TimesStep(k, p);
      MulAssoc(beta, Pow(beta, k), At(e, t + p + Times(k, p)));
      assert t + Times(1 + k, p) == t + p + Times(k, p);
    }
    SumScale(beta, g, From(f, 1), count);
    RatioTermAt(beta, e, p, t, 0); RatioTermAt(beta, e, p, t, count);
    PowNil(beta); TimesZero(p); MulOne(At(e, t));
    RatioSumIs(beta, e, p, count, t); RatioSumIs(beta, e, p, count, t + p);
    AddComm(At(e, t), Mul(beta, Sum(g, count)));
    AddComm(Sum(f, count), f(count));
    SubUnique(Sum(f, count + 1), f(count), Sum(f, count));
  }

  /** Outside the table on either side the lane is zero. */
  lemma RatioOutside(beta: F, e: seq<F>, p: nat, count: nat, t: int)
    requires count >= 1 && (t >= |e| || t + Times(count - 1, p) < 0)
    ensures RatioSum(beta, e, p, count, t) == Zero
  {
    hide *;
    forall k | 0 <= k < count ensures RatioTerms(beta, e, p, t)(k) == Zero {
      RatioTermAt(beta, e, p, t, k);
      TimesNat(k, p); TimesMono(k, count - 1, p);
      AtOutside(e, t + Times(k, p));
      MulZero(Pow(beta, k));
    }
    SumZero(RatioTerms(beta, e, p, t), count);
    RatioSumIs(beta, e, p, count, t);
  }

  /** The lane sums of interleaved geometric digits, one period at a time. */
  lemma LaneByRatio(digits: seq<F>, p: nat, count: nat, e: seq<F>, t: int, columns: int -> F)
    requires Interleaved(digits, p) && |digits| == Times(count, p)
    requires forall j :: 0 <= j < p ==> columns(j) == Mul(At(digits, j), RatioSum(Beta(digits, p), e, p, count, t + j))
    ensures LaneSum(digits, e, t) == Sum(columns, p)
  {
    hide *;
    var f, beta := LaneTerms(digits, e, t), Beta(digits, p);
    var grid := LaneGrid(digits, e, p, t);
    var rows := LaneRows(digits, e, p, t);
    LaneSumIs(digits, e, t);
    forall k | 0 <= k < count ensures rows(k) == Sum(j => f(Times(k, p) + j), p) { LaneRowAt(digits, e, p, t, k, j => f(Times(k, p) + j)); }
    SumTimesBlocks(f, rows, count, p);
    forall k | 0 <= k < count ensures rows(k) == Sum(j => grid(k, j), p) { GridRow(digits, e, p, count, t, k, j => grid(k, j)); }
    forall j | 0 <= j < p ensures columns(j) == Sum(k => grid(k, j), count) { GridColumn(digits, e, p, count, t, j, k => grid(k, j)); }
    SumSwap(grid, rows, columns, count, p);
  }

  function LaneGrid(digits: seq<F>, e: seq<F>, p: nat, t: int): (int, int) -> F {
    (k: int, j: int) => Mul(Mul(At(digits, j), Pow(Beta(digits, p), k)), At(e, t + j + Times(k, p)))
  }

  function LaneRows(digits: seq<F>, e: seq<F>, p: nat, t: int): int -> F {
    (k: int) => Sum(From(LaneTerms(digits, e, t), Times(k, p)), p)
  }

  lemma LaneRowAt(digits: seq<F>, e: seq<F>, p: nat, t: int, k: int, block: int -> F)
    requires forall j :: 0 <= j < p ==> block(j) == LaneTerms(digits, e, t)(Times(k, p) + j)
    ensures LaneRows(digits, e, p, t)(k) == Sum(block, p)
  {
    hide Sum, Times, LaneTerms;
    SumExt(From(LaneTerms(digits, e, t), Times(k, p)), block, p);
  }

  lemma GridRow(digits: seq<F>, e: seq<F>, p: nat, count: nat, t: int, k: nat, row: int -> F)
    requires Interleaved(digits, p) && |digits| == Times(count, p) && k < count
    requires forall j :: 0 <= j < p ==> row(j) == LaneGrid(digits, e, p, t)(k, j)
    ensures LaneRows(digits, e, p, t)(k) == Sum(row, p)
  {
    hide *;
    var f := LaneTerms(digits, e, t);
    forall j | 0 <= j < p ensures row(j) == f(Times(k, p) + j) {
      LaneInside(k, count, p);
      InterleavedDigit(digits, p, k, j);
      LaneTermAt(digits, e, t, Times(k, p) + j);
      GridAt(digits, e, p, t, k, j);
      assert t + (Times(k, p) + j) == t + j + Times(k, p);
    }
    LaneRowAt(digits, e, p, t, k, row);
  }

  lemma GridAt(digits: seq<F>, e: seq<F>, p: nat, t: int, k: int, j: int)
    ensures LaneGrid(digits, e, p, t)(k, j) == Mul(Mul(At(digits, j), Pow(Beta(digits, p), k)), At(e, t + j + Times(k, p)))
  { }

  lemma GridColumn(digits: seq<F>, e: seq<F>, p: nat, count: nat, t: int, j: nat, column: int -> F)
    requires forall k :: 0 <= k < count ==> column(k) == LaneGrid(digits, e, p, t)(k, j)
    ensures Mul(At(digits, j), RatioSum(Beta(digits, p), e, p, count, t + j)) == Sum(column, count)
  {
    hide *;
    var beta, f := Beta(digits, p), RatioTerms(Beta(digits, p), e, p, t + j);
    forall k | 0 <= k < count ensures column(k) == Mul(At(digits, j), f(k)) {
      GridAt(digits, e, p, t, k, j);
      RatioTermAt(beta, e, p, t + j, k);
      MulAssoc(At(digits, j), Pow(beta, k), At(e, t + j + Times(k, p)));
    }
    SumScale(At(digits, j), f, column, count);
    RatioSumIs(beta, e, p, count, t + j);
  }

  // ----- building the tables

  /** The h array's entry i stands for the lane sum at offset i - prefix. */
  ghost predicate HoldsRatios(h: seq<F>, from: nat, beta: F, e: seq<F>, p: nat, count: nat, prefix: nat) {
    forall i {:trigger h[i]} :: from <= i < |h| ==> h[i] == RatioSum(beta, e, p, count, i - prefix)
  }

  /** The recurrence run from the last offset down. */
  method BuildRatios(digits: seq<F>, p: nat, count: nat, e: seq<F>) returns (h: seq<F>)
    requires Interleaved(digits, p) && count >= 1 && |digits| == Times(count, p) && Times(count - 1, p) >= 0
    ensures |h| == |e| + Times(count - 1, p)
    ensures HoldsRatios(h, 0, Beta(digits, p), e, p, count, Times(count - 1, p))
  {
    hide *;
    InterleavedParts(digits, p);
    var prefix, beta := Times(count - 1, p), Beta(digits, p);
    TimesStep(count - 1, p);
    InterleavedDigit(digits, p, count - 1, 0);
    AtInside(digits);
    PowStep(beta, count);
    MulOne(Pow(beta, count - 1));
    var tail := Mul(digits[prefix], beta);
    h := seq(|e| + prefix, _ => Zero);
    NoRatios(h, beta, e, p, count, prefix);
    var i := |h|;
    while i > 0
      invariant 0 <= i <= |h| == |e| + prefix && HoldsRatios(h, i, beta, e, p, count, prefix)
    {
      i := i - 1;
      var value := if i + p < |h| then Mul(beta, h[i + p]) else Zero;
      if i >= prefix { value := Add(value, e[i - prefix]); }
      if i + p < |e| { value := Sub(value, Mul(tail, e[i + p])); }
      RatioEntry(h, i, beta, e, p, count, prefix, tail, value);
      h := h[i := value];
    }
  }

  lemma InterleavedParts(digits: seq<F>, p: nat)
    requires Interleaved(digits, p)
    ensures 0 < p <= |digits| && digits[0] == One
  { }

  lemma NoRatios(h: seq<F>, beta: F, e: seq<F>, p: nat, count: nat, prefix: nat)
    ensures HoldsRatios(h, |h|, beta, e, p, count, prefix)
  { }

  lemma RatioHeld(h: seq<F>, from: nat, beta: F, e: seq<F>, p: nat, count: nat, prefix: nat, i: nat)
    requires HoldsRatios(h, from, beta, e, p, count, prefix) && from <= i < |h|
    ensures h[i] == RatioSum(beta, e, p, count, i - prefix)
  { }

  /** One step of the recurrence, with its range checks. */
  lemma RatioEntry(h: seq<F>, i: nat, beta: F, e: seq<F>, p: nat, count: nat, prefix: nat, tail: F, value: F)
    requires count >= 1 && p > 0 && prefix == Times(count - 1, p) && prefix + p == Times(count, p) && tail == Pow(beta, count)
    requires i < |h| == |e| + prefix && HoldsRatios(h, i + 1, beta, e, p, count, prefix)
    requires
      var first := if i + p < |h| then Mul(beta, h[i + p]) else Zero;
      var second := if i >= prefix then Add(first, e[i - prefix]) else first;
      value == if i + p < |e| then Sub(second, Mul(tail, e[i + p])) else second
    ensures HoldsRatios(h[i := value], i, beta, e, p, count, prefix)
  {
    hide *;
    var t := i - prefix;
    var first := if i + p < |h| then Mul(beta, h[i + p]) else Zero;
    RatioStep(beta, e, p, count, t);
    assert first == Mul(beta, RatioSum(beta, e, p, count, t + p)) by {
      if i + p < |h| { RatioHeld(h, i + 1, beta, e, p, count, prefix, i + p); } else { RatioOutside(beta, e, p, count, t + p); MulZero(beta); }
    }
    AtInside(e);
    if i < prefix { AtOutside(e, t); AddZero(first); }
    if i + p >= |e| { AtOutside(e, i + p); MulZero(tail); SubZero(Add(first, At(e, t))); }
    assert t + Times(count, p) == i + p;
    RatioUpdated(h, i, beta, e, p, count, prefix, value);
  }

  lemma RatioUpdated(h: seq<F>, i: nat, beta: F, e: seq<F>, p: nat, count: nat, prefix: nat, value: F)
    requires i < |h| && HoldsRatios(h, i + 1, beta, e, p, count, prefix) && value == RatioSum(beta, e, p, count, i - prefix)
    ensures HoldsRatios(h[i := value], i, beta, e, p, count, prefix)
  {
    hide RatioSum;
  }

  /** `at`: a lane sum at any offset. */
  method RatioAt(h: seq<F>, offset: int, prefix: nat, ghost beta: F, ghost e: seq<F>, ghost p: nat, ghost count: nat) returns (v: F)
    requires count >= 1 && prefix == Times(count - 1, p) && |h| == |e| + prefix && HoldsRatios(h, 0, beta, e, p, count, prefix)
    ensures v == RatioSum(beta, e, p, count, offset)
  {
    hide *;
    var i := offset + prefix;
    if 0 <= i < |h| {
      RatioHeld(h, 0, beta, e, p, count, prefix, i);
      v := h[i];
    } else {
      RatioOutside(beta, e, p, count, offset);
      v := Zero;
    }
  }

  function Columns(digits: seq<F>, p: nat, count: nat, e: seq<F>, t: int): int -> F {
    (j: int) => Mul(At(digits, j), RatioSum(Beta(digits, p), e, p, count, t + j))
  }

  lemma ColumnAt(digits: seq<F>, p: nat, count: nat, e: seq<F>, t: int, j: int)
    ensures Columns(digits, p, count, e, t)(j) == Mul(At(digits, j), RatioSum(Beta(digits, p), e, p, count, t + j))
  { }

  /** One lane from the recurrence: its part in the block and its part in the next one. */
  method RatioLane(digits: seq<F>, p: nat, ghost count: nat, h: seq<F>, prefix: nat, ghost e: seq<F>, t: int, width: nat)
    returns (noCarry: F, carry: F)
    requires Interleaved(digits, p) && count >= 1 && |digits| == Times(count, p) && prefix == Times(count - 1, p)
    requires |h| == |e| + prefix && HoldsRatios(h, 0, Beta(digits, p), e, p, count, prefix)
    ensures noCarry == LaneSum(digits, e, t) && carry == LaneSum(digits, e, t - width)
  {
    hide *;
    InterleavedParts(digits, p);
    ghost var f0, f1 := Columns(digits, p, count, e, t), Columns(digits, p, count, e, t - width);
    noCarry, carry := Zero, Zero;
    SumNil(f0); SumNil(f1);
    AtInside(digits);
    for j := 0 to p
      invariant noCarry == Sum(f0, j) && carry == Sum(f1, j)
    {
      var v0 := RatioAt(h, t + j, prefix, Beta(digits, p), e, p, count);
      var v1 := RatioAt(h, t + j - width, prefix, Beta(digits, p), e, p, count);
      assert t + j - width == t - width + j;
      ColumnAt(digits, p, count, e, t, j); ColumnAt(digits, p, count, e, t - width, j);
      SumSnoc(f0, j + 1); SumSnoc(f1, j + 1);
      noCarry := Add(noCarry, Mul(digits[j], v0));
      carry := Add(carry, Mul(digits[j], v1));
    }
    forall j | 0 <= j < p ensures f0(j) == Mul(At(digits, j), RatioSum(Beta(digits, p), e, p, count, t + j)) { ColumnAt(digits, p, count, e, t, j); }
    forall j | 0 <= j < p ensures f1(j) == Mul(At(digits, j), RatioSum(Beta(digits, p), e, p, count, t - width + j)) { ColumnAt(digits, p, count, e, t - width, j); }
    LaneByRatio(digits, p, count, e, t, f0);
    LaneByRatio(digits, p, count, e, t - width, f1);
  }

  /** One lane digit by digit: before the block's end, or wrapped past it. */
  method DenseLane(digits: seq<F>, e: seq<F>, residue: nat, at: nat, stride: nat) returns (noCarry: F, carry: F)
    requires residue < |e| && at + |digits| <= stride <= |e|
    ensures noCarry == LaneSum(digits, e, residue + at) && carry == LaneSum(digits, e, residue + at - |e|)
  {
    hide *;
    var width := |e|;
    var split := if stride <= width - residue then stride else width - residue;
    ghost var f0, f1 := LaneTerms(digits, e, residue + at), LaneTerms(digits, e, residue + at - width);
    noCarry, carry := Zero, Zero;
    SumNil(f0); SumNil(f1);
    AtInside(digits); AtInside(e);
    for d := 0 to |digits|
      invariant noCarry == Sum(f0, d) && carry == Sum(f1, d)
    {
      var position := at + d;
      SumSnoc(f0, d + 1); SumSnoc(f1, d + 1);
      LaneTermAt(digits, e, residue + at, d); LaneTermAt(digits, e, residue + at - width, d);
      MulZero(digits[d]);
      if position < split {
        AtOutside(e, residue + at - width + d);
        AddZero(carry);
        noCarry := Add(noCarry, Mul(digits[d], e[residue + position]));
      } else {
        AtOutside(e, residue + at + d);
        AddZero(noCarry);
        carry := Add(carry, Mul(digits[d], e[residue + position - width]));
      }
    }
    LaneSumIs(digits, e, residue + at); LaneSumIs(digits, e, residue + at - width);
  }
}
