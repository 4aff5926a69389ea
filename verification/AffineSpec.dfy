/**
 The triple sum behind the offset-equality contraction, and how it factors by rows and carries.
 The specification of crates/akita-algebra/src/offset_eq.rs.
 */
module AffineSpec {
  import opened Arith
  import opened Field
  import opened Sums
  import opened EqPoly

  /** The arguments of `eval_affine_digit_intervals`. */
  datatype Affine = Affine(
    challenges: seq<F>, bases: seq<nat>, scales: seq<F>, outerStart: nat, liveLen: nat,
    outerStride: nat, digitStride: nat, digits: seq<F>, high: seq<F>, low: seq<F>)

  function LowLen(g: Affine): (q: nat) ensures q >= 1 { if |g.low| == 0 then 1 else |g.low| }

  /** An empty low factor stands for the unit weight. */
  function LowWeight(g: Affine, l: int): F { if |g.low| == 0 then One else At(g.low, l) }

  /** Empty base scales stand for the unit scale. */
  function BaseScale(g: Affine, b: int): F { if |g.scales| == 0 then One else At(g.scales, b) }

  function DigitTerms(g: Affine, a: int): int -> F {
    (d: int) => Mul(At(g.digits, d), EqInt(g.challenges, a + Times(g.digitStride, d)))
  }

  /** The digits against eq, starting at address a. */
  function DigitSum(g: Affine, a: int): F { Sum(DigitTerms(g, a), |g.digits|) }

  /** One outer position i for one base. */
  function OuterTerm(g: Affine, base: int, i: nat): F {
    Mul(Mul(At(g.high, i / LowLen(g)), LowWeight(g, i % LowLen(g))),
        DigitSum(g, base + Times(g.outerStride, i - g.outerStart)))
  }

  function WindowTerm(g: Affine, base: int, t: int): F {
    if t < 0 then Zero else OuterTerm(g, base, g.outerStart + t)
  }

  function BaseTerms(g: Affine, base: int): int -> F { (t: int) => WindowTerm(g, base, t) }

  function BaseSum(g: Affine, base: int): F { Sum(BaseTerms(g, base), g.liveLen) }

  function BaseTerm(g: Affine, b: int): F {
    if 0 <= b < |g.bases| then Mul(BaseScale(g, b), BaseSum(g, g.bases[b])) else Zero
  }

  function TripleTerms(g: Affine): int -> F { (b: int) => BaseTerm(g, b) }

  /**
   The value the evaluator must return: over all bases, outer positions of the window and digits, scale
   times outer weight times digit weight times eq at base + stride * (i - start) + digitStride * d.
   */
  function TripleSum(g: Affine): F { Sum(TripleTerms(g), |g.bases|) }

  /**
   The summands in the arguments' own terms: base b contributes its scale times a sum over the window, position t
   its high and low weight times a sum over the digits, and digit d its weight times eq at the address.
   */
  lemma TripleSumMeans(g: Affine, b: nat, t: nat, d: nat)
    requires b < |g.bases| && d < |g.digits|
    ensures
      var (base, i) := (g.bases[b], g.outerStart + t);
      var total, window, digits := TripleTerms(g), BaseTerms(g, base), DigitTerms(g, base + g.outerStride * t);
      && TripleSum(g) == Sum(total, |g.bases|)
      && total(b) == (if |g.scales| == 0 then Sum(window, g.liveLen) else Mul(At(g.scales, b), Sum(window, g.liveLen)))
      && window(t) == Mul(if |g.low| == 0 then At(g.high, i) else Mul(At(g.high, i / |g.low|), At(g.low, i % |g.low|)), Sum(digits, |g.digits|))
      && digits(d) == Mul(g.digits[d], EqInt(g.challenges, base + g.outerStride * t + g.digitStride * d))
  {
    hide Sum, Mul, EqInt;
    MulOne(Sum(BaseTerms(g, g.bases[b]), g.liveLen));
    MulOne(At(g.high, g.outerStart + t));
  }

  // ----- rows

  /** Low positions lowStart to lowEnd of `rows` consecutive rows of the outer index, from row firstHigh. */
  datatype Seg = Seg(firstHigh: nat, lowStart: nat, lowEnd: nat, rows: nat)

  /** A segment is one partial row or several full ones, with at least one digit. */
  ghost predicate SegOk(g: Affine, s: Seg) {
    && s.lowStart < s.lowEnd <= LowLen(g) && |g.digits| > 0
    && (s.rows == 1 || (s.lowStart == 0 && s.lowEnd == LowLen(g)))
  }

  function Span(s: Seg): nat requires s.lowStart < s.lowEnd { s.lowEnd - s.lowStart }

  function SegFirst(g: Affine, s: Seg): nat { Join(s.firstHigh, LowLen(g), s.lowStart) }

  /** Term e of a row: low position e / D and digit e mod D, from the row's first address a. */
  function RowTerms(g: Affine, s: Seg, a: int): int -> F
    requires |g.digits| > 0
  {
    (e: int) =>
      Mul(Mul(LowWeight(g, s.lowStart + e / |g.digits|), At(g.digits, e % |g.digits|)),
          EqInt(g.challenges, a + Times(g.outerStride, e / |g.digits|) + Times(g.digitStride, e % |g.digits|)))
  }

  function RowSum(g: Affine, s: Seg, a: int): F
    requires SegOk(g, s)
  {
    TimesNat(Span(s), |g.digits|);
    Sum(RowTerms(g, s, a), Times(Span(s), |g.digits|))
  }

  function SegTerms(g: Affine, s: Seg, first: int): int -> F
    requires SegOk(g, s)
  {
    (row: int) => Mul(At(g.high, s.firstHigh + row), RowSum(g, s, first + Times(g.outerStride, Times(LowLen(g), row))))
  }

  /** The segment's contribution for a base whose first address in it is `first`. */
  function SegSum(g: Affine, s: Seg, first: int): F
    requires SegOk(g, s)
  {
    Sum(SegTerms(g, s, first), s.rows)
  }

  lemma DigitTermAt(g: Affine, a: int, d: int)
    ensures DigitTerms(g, a)(d) == Mul(At(g.digits, d), EqInt(g.challenges, a + Times(g.digitStride, d)))
  { }

  lemma DigitSumIs(g: Affine, a: int) ensures DigitSum(g, a) == Sum(DigitTerms(g, a), |g.digits|) { }

  lemma RowTermAt(g: Affine, s: Seg, a: int, l: nat, d: nat)
    requires d < |g.digits|
    ensures RowTerms(g, s, a)(Join(l, |g.digits|, d)) ==
      Mul(Mul(LowWeight(g, s.lowStart + l), At(g.digits, d)),
          EqInt(g.challenges, a + Times(g.outerStride, l) + Times(g.digitStride, d)))
  {
    JoinSplit(l, |g.digits|, d, l + 1);
  }

  lemma RowSumIs(g: Affine, s: Seg, a: int)
    requires SegOk(g, s)
    ensures Times(Span(s), |g.digits|) >= 0
    ensures RowSum(g, s, a) == Sum(RowTerms(g, s, a), Times(Span(s), |g.digits|))
  { }

  lemma SegSumIs(g: Affine, s: Seg, first: int)
    requires SegOk(g, s)
    ensures SegSum(g, s, first) == Sum(SegTerms(g, s, first), s.rows)
  { }

  lemma SegTermAt(g: Affine, s: Seg, first: int, row: int)
    requires SegOk(g, s)
    ensures SegTerms(g, s, first)(row) ==
      Mul(At(g.high, s.firstHigh + row), RowSum(g, s, first + Times(g.outerStride, Times(LowLen(g), row))))
  { }

  /** The digits of low position l in a row. */
  lemma RowLowBlock(g: Affine, s: Seg, a: int, l: nat, block: int -> F)
    requires SegOk(g, s)
    requires forall d :: 0 <= d < |g.digits| ==> block(d) == RowTerms(g, s, a)(Times(l, |g.digits|) + d)
    ensures Sum(block, |g.digits|) == Mul(LowWeight(g, s.lowStart + l), DigitSum(g, a + Times(g.outerStride, l)))
  {
    hide *;
    var n, w := |g.digits|, LowWeight(g, s.lowStart + l);
    var digits := DigitTerms(g, a + Times(g.outerStride, l));
    forall d | 0 <= d < n ensures block(d) == Mul(w, digits(d)) {
      RowTermAt(g, s, a, l, d); JoinIs(l, n, d);
      DigitTermAt(g, a + Times(g.outerStride, l), d);
      MulAssoc(w, At(g.digits, d), EqInt(g.challenges, a + Times(g.outerStride, l) + Times(g.digitStride, d)));
    }
    SumScale(w, digits, block, n);
    DigitSumIs(g, a + Times(g.outerStride, l));
  }

  lemma SegSpan(g: Affine, s: Seg)
    requires SegOk(g, s)
    ensures s.lowStart < s.lowEnd && Span(s) == s.lowEnd - s.lowStart && |g.digits| > 0
  { }

  /** A row, low position by low position. */
  lemma RowByLow(g: Affine, s: Seg, a: int, byLow: int -> F)
    requires SegOk(g, s)
    requires forall l :: 0 <= l < Span(s) ==> byLow(l) == Mul(LowWeight(g, s.lowStart + l), DigitSum(g, a + Times(g.outerStride, l)))
    ensures RowSum(g, s, a) == Sum(byLow, Span(s))
  {
    hide *;
    SegSpan(g, s);
    var n, f := |g.digits|, RowTerms(g, s, a);
    RowSumIs(g, s, a);
    forall l | 0 <= l < Span(s) ensures byLow(l) == Sum(d => f(Times(l, n) + d), n) {
      RowLowBlock(g, s, a, l, d => f(Times(l, n) + d));
    }
    SumTimesBlocks(f, byLow, Span(s), n);
  }

  // ----- a window of outer positions is a segment's rows

  lemma OuterTermIs(g: Affine, base: int, i: nat)
    ensures OuterTerm(g, base, i) ==
      Mul(Mul(At(g.high, i / LowLen(g)), LowWeight(g, i % LowLen(g))), DigitSum(g, base + Times(g.outerStride, i - g.outerStart)))
  { }

  /** Where low position l of row `row` of a segment sits, as an outer index and as an address. */
  lemma SegPosition(g: Affine, s: Seg, base: int, row: nat, l: nat)
    requires SegOk(g, s) && row < s.rows && l < Span(s)
    ensures
      var q, start := LowLen(g), SegFirst(g, s);
      var i := start + Times(row, Span(s)) + l;
      && Times(row, Span(s)) >= 0 && i / q == s.firstHigh + row && i % q == s.lowStart + l
      && base + Times(g.outerStride, i - g.outerStart) ==
           base + Times(g.outerStride, start - g.outerStart) + Times(g.outerStride, Times(q, row)) + Times(g.outerStride, l)
  {
    var q, start := LowLen(g), SegFirst(g, s);
    TimesNat(row, Span(s));
    var i := start + row * Span(s) + l;
    assert row * Span(s) == row * q by { if s.rows == 1 { assert row == 0; } }
    assert i == (s.firstHigh + row) * q + (s.lowStart + l);
    DivModUnique(i, q, s.firstHigh + row, s.lowStart + l);
    var x := start - g.outerStart;
    assert g.outerStride * (x + q * row + l) == g.outerStride * x + g.outerStride * (q * row) + g.outerStride * l;
  }

  /** One row of the window. */
  lemma SegRow(g: Affine, s: Seg, base: int, row: nat, block: int -> F)
    requires SegOk(g, s) && row < s.rows
    requires Times(row, Span(s)) >= 0
    requires forall l :: 0 <= l < Span(s) ==> block(l) == OuterTerm(g, base, SegFirst(g, s) + Times(row, Span(s)) + l)
    ensures Sum(block, Span(s)) == SegTerms(g, s, base + Times(g.outerStride, SegFirst(g, s) - g.outerStart))(row)
  {
    hide *;
    SegSpan(g, s);
    var first := base + Times(g.outerStride, SegFirst(g, s) - g.outerStart);
    var a := first + Times(g.outerStride, Times(LowLen(g), row));
    var h := At(g.high, s.firstHigh + row);
    var byLow := (l: int) => Mul(LowWeight(g, s.lowStart + l), DigitSum(g, a + Times(g.outerStride, l)));
    forall l | 0 <= l < Span(s) ensures block(l) == Mul(h, byLow(l)) {
      var i := SegFirst(g, s) + Times(row, Span(s)) + l;
      SegPosition(g, s, base, row, l);
      OuterTermIs(g, base, i);
      MulAssoc(h, LowWeight(g, s.lowStart + l), DigitSum(g, a + Times(g.outerStride, l)));
    }
    SumScale(h, byLow, block, Span(s));
    RowByLow(g, s, a, byLow);
    SegTermAt(g, s, first, row);
  }

  /** Consecutive outer positions from a segment's first one add up to the segment's sum. */
  lemma SegCovers(g: Affine, s: Seg, base: int, f: int -> F)
    requires SegOk(g, s)
    requires Times(s.rows, Span(s)) >= 0
    requires forall t :: 0 <= t < Times(s.rows, Span(s)) ==> f(t) == OuterTerm(g, base, SegFirst(g, s) + t)
    ensures Sum(f, Times(s.rows, Span(s))) == SegSum(g, s, base + Times(g.outerStride, SegFirst(g, s) - g.outerStart))
  {
    hide *;
    SegSpan(g, s);
    var first := base + Times(g.outerStride, SegFirst(g, s) - g.outerStart);
    var terms := SegTerms(g, s, first);
    forall row | 0 <= row < s.rows ensures terms(row) == Sum(l => f(Times(row, Span(s)) + l), Span(s)) {
      var block := (l: int) => f(Times(row, Span(s)) + l);
      TimesNat(row, Span(s));
      forall l | 0 <= l < Span(s) ensures block(l) == OuterTerm(g, base, SegFirst(g, s) + Times(row, Span(s)) + l) {
        RowInside(row, s.rows, Span(s), l);
      }
      SegRow(g, s, base, row, block);
      SumExt(block, l => f(Times(row, Span(s)) + l), Span(s));
    }
    SumTimesBlocks(f, terms, s.rows, Span(s));
    SegSumIs(g, s, first);
  }

  lemma RowInside(row: nat, rows: nat, span: nat, l: nat)
    requires row < rows && l < span
    ensures 0 <= Times(row, span) && Times(row, span) + l < Times(rows, span)
  {
    MulMono(row + 1, rows, span);
  }
}
