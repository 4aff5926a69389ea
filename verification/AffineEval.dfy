/**
 The offset-equality contraction: which geometries are accepted, and that every path returns the triple sum.
 Models `eval_affine_digit_intervals` of crates/akita-algebra/src/offset_eq.rs.
 */
module AffineEval {
  import opened Arith
  import opened Field
  import opened Sums
  import opened AffineSpec
  import opened AffineLow
  import opened AffineBuckets
  import opened AffineGroup
  import opened AffineRows
  import opened AffineAligned
  import opened OffsetWindow
  import opened PreparedTables
  import opened PreparedDigits

  // ----- accepted geometries

  function TrailingZeros(n: nat): nat { if n > 0 && n % 2 == 0 then 1 + TrailingZeros(n / 2) else 0 }

  predicate IsPowerOfTwo(n: nat) { n > 0 && n == Pow2(TrailingZeros(n)) }

  lemma {:induction false} TrailingZerosOfPower(k: nat)
    ensures TrailingZeros(Pow2(k)) == k && IsPowerOfTwo(Pow2(k))
  {
    if k > 0 { TrailingZerosOfPower(k - 1); }
  }

  /** The last address of the window from `base`. */
  function LastAddress(g: Affine, base: nat): int
    requires |g.digits| > 0
  {
    base + Times(g.outerStride, g.liveLen - 1) + Times(g.digitStride, |g.digits| - 1)
  }

  /** The address is a `usize` inside the point's domain. */
  predicate AddressOk(g: Affine, base: nat) requires |g.digits| > 0 { InDomain(g, LastAddress(g, base)) }

  /** Everything that is checked before a path is chosen. */
  predicate WellFormed(g: Affine) {
    && (|g.scales| == 0 || |g.scales| == |g.bases|)
    && |g.digits| > 0 && g.digitStride > 0
    && IsPowerOfTwo(LowLen(g)) && TrailingZeros(LowLen(g)) <= |g.challenges|
    && Times(g.digitStride, |g.digits| - 1) < g.outerStride < USIZE_MAX
    && g.outerStart + g.liveLen <= Times(|g.high|, LowLen(g)) <= USIZE_MAX
    && (forall b :: 0 <= b < |g.bases| ==> AddressOk(g, g.bases[b]))
  }

  predicate TakesAlignedPath(g: Affine) {
    |g.low| == 0 && IsPowerOfTwo(g.outerStride) && TrailingZeros(g.outerStride) <= |g.challenges|
  }

  /** The window [start, end) cut at row boundaries: a prefix to prefixEnd, full rows to cursor, then a suffix. */
  datatype Cut = Cut(prefixEnd: nat, fullRows: nat, cursor: nat)

  function CutRows(start: nat, end: nat, q: nat): Cut
    requires q > 0 && start <= end
  {
    var prefixEnd := if start % q == 0 then start else Min(end, start + (q - start % q));
    var suffixStart := end - end % q;
    var fullEnd := Min(Max(suffixStart, prefixEnd), end);
    var fullRows := (if fullEnd >= prefixEnd then fullEnd - prefixEnd else 0) / q;
    Cut(prefixEnd, fullRows, prefixEnd + Times(fullRows, q))
  }

  function CutOf(g: Affine): Cut { CutRows(g.outerStart, g.outerStart + g.liveLen, LowLen(g)) }

  function RowCount(g: Affine): nat {
    var c := CutOf(g);
    (if c.prefixEnd != g.outerStart then 1 else 0) + c.fullRows + (if c.cursor != g.outerStart + g.liveLen then 1 else 0)
  }

  function SummarizedLow(g: Affine): int {
    var c := CutOf(g);
    (c.prefixEnd - g.outerStart) + (g.outerStart + g.liveLen - c.cursor) + (if c.fullRows == 0 then 0 else LowLen(g))
  }

  /** The work charged to the path that is taken. */
  function Work(g: Affine): int {
    if TakesAlignedPath(g) then Times(|g.bases|, 2 * g.liveLen + |g.digits|)
    else Times(Times(|g.digits|, SummarizedLow(g)) + Times(RowCount(g), g.outerStride + 1), |g.bases|)
  }

  predicate Accepted(g: Affine) {
    && (|g.high| > 0 || |g.low| > 0)
    && (g.liveLen == 0 || |g.bases| == 0 || (WellFormed(g) && Work(g) <= MAX_TERMS))
  }

  // ----- the cut covers the window exactly

  /** The three parts follow each other, start on row boundaries where they must, and end with the window. */
  ghost predicate Covers(c: Cut, start: nat, end: nat, q: nat)
    requires q > 0
  {
    && start <= c.prefixEnd <= c.cursor <= end && c.cursor == c.prefixEnd + Times(c.fullRows, q)
    && start % q + (c.prefixEnd - start) <= q
    && (c.fullRows > 0 ==> c.prefixEnd % q == 0)
    && (c.cursor < end ==> c.cursor % q == 0 && end - c.cursor < q)
  }

  lemma CutCovers(start: nat, end: nat, q: nat)
    requires q > 0 && start < end
    ensures Covers(CutRows(start, end, q), start, end, q)
  {
    hide *;
    DivModIs(start, q); DivModIs(end, q);
    var r, a := start % q, if start % q == 0 then start / q else start / q + 1;
    var p := if r == 0 then start else start + (q - r);
    TimesStep(start / q, q);
    if p > end {
      CutInRow(start, end, q);
      EmptyCut(start, end, q);
    } else {
      BoundaryCovers(start, end, q, p, a, end / q);
    }
  }

  lemma BoundaryCovers(start: nat, end: nat, q: nat, p: nat, a: nat, b: nat)
    requires q > 0 && start < end && p == (if start % q == 0 then start else start + (q - start % q))
    requires p == Times(a, q) && p <= end && end == Times(b, q) + end % q
    ensures Covers(CutRows(start, end, q), start, end, q)
  {
    LowResidue(start, q); LowResidue(end, q);
    hide CutRows, Times;
    BoundaryOrder(a, b, end % q, q, p, end);
    CutAtBoundary(start, end, q, p, a, b);
    Multiple(a, q); Multiple(b, q);
    CutGap(a, b, q);
  }

  lemma Multiple(a: nat, q: nat)
    requires q > 0
    ensures Times(a, q) >= 0 && Times(a, q) % q == 0
  {
    TimesNat(a, q);
    DivModUnique(a * q, q, a, 0);
  }

  lemma EmptyCut(start: nat, end: nat, q: nat)
    requires q > 0 && start < end && end < start + (q - start % q)
    ensures Covers(Cut(end, 0, end), start, end, q)
  { }

  lemma BoundaryOrder(a: nat, b: nat, t: nat, q: nat, p: nat, end: nat)
    requires p == Times(a, q) && end == Times(b, q) + t && t < q && p <= end
    ensures a <= b && p <= Times(b, q)
  {
    if b < a { MulMono(b + 1, a, q); }
    MulMono(a, b, q);
  }

  lemma CutGap(a: nat, b: nat, q: nat)
    requires a <= b
    ensures Times(a, q) + Times(b - a, q) == Times(b, q)
  { }

  /** The window ends before the next row boundary. */
  lemma CutInRow(start: nat, end: nat, q: nat)
    requires q > 0 && start < end && start % q != 0 && end < start + (q - start % q)
    ensures CutRows(start, end, q) == Cut(end, 0, end)
  { }

  /** The window reaches the next row boundary p = a q; its last boundary is b q. */
  lemma CutAtBoundary(start: nat, end: nat, q: nat, p: nat, a: nat, b: nat)
    requires q > 0 && start < end && p == (if start % q == 0 then start else start + (q - start % q))
    requires p == Times(a, q) && p <= Times(b, q) && a <= b && end == Times(b, q) + end % q
    ensures CutRows(start, end, q) == Cut(p, b - a, Times(b, q))
  {
    CutGap(a, b, q);
    DivModUnique(Times(b, q) - Times(a, q), q, b - a, 0);
  }

  // ----- the running total

  function PartialBase(g: Affine, n: nat, b: int): F {
    if 0 <= b < |g.bases| then Mul(BaseScale(g, b), Sum(BaseTerms(g, g.bases[b]), n)) else Zero
  }

  function PartialBases(g: Affine, n: nat): int -> F { (b: int) => PartialBase(g, n, b) }

  /** The triple sum restricted to the first n outer positions. */
  function PartialSum(g: Affine, n: nat): F { Sum(PartialBases(g, n), |g.bases|) }

  lemma PartialNothing(g: Affine)
    ensures PartialSum(g, 0) == Zero
  {
    hide Mul;
    forall b | 0 <= b < |g.bases| ensures PartialBases(g, 0)(b) == Zero { MulZero(BaseScale(g, b)); }
    SumZero(PartialBases(g, 0), |g.bases|);
  }

  lemma PartialAll(g: Affine)
    ensures PartialSum(g, g.liveLen) == TripleSum(g)
  {
    hide Sum, Mul;
    SumExt(PartialBases(g, g.liveLen), TripleTerms(g), |g.bases|);
  }

  lemma SegmentOfBase(g: Affine, s: Seg, n: nat, b: nat)
    requires SegOk(g, s) && Times(s.rows, Span(s)) >= 0 && SegFirst(g, s) == g.outerStart + n && b < |g.bases|
    ensures PartialBases(g, n + Times(s.rows, Span(s)))(b) == Add(PartialBases(g, n)(b), SegBases(g, s)(b))
  {
    hide *;
    SegSpan(g, s);
    var m, base := Times(s.rows, Span(s)), g.bases[b];
    PartialAt(g, n, b); PartialAt(g, n + m, b); SegBaseAt(g, s, b);
    SegmentWindow(g, s, n, base, t => BaseTerms(g, base)(n + t));
    Distrib(BaseScale(g, b), Sum(BaseTerms(g, base), n), SegSum(g, s, base + Times(g.outerStride, SegFirst(g, s) - g.outerStart)));
  }

  lemma SegmentWindow(g: Affine, s: Seg, n: nat, base: nat, f: int -> F)
    requires SegOk(g, s) && Times(s.rows, Span(s)) >= 0 && SegFirst(g, s) == g.outerStart + n
    requires forall t :: 0 <= t < Times(s.rows, Span(s)) ==> f(t) == BaseTerms(g, base)(n + t)
    ensures Sum(BaseTerms(g, base), n + Times(s.rows, Span(s))) ==
      Add(Sum(BaseTerms(g, base), n), SegSum(g, s, base + Times(g.outerStride, SegFirst(g, s) - g.outerStart)))
  {
    hide *;
    SegSpan(g, s);
    var m := Times(s.rows, Span(s));
    forall t | 0 <= t < m ensures f(t) == OuterTerm(g, base, SegFirst(g, s) + t) { BaseTermAt(g, base, n + t); }
    SegCovers(g, s, base, f);
    SumSplit(BaseTerms(g, base), f, n, m);
  }

  lemma BaseTermAt(g: Affine, base: int, t: nat) ensures BaseTerms(g, base)(t) == OuterTerm(g, base, g.outerStart + t) { }

  lemma PartialAt(g: Affine, n: nat, b: nat)
    requires b < |g.bases|
    ensures PartialBases(g, n)(b) == Mul(BaseScale(g, b), Sum(BaseTerms(g, g.bases[b]), n))
  { }

  lemma SegBaseAt(g: Affine, s: Seg, b: nat)
    requires SegOk(g, s) && b < |g.bases|
    ensures SegBases(g, s)(b) == Mul(BaseScale(g, b), SegSum(g, s, g.bases[b] + Times(g.outerStride, SegFirst(g, s) - g.outerStart)))
  { }

  /** A segment that starts where the running total stops extends it by its rows. */
  lemma SegmentExtends(g: Affine, s: Seg, n: nat)
    requires SegOk(g, s) && Times(s.rows, Span(s)) >= 0 && SegFirst(g, s) == g.outerStart + n
    ensures PartialSum(g, n + Times(s.rows, Span(s))) == Add(PartialSum(g, n), SegTotal(g, s))
  {
    var m := n + Times(s.rows, Span(s));
    assert PartialSum(g, n) == Sum(PartialBases(g, n), |g.bases|);
    assert PartialSum(g, m) == Sum(PartialBases(g, m), |g.bases|);
    assert SegTotal(g, s) == Sum(SegBases(g, s), |g.bases|);
    hide *;
    forall b | 0 <= b < |g.bases| ensures PartialBases(g, m)(b) == Add(PartialBases(g, n)(b), SegBases(g, s)(b)) {
      SegmentOfBase(g, s, n, b);
    }
    SumAdd(PartialBases(g, n), SegBases(g, s), PartialBases(g, m), |g.bases|);
  }

  // ----- each segment meets what its accumulation needs

  lemma WellFormedParts(g: Affine)
    requires WellFormed(g)
    ensures (|g.scales| == 0 || |g.scales| == |g.bases|) && |g.digits| > 0 && g.digitStride > 0
    ensures IsPowerOfTwo(LowLen(g)) && TrailingZeros(LowLen(g)) <= |g.challenges|
    ensures StrideCovers(g) && g.outerStride < USIZE_MAX
    ensures g.outerStart + g.liveLen <= Times(|g.high|, LowLen(g)) <= USIZE_MAX
    ensures forall b :: 0 <= b < |g.bases| ==> AddressOk(g, g.bases[b])
  { }

  /** The low length's exponent fits, and splits the point. */
  lemma LowBits(g: Affine)
    requires WellFormed(g) && g.liveLen > 0
    ensures var k := TrailingZeros(LowLen(g)); SplitAt(g, k) && k <= USIZE_BITS && (|g.low| == 0 ==> k == 0)
  {
    WellFormedParts(g);
    var k := TrailingZeros(LowLen(g));
    hide AddressOk;
    assert LowLen(g) <= USIZE_MAX by { MulMono(1, |g.high|, LowLen(g)); }
    if k > USIZE_BITS { Pow2Mono(64, k); Pow2Of64(); }
  }

  lemma HighRowsInside(g: Affine, s: Seg)
    requires SegOk(g, s) && s.rows > 0 && Times(s.rows, Span(s)) >= 0
    requires SegFirst(g, s) + Times(s.rows, Span(s)) <= Times(|g.high|, LowLen(g))
    ensures s.firstHigh + s.rows <= |g.high|
  {
    var q := LowLen(g);
    if s.firstHigh + s.rows > |g.high| {
      MulMono(|g.high|, s.firstHigh + s.rows - 1, q);
    }
  }

  /** No address of the segment passes the window's last address. */
  lemma SegmentFits(g: Affine, s: Seg, base: nat, n: nat)
    requires SegOk(g, s) && s.rows > 0 && Times(s.rows, Span(s)) >= 0 && SegFirst(g, s) == g.outerStart + n
    requires n + Times(s.rows, Span(s)) <= g.liveLen && AddressOk(g, base)
    ensures Delta(g, s) >= 0 && SegFits(g, s, base + Delta(g, s))
  {
    var q := LowLen(g);
    TimesNat(g.outerStride, n);
    hide Pow2;
    LastRow(s.rows, Span(s), q);
    SpanOfRows(g.outerStride, n, Times(q, s.rows - 1), Span(s) - 1, g.liveLen - 1);
  }

  lemma LastRow(rows: nat, span: nat, q: nat)
    requires rows == 1 || span == q
    ensures Times(q, rows - 1) + span == Times(rows, span)
  { }

  lemma SpanOfRows(stride: nat, n: nat, m: int, l: int, last: int)
    requires n + m + l <= last
    ensures Times(stride, n) + Times(stride, m) + Times(stride, l) <= Times(stride, last)
  {
    assert stride * (n + m + l) == stride * n + stride * m + stride * l;
    MulMono(n + m + l, last, stride);
  }

  lemma SegmentWork(bases: nat, rows: nat, count: nat, low: nat, stride: nat)
    requires rows <= count && Times(low + Times(count, stride), bases) <= MAX_TERMS
    ensures Times(Times(bases, rows), stride) <= MAX_TERMS
  {
    MulMono(rows, count, stride);
    assert bases * rows * stride == (rows * stride) * bases;
    MulMono(rows * stride, low + count * stride, bases);
  }

  lemma SegmentReady(g: Affine, s: Seg, n: nat)
    requires WellFormed(g) && g.liveLen > 0 && |g.bases| > 0 && !TakesAlignedPath(g) && Work(g) <= MAX_TERMS
    requires SegOk(g, s) && 0 < s.rows <= RowCount(g) && Times(s.rows, Span(s)) >= 0
    requires SegFirst(g, s) == g.outerStart + n && n + Times(s.rows, Span(s)) <= g.liveLen
    ensures RowsReady(g, s, TrailingZeros(LowLen(g)))
  {
    WorkIs(g);
    hide *;
    WellFormedParts(g);
    LowBits(g);
    HighRowsInside(g, s);
    SegmentWork(|g.bases|, s.rows, RowCount(g), Times(|g.digits|, SummarizedLow(g)), g.outerStride + 1);
    forall b | 0 <= b < |g.bases| ensures Delta(g, s) >= 0 && SegFits(g, s, g.bases[b] + Delta(g, s)) {
      AddressFits(g, b);
      SegmentFits(g, s, g.bases[b], n);
    }
    assert Delta(g, s) >= 0 by { AddressFits(g, 0); SegmentFits(g, s, g.bases[0], n); }
    ReadyIntro(g, s, TrailingZeros(LowLen(g)));
  }

  lemma AddressFits(g: Affine, b: nat)
    requires WellFormed(g) && b < |g.bases|
    ensures |g.digits| > 0 && AddressOk(g, g.bases[b]) && LastAddress(g, g.bases[b]) <= USIZE_MAX
  {
    assert AddressOk(g, g.bases[b]);
  }

  lemma WorkIs(g: Affine)
    requires !TakesAlignedPath(g) && g.liveLen > 0
    ensures Times(|g.digits|, SummarizedLow(g)) >= 0
    ensures Work(g) == Times(Times(|g.digits|, SummarizedLow(g)) + Times(RowCount(g), g.outerStride + 1), |g.bases|)
  {
    CutCovers(g.outerStart, g.outerStart + g.liveLen, LowLen(g));
    hide CutRows;
    TimesNat(|g.digits|, SummarizedLow(g));
  }

  lemma ReadyIntro(g: Affine, s: Seg, k: nat)
    requires SegOk(g, s) && SplitAt(g, k) && StrideCovers(g) && k <= USIZE_BITS && (|g.low| == 0 ==> k == 0)
    requires s.rows > 0 && s.firstHigh + s.rows <= |g.high|
    requires |g.bases| > 0 && (|g.scales| == 0 || |g.scales| == |g.bases|)
    requires SegFirst(g, s) >= g.outerStart && Delta(g, s) >= 0
    requires forall b :: 0 <= b < |g.bases| ==> SegFits(g, s, g.bases[b] + Delta(g, s))
    requires Times(Times(|g.bases|, s.rows), g.outerStride + 1) <= MAX_TERMS
    ensures RowsReady(g, s, k)
  {
    hide SegFits, Delta, SplitAt;
  }

  /** One of the prefix, full-row and suffix accumulations. */
  method AddSegment(g: Affine, s: Seg, n: nat, out0: F) returns (out: F)
    requires WellFormed(g) && g.liveLen > 0 && |g.bases| > 0 && !TakesAlignedPath(g) && Work(g) <= MAX_TERMS
    requires SegOk(g, s) && 0 < s.rows <= RowCount(g) && Times(s.rows, Span(s)) >= 0
    requires SegFirst(g, s) == g.outerStart + n && n + Times(s.rows, Span(s)) <= g.liveLen
    requires out0 == PartialSum(g, n)
    ensures out == PartialSum(g, n + Times(s.rows, Span(s)))
  {
    hide *;
    SegmentReady(g, s, n);
    out := AccumulateRows(g, s, TrailingZeros(LowLen(g)), out0);
    SegmentExtends(g, s, n);
  }

  /** The row an outer position lies in. */
  function RowOf(x: nat, q: nat): nat
    requires q > 0
  {
    DivModIs(x, q);
    x / q
  }

  lemma PrefixSegment(g: Affine)
    requires g.liveLen > 0 && |g.digits| > 0 && CutOf(g).prefixEnd != g.outerStart
    ensures
      var q, span := LowLen(g), CutOf(g).prefixEnd - g.outerStart;
      && 0 < span <= g.liveLen && RowCount(g) >= 1
      && var s := Seg(RowOf(g.outerStart, q), g.outerStart % q, g.outerStart % q + span, 1);
        SegOk(g, s) && Times(s.rows, Span(s)) == span && SegFirst(g, s) == g.outerStart
  {
    hide *;
    CutCovers(g.outerStart, g.outerStart + g.liveLen, LowLen(g));
    SegmentParts(g, g.outerStart);
    var q, span := LowLen(g), CutOf(g).prefixEnd - g.outerStart;
    SegmentIs(g, Seg(RowOf(g.outerStart, q), g.outerStart % q, g.outerStart % q + span, 1), g.outerStart);
    TimesOne(span);
  }

  /** The cut's facts for the window of g, and the quotient and remainder of a position x. */
  lemma SegmentParts(g: Affine, x: nat)
    requires g.liveLen > 0 && Covers(CutRows(g.outerStart, g.outerStart + g.liveLen, LowLen(g)), g.outerStart, g.outerStart + g.liveLen, LowLen(g))
    ensures
      var q, c, end := LowLen(g), CutOf(g), g.outerStart + g.liveLen;
      && 0 <= x % q < q && x == Times(RowOf(x, q), q) + x % q
      && g.outerStart <= c.prefixEnd <= c.cursor <= end && c.cursor == c.prefixEnd + Times(c.fullRows, q)
      && g.outerStart % q + (c.prefixEnd - g.outerStart) <= q
      && (c.fullRows > 0 ==> c.prefixEnd % q == 0)
      && (c.cursor < end ==> c.cursor % q == 0 && end - c.cursor < q)
      && RowCount(g) >= c.fullRows && (c.prefixEnd != g.outerStart || c.cursor != end ==> RowCount(g) >= 1)
  {
    hide CutRows, LowLen, Times;
    DivModIs(x, LowLen(g));
  }

  lemma SegmentIs(g: Affine, s: Seg, x: nat)
    requires |g.digits| > 0 && s.lowStart < s.lowEnd <= LowLen(g) && x == Times(s.firstHigh, LowLen(g)) + s.lowStart
    requires s.rows == 1 || (s.lowStart == 0 && s.lowEnd == LowLen(g))
    ensures SegOk(g, s) && Span(s) == s.lowEnd - s.lowStart && SegFirst(g, s) == x
  {
    hide LowLen;
  }

  lemma FullSegment(g: Affine)
    requires g.liveLen > 0 && |g.digits| > 0 && CutOf(g).fullRows > 0
    ensures
      var q, c := LowLen(g), CutOf(g);
      && RowCount(g) >= c.fullRows && g.outerStart <= c.prefixEnd <= c.cursor <= g.outerStart + g.liveLen
      && var s := Seg(RowOf(c.prefixEnd, q), 0, q, c.fullRows);
        SegOk(g, s) && Times(s.rows, Span(s)) == c.cursor - c.prefixEnd && SegFirst(g, s) == c.prefixEnd
  {
    hide *;
    CutCovers(g.outerStart, g.outerStart + g.liveLen, LowLen(g));
    SegmentParts(g, CutOf(g).prefixEnd);
    SegmentIs(g, Seg(RowOf(CutOf(g).prefixEnd, LowLen(g)), 0, LowLen(g), CutOf(g).fullRows), CutOf(g).prefixEnd);
  }

  lemma SuffixSegment(g: Affine)
    requires g.liveLen > 0 && |g.digits| > 0 && CutOf(g).cursor != g.outerStart + g.liveLen
    ensures
      var q, c := LowLen(g), CutOf(g);
      && RowCount(g) >= 1 && g.outerStart <= c.cursor < g.outerStart + g.liveLen
      && var s := Seg(RowOf(c.cursor, q), 0, g.outerStart + g.liveLen - c.cursor, 1);
        SegOk(g, s) && Times(s.rows, Span(s)) == g.outerStart + g.liveLen - c.cursor && SegFirst(g, s) == c.cursor
  {
    hide *;
    CutCovers(g.outerStart, g.outerStart + g.liveLen, LowLen(g));
    SegmentParts(g, CutOf(g).cursor);
    var span := g.outerStart + g.liveLen - CutOf(g).cursor;
    SegmentIs(g, Seg(RowOf(CutOf(g).cursor, LowLen(g)), 0, span, 1), CutOf(g).cursor);
    TimesOne(span);
  }

  lemma CutOrder(g: Affine)
    requires g.liveLen > 0
    ensures
      var c := CutOf(g);
      && g.outerStart <= c.prefixEnd <= c.cursor <= g.outerStart + g.liveLen && (c.fullRows == 0 ==> c.cursor == c.prefixEnd)
  {
    CutCovers(g.outerStart, g.outerStart + g.liveLen, LowLen(g));
    hide CutRows;
  }

  /** The general path: an unaligned first row, the full rows, an unaligned last row. */
  method EvalRows(g: Affine) returns (out: F)
    requires WellFormed(g) && g.liveLen > 0 && |g.bases| > 0 && !TakesAlignedPath(g) && Work(g) <= MAX_TERMS
    ensures out == TripleSum(g)
  {
    hide *;
    WellFormedParts(g);
    CutOrder(g);
    var q, c, end := LowLen(g), CutOf(g), g.outerStart + g.liveLen;
    out := Zero;
    PartialNothing(g);
    if c.prefixEnd != g.outerStart {
      PrefixSegment(g);
      out := AddSegment(g, Seg(RowOf(g.outerStart, q), g.outerStart % q, g.outerStart % q + (c.prefixEnd - g.outerStart), 1), 0, out);
    }
    if c.fullRows != 0 {
      FullSegment(g);
      out := AddSegment(g, Seg(RowOf(c.prefixEnd, q), 0, q, c.fullRows), c.prefixEnd - g.outerStart, out);
    }
    if c.cursor != end {
      SuffixSegment(g);
      out := AddSegment(g, Seg(RowOf(c.cursor, q), 0, end - c.cursor, 1), c.cursor - g.outerStart, out);
    }
    PartialAll(g);
  }

  // ----- the prepared path

  /** Adjacent digits, one digit block per outer index, a row-aligned window, and less work than the general path. */
  predicate TriesPreparedPath(g: Affine)
    requires |g.digits| > 0
  {
    && g.digitStride == 1 && g.outerStride == |g.digits|
    && g.outerStart % LowLen(g) == 0 && g.liveLen % LowLen(g) == 0
    && var stride := g.outerStride * LowLen(g);
      && NextLog(stride) <= |g.challenges|
      && Pow2(NextLog(stride)) * stride + MaterializedLen(|g.challenges| - NextLog(stride))
         + RowOf(g.liveLen, LowLen(g)) * |g.bases| < Work(g)
  }

  /** When the prepared path is taken, for the exponent of the least power of two holding a row. */
  lemma PreparedPathMeans(g: Affine, q: nat, bits: nat)
    requires |g.digits| > 0 && q == (if |g.low| == 0 then 1 else |g.low|)
    requires 0 < |g.digits| * q <= Pow2(bits) && (bits == 0 || Pow2(bits - 1) < |g.digits| * q)
    ensures TriesPreparedPath(g) && CanPrepare(g) <==>
      && g.digitStride == 1 && g.outerStride == |g.digits|
      && g.outerStart % q == 0 && g.liveLen % q == 0
      && |g.digits| * q <= 512 && bits <= |g.challenges| <= 63
      && Pow2(bits) * (|g.digits| * q) + MaterializedLen(|g.challenges| - bits) + g.liveLen / q * |g.bases| < Work(g)
  {
    assert LowLen(g) == q;
    NextLogIs(|g.digits| * q, bits);
    RowOfIs(g.liveLen, q);
    TimesIs(q, |g.digits|);
    hide Pow2, NextLog, MaterializedLen, Work, LowLen, RowOf, Times;
  }

  lemma PreparedSegment(g: Affine)
    requires WellFormed(g) && g.liveLen > 0 && g.outerStart % LowLen(g) == 0 && g.liveLen % LowLen(g) == 0
    ensures
      var q := LowLen(g);
      var s := Seg(RowOf(g.outerStart, q), 0, q, RowOf(g.liveLen, q));
      && s.rows > 0 && SegOk(g, s) && Times(s.rows, Span(s)) == g.liveLen && SegFirst(g, s) == g.outerStart
      && s.firstHigh + s.rows <= |g.high| && Delta(g, s) == 0
  {
    hide *;
    WellFormedParts(g);
    var q := LowLen(g);
    DivModIs(g.outerStart, q); DivModIs(g.liveLen, q);
    RowOfIs(g.outerStart, q); RowOfIs(g.liveLen, q);
    TimesZero(q);
    var s := Seg(RowOf(g.outerStart, q), 0, q, RowOf(g.liveLen, q));
    SegmentIs(g, s, g.outerStart);
    HighRowsInside(g, s);
    DeltaIs(g, s);
  }

  lemma RowOfIs(x: nat, q: nat) requires q > 0 ensures RowOf(x, q) == x / q { }

  lemma DeltaIs(g: Affine, s: Seg)
    requires SegFirst(g, s) == g.outerStart
    ensures Delta(g, s) == 0
  { }

  /** A prepared row's addresses end where the window's do. */
  lemma PreparedFits(g: Affine, b: nat, rows: nat, stride: nat)
    requires WellFormed(g) && g.liveLen > 0 && b < |g.bases| && |g.challenges| < USIZE_BITS && Adjacent(g)
    requires g.liveLen == Times(rows, LowLen(g)) && stride == Times(LowLen(g), |g.digits|)
    ensures g.bases[b] + Times(rows, stride) <= Pow2(|g.challenges|)
  {
    assert AddressOk(g, g.bases[b]);
    PreparedSpan(rows, LowLen(g), |g.digits|);
    hide Pow2, Times, WellFormed;
    TimesOne(|g.digits| - 1);
    LastDigit(|g.digits|, g.liveLen);
  }

  lemma PreparedSpan(rows: nat, q: nat, n: nat)
    ensures Times(rows, Times(q, n)) == Times(n, Times(rows, q))
  {
    assert rows * (q * n) == n * (rows * q);
  }

  lemma LastDigit(n: nat, live: nat)
    requires live > 0
    ensures Times(n, live - 1) + (n - 1) + 1 == Times(n, live)
  { }

  /** The accumulation's own cap on rows never applies: the charged work is at least the rows. */
  lemma PreparedRowsCapped(g: Affine)
    requires WellFormed(g) && g.liveLen > 0 && |g.bases| > 0 && !TakesAlignedPath(g) && Work(g) <= MAX_TERMS
    requires g.outerStart % LowLen(g) == 0 && g.liveLen % LowLen(g) == 0
    ensures RowOf(g.liveLen, LowLen(g)) <= MAX_TERMS
  {
    hide *;
    WorkIs(g);
    RowsAreCut(g);
    var rows := RowOf(g.liveLen, LowLen(g));
    SegmentWork(|g.bases|, rows, RowCount(g), Times(|g.digits|, SummarizedLow(g)), g.outerStride + 1);
    AtLeast(|g.bases|, rows, g.outerStride + 1);
  }

  lemma AtLeast(a: nat, b: nat, c: nat)
    requires a >= 1 && c >= 1
    ensures b <= Times(Times(a, b), c)
  {
    MulMono(1, a, b);
    MulMono(1, c, a * b);
  }

  /** The cut has at least as many rows as the window is long. */
  lemma RowsAreCut(g: Affine)
    requires g.liveLen > 0
    ensures RowOf(g.liveLen, LowLen(g)) <= RowCount(g)
  {
    CutCovers(g.outerStart, g.outerStart + g.liveLen, LowLen(g));
    var q, c := LowLen(g), CutOf(g);
    var prefix, suffix := if c.prefixEnd != g.outerStart then 1 else 0, if c.cursor != g.outerStart + g.liveLen then 1 else 0;
    assert RowCount(g) == prefix + c.fullRows + suffix && g.liveLen <= prefix * q + Times(c.fullRows, q) + suffix * q;
    RowOfIs(g.liveLen, q);
    hide *;
    DivModIs(g.liveLen, q);
    CountRows(prefix, c.fullRows, suffix, q);
    if RowOf(g.liveLen, q) > RowCount(g) {
      TimesMono(RowCount(g) + 1, RowOf(g.liveLen, q), q);
      TimesStep(RowCount(g), q);
    }
  }

  lemma CountRows(a: nat, b: nat, c: nat, q: nat)
    ensures a * q + Times(b, q) + c * q == Times(a + b + c, q)
  { }

  /** `try_eval_prepared_digit_intervals`: declines, or returns the triple sum. */
  method TryPrepared(g: Affine) returns (res: Option<F>)
    requires WellFormed(g) && g.liveLen > 0 && |g.bases| > 0 && !TakesAlignedPath(g) && Work(g) <= MAX_TERMS
    ensures |g.digits| > 0 && (res.Some? <==> TriesPreparedPath(g) && CanPrepare(g))
    ensures res.Some? ==> res.value == TripleSum(g)
  {
    WellFormedParts(g);
    if !TriesPreparedPath(g) { return None; }
    assert CanPrepare(g) ==> |g.challenges| < USIZE_BITS;
    var q := LowLen(g);
    assert Adjacent(g);
    hide *;
    var prepared := Prepare(g);
    if prepared.None? { return None; }
    PreparedSegment(g);
    var s := Seg(RowOf(g.outerStart, q), 0, q, RowOf(g.liveLen, q));
    PreparedParts(prepared.value, g);
    SegSpan(g, s);
    PreparedRowsCapped(g);
    forall b | 0 <= b < |g.bases| ensures g.bases[b] + Times(s.rows, prepared.value.stride) <= Pow2(|g.challenges|) {
      PreparedFits(g, b, s.rows, prepared.value.stride);
    }
    var accumulated := AccumulateBases(prepared.value, g, s);
    var out := accumulated.value;
    SegmentExtends(g, s, 0);
    PartialNothing(g); PartialAll(g); AddZero(out);
    res := Some(out);
  }

  /** The address check over all bases. */
  method CheckAddresses(g: Affine) returns (ok: bool)
    requires |g.digits| > 0
    ensures ok <==> forall b :: 0 <= b < |g.bases| ==> AddressOk(g, g.bases[b])
  {
    hide *;
    for b := 0 to |g.bases|
      invariant forall i :: 0 <= i < b ==> AddressOk(g, g.bases[i])
    {
      if !AddressOk(g, g.bases[b]) { return false; }
    }
    ok := true;
  }

  lemma EmptyWindow(g: Affine)
    requires g.liveLen == 0 || |g.bases| == 0
    ensures TripleSum(g) == Zero
  {
    PartialAll(g);
    PartialNothing(g);
  }

  /**
   `eval_affine_digit_intervals`: succeeds exactly on the accepted geometries, and then returns the triple sum,
   whichever path it takes.
   */
  method EvalAffineDigitIntervals(g: Affine) returns (res: Result<F>)
    ensures res.Ok? <==> Accepted(g)
    ensures res.Ok? ==> res.value == TripleSum(g)
  {
    hide TripleSum, Work, IsPowerOfTwo, TrailingZeros, AddressOk, Times, StrideCovers;
    if |g.high| == 0 && |g.low| == 0 { return Err; }
    if g.liveLen == 0 || |g.bases| == 0 {
      EmptyWindow(g);
      return Ok(Zero);
    }
    if |g.scales| != 0 && |g.scales| != |g.bases| { return Err; }
    if |g.digits| == 0 { return Err; }
    var digitSpan := Times(g.digitStride, |g.digits| - 1);
    if !IsPowerOfTwo(LowLen(g)) || g.digitStride == 0 || g.outerStride <= digitSpan { return Err; }
    if TrailingZeros(LowLen(g)) > |g.challenges| { return Err; }
    var capacity := Times(|g.high|, LowLen(g));
    if capacity > USIZE_MAX || g.outerStart + g.liveLen > capacity { return Err; }
    if g.outerStride + 1 > USIZE_MAX { return Err; }
    var inside := CheckAddresses(g);
    if !inside { return Err; }
    if Work(g) > MAX_TERMS { return Err; }
    if TakesAlignedPath(g) {
      AlignedReady(g);
      var value := EvalAligned(g, TrailingZeros(g.outerStride));
      return Ok(value);
    }
    var prepared := TryPrepared(g);
    if prepared.Some? { return Ok(prepared.value); }
    var value := EvalRows(g);
    return Ok(value);
  }

  lemma AlignedReady(g: Affine)
    requires WellFormed(g) && g.liveLen > 0 && TakesAlignedPath(g)
    ensures Aligned(g, TrailingZeros(g.outerStride)) && g.outerStart + g.liveLen <= |g.high|
    ensures forall b :: 0 <= b < |g.bases| ==> BaseFits(g, g.bases[b])
  {
    WellFormedParts(g);
    hide Pow2, TrailingZeros, StrideCovers, WellFormed;
    forall b | 0 <= b < |g.bases| ensures BaseFits(g, g.bases[b]) { AddressFits(g, b); }
  }

  // ----- acceptance in the arguments' own terms

  lemma PowerWithin(n: nat, bound: nat)
    ensures IsPowerOfTwo(n) && TrailingZeros(n) <= bound <==> exists k: nat :: k <= bound && n == Pow2(k)
  {
    if k: nat :| k <= bound && n == Pow2(k) { TrailingZerosOfPower(k); }
  }

  /** The window's rows and full rows, counted from its two ends. */
  lemma CountedRows(start: nat, end: nat, q: nat)
    requires q > 0 && start < end
    ensures
      var c := CutRows(start, end, q);
      && c.fullRows == (if end / q > (start + q - 1) / q then end / q - (start + q - 1) / q else 0)
      && (if c.prefixEnd != start then 1 else 0) + c.fullRows + (if c.cursor != end then 1 else 0) == (end - 1) / q - start / q + 1
  {
    hide *;
    DivModIs(start, q); DivModIs(end, q);
    var a, r, b, t := start / q, start % q, end / q, end % q;
    RoundedUp(start, q, a, r);
    LastRowOf(end, q, b, t);
    TimesStep(a, q);
    var p := if r == 0 then start else start + (q - r);
    if p > end {
      CutInRow(start, end, q);
      SameRow(start, end, q, a, r);
    } else {
      var a' := if r == 0 then a else a + 1;
      BoundaryOrder(a', b, t, q, p, end);
      CutAtBoundary(start, end, q, p, a', b);
    }
  }

  lemma RoundedUp(start: nat, q: nat, a: nat, r: nat)
    requires r < q && start == Times(a, q) + r
    ensures (start + q - 1) / q == if r == 0 then a else a + 1
  {
    if r == 0 { DivModUnique(start + q - 1, q, a, q - 1); } else { DivModUnique(start + q - 1, q, a + 1, r - 1); }
  }

  lemma LastRowOf(end: nat, q: nat, b: nat, t: nat)
    requires end > 0 && t < q && end == Times(b, q) + t
    ensures (end - 1) / q == if t == 0 then b - 1 else b
  {
    if t == 0 { DivModUnique(end - 1, q, b - 1, q - 1); } else { DivModUnique(end - 1, q, b, t - 1); }
  }

  /** A window that ends before the next boundary lies in one row. */
  lemma SameRow(start: nat, end: nat, q: nat, a: nat, r: nat)
    requires 0 < r < q && start == Times(a, q) + r && start < end < start + (q - r)
    ensures end / q == a && (end - 1) / q == a
  {
    DivModUnique(end, q, a, end - a * q); DivModUnique(end - 1, q, a, end - 1 - a * q);
  }

  lemma AddressesMean(g: Affine)
    requires |g.digits| > 0 && g.liveLen > 0
    ensures (forall b :: 0 <= b < |g.bases| ==> AddressOk(g, g.bases[b])) <==>
      forall b :: 0 <= b < |g.bases| ==>
        var last := g.bases[b] + g.outerStride * (g.liveLen - 1) + g.digitStride * (|g.digits| - 1);
        last <= 0xFFFF_FFFF_FFFF_FFFF && (|g.challenges| < 64 ==> last < Pow2(|g.challenges|))
  {
    hide Pow2;
    forall b | 0 <= b < |g.bases|
      ensures AddressOk(g, g.bases[b]) <==>
        var last := g.bases[b] + g.outerStride * (g.liveLen - 1) + g.digitStride * (|g.digits| - 1);
        last <= 0xFFFF_FFFF_FFFF_FFFF && (|g.challenges| < 64 ==> last < Pow2(|g.challenges|))
    {
      assert LastAddress(g, g.bases[b]) == g.bases[b] + g.outerStride * (g.liveLen - 1) + g.digitStride * (|g.digits| - 1);
    }
  }

  lemma WellFormedMeans(g: Affine)
    requires g.liveLen > 0
    ensures WellFormed(g) <==>
      var q := if |g.low| == 0 then 1 else |g.low|;
      && (|g.scales| == 0 || |g.scales| == |g.bases|)
      && |g.digits| > 0 && g.digitStride > 0
      && (exists k: nat :: k <= |g.challenges| && q == Pow2(k))
      && g.digitStride * (|g.digits| - 1) < g.outerStride < 0xFFFF_FFFF_FFFF_FFFF
      && g.outerStart + g.liveLen <= |g.high| * q <= 0xFFFF_FFFF_FFFF_FFFF
      && forall b :: 0 <= b < |g.bases| ==>
          var last := g.bases[b] + g.outerStride * (g.liveLen - 1) + g.digitStride * (|g.digits| - 1);
          last <= 0xFFFF_FFFF_FFFF_FFFF && (|g.challenges| < 64 ==> last < Pow2(|g.challenges|))
  {
    PowerWithin(LowLen(g), |g.challenges|);
    if |g.digits| > 0 { AddressesMean(g); }
    hide Pow2, IsPowerOfTwo, TrailingZeros, AddressOk;
  }

  /** The row terms of the general path's work, from the ends of the window. */
  lemma SummarizedMeans(g: Affine, q: nat)
    requires g.liveLen > 0 && q == LowLen(g)
    ensures
      var start, end := g.outerStart, g.outerStart + g.liveLen;
      var full := if end / q > (start + q - 1) / q then end / q - (start + q - 1) / q else 0;
      && SummarizedLow(g) == g.liveLen - full * q + (if full == 0 then 0 else q)
      && RowCount(g) == (end - 1) / q - start / q + 1
  {
    CountedRows(g.outerStart, g.outerStart + g.liveLen, q);
    CutCovers(g.outerStart, g.outerStart + g.liveLen, q);
    hide CutRows;
  }

  /**
   The charge is twice the window and the digits per base when a power-of-two stride meets a unit low factor;
   otherwise the digits of every low position summarized, one full row standing for all, and a row of carries.
   */
  lemma WorkMeans(g: Affine)
    requires g.liveLen > 0
    ensures
      var q := if |g.low| == 0 then 1 else |g.low|;
      var start, end := g.outerStart, g.outerStart + g.liveLen;
      var full := if end / q > (start + q - 1) / q then end / q - (start + q - 1) / q else 0;
      var rows := (end - 1) / q - start / q + 1;
      Work(g) ==
        if |g.low| == 0 && (exists j: nat :: j <= |g.challenges| && g.outerStride == Pow2(j))
        then |g.bases| * (2 * g.liveLen + |g.digits|)
        else (|g.digits| * (g.liveLen - full * q + (if full == 0 then 0 else q)) + rows * (g.outerStride + 1)) * |g.bases|
  {
    hide *;
    var q := if |g.low| == 0 then 1 else |g.low|;
    LowLenIs(g);
    PowerWithin(g.outerStride, |g.challenges|);
    SummarizedMeans(g, q);
    ChargeIs(g);
  }

  lemma LowLenIs(g: Affine) ensures LowLen(g) == if |g.low| == 0 then 1 else |g.low| { }

  lemma ChargeIs(g: Affine)
    ensures Work(g) ==
      if |g.low| == 0 && IsPowerOfTwo(g.outerStride) && TrailingZeros(g.outerStride) <= |g.challenges|
      then |g.bases| * (2 * g.liveLen + |g.digits|)
      else (|g.digits| * SummarizedLow(g) + RowCount(g) * (g.outerStride + 1)) * |g.bases|
  {
    hide IsPowerOfTwo, TrailingZeros, SummarizedLow, RowCount;
  }

  /** Which geometries succeed, in the caller's arguments alone. */
  lemma AcceptedMeans(g: Affine)
    ensures Accepted(g) <==>
      var q := if |g.low| == 0 then 1 else |g.low|;
      var start, end := g.outerStart, g.outerStart + g.liveLen;
      var full := if end / q > (start + q - 1) / q then end / q - (start + q - 1) / q else 0;
      var rows := (end - 1) / q - start / q + 1;
      && (|g.high| > 0 || |g.low| > 0)
      && (g.liveLen > 0 && |g.bases| > 0 ==>
          && (|g.scales| == 0 || |g.scales| == |g.bases|)
          && |g.digits| > 0 && g.digitStride > 0
          && (exists k: nat :: k <= |g.challenges| && q == Pow2(k))
          && g.digitStride * (|g.digits| - 1) < g.outerStride < 0xFFFF_FFFF_FFFF_FFFF
          && end <= |g.high| * q <= 0xFFFF_FFFF_FFFF_FFFF
          && (forall b :: 0 <= b < |g.bases| ==>
               var last := g.bases[b] + g.outerStride * (g.liveLen - 1) + g.digitStride * (|g.digits| - 1);
               last <= 0xFFFF_FFFF_FFFF_FFFF && (|g.challenges| < 64 ==> last < Pow2(|g.challenges|)))
          && if |g.low| == 0 && (exists j: nat :: j <= |g.challenges| && g.outerStride == Pow2(j))
             then |g.bases| * (2 * g.liveLen + |g.digits|) <= 0x1000_0000
             else (|g.digits| * (g.liveLen - full * q + (if full == 0 then 0 else q)) + rows * (g.outerStride + 1)) * |g.bases| <= 0x1000_0000)
  {
    hide *;
    AcceptedIs(g);
    if g.liveLen > 0 && |g.bases| > 0 {
      WellFormedMeans(g);
      WorkMeans(g);
    }
  }

  lemma AcceptedIs(g: Affine)
    ensures Accepted(g) <==>
      && (|g.high| > 0 || |g.low| > 0) && (g.liveLen == 0 || |g.bases| == 0 || (WellFormed(g) && Work(g) <= 0x1000_0000))
  {
    hide WellFormed, Work;
  }

  /** Rows of the full window: every row is full. */
  lemma FullRows(high: nat, q: nat)
    requires high > 0 && q > 0
    ensures (high * q) / q == high && (0 + q - 1) / q == 0 && (high * q - 1) / q == high - 1 && 0 / q == 0
  {
    DivModUnique(high * q, q, high, 0);
    DivModUnique(q - 1, q, 0, q - 1);
    DivModUnique(high * q - 1, q, high - 1, q - 1);
    DivModUnique(0, q, 0, 0);
  }

  /** A window over all of its weights succeeds whenever its last addresses and its charge fit, and returns the triple sum. */
  method EvalFullWindow(g: Affine) returns (res: Result<F>)
    requires var q := if |g.low| == 0 then 1 else |g.low|;
      && g.outerStart == 0 && g.liveLen == |g.high| * q && |g.high| > 0 && |g.bases| > 0
      && (|g.scales| == 0 || |g.scales| == |g.bases|) && |g.digits| > 0 && g.digitStride > 0
      && (exists k: nat :: k <= |g.challenges| && q == Pow2(k))
      && g.digitStride * (|g.digits| - 1) < g.outerStride < 0xFFFF_FFFF_FFFF_FFFF && |g.high| * q <= 0xFFFF_FFFF_FFFF_FFFF
      && forall b :: 0 <= b < |g.bases| ==>
          var last := g.bases[b] + g.outerStride * (g.liveLen - 1) + g.digitStride * (|g.digits| - 1);
          last <= 0xFFFF_FFFF_FFFF_FFFF && (|g.challenges| < 64 ==> last < Pow2(|g.challenges|))
    ensures var q := if |g.low| == 0 then 1 else |g.low|;
      res.Ok? <==>
        if |g.low| == 0 && (exists j: nat :: j <= |g.challenges| && g.outerStride == Pow2(j))
        then |g.bases| * (2 * |g.high| + |g.digits|) <= 0x1000_0000
        else (|g.digits| * q + |g.high| * (g.outerStride + 1)) * |g.bases| <= 0x1000_0000
    ensures res.Ok? ==> res.value == TripleSum(g)
  {
    hide *;
    res := EvalAffineDigitIntervals(g);
    AcceptedMeans(g);
    var q := if |g.low| == 0 then 1 else |g.low|;
    FullRows(|g.high|, q);
    assert g.liveLen > 0 by { MulMono(1, |g.high|, q); }
  }
}
