/**
 One segment of rows for every base.
 Models `accumulate_affine_rows` of crates/akita-algebra/src/offset_eq.rs.
 */
module AffineGroup {
  import opened Arith
  import opened Field
  import opened Sums
  import opened EqPoly
  import opened Buckets
  import opened OffsetWindow
  import opened AffineSpec
  import opened AffineLow
  import opened AffineGeometric
  import opened AffineHigh
  import opened AffineBuckets

  /** One address's contribution. */
  function AddressTerm(g: Affine, s: Seg, a: AffineAddress): F
    requires SegOk(g, s)
  {
    Mul(ScaleOf(a), SegSum(g, s, a.first))
  }

  function AddressSum(g: Affine, s: Seg, adr: seq<AffineAddress>): F
    requires SegOk(g, s)
  {
    if |adr| == 0 then Zero else Add(AddressSum(g, s, adr[..|adr| - 1]), AddressTerm(g, s, adr[|adr| - 1]))
  }

  lemma AddressNil(g: Affine, s: Seg) requires SegOk(g, s) ensures AddressSum(g, s, []) == Zero { }

  lemma AddressSnoc(g: Affine, s: Seg, adr: seq<AffineAddress>, a: AffineAddress)
    requires SegOk(g, s)
    ensures AddressSum(g, s, adr + [a]) == Add(AddressSum(g, s, adr), AddressTerm(g, s, a))
  {
    hide AddressTerm;
    assert (adr + [a])[..|adr|] == adr;
  }

  lemma {:induction false} AddressConcat(g: Affine, s: Seg, x: seq<AffineAddress>, y: seq<AffineAddress>)
    requires SegOk(g, s)
    ensures AddressSum(g, s, x + y) == Add(AddressSum(g, s, x), AddressSum(g, s, y))
    decreases |y|
  {
    hide *;
    if |y| == 0 {
      AddressNil(g, s);
      assert y == [] && x + y == x;
      AddZero(AddressSum(g, s, x));
    } else {
      var y', a := y[..|y| - 1], y[|y| - 1];
      assert y == y' + [a] && x + y == (x + y') + [a];
      AddressConcat(g, s, x, y');
      AddressSnoc(g, s, x + y', a); AddressSnoc(g, s, y', a);
      AddAssoc(AddressSum(g, s, x), AddressSum(g, s, y'), AddressTerm(g, s, a));
    }
  }

  /** The sum does not depend on the order of the addresses. */
  lemma {:induction false} AddressOrder(g: Affine, s: Seg, x: seq<AffineAddress>, y: seq<AffineAddress>)
    requires SegOk(g, s) && multiset(x) == multiset(y)
    ensures AddressSum(g, s, x) == AddressSum(g, s, y)
    decreases |x|
  {
    hide *;
    if |x| == 0 {
      assert |multiset(y)| == 0;
      assert x == [] && y == [];
    } else {
      var x', a := x[..|x| - 1], x[|x| - 1];
      assert x == x' + [a];
      assert a in multiset(y);
      var i :| 0 <= i < |y| && y[i] == a;
      var p, q := y[..i], y[i + 1..];
      assert y == (p + [a]) + q;
      assert multiset(p + q) + multiset{a} == multiset(y);
      Cancel(multiset(x'), multiset(p + q), a);
      AddressOrder(g, s, x', p + q);
      AddressSnoc(g, s, x', a);
      AddressConcat(g, s, p + [a], q); AddressSnoc(g, s, p, a); AddressConcat(g, s, p, q);
      var sp, sq, t := AddressSum(g, s, p), AddressSum(g, s, q), AddressTerm(g, s, a);
      AddAssoc(sp, t, sq); AddComm(t, sq); AddAssoc(sp, sq, t);
    }
  }

  lemma Cancel(m: multiset<AffineAddress>, n: multiset<AffineAddress>, a: AffineAddress)
    requires m + multiset{a} == n + multiset{a}
    ensures m == n
  {
    assert m == (m + multiset{a}) - multiset{a};
    assert n == (n + multiset{a}) - multiset{a};
  }

  // ----- the high contraction of a residue group is the group's segment sums

  function HighOf(g: Affine, s: Seg, k: nat, summaries: seq<F>): High
    requires k <= |g.challenges|
  {
    High(g.challenges[k..], g.outerStride, LowLen(g), g.high, s.firstHigh, s.rows, summaries)
  }

  /** Row `row` of an address starts at high index first / Q + stride * row and low address first mod Q. */
  lemma RowStart(g: Affine, first: nat, row: nat, x: nat)
    requires x == first / LowLen(g) + Times(g.outerStride, row)
    ensures Join(x, LowLen(g), first % LowLen(g)) == first + Times(g.outerStride, Times(LowLen(g), row))
  {
    hide LowLen, Times, Join;
    DivModIs(first, LowLen(g));
    JoinRow(x, first / LowLen(g), g.outerStride, row, LowLen(g), first % LowLen(g));
  }

  lemma JoinRow(x: nat, h: nat, stride: nat, row: nat, q: nat, a: nat)
    requires x == h + Times(stride, row)
    ensures Join(x, q, a) == Times(h, q) + a + Times(stride, Times(q, row))
  {
    assert (h + stride * row) * q == h * q + stride * (q * row);
  }

  /** The summaries against eq of the high point give the row's sum. */
  lemma RowIsCarrySum(g: Affine, s: Seg, k: nat, a: nat, summaries: seq<F>, x: nat)
    requires SegOk(g, s) && SplitAt(g, k) && a < LowLen(g) && Summaries(summaries, g, s, k, a)
    ensures CarrySum(HighOf(g, s, k, summaries), x) == RowSum(g, s, Join(x, LowLen(g), a))
  {
    var h, count := HighOf(g, s, k, summaries), CarryCount(g, s, a);
    hide Mul, EqInt, Bucket, Carry, Join, CarryCount, RowSum, Sum;
    forall e | 0 <= e < TermCount(g, s) ensures 0 <= Carry(g, a, e) < count { CarryInside(g, s, a, e); }
    RowFactors(g, s, k, a, x, count);
    SumExt(CarryTerms(h, x), HighTerms(g, s, k, a, x), count);
  }

  lemma RowItem(g: Affine, s: Seg, k: nat, a: nat, summaries: seq<F>, adr: AffineAddress, row: nat)
    requires SegOk(g, s) && SplitAt(g, k) && Summaries(summaries, g, s, k, a)
    requires adr.first % LowLen(g) == a && row < s.rows
    ensures
      var h := HighOf(g, s, k, summaries);
      Mul(RowWeight(h, adr, row), CarrySum(h, RowIndex(h, adr, row))) == Mul(ScaleOf(adr), SegTerms(g, s, adr.first)(row))
  {
    hide *;
    SplitParts(g, s, k);
    HighOfParts(g, s, k, summaries);
    var h := HighOf(g, s, k, summaries);
    var x, w, sum := RowIndex(h, adr, row), At(g.high, s.firstHigh + row), CarrySum(h, RowIndex(h, adr, row));
    RowIndexIs(h, adr, row);
    RowStart(g, adr.first, row, x);
    LowResidue(adr.first, LowLen(g));
    RowIsCarrySum(g, s, k, a, summaries, x);
    SegTermAt(g, s, adr.first, row);
    MulComm(w, ScaleOf(adr)); MulAssoc(ScaleOf(adr), w, sum);
  }

  lemma RowIndexIs(h: High, a: AffineAddress, row: nat)
    requires h.lowLen > 0
    ensures RowIndex(h, a, row) == a.first / h.lowLen + Times(h.stride, row)
    ensures RowWeight(h, a, row) == Mul(At(h.weights, h.firstHigh + row), ScaleOf(a))
  {
    hide Mul, At, Times;
  }

  lemma LowResidue(x: nat, q: nat) requires q > 0 ensures x % q < q { }

  lemma HighOfParts(g: Affine, s: Seg, k: nat, summaries: seq<F>)
    requires k <= |g.challenges|
    ensures
      var h := HighOf(g, s, k, summaries);
      h.point == g.challenges[k..] && h.lowLen == LowLen(g) > 0 && h.rows == s.rows && h.weights == g.high &&
      h.firstHigh == s.firstHigh && h.stride == g.outerStride && h.summaries == summaries
  { }

  function AddressTerms(g: Affine, s: Seg, adr: seq<AffineAddress>): int -> F
    requires SegOk(g, s)
  {
    (i: int) => if 0 <= i < |adr| then AddressTerm(g, s, adr[i]) else Zero
  }

  lemma AddressTermAt(g: Affine, s: Seg, adr: seq<AffineAddress>, i: nat)
    requires SegOk(g, s) && i < |adr|
    ensures AddressTerms(g, s, adr)(i) == AddressTerm(g, s, adr[i])
  { }

  lemma {:induction false} AddressSumIs(g: Affine, s: Seg, adr: seq<AffineAddress>, f: int -> F)
    requires SegOk(g, s)
    requires forall i :: 0 <= i < |adr| ==> f(i) == AddressTerm(g, s, adr[i])
    ensures AddressSum(g, s, adr) == Sum(f, |adr|)
    decreases |adr|
  {
    hide *;
    if |adr| == 0 { AddressNil(g, s); SumNil(f); assert adr == []; } else {
      var front, a := adr[..|adr| - 1], adr[|adr| - 1];
      assert adr == front + [a];
      AddressSnoc(g, s, front, a);
      AddressSumIs(g, s, front, f);
      SumSnoc(f, |adr|);
    }
  }

  /** What the contraction adds for one residue group. */
  lemma HighTotalIsGroup(g: Affine, s: Seg, k: nat, a: nat, summaries: seq<F>, adr: seq<AffineAddress>)
    requires SegOk(g, s) && SplitAt(g, k) && Summaries(summaries, g, s, k, a) && s.rows > 0
    requires forall i :: 0 <= i < |adr| ==> adr[i].first % LowLen(g) == a
    ensures HighOf(g, s, k, summaries).lowLen > 0
    ensures HighTotal(HighOf(g, s, k, summaries), adr) == AddressSum(g, s, adr)
  {
    hide *;
    SplitParts(g, s, k);
    HighOfParts(g, s, k, summaries);
    var h := HighOf(g, s, k, summaries);
    var items, terms := ItemTerms(h, adr), AddressTerms(g, s, adr);
    HighTotalIs(h, adr);
    forall i | 0 <= i < |adr| ensures terms(i) == Sum(row => items(Times(i, s.rows) + row), s.rows) {
      AddressTermAt(g, s, adr, i);
      AddressBlock(g, s, k, a, summaries, adr, i, row => items(Times(i, s.rows) + row));
    }
    SumTimesBlocks(items, terms, |adr|, s.rows);
    forall i | 0 <= i < |adr| ensures terms(i) == AddressTerm(g, s, adr[i]) { AddressTermAt(g, s, adr, i); }
    AddressSumIs(g, s, adr, terms);
  }

  lemma AddressBlock(g: Affine, s: Seg, k: nat, a: nat, summaries: seq<F>, adr: seq<AffineAddress>, i: nat, block: int -> F)
    requires SegOk(g, s) && SplitAt(g, k) && Summaries(summaries, g, s, k, a) && s.rows > 0
    requires i < |adr| && adr[i].first % LowLen(g) == a
    requires HighOf(g, s, k, summaries).lowLen > 0 && HighOf(g, s, k, summaries).rows == s.rows
    requires forall row :: 0 <= row < s.rows ==> block(row) == ItemTerms(HighOf(g, s, k, summaries), adr)(Times(i, s.rows) + row)
    ensures Sum(block, s.rows) == AddressTerm(g, s, adr[i])
  {
    hide *;
    SplitParts(g, s, k);
    var h, first, scale := HighOf(g, s, k, summaries), adr[i].first, ScaleOf(adr[i]);
    forall row | 0 <= row < s.rows ensures block(row) == Mul(scale, SegTerms(g, s, first)(row)) {
      ItemAt(h, adr, i, row);
      JoinIs(i, s.rows, row);
      RowItem(g, s, k, a, summaries, adr[i], row);
    }
    SumScale(scale, SegTerms(g, s, first), block, s.rows);
    SegSumIs(g, s, first);
    AddressTermIs(g, s, adr[i]);
  }

  lemma AddressTermIs(g: Affine, s: Seg, a: AffineAddress)
    requires SegOk(g, s)
    ensures AddressTerm(g, s, a) == Mul(ScaleOf(a), SegSum(g, s, a.first))
  { }

  // ----- bounds

  /** The last address reached from `first` in the segment. */
  function SegLast(g: Affine, s: Seg, first: nat): int
    requires SegOk(g, s)
  {
    first + Times(g.outerStride, Times(LowLen(g), s.rows - 1)) + Times(g.outerStride, Span(s) - 1)
      + Times(g.digitStride, |g.digits| - 1)
  }

  /** An address the evaluator accepts: a `usize` inside the point's domain. */
  predicate InDomain(g: Affine, address: int) {
    address <= USIZE_MAX && (|g.challenges| < USIZE_BITS ==> address < Pow2(|g.challenges|))
  }

  ghost predicate SegFits(g: Affine, s: Seg, first: nat) requires SegOk(g, s) { InDomain(g, SegLast(g, s, first)) }

  /** The digits of one outer position end before the next outer position starts. */
  ghost predicate StrideCovers(g: Affine) { |g.digits| > 0 && Times(g.digitStride, |g.digits| - 1) < g.outerStride }

  /** At most `outer_stride + 1` carries. */
  lemma CarryCountBound(g: Affine, s: Seg, a: nat)
    requires SegOk(g, s) && StrideCovers(g) && a < LowLen(g)
    ensures CarryCount(g, s, a) <= g.outerStride + 1
  {
    hide LowLen;
    TopBound(a, g.outerStride, Span(s), LowLen(g), Times(g.digitStride, |g.digits| - 1));
  }

  lemma TopBound(a: nat, stride: nat, span: nat, q: nat, digits: nat)
    requires a < q && 0 < span <= q && digits < stride
    ensures a + Times(stride, span - 1) + digits >= 0
    ensures (a + Times(stride, span - 1) + digits) / q <= stride
  {
    TimesNat(stride, span - 1);
    var top := a + Times(stride, span - 1) + digits;
    MulMono(span, q, stride);
    assert stride * (span - 1) == stride * span - stride;
    assert top < q * (stride + 1);
    QuotientBound(top, q, stride + 1);
  }

  /** Every high index a row reaches is a `usize`. */
  lemma RowFits(g: Affine, s: Seg, first: nat, row: nat)
    requires SegOk(g, s) && SegFits(g, s, first) && row < s.rows
    ensures first / LowLen(g) + Times(g.outerStride, row) + CarryCount(g, s, first % LowLen(g)) <= USIZE_MAX + 1
  {
    hide *;
    SegSpan(g, s);
    var q := LowLen(g);
    DivModIs(first, q);
    var a := first % q;
    SegFitsIs(g, s, first); CarryCountIs(g, s, a);
    TimesNat(g.outerStride, row);
    var x := first / q + Times(g.outerStride, row);
    RowStart(g, first, row, x);
    MulMono2(q, row, s.rows - 1);
    MulMono2(g.outerStride, Times(q, row), Times(q, s.rows - 1));
    CarryTop(x, q, a, a + Times(g.outerStride, Span(s) - 1) + Times(g.digitStride, |g.digits| - 1));
  }

  /** The block after any block a bucketed row reaches is a `usize`: the bucketed split has at most 32 high bits. */
  lemma NextBlockFits(g: Affine, s: Seg, k: nat, b: nat, first: nat, row: nat)
    requires SegOk(g, s) && SplitAt(g, k) && SegFits(g, s, first) && row < s.rows && |g.challenges| <= k + b + 32
    ensures first / LowLen(g) + Times(g.outerStride, row) >= 0
    ensures (first / LowLen(g) + Times(g.outerStride, row)) / Pow2(b) + 1 <= USIZE_MAX
  {
    hide *;
    SplitParts(g, s, k); SegSpan(g, s);
    var q := LowLen(g);
    DivModIs(first, q);
    SegFitsIs(g, s, first);
    TimesNat(g.outerStride, row); TimesNat(g.outerStride, Span(s) - 1); TimesNat(g.digitStride, |g.digits| - 1);
    var x := first / q + Times(g.outerStride, row);
    RowStart(g, first, row, x);
    JoinIs(x, q, first % q);
    MulMono2(q, row, s.rows - 1);
    MulMono2(g.outerStride, Times(q, row), Times(q, s.rows - 1));
    DomainBelow(g, Times(x, q) + first % q, SegLast(g, s, first));
    DomainBlock(g, x, k, b, Times(x, q) + first % q);
  }

  lemma DomainBelow(g: Affine, lower: int, upper: int) requires lower <= upper && InDomain(g, upper) ensures InDomain(g, lower) { }

  lemma DomainBlock(g: Affine, x: nat, k: nat, b: nat, address: nat)
    requires InDomain(g, address) && Times(x, Pow2(k)) <= address && |g.challenges| <= k + b + 32
    ensures x / Pow2(b) + 1 <= USIZE_MAX
  {
    DomainBound(g, address);
    if k + b >= 1 { Pow2Mono(1, k + b); Pow2Step(0); }
    Pow2Add(k, b);
    hide *;
    DivModIs(x, Pow2(b));
    BlockBound(x, x / Pow2(b), x % Pow2(b), Pow2(k), Pow2(b), address);
  }

  lemma DomainBound(g: Affine, address: nat)
    requires InDomain(g, address)
    ensures address <= USIZE_MAX && (|g.challenges| < USIZE_BITS ==> address < 0x8000_0000_0000_0000)
  {
    hide Pow2;
    if |g.challenges| < USIZE_BITS { Pow2Of64(); Pow2Step(63); Pow2Mono(|g.challenges|, 63); }
  }

  /** A block index times its width stays at the address; halving leaves room for one more. */
  lemma BlockBound(x: nat, block: nat, r: nat, p: nat, w: nat, address: nat)
    requires p >= 1 && w >= 1 && x == Times(block, w) + r && Times(x, p) <= address <= USIZE_MAX
    requires address < 0x8000_0000_0000_0000 || p * w >= 2
    ensures block + 1 <= USIZE_MAX
  {
    MulMono(block * w, x, p);
    assert block * w * p == block * (p * w);
    if p * w >= 2 { MulMono(2, p * w, block); } else { MulMono(1, p * w, block); }
  }

  lemma SegFitsIs(g: Affine, s: Seg, first: nat)
    requires SegOk(g, s) && SegFits(g, s, first)
    ensures s.lowStart < s.lowEnd && SegLast(g, s, first) <= USIZE_MAX && InDomain(g, SegLast(g, s, first))
    ensures SegLast(g, s, first) == first + Times(g.outerStride, Times(LowLen(g), s.rows - 1)) + Times(g.outerStride, Span(s) - 1)
      + Times(g.digitStride, |g.digits| - 1)
  { }

  lemma CarryTop(x: nat, q: nat, a: nat, top: nat)
    requires q > 0 && Join(x, q, a) + (top - a) <= USIZE_MAX
    ensures x + top / q + 1 <= USIZE_MAX + 1
  {
    var c := top / q;
    assert c * q <= top;
    assert (x + c) * q <= USIZE_MAX;
    MulMono(1, q, x + c);
  }

  // ----- one residue group

  /** `accumulate_group`: summaries once, then the bucketed contraction, or the direct one when it declines. */
  method AccumulateGroup(g: Affine, s: Seg, k: nat, a: nat, table: Option<seq<F>>, adr: seq<AffineAddress>, eq: AmortizedEq, out0: F)
    returns (out: F, eq': AmortizedEq)
    requires GroupReady(g, s, k) && a < LowLen(g) && TableFor(table, g, k) && |adr| > 0
    requires eq.Valid() && eq.challenges == g.challenges[k..]
    requires forall i :: 0 <= i < |adr| ==> adr[i].first % LowLen(g) == a && SegFits(g, s, adr[i].first)
    requires Times(Times(|adr|, s.rows), g.outerStride + 1) <= MAX_TERMS
    ensures out == Add(out0, AddressSum(g, s, adr))
    ensures eq'.Valid() && eq'.challenges == g.challenges[k..]
  {
    hide *;
    eq' := eq;
    ReadyParts(g, s, k);
    SplitParts(g, s, k);
    var summaries := BuildSummaries(g, s, k, a, table);
    CarryCountBound(g, s, a);
    GroupWork(|adr|, s.rows, |summaries|, g.outerStride + 1);
    SummaryCount(summaries, g, s, k, a);
    HighOfParts(g, s, k, summaries);
    HighTotalIsGroup(g, s, k, a, summaries, adr);
    var h := HighOf(g, s, k, summaries);
    var tasks := if Times(|adr|, s.rows) >= PARALLEL_HIGH_ROWS_MIN then PerAddress(|adr|) else Single;
    TasksFit(|adr|);
    GroupHighOk(h);
    forall b: nat | b <= |h.point| <= b + 32 ensures BlocksFit(h, adr, b) { GroupBlocksFit(g, s, k, a, b, summaries, adr); }
    var fast := AccumulateBucketed(h, adr, tasks, out0);
    if fast.value.Some? {
      out := fast.value.value;
    } else {
      eq' := eq.Prepare(Times(Times(|adr|, s.rows), |summaries|));
      GroupFits(g, s, k, a, summaries, adr);
      out := Direct(h, adr, eq', out0);
    }
  }

  /** One task per address. */
  function PerAddress(n: nat): Tasks { if n <= 1 then Single else Merge(1, Single, PerAddress(n - 1)) }

  lemma {:induction false} TasksFit(n: nat)
    ensures TasksFor(PerAddress(n), n) && TasksFor(Single, n)
  {
    if n > 1 { TasksFit(n - 1); }
  }

  lemma GroupBlocksFit(g: Affine, s: Seg, k: nat, a: nat, b: nat, summaries: seq<F>, adr: seq<AffineAddress>)
    requires SegOk(g, s) && SplitAt(g, k) && k <= |g.challenges| && |g.challenges| <= k + b + 32
    requires forall i :: 0 <= i < |adr| ==> adr[i].first % LowLen(g) == a && SegFits(g, s, adr[i].first)
    ensures BlocksFit(HighOf(g, s, k, summaries), adr, b)
  {
    hide SegFits, Times, Pow2, SplitAt;
    var h := HighOf(g, s, k, summaries);
    forall i, row: nat | 0 <= i < |adr| && row < h.rows ensures RowIndex(h, adr[i], row) / Pow2(b) + 1 <= USIZE_MAX {
      NextBlockFits(g, s, k, b, adr[i].first, row);
    }
  }

  ghost predicate GroupReady(g: Affine, s: Seg, k: nat) {
    && SegOk(g, s) && SplitAt(g, k) && StrideCovers(g) && k <= USIZE_BITS && (|g.low| == 0 ==> k == 0)
    && s.rows > 0 && s.firstHigh + s.rows <= |g.high|
  }

  lemma ReadyParts(g: Affine, s: Seg, k: nat)
    requires GroupReady(g, s, k)
    ensures SegOk(g, s) && SplitAt(g, k) && StrideCovers(g) && k <= USIZE_BITS && (|g.low| == 0 ==> k == 0)
    ensures s.rows > 0 && s.firstHigh + s.rows <= |g.high|
  { }

  lemma SummaryCount(out: seq<F>, g: Affine, s: Seg, k: nat, a: nat)
    requires SegOk(g, s) && k <= |g.challenges| && Summaries(out, g, s, k, a)
    ensures |out| == CarryCount(g, s, a)
  { }

  lemma GroupWork(n: nat, rows: nat, count: nat, bound: nat)
    ensures Times(Times(n, rows), count) >= 0
    ensures count <= bound ==> Times(Times(n, rows), count) <= Times(Times(n, rows), bound)
  {
    TimesNat(n, rows);
    TimesNat(Times(n, rows), count);
    if count <= bound { MulMono2(Times(n, rows), count, bound); }
  }

  lemma GroupHighOk(h: High)
    requires h.lowLen > 0 && h.rows > 0 && h.firstHigh + h.rows <= |h.weights|
    ensures HighOk(h)
  { }

  lemma GroupFits(g: Affine, s: Seg, k: nat, a: nat, summaries: seq<F>, adr: seq<AffineAddress>)
    requires SegOk(g, s) && k <= |g.challenges| && |summaries| == CarryCount(g, s, a)
    requires forall i :: 0 <= i < |adr| ==> adr[i].first % LowLen(g) == a && SegFits(g, s, adr[i].first)
    ensures IndicesFit(HighOf(g, s, k, summaries), adr)
  {
    hide SegFits, CarryCount, Times;
    var h := HighOf(g, s, k, summaries);
    forall i, row: nat | 0 <= i < |adr| && row < h.rows
      ensures RowIndex(h, adr[i], row) + |h.summaries| <= USIZE_MAX + 1
    {
      RowFits(g, s, adr[i].first, row);
    }
  }
}
