/**
 Adjacent digits through prepared row tables.
 Models crates/akita-algebra/src/offset_eq/prepared_digits.rs.
 */
module PreparedDigits {
  import opened Arith
  import opened Field
  import opened Sums
  import opened Powers
  import opened EqPoly
  import opened OffsetWindow
  import opened AffineSpec
  import opened AffineLow
  import opened AffineBuckets
  import opened AffineRows
  import opened PreparedTables

  const MAX_PREPARED_STRIDE: nat := 512

  datatype Prepared = Prepared(stride: nat, bits: nat, noCarry: seq<F>, carry: seq<F>, high: Window)

  /** Both tables hold one full row per residue of the block, and the window covers the other coordinates. */
  ghost predicate PreparedFor(pr: Prepared, g: Affine) {
    && pr.bits <= |g.challenges| && pr.stride == Times(LowLen(g), |g.digits|) && 0 < pr.stride <= Pow2(pr.bits)
    && |pr.noCarry| == |pr.carry| == Pow2(pr.bits)
    && (forall r {:trigger pr.noCarry[r]} :: 0 <= r < Pow2(pr.bits) ==> pr.noCarry[r] == RowEntry(g, EqTable(g.challenges[..pr.bits]), r))
    && (forall r {:trigger pr.carry[r]} :: 0 <= r < Pow2(pr.bits) ==>
          pr.carry[r] == RowEntry(g, EqTable(g.challenges[..pr.bits]), r - Pow2(pr.bits)))
    && WindowFor(pr.high, g.challenges[pr.bits..])
  }

  lemma PreparedParts(pr: Prepared, g: Affine)
    requires PreparedFor(pr, g)
    ensures pr.bits <= |g.challenges| && pr.stride == Times(LowLen(g), |g.digits|) && 0 < pr.stride <= Pow2(pr.bits)
    ensures |pr.noCarry| == |pr.carry| == Pow2(pr.bits) && WindowFor(pr.high, g.challenges[pr.bits..])
  { }

  lemma PreparedEntries(pr: Prepared, g: Affine, r: nat)
    requires PreparedFor(pr, g) && r < Pow2(pr.bits)
    ensures r < |pr.noCarry| && r < |pr.carry| && pr.bits <= |g.challenges|
    ensures pr.noCarry[r] == RowEntry(g, EqTable(g.challenges[..pr.bits]), r)
    ensures pr.carry[r] == RowEntry(g, EqTable(g.challenges[..pr.bits]), r - Pow2(pr.bits))
  {
    hide RowEntry, EqTable, WindowFor, Times, LowLen;
  }

  /** How a lane is summed: by the recurrence for a recognized period, digit by digit otherwise. */
  datatype Lanes = Ratios(period: nat, prefix: nat, h: seq<F>) | Dense

  ghost predicate LanesFor(lanes: Lanes, digits: seq<F>, e: seq<F>) {
    lanes.Ratios? ==>
      && Interleaved(digits, lanes.period)
      && exists count: nat {:trigger Times(count, lanes.period)} ::
           && count >= 1 && |digits| == Times(count, lanes.period) && lanes.prefix == Times(count - 1, lanes.period)
           && |lanes.h| == |e| + lanes.prefix && HoldsRatios(lanes.h, 0, Beta(digits, lanes.period), e, lanes.period, count, lanes.prefix)
  }

  method ChooseLanes(digits: seq<F>, e: seq<F>) returns (lanes: Lanes)
    requires |digits| > 0
    ensures LanesFor(lanes, digits, e)
  {
    var period := FindPeriod(digits);
    if period.None? { return Dense; }
    var p := period.value;
    hide *;
    InterleavedParts(digits, p);
    DivModIs(|digits|, p);
    var count := |digits| / p;
    WholePeriods(digits, p, count);
    TimesNat(count - 1, p);
    var h := BuildRatios(digits, p, count, e);
    lanes := Ratios(p, Times(count - 1, p), h);
    LanesIntro(lanes, digits, e, count);
  }

  lemma WholePeriods(digits: seq<F>, p: nat, count: nat)
    requires Interleaved(digits, p) && count == |digits| / p
    ensures count >= 1 && |digits| == Times(count, p)
  {
    hide Beta;
    DivModIs(|digits|, p);
    if count < 1 { TimesZero(p); }
  }

  lemma LanesIntro(lanes: Lanes, digits: seq<F>, e: seq<F>, count: nat)
    requires lanes.Ratios? && Interleaved(digits, lanes.period) && count >= 1 && |digits| == Times(count, lanes.period)
    requires lanes.prefix == Times(count - 1, lanes.period) && |lanes.h| == |e| + lanes.prefix
    requires HoldsRatios(lanes.h, 0, Beta(digits, lanes.period), e, lanes.period, count, lanes.prefix)
    ensures LanesFor(lanes, digits, e)
  {
    hide Times, HoldsRatios, Interleaved;
  }

  /** One lane's two sums, either way. */
  method LaneSums(lanes: Lanes, digits: seq<F>, e: seq<F>, residue: nat, at: nat, stride: nat) returns (noCarry: F, carry: F)
    requires LanesFor(lanes, digits, e) && residue < |e| && at + |digits| <= stride <= |e|
    ensures noCarry == LaneSum(digits, e, residue + at) && carry == LaneSum(digits, e, residue + at - |e|)
  {
    if lanes.Dense? {
      noCarry, carry := DenseLane(digits, e, residue, at, stride);
    } else {
      ghost var count: nat :| count >= 1 && |digits| == Times(count, lanes.period) && lanes.prefix == Times(count - 1, lanes.period)
        && |lanes.h| == |e| + lanes.prefix && HoldsRatios(lanes.h, 0, Beta(digits, lanes.period), e, lanes.period, count, lanes.prefix);
      noCarry, carry := RatioLane(digits, lanes.period, count, lanes.h, lanes.prefix, e, residue + at, |e|);
    }
  }

  /** The two entries of one residue, lane by lane. */
  method ResidueEntries(g: Affine, lanes: Lanes, e: seq<F>, residue: nat) returns (noCarry: F, carry: F)
    requires |g.digits| > 0 && LanesFor(lanes, g.digits, e) && residue < |e| && Times(LowLen(g), |g.digits|) <= |e|
    ensures noCarry == RowEntry(g, e, residue) && carry == RowEntry(g, e, residue - |e|)
  {
    hide *;
    var stride := Times(LowLen(g), |g.digits|);
    ghost var f0, f1 := RowEntries(g, e, residue), RowEntries(g, e, residue - |e|);
    noCarry, carry := Zero, Zero;
    SumNil(f0); SumNil(f1);
    for lane := 0 to LowLen(g)
      invariant noCarry == Sum(f0, lane) && carry == Sum(f1, lane)
    {
      LaneInside(lane, LowLen(g), |g.digits|);
      var at := Times(lane, |g.digits|);
      var s0, s1 := LaneSums(lanes, g.digits, e, residue, at, stride);
      SumSnoc(f0, lane + 1); SumSnoc(f1, lane + 1);
      RowEntryAt(g, e, residue, lane); RowEntryAt(g, e, residue - |e|, lane);
      assert residue - |e| + at == residue + at - |e|;
      LowWeightIs(g, lane);
      MulOne(s0); MulOne(s1);
      noCarry := Add(noCarry, if |g.low| == 0 then s0 else Mul(g.low[lane], s0));
      carry := Add(carry, if |g.low| == 0 then s1 else Mul(g.low[lane], s1));
    }
    RowEntryIs(g, e, residue); RowEntryIs(g, e, residue - |e|);
  }

  lemma LowWeightIs(g: Affine, lane: nat)
    requires lane < LowLen(g)
    ensures if |g.low| == 0 then LowWeight(g, lane) == One else lane < |g.low| && LowWeight(g, lane) == g.low[lane]
  { }

  /** A row within the prepared bound, on a point of at least one row block and fewer coordinates than a word has bits. */
  predicate CanPrepare(g: Affine) {
    && Times(LowLen(g), |g.digits|) <= MAX_PREPARED_STRIDE && |g.challenges| < USIZE_BITS
    && (Times(LowLen(g), |g.digits|) >= 0 && NextLog(Times(LowLen(g), |g.digits|)) <= |g.challenges|)
  }

  /** `PreparedDigits::new`: None when a row is too wide or the point too short or too long. */
  method Prepare(g: Affine) returns (res: Option<Prepared>)
    requires |g.digits| > 0
    ensures res.Some? <==> CanPrepare(g)
    ensures res.Some? ==> PreparedFor(res.value, g)
  {
    StridePositive(LowLen(g), |g.digits|);
    var stride := Times(LowLen(g), |g.digits|);
    if stride > MAX_PREPARED_STRIDE || |g.challenges| >= USIZE_BITS { return None; }
    NextLogCovers(stride);
    var bits := NextLog(stride);
    if bits > |g.challenges| { return None; }
    var equality := EvalsSerial(g.challenges[..bits], None);
    ScaledByOne(g.challenges[..bits]);
    var e := equality.value;
    var lanes := ChooseLanes(g.digits, e);
    hide *;
    var noCarry, carry := BuildTables(g, lanes, e);
    var high := WithLowBits(g.challenges[bits..], LOW_BITS_CAP);
    res := Some(Prepared(stride, bits, noCarry, carry, high));
    PreparedIntro(res.value, g, e);
  }

  lemma PreparedIntro(pr: Prepared, g: Affine, e: seq<F>)
    requires pr.bits <= |g.challenges| && pr.stride == Times(LowLen(g), |g.digits|) && 0 < pr.stride <= Pow2(pr.bits)
    requires e == EqTable(g.challenges[..pr.bits]) && |pr.noCarry| == |pr.carry| == |e|
    requires forall r {:trigger pr.noCarry[r]} :: 0 <= r < |e| ==> pr.noCarry[r] == RowEntry(g, e, r)
    requires forall r {:trigger pr.carry[r]} :: 0 <= r < |e| ==> pr.carry[r] == RowEntry(g, e, r - |e|)
    requires WindowFor(pr.high, g.challenges[pr.bits..])
    ensures PreparedFor(pr, g)
  {
    hide RowEntry, EqTable, WindowFor, Times, Pow2, LowLen;
  }

  method BuildTables(g: Affine, lanes: Lanes, e: seq<F>) returns (noCarry: seq<F>, carry: seq<F>)
    requires |g.digits| > 0 && LanesFor(lanes, g.digits, e) && Times(LowLen(g), |g.digits|) <= |e|
    ensures |noCarry| == |carry| == |e|
    ensures forall r {:trigger noCarry[r]} :: 0 <= r < |e| ==> noCarry[r] == RowEntry(g, e, r)
    ensures forall r {:trigger carry[r]} :: 0 <= r < |e| ==> carry[r] == RowEntry(g, e, r - |e|)
  {
    hide *;
    noCarry, carry := [], [];
    for residue := 0 to |e|
      invariant |noCarry| == |carry| == residue
      invariant forall r {:trigger noCarry[r]} :: 0 <= r < residue ==> noCarry[r] == RowEntry(g, e, r)
      invariant forall r {:trigger carry[r]} :: 0 <= r < residue ==> carry[r] == RowEntry(g, e, r - |e|)
    {
      var n, c := ResidueEntries(g, lanes, e, residue);
      noCarry, carry := noCarry + [n], carry + [c];
    }
  }

  lemma StridePositive(q: nat, n: nat)
    requires q >= 1 && n >= 1
    ensures Times(q, n) >= 1
  {
    MulMono(1, q, n);
  }

  // ----- walking the rows

  /** Row `row` of a base starts at base + row * stride. */
  lemma RowAddress(g: Affine, s: Seg, base: nat, row: nat)
    requires Adjacent(g) && SegOk(g, s)
    ensures base + Times(g.outerStride, Times(LowLen(g), row)) == base + Times(row, Times(LowLen(g), |g.digits|))
  {
    var q, n := LowLen(g), |g.digits|;
    assert n * (q * row) == row * (q * n);
  }

  /** The cached high values belong to block `block` and the next one. */
  ghost predicate Cached(r: seq<F>, block: nat, left: F, right: F) { left == EqInt(r, block) && right == EqInt(r, block + 1) }

  /** A stride within one block width moves to the same block or the next. */
  lemma NextBlock(a: nat, stride: nat, width: nat)
    requires 0 < stride <= width
    ensures a / width <= (a + stride) / width <= a / width + 1
  {
    DivModIs(a, width);
    NextBlockBy(a, stride, width, a / width, a % width);
  }

  lemma NextBlockBy(a: nat, stride: nat, width: nat, q: nat, r: nat)
    requires 0 < stride <= width && r < width && a == Times(q, width) + r
    ensures (a + stride) / width == if r + stride < width then q else q + 1
  {
    TimesStep(q, width);
    if r + stride < width { TimesDivMod(a + stride, width, q, r + stride); } else { TimesDivMod(a + stride, width, q + 1, r + stride - width); }
  }

  /** One visited row. */
  lemma VisitedRow(pr: Prepared, g: Affine, s: Seg, a: nat, block: nat, residue: nat, left: F, right: F)
    requires PreparedFor(pr, g) && Adjacent(g) && SegOk(g, s) && s.lowStart == 0 && s.lowEnd == LowLen(g)
    requires residue < Pow2(pr.bits) && a == Times(block, Pow2(pr.bits)) + residue
    requires pr.bits <= |g.challenges| && Cached(g.challenges[pr.bits..], block, left, right)
    ensures residue < |pr.noCarry| == |pr.carry|
    ensures Add(Mul(pr.noCarry[residue], left), Mul(pr.carry[residue], right)) == RowSum(g, s, a)
  {
    hide *;
    PreparedParts(pr, g);
    PreparedEntries(pr, g, residue);
    RowByBlock(g, s, pr.bits, a, block, residue);
    CachedParts(g.challenges[pr.bits..], block, left, right);
    MulComm(pr.noCarry[residue], left); MulComm(pr.carry[residue], right);
  }

  lemma CachedParts(r: seq<F>, block: nat, left: F, right: F)
    requires Cached(r, block, left, right)
    ensures left == EqInt(r, block) && right == EqInt(r, block + 1)
  { }

  lemma CachedIntro(r: seq<F>, block: nat, left: F, right: F)
    requires left == EqInt(r, block) && right == EqInt(r, block + 1)
    ensures Cached(r, block, left, right)
  { }

  lemma QuotientBelow(a: nat, width: nat)
    requires width >= 1
    ensures 0 <= a / width <= a
  {
    DivModIs(a, width);
    MulMono(1, width, a / width);
  }

  /** A high equality value of the address's block or the next one. */
  method HighAt(pr: Prepared, g: Affine, address: nat, index: nat) returns (v: F)
    requires pr.bits <= |g.challenges| && WindowFor(pr.high, g.challenges[pr.bits..]) && address < USIZE_MAX
    requires index <= address / Pow2(pr.bits) + 1
    ensures v == EqInt(g.challenges[pr.bits..], index)
  {
    hide *;
    QuotientBelow(address, Pow2(pr.bits));
    WindowEvalIsEq(pr.high, g.challenges[pr.bits..], index);
    EqIntIs(g.challenges[pr.bits..], index);
    v := Eval(pr.high, index);
  }

  /** What `accumulate` accepts: the row cap, rows inside the weights, and the last address inside the domain. */
  predicate BaseAccepted(g: Affine, s: Seg, base: nat, stride: nat) {
    && s.rows <= MAX_TERMS && s.firstHigh + s.rows <= |g.high|
    && (s.rows > 0 ==> base + Times(s.rows, stride) <= Pow2(|g.challenges|))
  }

  /** `accumulate` for one base: its own checks, then the walk. */
  method AccumulateBase(pr: Prepared, g: Affine, s: Seg, base: nat) returns (res: Result<F>)
    requires PreparedFor(pr, g) && Adjacent(g) && SegOk(g, s) && s.lowStart == 0 && s.lowEnd == LowLen(g) && |g.challenges| < USIZE_BITS
    ensures res.Ok? <==> BaseAccepted(g, s, base, pr.stride)
    ensures res.Ok? <==>
      && s.rows <= 0x1000_0000 && s.firstHigh + s.rows <= |g.high|
      && (s.rows > 0 ==> base + Times(s.rows, pr.stride) <= Pow2(|g.challenges|))
    ensures res.Ok? ==> res.value == SegSum(g, s, base)
  {
    hide SegSum, Times, Pow2, PreparedFor;
    if s.rows > MAX_TERMS || s.firstHigh + s.rows > |g.high| { return Err; }
    if s.rows == 0 {
      SegSumIs(g, s, base);
      SumNil(SegTerms(g, s, base));
      return Ok(Zero);
    }
    var maximum := base + Times(s.rows, pr.stride) - 1;
    if maximum >= Pow2(|g.challenges|) { return Err; }
    PointFits(|g.challenges|);
    var sum := Walk(pr, g, s, base);
    res := Ok(sum);
  }

  lemma PointFits(n: nat)
    requires n < USIZE_BITS
    ensures Pow2(n) <= USIZE_MAX
  {
    hide Pow2;
    Pow2Of64(); Pow2Mono(n, 64);
  }

  /** `walk`: at most one new high evaluation per row. */
  method Walk(pr: Prepared, g: Affine, s: Seg, base: nat) returns (sum: F)
    requires PreparedFor(pr, g) && Adjacent(g) && SegOk(g, s) && s.lowStart == 0 && s.lowEnd == LowLen(g) && s.rows > 0
    requires s.firstHigh + s.rows <= |g.high| && base + Times(s.rows, pr.stride) <= USIZE_MAX
    ensures sum == SegSum(g, s, base)
  {
    hide *;
    PreparedParts(pr, g);
    var width := Pow2(pr.bits);
    var point := g.challenges[pr.bits..];
    var address: nat := base;
    StridePositive(s.rows, pr.stride);
    DivModIs(address, width);
    var cached: nat := address / width;
    var left := HighAt(pr, g, base, cached);
    var right := HighAt(pr, g, base, cached + 1);
    CachedIntro(point, cached, left, right);
    ghost var terms := SegTerms(g, s, base);
    sum := Zero;
    SumNil(terms);
    TimesZero(pr.stride);
    AtInside(g.high);
    for row := 0 to s.rows
      invariant sum == Sum(terms, row) && Cached(point, cached, left, right)
      invariant row < s.rows ==> address == base + Times(row, pr.stride) && cached <= address / width <= cached + 1
    {
      TimesMono(row + 1, s.rows, pr.stride); TimesStep(row, pr.stride);
      DivModIs(address, width);
      var block := address / width;
      if block != cached {
        cached := block;
        CachedParts(point, block - 1, left, right);
        left := right;
        right := HighAt(pr, g, address, block + 1);
        CachedIntro(point, block, left, right);
      }
      var residue := address % width;
      VisitedRow(pr, g, s, address, block, residue, left, right);
      RowAddress(g, s, base, row);
      SegTermAt(g, s, base, row);
      SumSnoc(terms, row + 1);
      var kernel := Add(Mul(pr.noCarry[residue], left), Mul(pr.carry[residue], right));
      sum := Add(sum, Mul(g.high[s.firstHigh + row], kernel));
      if row + 1 < s.rows {
        NextBlock(address, pr.stride, width);
        address := address + pr.stride;
      }
    }
    SegSumIs(g, s, base);
  }

  /** All bases, each scaled by its own scale. */
  method AccumulateBases(pr: Prepared, g: Affine, s: Seg) returns (res: Result<F>)
    requires PreparedFor(pr, g) && Adjacent(g) && SegOk(g, s) && s.lowStart == 0 && s.lowEnd == LowLen(g) && |g.challenges| < USIZE_BITS
    requires Delta(g, s) == 0 && (|g.scales| == 0 || |g.scales| == |g.bases|)
    ensures res.Ok? <==> forall b :: 0 <= b < |g.bases| ==> BaseAccepted(g, s, g.bases[b], pr.stride)
    ensures res.Ok? ==> res.value == SegTotal(g, s)
  {
    hide *;
    var out := Zero;
    SumNil(SegBases(g, s));
    for b := 0 to |g.bases|
      invariant out == Sum(SegBases(g, s), b) && forall i :: 0 <= i < b ==> BaseAccepted(g, s, g.bases[i], pr.stride)
    {
      var one := AccumulateBase(pr, g, s, g.bases[b]);
      if one.Err? { return Err; }
      var rowsSum := one.value;
      SumSnoc(SegBases(g, s), b + 1);
      ScaledBase(g, s, b);
      MulOne(rowsSum);
      if b < |g.scales| {
        MulComm(g.scales[b], rowsSum);
        out := Add(out, Mul(rowsSum, g.scales[b]));
      } else {
        out := Add(out, rowsSum);
      }
    }
    SegTotalIs(g, s);
    res := Ok(out);
  }

  lemma ScaledBase(g: Affine, s: Seg, b: nat)
    requires SegOk(g, s) && b < |g.bases| && Delta(g, s) == 0 && (|g.scales| == 0 || |g.scales| == |g.bases|)
    ensures SegBases(g, s)(b) == Mul(if b < |g.scales| then g.scales[b] else One, SegSum(g, s, g.bases[b]))
  {
    hide SegSum, Mul, Delta;
  }

  lemma SegTotalIs(g: Affine, s: Seg)
    requires SegOk(g, s)
    ensures SegTotal(g, s) == Sum(SegBases(g, s), |g.bases|)
  { }
}
