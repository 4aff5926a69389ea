/**
 The carry-bucketed high contraction.
 Models `bucketed_high_rows_plan` and `accumulate_high_rows_bucketed` of
 crates/akita-algebra/src/offset_eq.rs.
 */
module AffineBuckets {
  import opened Arith
  import opened Field
  import opened Sums
  import opened EqPoly
  import opened Buckets
  import opened OffsetWindow
  import opened AffineHigh

  const MAX_TERMS: nat := 0x1000_0000
  const FAST_HIGH_ROWS_MIN: nat := 8
  const PARALLEL_HIGH_ROWS_MIN: nat := 0x1000

  // ----- the plan

  /** The exponent of the smallest power of two that is at least n. */
  function NextLog(n: nat): nat { if n <= 1 then 0 else 1 + NextLog((n + 1) / 2) }

  lemma {:induction false} NextLogCovers(n: nat)
    ensures n <= Pow2(NextLog(n))
  {
    if n > 1 { NextLogCovers((n + 1) / 2); }
  }

  lemma {:induction false} NextLogIsLeast(n: nat)
    requires n > 1
    ensures NextLog(n) >= 1 && Pow2(NextLog(n) - 1) < n
  {
    if n > 2 { NextLogIsLeast((n + 1) / 2); }
  }

  /** `bucketed_high_rows_plan`: the window's bits when bucketing is charged less work than the direct loop. */
  function BucketPlan(totalRows: nat, carryCount: nat, pointBits: nat): Result<Option<nat>> {
    if totalRows < FAST_HIGH_ROWS_MIN || carryCount == 0 then Ok(None)
    else
      var bits := NextLog(carryCount);
      if bits > LOW_BITS_CAP || pointBits < bits || pointBits - bits > 2 * HIGH_BITS_CAP then Ok(None)
      else
        var window, split := Pow2(bits), pointBits - bits;
        var entries := Pow2(split / 2) + Pow2(split - split / 2);
        var work := totalRows * 2 + carryCount * window + window * 3 + entries;
        if work >= totalRows * carryCount then Ok(None)
        else if work > MAX_TERMS then Err
        else Ok(Some(bits))
  }

  /** The exponent of the least power of two holding n. */
  lemma NextLogIs(n: nat, bits: nat)
    requires 0 < n <= Pow2(bits) && (bits == 0 || Pow2(bits - 1) < n)
    ensures NextLog(n) == bits
  {
    hide Pow2, NextLog;
    Pow2Step(0);
    NextLogCovers(n);
    NextLogOfOne();
    if n > 1 { NextLogIsLeast(n); }
    var least := NextLog(n);
    if least < bits { Pow2Mono(least, bits - 1); } else if bits < least { Pow2Mono(bits, least - 1); }
  }

  lemma NextLogOfOne() ensures NextLog(1) == 0 { }

  /** The plan in numbers, for the exponent of the least window holding the carries. */
  lemma BucketPlanMeans(totalRows: nat, carryCount: nat, pointBits: nat, bits: nat)
    requires 0 < carryCount <= Pow2(bits) && (bits == 0 || Pow2(bits - 1) < carryCount)
    ensures BucketPlan(totalRows, 0, pointBits) == Ok(None)
    ensures BucketPlan(totalRows, carryCount, pointBits) ==
      if totalRows < 8 || bits > 16 || pointBits < bits || pointBits - bits > 32 then Ok(None)
      else
        var split := pointBits - bits;
        var work := totalRows * 2 + carryCount * Pow2(bits) + Pow2(bits) * 3 + (Pow2(split / 2) + Pow2(split - split / 2));
        if work >= totalRows * carryCount then Ok(None) else if work > 0x1000_0000 then Err else Ok(Some(bits))
  {
    hide *;
    NextLogIs(carryCount, bits);
    NoCarries(totalRows, pointBits);
    BucketPlanIs(totalRows, carryCount, pointBits, bits);
  }

  lemma NoCarries(totalRows: nat, pointBits: nat) ensures BucketPlan(totalRows, 0, pointBits) == Ok(None) { }

  lemma BucketPlanIs(totalRows: nat, carryCount: nat, pointBits: nat, bits: nat)
    requires carryCount > 0 && bits == NextLog(carryCount)
    ensures BucketPlan(totalRows, carryCount, pointBits) ==
      if totalRows < 8 || bits > 16 || pointBits < bits || pointBits - bits > 32 then Ok(None)
      else
        var split := pointBits - bits;
        var work := totalRows * 2 + carryCount * Pow2(bits) + Pow2(bits) * 3 + (Pow2(split / 2) + Pow2(split - split / 2));
        if work >= totalRows * carryCount then Ok(None) else if work > 0x1000_0000 then Err else Ok(Some(bits))
  {
    hide Pow2, NextLog;
  }

  lemma BucketPlanFits(totalRows: nat, carryCount: nat, pointBits: nat)
    ensures
      var plan := BucketPlan(totalRows, carryCount, pointBits);
      && (plan.Ok? && plan.value.Some? ==>
            plan.value.value <= pointBits && carryCount <= Pow2(plan.value.value) && pointBits - plan.value.value <= 32)
      && (Times(totalRows, carryCount) <= MAX_TERMS ==> plan.Ok?)
  {
    hide Pow2;
    NextLogCovers(carryCount);
  }

  // ----- bucket contents

  /** The value item t adds to the bucket of its window position: its weight times eq of its block, or of the next. */
  function BlockValue(h: High, adr: seq<AffineAddress>, b: nat, next: nat, t: int): F
    requires h.lowLen > 0 && h.rows > 0 && b <= |h.point|
  {
    Mul(ItemWeight(h, adr, t), EqInt(h.point[b..], ItemIndex(h, adr, t) / Pow2(b) + next))
  }

  function BlockValues(h: High, adr: seq<AffineAddress>, b: nat, next: nat): int -> F
    requires h.lowLen > 0 && h.rows > 0 && b <= |h.point|
  {
    (t: int) => BlockValue(h, adr, b, next, t)
  }

  /** Item t's position in the window. */
  function Positions(h: High, adr: seq<AffineAddress>, b: nat): int -> int
    requires h.lowLen > 0 && h.rows > 0
  {
    (t: int) => ItemIndex(h, adr, t) % Pow2(b)
  }

  /** Both buckets hold the contributions of the first n items. */
  ghost predicate BucketsHold(b0: seq<F>, b1: seq<F>, h: High, adr: seq<AffineAddress>, b: nat, n: nat)
    requires h.lowLen > 0 && h.rows > 0 && b <= |h.point|
  {
    && |b0| == |b1| == Pow2(b)
    && Holds(b0, BlockValues(h, adr, b, 0), Positions(h, adr, b), n)
    && Holds(b1, BlockValues(h, adr, b, 1), Positions(h, adr, b), n)
  }

  /** `eval_high`: zero past the domain. */
  function EvalHigh(split: SplitEqEvals, block: nat): F
    requires |split.eIn| > 0
  {
    var v := split.EvalAt(block);
    if v.Ok? then v.value else Zero
  }

  lemma EvalHighIsEq(point: seq<F>, split: SplitEqEvals, block: nat)
    requires split == SplitEqEvals(EqTable(point[|point| / 2..]), EqTable(point[..|point| / 2]))
    ensures |split.eIn| > 0 && EvalHigh(split, block) == EqInt(point, block)
  {
    hide EqAt, Pow2, EqTable;
    SplitTablesAreEq(point, block);
    if block >= Pow2(|point|) { EqOutside(point, block); }
  }

  /** Bucket positions and values of one address and row. */
  lemma ItemBucket(h: High, adr: seq<AffineAddress>, b: nat, i: nat, row: nat)
    requires h.lowLen > 0 && row < h.rows && i < |adr| && b <= |h.point|
    ensures
      var t, x := Join(i, h.rows, row), RowIndex(h, adr[i], row);
      && Positions(h, adr, b)(t) == x % Pow2(b) && 0 <= x % Pow2(b) < Pow2(b) && x / Pow2(b) >= 0
      && BlockValues(h, adr, b, 0)(t) == Mul(RowWeight(h, adr[i], row), EqInt(h.point[b..], x / Pow2(b)))
      && BlockValues(h, adr, b, 1)(t) == Mul(RowWeight(h, adr[i], row), EqInt(h.point[b..], x / Pow2(b) + 1))
  {
    hide RowIndex, RowWeight, EqInt, Mul, ItemIndex, ItemWeight, ItemTerms, Pow2;
    ItemAt(h, adr, i, row);
    LowHigh(RowIndex(h, adr[i], row), b);
  }

  /** The checked increment of a row's block never fails. */
  ghost predicate BlocksFit(h: High, adr: seq<AffineAddress>, b: nat) {
    h.lowLen > 0 && forall i, row: nat :: 0 <= i < |adr| && row < h.rows ==> RowIndex(h, adr[i], row) / Pow2(b) + 1 <= USIZE_MAX
  }

  lemma BlockFitsAt(h: High, adr: seq<AffineAddress>, b: nat, i: nat, row: nat)
    requires BlocksFit(h, adr, b) && i < |adr| && row < h.rows
    ensures h.lowLen > 0 && RowIndex(h, adr[i], row) / Pow2(b) + 1 <= USIZE_MAX
  {
    hide RowIndex, Pow2;
  }

  lemma BlocksFitPart(h: High, adr: seq<AffineAddress>, b: nat, start: nat, end: nat)
    requires BlocksFit(h, adr, b) && start <= end <= |adr|
    ensures BlocksFit(h, adr[start..end], b)
  {
    hide RowIndex, Pow2;
    var part := adr[start..end];
    forall i, row: nat | 0 <= i < |part| && row < h.rows ensures RowIndex(h, part[i], row) / Pow2(b) + 1 <= USIZE_MAX {
      assert part[i] == adr[start + i];
    }
  }

  /** One row added to both buckets. */
  method BucketRow(h: High, adr: seq<AffineAddress>, b: nat, split: SplitEqEvals, i: nat, row: nat, b0: seq<F>, b1: seq<F>)
    returns (c0: seq<F>, c1: seq<F>)
    requires HighOk(h) && row < h.rows && i < |adr| && b <= |h.point| && BlocksFit(h, adr, b)
    requires split == SplitEqEvals(EqTable(h.point[b..][|h.point[b..]| / 2..]), EqTable(h.point[b..][..|h.point[b..]| / 2]))
    requires Times(i, h.rows) >= 0 && BucketsHold(b0, b1, h, adr, b, Times(i, h.rows) + row)
    ensures BucketsHold(c0, c1, h, adr, b, Times(i, h.rows) + row + 1)
  {
    hide *;
    HighParts(h);
    BucketsParts(b0, b1, h, adr, b, Times(i, h.rows) + row);
    ghost var v0, v1, key := BlockValues(h, adr, b, 0), BlockValues(h, adr, b, 1), Positions(h, adr, b);
    var a, x := adr[i], RowIndex(h, adr[i], row);
    ItemBucket(h, adr, b, i, row);
    JoinIs(i, h.rows, row);
    RowWeightIs(h, a, row);
    var pos, block := x % Pow2(b), x / Pow2(b);
    assert block + 1 <= USIZE_MAX by { BlockFitsAt(h, adr, b, i, row); }
    EvalHighIsEq(h.point[b..], split, block); EvalHighIsEq(h.point[b..], split, block + 1);
    var eq0, eq1 := EvalHigh(split, block), EvalHigh(split, block + 1);
    ScaledWeight(h, a, row, eq0); ScaledWeight(h, a, row, eq1);
    var s0 := if a.scale.Some? then Mul(eq0, a.scale.value) else eq0;
    var s1 := if a.scale.Some? then Mul(eq1, a.scale.value) else eq1;
    HoldsNext(b0, v0, key, Times(i, h.rows) + row); HoldsNext(b1, v1, key, Times(i, h.rows) + row);
    c0 := b0[pos := Add(b0[pos], Mul(h.weights[h.firstHigh + row], s0))];
    c1 := b1[pos := Add(b1[pos], Mul(h.weights[h.firstHigh + row], s1))];
    BucketsIntro(c0, c1, h, adr, b, Times(i, h.rows) + row + 1);
  }

  lemma ScaledWeight(h: High, a: AffineAddress, row: nat, eq: F)
    requires h.firstHigh + row < |h.weights|
    ensures Mul(h.weights[h.firstHigh + row], if a.scale.Some? then Mul(eq, a.scale.value) else eq) == Mul(RowWeight(h, a, row), eq)
  {
    hide Mul;
    var w, sc := h.weights[h.firstHigh + row], ScaleOf(a);
    MulOne(eq); MulOne(w);
    MulComm(eq, sc); MulAssoc(w, sc, eq);
  }

  lemma BucketsParts(b0: seq<F>, b1: seq<F>, h: High, adr: seq<AffineAddress>, b: nat, n: nat)
    requires h.lowLen > 0 && h.rows > 0 && b <= |h.point| && BucketsHold(b0, b1, h, adr, b, n)
    ensures |b0| == |b1| == Pow2(b)
    ensures Holds(b0, BlockValues(h, adr, b, 0), Positions(h, adr, b), n)
    ensures Holds(b1, BlockValues(h, adr, b, 1), Positions(h, adr, b), n)
  { }

  lemma BucketsIntro(b0: seq<F>, b1: seq<F>, h: High, adr: seq<AffineAddress>, b: nat, n: nat)
    requires h.lowLen > 0 && h.rows > 0 && b <= |h.point|
    requires |b0| == |b1| == Pow2(b)
    requires Holds(b0, BlockValues(h, adr, b, 0), Positions(h, adr, b), n)
    requires Holds(b1, BlockValues(h, adr, b, 1), Positions(h, adr, b), n)
    ensures BucketsHold(b0, b1, h, adr, b, n)
  { }

  /** One task: private buckets over its addresses. */
  method BucketTask(h: High, adr: seq<AffineAddress>, b: nat, split: SplitEqEvals) returns (b0: seq<F>, b1: seq<F>)
    requires HighOk(h) && b <= |h.point| && BlocksFit(h, adr, b)
    requires split == SplitEqEvals(EqTable(h.point[b..][|h.point[b..]| / 2..]), EqTable(h.point[b..][..|h.point[b..]| / 2]))
    ensures h.rows > 0 && h.lowLen > 0 && Times(|adr|, h.rows) >= 0
    ensures BucketsHold(b0, b1, h, adr, b, Times(|adr|, h.rows))
  {
    hide *;
    HighParts(h);
    b0, b1 := seq(Pow2(b), _ => Zero), seq(Pow2(b), _ => Zero);
    HoldsNothing(b0, BlockValues(h, adr, b, 0), Positions(h, adr, b));
    HoldsNothing(b1, BlockValues(h, adr, b, 1), Positions(h, adr, b));
    BucketsIntro(b0, b1, h, adr, b, 0);
    TimesZero(h.rows);
    for i := 0 to |adr|
      invariant Times(i, h.rows) >= 0 && BucketsHold(b0, b1, h, adr, b, Times(i, h.rows))
    {
      for row := 0 to h.rows
        invariant BucketsHold(b0, b1, h, adr, b, Times(i, h.rows) + row)
      {
        b0, b1 := BucketRow(h, adr, b, split, i, row, b0, b1);
      }
      TimesStep(i, h.rows);
    }
  }

  /** Items of a later part of the list, seen from the whole list. */
  lemma ItemOfRest(h: High, adr: seq<AffineAddress>, start: nat, end: nat, t: nat)
    requires h.lowLen > 0 && h.rows > 0 && start <= end <= |adr| && t < Times(end - start, h.rows)
    ensures Times(start, h.rows) >= 0
    ensures ItemIndex(h, adr[start..end], t) == ItemIndex(h, adr, Times(start, h.rows) + t)
    ensures ItemWeight(h, adr[start..end], t) == ItemWeight(h, adr, Times(start, h.rows) + t)
  {
    hide *;
    DivModIs(t, h.rows);
    var i, row := t / h.rows, t % h.rows;
    TimesBound(t, h.rows, i, row, end - start);
    TimesNat(start, h.rows);
    JoinIs(i, h.rows, row);
    JoinShift(start, i, h.rows, row);
    ItemAt(h, adr[start..end], i, row);
    ItemAt(h, adr, start + i, row);
    assert adr[start..end][i] == adr[start + i];
  }

  lemma JoinShift(start: nat, i: nat, f: nat, lo: nat)
    ensures Times(start, f) >= 0 && Times(start, f) + Join(i, f, lo) == Join(start + i, f, lo)
  { }

  lemma TimesParts(start: nat, end: nat, f: nat)
    requires start <= end
    ensures Times(start, f) >= 0 && Times(end - start, f) >= 0 && Times(end, f) == Times(start, f) + Times(end - start, f)
  { }

  /** Adding a task's private buckets to the buckets of the addresses before it. */
  lemma MergeBuckets(h: High, adr: seq<AffineAddress>, b: nat, start: nat, end: nat, next: nat, c: int)
    requires h.lowLen > 0 && h.rows > 0 && b <= |h.point| && start <= end <= |adr|
    ensures Times(start, h.rows) >= 0 && Times(end - start, h.rows) >= 0 && Times(end, h.rows) >= 0
    ensures Bucket(BlockValues(h, adr, b, next), Positions(h, adr, b), c, Times(end, h.rows)) ==
      Add(Bucket(BlockValues(h, adr, b, next), Positions(h, adr, b), c, Times(start, h.rows)),
          Bucket(BlockValues(h, adr[start..end], b, next), Positions(h, adr[start..end], b), c, Times(end - start, h.rows)))
  {
    hide *;
    var v, key := BlockValues(h, adr, b, next), Positions(h, adr, b);
    var v', key' := BlockValues(h, adr[start..end], b, next), Positions(h, adr[start..end], b);
    var m, n := Times(start, h.rows), Times(end - start, h.rows);
    TimesParts(start, end, h.rows);
    forall t | 0 <= t < n ensures v'(t) == v(m + t) && key'(t) == key(m + t) {
      ItemOfRest(h, adr, start, end, t);
      BlockValueAt(h, adr, b, next, m + t); BlockValueAt(h, adr[start..end], b, next, t);
    }
    BucketSplit(v, key, v', key', c, m, n);
  }

  method AddSlots(x: seq<F>, y: seq<F>) returns (z: seq<F>)
    requires |x| == |y|
    ensures |z| == |x| && forall c :: 0 <= c < |x| ==> z[c] == Add(x[c], y[c])
  {
    hide *;
    z := [];
    for c := 0 to |x|
      invariant |z| == c && forall i :: 0 <= i < c ==> z[i] == Add(x[i], y[i])
    {
      z := z + [Add(x[c], y[c])];
    }
  }

  /** Buckets over the first `at` addresses and over the rest add to buckets over all. */
  lemma MergeHolds(h: High, adr: seq<AffineAddress>, b: nat, at: nat, next: nat, x: seq<F>, y: seq<F>, z: seq<F>)
    requires h.lowLen > 0 && h.rows > 0 && b <= |h.point| && at <= |adr|
    requires Times(at, h.rows) >= 0 && Times(|adr| - at, h.rows) >= 0 && |x| == |y| == |z|
    requires Holds(x, BlockValues(h, adr[..at], b, next), Positions(h, adr[..at], b), Times(at, h.rows))
    requires Holds(y, BlockValues(h, adr[at..], b, next), Positions(h, adr[at..], b), Times(|adr| - at, h.rows))
    requires forall c :: 0 <= c < |x| ==> z[c] == Add(x[c], y[c])
    ensures Times(|adr|, h.rows) >= 0
    ensures Holds(z, BlockValues(h, adr, b, next), Positions(h, adr, b), Times(|adr|, h.rows))
  {
    hide *;
    TimesNat(|adr|, h.rows);
    forall c | 0 <= c < |z| ensures z[c] == Bucket(BlockValues(h, adr, b, next), Positions(h, adr, b), c, Times(|adr|, h.rows)) {
      HoldsAt(x, BlockValues(h, adr[..at], b, next), Positions(h, adr[..at], b), Times(at, h.rows), c);
      HoldsAt(y, BlockValues(h, adr[at..], b, next), Positions(h, adr[at..], b), Times(|adr| - at, h.rows), c);
      MergeSlot(h, adr, b, at, next, c);
    }
    HoldsIntro(z, BlockValues(h, adr, b, next), Positions(h, adr, b), Times(|adr|, h.rows));
  }

  lemma MergeSlot(h: High, adr: seq<AffineAddress>, b: nat, at: nat, next: nat, c: int)
    requires h.lowLen > 0 && h.rows > 0 && b <= |h.point| && at <= |adr|
    ensures Times(at, h.rows) >= 0 && Times(|adr| - at, h.rows) >= 0 && Times(|adr|, h.rows) >= 0
    ensures Bucket(BlockValues(h, adr, b, next), Positions(h, adr, b), c, Times(|adr|, h.rows)) ==
      Add(Bucket(BlockValues(h, adr[..at], b, next), Positions(h, adr[..at], b), c, Times(at, h.rows)),
          Bucket(BlockValues(h, adr[at..], b, next), Positions(h, adr[at..], b), c, Times(|adr| - at, h.rows)))
  {
    hide *;
    assert adr[0..at] == adr[..at] && adr[at..|adr|] == adr[at..];
    MergeBuckets(h, adr, b, 0, at, next, c);
    TimesZero(h.rows);
    BucketNil(BlockValues(h, adr, b, next), Positions(h, adr, b), c);
    AddZero(Bucket(BlockValues(h, adr[..at], b, next), Positions(h, adr[..at], b), c, Times(at, h.rows)));
    MergeBuckets(h, adr, b, at, |adr|, next, c);
  }

  lemma BucketNil(v: int -> F, key: int -> int, c: int) ensures Bucket(v, key, c, 0) == Zero { SumNil(BucketTerms(v, key, c)); }

  /** A way to reduce consecutive parts of an address list: one task, or two reductions merged. */
  datatype Tasks = Single | Merge(at: nat, left: Tasks, right: Tasks)

  predicate TasksFor(tasks: Tasks, n: nat) {
    match tasks
    case Single => true
    case Merge(at, left, right) => at <= n && TasksFor(left, at) && TasksFor(right, n - at)
  }

  /** The reduction: any consecutive ranges, in any bracketing. */
  method BuildBuckets(h: High, adr: seq<AffineAddress>, b: nat, split: SplitEqEvals, tasks: Tasks) returns (b0: seq<F>, b1: seq<F>)
    requires HighOk(h) && b <= |h.point| && TasksFor(tasks, |adr|) && BlocksFit(h, adr, b)
    requires split == SplitEqEvals(EqTable(h.point[b..][|h.point[b..]| / 2..]), EqTable(h.point[b..][..|h.point[b..]| / 2]))
    ensures h.rows > 0 && h.lowLen > 0 && Times(|adr|, h.rows) >= 0
    ensures BucketsHold(b0, b1, h, adr, b, Times(|adr|, h.rows))
    decreases tasks
  {
    if tasks.Single? {
      b0, b1 := BucketTask(h, adr, b, split);
      return;
    }
    var at := tasks.at;
    assert adr[0..at] == adr[..at] && adr[at..|adr|] == adr[at..];
    hide *;
    BlocksFitPart(h, adr, b, 0, at); BlocksFitPart(h, adr, b, at, |adr|);
    var l0, l1 := BuildBuckets(h, adr[..at], b, split, tasks.left);
    var r0, r1 := BuildBuckets(h, adr[at..], b, split, tasks.right);
    BucketsParts(l0, l1, h, adr[..at], b, Times(at, h.rows));
    BucketsParts(r0, r1, h, adr[at..], b, Times(|adr| - at, h.rows));
    b0 := AddSlots(l0, r0);
    b1 := AddSlots(l1, r1);
    MergeHolds(h, adr, b, at, 0, l0, r0, b0);
    MergeHolds(h, adr, b, at, 1, l1, r1, b1);
    BucketsIntro(b0, b1, h, adr, b, Times(|adr|, h.rows));
  }

  // ----- combining the buckets with the summaries

  /** The window entries seen from carry c: below the block's end, and wrapped past it; zero elsewhere. */
  function Inside(e: seq<F>, c: nat): int -> F { (p: int) => At(e, p + c) }

  function Wrapped(e: seq<F>, c: nat): int -> F { (p: int) => At(e, p + c - |e|) }

  function Dots(x: seq<F>, w: int -> F): int -> F { (p: int) => Mul(At(x, p), w(p)) }

  lemma DotAt(x: seq<F>, w: int -> F, p: int) ensures Dots(x, w)(p) == Mul(At(x, p), w(p)) { }

  /** `add_scaled_batch` on two slices. */
  method DotSlices(x: seq<F>, y: seq<F>) returns (acc: F)
    requires |x| == |y|
    ensures acc == Sum(Dots(x, p => At(y, p)), |x|)
  {
    hide *;
    ghost var terms := Dots(x, p => At(y, p));
    SumNil(terms);
    acc := Zero;
    for p := 0 to |x|
      invariant acc == Sum(terms, p)
    {
      SumSnoc(terms, p + 1);
      DotAt(x, p => At(y, p), p); AtInside(x); AtInside(y);
      acc := Add(acc, Mul(x[p], y[p]));
    }
  }

  /** One carry's weight: both buckets against the window entries it reaches. */
  method Phi(b0: seq<F>, b1: seq<F>, e: seq<F>, c: nat) returns (phi: F)
    requires |b0| == |b1| == |e| && c < |e|
    ensures phi == Add(Sum(Dots(b0, Inside(e, c)), |e|), Sum(Dots(b1, Wrapped(e, c)), |e|))
  {
    hide *;
    var split := |e| - c;
    var first := DotSlices(b0[..split], e[c..]);
    var second := DotSlices(b1[split..], e[..c]);
    phi := Add(Add(Zero, first), second);
    AddZero(first);
    FirstSlice(b0, e, c);
    SecondSlice(b1, e, c);
  }

  lemma InsideAt(e: seq<F>, c: nat, p: int) ensures Inside(e, c)(p) == At(e, p + c) && Wrapped(e, c)(p) == At(e, p + c - |e|) { }

  lemma AtOutside(s: seq<F>, i: int)
    requires i < 0 || i >= |s|
    ensures At(s, i) == Zero
  { }

  lemma FirstSlice(x: seq<F>, e: seq<F>, c: nat)
    requires |x| == |e| && c < |e|
    ensures Sum(Dots(x[..|e| - c], p => At(e[c..], p)), |e| - c) == Sum(Dots(x, Inside(e, c)), |e|)
  {
    hide *;
    var split, all := |e| - c, Dots(x, Inside(e, c));
    forall p | 0 <= p < c ensures From(all, split)(p) == Zero { FromAt(all, split, p); PastSlice(x, e, c, split + p); }
    SumFrom(all, split, c);
    SumZero(From(all, split), c);
    AddZero(Sum(all, split));
    var w := (p: int) => At(e[c..], p);
    var front := Dots(x[..split], w);
    forall p | 0 <= p < split ensures front(p) == all(p) { FrontAt(x, e, c, w, p); }
    SumExt(front, all, split);
    assert front == Dots(x[..|e| - c], p => At(e[c..], p));
  }

  lemma PastSlice(x: seq<F>, e: seq<F>, c: nat, p: int)
    requires c < |e| && p >= |e| - c
    ensures Dots(x, Inside(e, c))(p) == Zero
  {
    hide *;
    DotAt(x, Inside(e, c), p); InsideAt(e, c, p); AtOutside(e, p + c);
    MulZero(At(x, p));
  }

  lemma FrontAt(x: seq<F>, e: seq<F>, c: nat, w: int -> F, p: int)
    requires |x| == |e| && c < |e| && 0 <= p < |e| - c && w(p) == At(e[c..], p)
    ensures Dots(x[..|e| - c], w)(p) == Dots(x, Inside(e, c))(p)
  {
    hide *;
    DotAt(x[..|e| - c], w, p); DotAt(x, Inside(e, c), p); InsideAt(e, c, p);
    HeadAt(x, |e| - c, p); TailAt(e, c, p);
  }

  lemma HeadAt(s: seq<F>, to: nat, p: nat)
    requires p < to <= |s|
    ensures At(s[..to], p) == At(s, p)
  { }

  lemma TailAt(s: seq<F>, from: nat, p: nat)
    requires from + p < |s|
    ensures At(s[from..], p) == At(s, p + from)
  { }

  lemma SecondSlice(x: seq<F>, e: seq<F>, c: nat)
    requires |x| == |e| && c < |e|
    ensures Sum(Dots(x[|e| - c..], p => At(e[..c], p)), c) == Sum(Dots(x, Wrapped(e, c)), |e|)
  {
    hide *;
    var split, all := |e| - c, Dots(x, Wrapped(e, c));
    var tail := From(all, split);
    forall p | 0 <= p < split ensures all(p) == Zero {
      DotAt(x, Wrapped(e, c), p); InsideAt(e, c, p); AtOutside(e, p + c - |e|);
      MulZero(At(x, p));
    }
    SumFrom(all, split, c);
    SumZero(all, split);
    AddZero(Sum(tail, c));
    var w := (p: int) => At(e[..c], p);
    var back := Dots(x[split..], w);
    forall p | 0 <= p < c ensures back(p) == tail(p) {
      FromAt(all, split, p);
      DotAt(x[split..], w, p); DotAt(x, Wrapped(e, c), split + p); InsideAt(e, c, split + p);
      TailAt(x, split, p); HeadAt(e, c, p);
    }
    SumExt(back, tail, c);
    assert back == Dots(x[|e| - c..], p => At(e[..c], p));
  }

  /** eq of the whole high point at index x + c, from the window position and block of x. */
  lemma EqWindow(point: seq<F>, b: nat, x: nat, c: nat)
    requires b <= |point| && c < Pow2(b)
    ensures x % Pow2(b) >= 0 && x / Pow2(b) >= 0
    ensures
      var e, p, block := EqTable(point[..b]), x % Pow2(b), x / Pow2(b);
      EqInt(point, x + c) == Add(Mul(EqInt(point[b..], block), Inside(e, c)(p)), Mul(EqInt(point[b..], block + 1), Wrapped(e, c)(p)))
  {
    hide *;
    DivModIs(x, Pow2(b));
    EqWindowAt(point, b, x, c, x / Pow2(b), x % Pow2(b));
  }

  lemma EqWindowAt(point: seq<F>, b: nat, x: nat, c: nat, block: nat, p: nat)
    requires b <= |point| && c < Pow2(b) && p < Pow2(b) && x == Times(block, Pow2(b)) + p
    ensures
      var e := EqTable(point[..b]);
      EqInt(point, x + c) == Add(Mul(EqInt(point[b..], block), Inside(e, c)(p)), Mul(EqInt(point[b..], block + 1), Wrapped(e, c)(p)))
  {
    hide *;
    var q, e := Pow2(b), EqTable(point[..b]);
    WindowEntries(point[..b], c, p);
    EqIntIs(point, x + c); EqIntIs(point[b..], block); EqIntIs(point[b..], block + 1);
    var hi0, hi1 := EqAt(point[b..], block), EqAt(point[b..], block + 1);
    MulZero(hi0); MulZero(hi1);
    if p + c < q {
      EqSplit(point, b, x + c, block, p + c);
      MulComm(hi0, EqAt(point[..b], p + c));
      AddZero(Mul(hi0, EqAt(point[..b], p + c)));
    } else {
      TimesStep(block, q);
      EqSplit(point, b, x + c, block + 1, p + c - q);
      MulComm(hi1, EqAt(point[..b], p + c - q));
      AddZero(Mul(hi1, EqAt(point[..b], p + c - q)));
    }
  }

  lemma WindowEntries(low: seq<F>, c: nat, p: nat)
    requires c < Pow2(|low|) && p < Pow2(|low|)
    ensures
      var e := EqTable(low);
      && Inside(e, c)(p) == (if p + c < Pow2(|low|) then EqAt(low, p + c) else Zero)
      && Wrapped(e, c)(p) == (if p + c < Pow2(|low|) then Zero else EqAt(low, p + c - Pow2(|low|)))
  {
    hide EqAt, Pow2, EqTable;
    var e := EqTable(low);
    EqEntries(low);
    InsideAt(e, c, p);
    if p + c < Pow2(|low|) { assert At(e, p + c) == e[p + c]; } else { assert At(e, p + c - |e|) == e[p + c - |e|]; }
  }

  function CarryItems(h: High, adr: seq<AffineAddress>, c: int): int -> F
    requires h.lowLen > 0 && h.rows > 0
  {
    (t: int) => Mul(ItemWeight(h, adr, t), EqInt(h.point, ItemIndex(h, adr, t) + c))
  }

  lemma CarryItemAt(h: High, adr: seq<AffineAddress>, c: int, t: int)
    requires h.lowLen > 0 && h.rows > 0
    ensures CarryItems(h, adr, c)(t) == Mul(ItemWeight(h, adr, t), EqInt(h.point, ItemIndex(h, adr, t) + c))
  { }

  lemma ItemPositive(h: High, adr: seq<AffineAddress>, t: int)
    requires h.lowLen > 0 && h.rows > 0
    ensures ItemIndex(h, adr, t) >= 0
  { }

  lemma BlockValueAt(h: High, adr: seq<AffineAddress>, b: nat, next: nat, t: int)
    requires h.lowLen > 0 && h.rows > 0 && b <= |h.point|
    ensures BlockValues(h, adr, b, next)(t) ==
      Mul(ItemWeight(h, adr, t), EqInt(h.point[b..], ItemIndex(h, adr, t) / Pow2(b) + next))
    ensures Positions(h, adr, b)(t) == ItemIndex(h, adr, t) % Pow2(b)
  { }

  /** Phi of carry c is the sum over items of weight times eq at the item's index plus c. */
  lemma PhiIsItems(h: High, adr: seq<AffineAddress>, b: nat, b0: seq<F>, b1: seq<F>, c: nat)
    requires h.lowLen > 0 && h.rows > 0 && b <= |h.point| && c < Pow2(b)
    requires Times(|adr|, h.rows) >= 0 && BucketsHold(b0, b1, h, adr, b, Times(|adr|, h.rows))
    ensures
      var e, n := EqTable(h.point[..b]), Times(|adr|, h.rows);
      Add(Sum(Dots(b0, Inside(e, c)), Pow2(b)), Sum(Dots(b1, Wrapped(e, c)), Pow2(b))) == Sum(CarryItems(h, adr, c), n)
  {
    hide *;
    var e, n := EqTable(h.point[..b]), Times(|adr|, h.rows);
    var v0, v1, key := BlockValues(h, adr, b, 0), BlockValues(h, adr, b, 1), Positions(h, adr, b);
    BucketsParts(b0, b1, h, adr, b, n);
    var f0 := (t: int) => Mul(v0(t), Inside(e, c)(key(t)));
    var f1 := (t: int) => Mul(v1(t), Wrapped(e, c)(key(t)));
    PositionsInside(h, adr, b);
    DotOfBuckets(b0, v0, key, Inside(e, c), f0, n);
    DotOfBuckets(b1, v1, key, Wrapped(e, c), f1, n);
    forall t | 0 <= t < n ensures CarryItems(h, adr, c)(t) == Add(f0(t), f1(t)) { PhiTerm(h, adr, b, c, t); }
    SumAdd(f0, f1, CarryItems(h, adr, c), n);
  }

  lemma PositionsInside(h: High, adr: seq<AffineAddress>, b: nat)
    requires h.lowLen > 0 && h.rows > 0
    ensures forall t :: 0 <= Positions(h, adr, b)(t) < Pow2(b)
  { }

  lemma DotOfBuckets(s: seq<F>, v: int -> F, key: int -> int, w: int -> F, direct: int -> F, n: nat)
    requires Holds(s, v, key, n)
    requires forall t :: 0 <= t < n ==> 0 <= key(t) < |s| && direct(t) == Mul(v(t), w(key(t)))
    ensures Sum(Dots(s, w), |s|) == Sum(direct, n)
  {
    hide Sum, Bucket, Mul;
    BucketDot(v, key, w, Dots(s, w), direct, n, |s|);
  }

  lemma PhiTerm(h: High, adr: seq<AffineAddress>, b: nat, c: nat, t: int)
    requires h.lowLen > 0 && h.rows > 0 && b <= |h.point| && c < Pow2(b)
    ensures
      var e, key := EqTable(h.point[..b]), Positions(h, adr, b);
      CarryItems(h, adr, c)(t) ==
        Add(Mul(BlockValues(h, adr, b, 0)(t), Inside(e, c)(key(t))), Mul(BlockValues(h, adr, b, 1)(t), Wrapped(e, c)(key(t))))
  {
    hide *;
    var e, x, w := EqTable(h.point[..b]), ItemIndex(h, adr, t), ItemWeight(h, adr, t);
    ItemPositive(h, adr, t);
    CarryItemAt(h, adr, c, t); BlockValueAt(h, adr, b, 0, t); BlockValueAt(h, adr, b, 1, t);
    EqWindow(h.point, b, x, c);
    var hi0, hi1, p := EqInt(h.point[b..], x / Pow2(b)), EqInt(h.point[b..], x / Pow2(b) + 1), x % Pow2(b);
    Distrib(w, Mul(hi0, Inside(e, c)(p)), Mul(hi1, Wrapped(e, c)(p)));
    MulAssoc(w, hi0, Inside(e, c)(p)); MulAssoc(w, hi1, Wrapped(e, c)(p));
  }

  /** Summing the carries' weights times summaries is the contraction's total. */
  lemma PhiTotal(h: High, adr: seq<AffineAddress>, phis: int -> F)
    requires h.lowLen > 0 && h.rows > 0 && Times(|adr|, h.rows) >= 0
    requires forall c :: 0 <= c < |h.summaries| ==> phis(c) == Mul(Sum(CarryItems(h, adr, c), Times(|adr|, h.rows)), h.summaries[c])
    ensures Sum(phis, |h.summaries|) == HighTotal(h, adr)
  {
    hide *;
    var n := Times(|adr|, h.rows);
    var f := (c: int, t: int) => Mul(At(h.summaries, c), CarryItems(h, adr, c)(t));
    var items := ItemTerms(h, adr);
    forall c | 0 <= c < |h.summaries| ensures phis(c) == Sum(t => f(c, t), n) {
      AtInside(h.summaries);
      SumScale(h.summaries[c], CarryItems(h, adr, c), t => f(c, t), n);
      MulComm(h.summaries[c], Sum(CarryItems(h, adr, c), n));
    }
    forall t | 0 <= t < n ensures items(t) == Sum(c => f(c, t), |h.summaries|) { ItemByCarry(h, adr, t, c => f(c, t)); }
    SumSwap(f, phis, items, |h.summaries|, n);
    HighTotalIs(h, adr);
  }

  lemma ItemByCarry(h: High, adr: seq<AffineAddress>, t: nat, column: int -> F)
    requires h.lowLen > 0 && h.rows > 0
    requires forall c :: 0 <= c < |h.summaries| ==> column(c) == Mul(At(h.summaries, c), CarryItems(h, adr, c)(t))
    ensures ItemTerms(h, adr)(t) == Sum(column, |h.summaries|)
  {
    hide *;
    var w, x := ItemWeight(h, adr, t), ItemIndex(h, adr, t);
    var terms := CarryTerms(h, x);
    forall c | 0 <= c < |h.summaries| ensures column(c) == Mul(w, terms(c)) {
      CarryItemAt(h, adr, c, t); CarryTermAt(h, x, c);
      var m, q := At(h.summaries, c), EqInt(h.point, x + c);
      MulAssoc(m, w, q); MulComm(m, w); MulAssoc(w, m, q);
    }
    SumScale(w, terms, column, |h.summaries|);
    CarrySumIs(h, x);
    ItemTermIs(h, adr, t);
  }

  lemma ItemTermIs(h: High, adr: seq<AffineAddress>, t: int)
    requires h.lowLen > 0 && h.rows > 0
    ensures ItemTerms(h, adr)(t) == Mul(ItemWeight(h, adr, t), CarrySum(h, ItemIndex(h, adr, t)))
  { }

  /**
   `accumulate_high_rows_bucketed`: declines, or adds exactly what the direct contraction adds, for any
   consecutive tasks reduced in any bracketing.
   */
  method AccumulateBucketed(h: High, adr: seq<AffineAddress>, tasks: Tasks, out0: F) returns (res: Result<Option<F>>)
    requires HighOk(h) && TasksFor(tasks, |adr|)
    requires forall b: nat :: b <= |h.point| <= b + 32 ==> BlocksFit(h, adr, b)
    ensures Times(|adr|, h.rows) >= 0
    ensures
      var plan := BucketPlan(Times(|adr|, h.rows), |h.summaries|, |h.point|);
      (res.Ok? <==> plan.Ok?) && (res.Ok? ==> (res.value.Some? <==> plan.value.Some?))
    ensures res.Ok? && res.value.Some? ==> res.value.value == Add(out0, HighTotal(h, adr))
    ensures Times(Times(|adr|, h.rows), |h.summaries|) <= MAX_TERMS ==> res.Ok?
  {
    HighParts(h);
    TimesNat(|adr|, h.rows);
    var plan := BucketPlan(Times(|adr|, h.rows), |h.summaries|, |h.point|);
    BucketPlanFits(Times(|adr|, h.rows), |h.summaries|, |h.point|);
    if plan.Err? { return Err; }
    if plan.value.None? { return Ok(None); }
    var b := plan.value.value;
    var window := EvalsSerial(h.point[..b], None);
    var split := SplitTables(h.point[b..]);
    hide *;
    ScaledByOne(h.point[..b]);
    var e := window.value;
    var b0, b1 := BuildBuckets(h, adr, b, split.value, tasks);
    BucketsParts(b0, b1, h, adr, b, Times(|adr|, h.rows));
    ghost var phis := (c: int) => Mul(Sum(CarryItems(h, adr, c), Times(|adr|, h.rows)), At(h.summaries, c));
    var out := out0;
    SumNil(phis); AddZero(out0);
    AtInside(h.summaries);
    for c := 0 to |h.summaries|
      invariant out == Add(out0, Sum(phis, c))
    {
      var phi := Phi(b0, b1, e, c);
      PhiIsItems(h, adr, b, b0, b1, c);
      SumSnoc(phis, c + 1);
      AddAssoc(out0, Sum(phis, c), phis(c));
      out := Add(out, Mul(phi, h.summaries[c]));
    }
    PhiTotal(h, adr, phis);
    res := Ok(Some(out));
  }
}
