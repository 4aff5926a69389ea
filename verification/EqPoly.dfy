/**
 The equality polynomial and its evaluation tables.
 Models crates/akita-algebra/src/eq_poly.rs and `eq_eval_at_index` of offset_eq.rs.
 */
module EqPoly {
  import opened Arith
  import opened Field
  import opened Sums

  /** One coordinate of eq at a Boolean value: r for a set bit, 1 - r otherwise. */
  function Factor(r: F, bit: int): F { if bit == 1 then r else Sub(One, r) }

  /**
   eq(r, x) at the little-endian Boolean index x: the product over k of r[k] where bit k of x is set
   and 1 - r[k] where it is clear, and zero when x lies outside the domain of 2^|r| indices.
   */
  function EqAt(r: seq<F>, x: nat): F {
    if |r| == 0 then (if x == 0 then One else Zero)
    else Mul(Factor(r[0], x % 2), EqAt(r[1..], x / 2))
  }

  /** The reference table: entry x is c * eq(r, x). */
  function ScaledTable(c: F, r: seq<F>): (t: seq<F>)
    ensures |t| == Pow2(|r|)
  {
    seq(Pow2(|r|), (x: nat) => Mul(c, EqAt(r, x)))
  }

  function EqTable(r: seq<F>): (t: seq<F>)
    ensures |t| == Pow2(|r|)
  {
    seq(Pow2(|r|), (x: nat) => EqAt(r, x))
  }

  lemma EqEntries(r: seq<F>)
    ensures forall x {:trigger EqTable(r)[x]} :: 0 <= x < Pow2(|r|) ==> EqTable(r)[x] == EqAt(r, x)
  { }

  lemma EqNil(x: nat) ensures EqAt([], x) == if x == 0 then One else Zero { }

  lemma EqCons(r: seq<F>, x: nat)
    requires |r| > 0
    ensures EqAt(r, x) == Mul(Factor(r[0], x % 2), EqAt(r[1..], x / 2))
  { }

  /** The same, for the suffixes the builders work through. */
  lemma EqSuffix(r: seq<F>, k: nat, x: nat)
    requires k < |r|
    ensures EqAt(r[k..], x) == Mul(Factor(r[k], x % 2), EqAt(r[k + 1..], x / 2))
  {
    hide *;
    EqCons(r[k..], x);
    assert r[k..][1..] == r[k + 1..];
  }

  lemma {:induction false} EqOutside(r: seq<F>, x: nat)
    requires x >= Pow2(|r|)
    ensures EqAt(r, x) == Zero
  {
    if |r| > 0 {
      EqCons(r, x);
      EqOutside(r[1..], x / 2);
      MulZero(Factor(r[0], x % 2));
    }
  }

  lemma {:induction false} EqSplitBits(r: seq<F>, k: nat, x: nat)
    requires k <= |r|
    ensures EqAt(r, x) == Mul(EqAt(r[..k], Low(x, k)), EqAt(r[k..], High(x, k)))
  {
    hide EqAt;
    if k == 0 {
      assert r[0..] == r;
      EqNil(0);
      MulOne(EqAt(r, x));
    } else {
      EqCons(r, x);
      EqCons(r[..k], Low(x, k));
      EqSplitBits(r[1..], k - 1, x / 2);
      assert r[..k][1..] == r[1..][..k - 1];
      assert r[1..][k - 1..] == r[k..];
      MulAssoc(Factor(r[0], x % 2), EqAt(r[1..][..k - 1], Low(x / 2, k - 1)), EqAt(r[k..], High(x, k)));
    }
  }

  /** eq factors over the low k coordinates and the rest. */
  lemma EqSplit(r: seq<F>, k: nat, x: nat, hi: nat, lo: nat)
    requires k <= |r| && lo < Pow2(k) && x == Times(hi, Pow2(k)) + lo
    ensures EqAt(r, x) == Mul(EqAt(r[..k], lo), EqAt(r[k..], hi))
  {
    hide *;
    EqSplitBits(r, k, x);
    LowHigh(x, k);
    TimesDivMod(x, Pow2(k), hi, lo);
  }

  lemma TimesDivMod(x: nat, d: nat, hi: nat, lo: nat)
    requires lo < d && x == Times(hi, d) + lo
    ensures x / d == hi && x % d == lo
  {
    DivModUnique(x, d, hi, lo);
  }

  /** Entries of the two split tables multiply to the entry of the whole. */
  lemma TablesSplit(r: seq<F>, k: nat, x: nat, hi: nat, lo: nat)
    requires k <= |r| && lo < Pow2(k) && x == Times(hi, Pow2(k)) + lo
    ensures hi < Pow2(|r| - k) <==> x < Pow2(|r|)
    ensures hi < Pow2(|r| - k) ==> Mul(EqTable(r[..k])[lo], EqTable(r[k..])[hi]) == EqAt(r, x)
  {
    hide *;
    TimesPow2(|r| - k, k);
    TimesBound(x, Pow2(k), hi, lo, Pow2(|r| - k));
    EqSplit(r, k, x, hi, lo);
    EqEntries(r[..k]); EqEntries(r[k..]);
  }

  lemma EqSnoc(r: seq<F>, t: F, x: nat, b: nat)
    requires x < Pow2(|r|) && b < 2
    ensures EqAt(r + [t], b * Pow2(|r|) + x) == Mul(EqAt(r, x), Factor(t, b))
  {
    hide *;
    TimesIs(b, Pow2(|r|));
    EqSplit(r + [t], |r|, b * Pow2(|r|) + x, b, x);
    assert (r + [t])[..|r|] == r && (r + [t])[|r|..] == [t];
    EqCons([t], b); EqNil(0); assert [t][1..] == [] && b % 2 == b && b / 2 == 0;
    MulOne(Factor(t, b));
  }

  /** The two children of a parent value: what `split_lagrange_parent` returns. */
  function SplitParent(value: F, coordinate: F): (F, F) {
    var right := Mul(value, coordinate);
    (Sub(value, right), right)
  }

  lemma SplitParentIsFactor(value: F, coordinate: F)
    ensures SplitParent(value, coordinate) == (Mul(value, Factor(coordinate, 0)), Mul(value, Factor(coordinate, 1)))
  {
    DistribSub(value, One, coordinate); MulOne(value);
  }

  lemma FactorsSumToOne(r: F)
    ensures Add(Factor(r, 0), Factor(r, 1)) == One
  {
    AddSub(One, r);
  }

  // ----- eq at a pair of points, and at one index

  /** `mle` on points of equal length: the product of x_i y_i + (1 - x_i)(1 - y_i). */
  function Mle(x: seq<F>, y: seq<F>): F
    requires |x| == |y|
  {
    if |x| == 0 then One
    else Mul(Add(Mul(x[0], y[0]), Mul(Sub(One, x[0]), Sub(One, y[0]))), Mle(x[1..], y[1..]))
  }

  /** The n low bits of x as field elements. */
  function BitPoint(x: nat, n: nat): (p: seq<F>)
    ensures |p| == n
  {
    if n == 0 then [] else [if x % 2 == 1 then One else Zero] + BitPoint(x / 2, n - 1)
  }

  /** Table entries are the multilinear extension of equality at Boolean points. */
  lemma {:induction false} EqAtIsMle(r: seq<F>, x: nat)
    requires x < Pow2(|r|)
    ensures EqAt(r, x) == Mle(r, BitPoint(x, |r|))
  {
    if |r| > 0 {
      EqAtIsMle(r[1..], x / 2);
      var b := BitPoint(x, |r|)[0];
      MulOne(r[0]); MulZero(r[0]); MulOne(Sub(One, r[0])); MulZero(Sub(One, r[0]));
      AddNeg(One); SubZero(One); AddZero(r[0]); AddZero(Sub(One, r[0]));
      assert BitPoint(x, |r|)[1..] == BitPoint(x / 2, |r| - 1);
    }
  }

  /** The entries of the tables: the scale times the multilinear extension of equality at the index's bits. */
  lemma TableEntries(c: F, r: seq<F>, x: nat)
    requires x < Pow2(|r|)
    ensures |ScaledTable(c, r)| == |EqTable(r)| == Pow2(|r|)
    ensures ScaledTable(c, r)[x] == Mul(c, Mle(r, BitPoint(x, |r|))) && EqTable(r)[x] == Mle(r, BitPoint(x, |r|))
  {
    hide Pow2, EqAt, Mle, BitPoint;
    EqAtIsMle(r, x);
  }

  /** The accumulating fold of `eq_eval_at_index` from coordinate `bit` on. */
  function FoldBits(r: seq<F>, index: nat, bit: nat, acc: F): F
    requires bit <= |r|
    decreases |r| - bit
  {
    if bit == |r| then acc
    else
      var b := if bit < USIZE_BITS then (index / Pow2(bit)) % 2 else 0;
      FoldBits(r, index, bit + 1, Mul(acc, Factor(r[bit], b)))
  }

  function EqEvalAtIndex(r: seq<F>, index: nat): F {
    if |r| < USIZE_BITS && index >= Pow2(|r|) then Zero else FoldBits(r, index, 0, One)
  }

  lemma FoldStep(r: seq<F>, index: nat, bit: nat, acc: F)
    requires bit <= |r|
    ensures FoldBits(r, index, bit, acc) ==
      if bit == |r| then acc
      else FoldBits(r, index, bit + 1,
                    Mul(acc, Factor(r[bit], if bit < USIZE_BITS then (index / Pow2(bit)) % 2 else 0)))
  { }

  lemma {:induction false} FoldBitsIsEq(r: seq<F>, index: nat, bit: nat, acc: F)
    requires bit <= |r| && index <= USIZE_MAX && index < Pow2(|r|)
    ensures FoldBits(r, index, bit, acc) == Mul(acc, EqAt(r[bit..], index / Pow2(bit)))
    decreases |r| - bit
  {
    hide EqAt, FoldBits, Pow2, High, Factor;
    FoldStep(r, index, bit, acc);
    if bit == |r| {
      LowHigh(index, bit);
      DivModUnique(index, Pow2(bit), 0, index);
      assert r[bit..] == [];
      EqNil(0);
      MulOne(acc);
    } else {
      var rest := index / Pow2(bit);
      LowHigh(index, bit); LowHigh(index, bit + 1); HighStep(index, bit);
      if bit >= USIZE_BITS {
        Pow2Mono(USIZE_BITS, bit); Pow2Of64();
        DivModUnique(index, Pow2(bit), 0, index);
      }
      FoldBitsIsEq(r, index, bit + 1, Mul(acc, Factor(r[bit], rest % 2)));
      EqSuffix(r, bit, rest);
      MulAssoc(acc, Factor(r[bit], rest % 2), EqAt(r[bit + 1..], rest / 2));
    }
  }

  /** The scalar primitive is eq, on every `usize` index and every number of coordinates. */
  lemma EqEvalAtIndexIsEq(r: seq<F>, index: nat)
    requires index <= USIZE_MAX
    ensures EqEvalAtIndex(r, index) == EqAt(r, index)
  {
    hide EqAt, FoldBits, Pow2;
    if |r| < USIZE_BITS && index >= Pow2(|r|) {
      EqOutside(r, index);
    } else {
      Pow2Step(0);
      if |r| >= USIZE_BITS { Pow2Mono(USIZE_BITS, |r|); Pow2Of64(); }
      FoldBitsIsEq(r, index, 0, One);
      assert r[0..] == r;
      MulOne(EqAt(r, index));
    }
  }

  // ----- table builders

  /**
   One in-place layer of the serial recurrence: each parent in the first `len` slots of the region
   starting at `off` is replaced by its two children, from the last parent to the first.
   */
  method ExpandLayer(evals: array<F>, off: nat, len: nat, coordinate: F, map_: F -> F)
    requires off + 2 * len <= evals.Length
    modifies evals
    ensures forall i {:trigger evals[i]} :: off <= i < off + 2 * len ==>
      evals[i] == map_(Mul(old(evals[off + (i - off) / 2]), Factor(coordinate, (i - off) % 2)))
    ensures forall i {:trigger evals[i]} :: 0 <= i < evals.Length && !(off <= i < off + 2 * len) ==> evals[i] == old(evals[i])
  {
    hide *;
    ghost var start: seq<F> := evals[..];
    var parent := len;
    ExpandedNothing(start, off, len, coordinate, map_);
    while parent > 0
      invariant 0 <= parent <= len && |evals[..]| == |start| && Expanded(evals[..], start, off, parent, len, coordinate, map_)
    {
      parent := parent - 1;
      ghost var before: seq<F> := evals[..];
      ExpandedParent(before, start, off, parent, len, coordinate, map_);
      var (left, right) := SplitParent(evals[off + parent], coordinate);
      evals[off + 2 * parent] := map_(left);
      evals[off + 2 * parent + 1] := map_(right);
      assert evals[..] == before[off + 2 * parent := map_(left)][off + 2 * parent + 1 := map_(right)];
    }
    ExpandedAll(evals[..], start, off, len, coordinate, map_);
    ghost var after: seq<F> := evals[..];
    assert forall i {:trigger evals[i]} :: 0 <= i < evals.Length ==> evals[i] == after[i];
  }

  /** The children of parents from `parent` on are written; slots of earlier parents and outside the region are untouched. */
  ghost predicate Expanded(s: seq<F>, start: seq<F>, off: nat, parent: nat, len: nat, coordinate: F, map_: F -> F)
    requires off + 2 * len <= |s| == |start| && parent <= len
  {
    && (forall i {:trigger s[i]} :: 0 <= i < |s| && !(off + parent <= i < off + 2 * len) ==> s[i] == start[i])
    && (forall p :: parent <= p < len ==> Children(s, start, off, p, coordinate, map_))
  }

  /** Slots 2 p and 2 p + 1 of the region hold the children of parent p. */
  ghost predicate Children(s: seq<F>, start: seq<F>, off: nat, p: int, coordinate: F, map_: F -> F) {
    && p >= 0 && off + 2 * p + 1 < |s| && off + p < |start|
    && s[off + 2 * p] == map_(Mul(start[off + p], Factor(coordinate, 0)))
    && s[off + 2 * p + 1] == map_(Mul(start[off + p], Factor(coordinate, 1)))
  }

  lemma ExpandedNothing(start: seq<F>, off: nat, len: nat, coordinate: F, map_: F -> F)
    requires off + 2 * len <= |start|
    ensures Expanded(start, start, off, len, len, coordinate, map_)
  { }

  /** Writing one parent's children keeps the later ones. */
  lemma ExpandedParent(s: seq<F>, start: seq<F>, off: nat, parent: nat, len: nat, coordinate: F, map_: F -> F)
    requires off + 2 * len <= |s| == |start| && parent < len && Expanded(s, start, off, parent + 1, len, coordinate, map_)
    ensures
      var (left, right) := SplitParent(s[off + parent], coordinate);
      Expanded(s[off + 2 * parent := map_(left)][off + 2 * parent + 1 := map_(right)], start, off, parent, len, coordinate, map_)
  {
    hide SplitParent, Mul, Factor;
    SplitParentIsFactor(s[off + parent], coordinate);
    assert s[off + parent] == start[off + parent];
    var (left, right) := SplitParent(s[off + parent], coordinate);
    var t: seq<F> := s[off + 2 * parent := map_(left)][off + 2 * parent + 1 := map_(right)];
    forall p | parent <= p < len ensures Children(t, start, off, p, coordinate, map_) {
      if p > parent { assert Children(s, start, off, p, coordinate, map_); }
    }
    forall i | 0 <= i < |t| && !(off + parent <= i < off + 2 * len) ensures t[i] == start[i] { assert t[i] == s[i]; }
  }

  /** All parents expanded: child x of the region comes from parent x / 2. */
  lemma ExpandedAll(s: seq<F>, start: seq<F>, off: nat, len: nat, coordinate: F, map_: F -> F)
    requires off + 2 * len <= |s| == |start| && Expanded(s, start, off, 0, len, coordinate, map_)
    ensures forall i {:trigger s[i]} :: off <= i < off + 2 * len ==>
      s[i] == map_(Mul(start[off + (i - off) / 2], Factor(coordinate, (i - off) % 2)))
    ensures forall i {:trigger s[i]} :: 0 <= i < |s| && !(off <= i < off + 2 * len) ==> s[i] == start[i]
  {
    hide Mul, Factor;
    forall i | off <= i < off + 2 * len ensures s[i] == map_(Mul(start[off + (i - off) / 2], Factor(coordinate, (i - off) % 2))) {
      var p := (i - off) / 2;
      assert Children(s, start, off, p, coordinate, map_);
    }
  }

  /** The layer of coordinate k: the table of r[k+1..] becomes the mapped table of r[k..]. */
  method ExpandCoordinate(evals: array<F>, off: nat, r: seq<F>, k: nat, initial: F, map_: F -> F)
    requires k < |r| && off + Pow2(|r| - k) <= evals.Length
    requires forall i {:trigger evals[i]} :: off <= i < off + Pow2(|r| - k - 1) ==>
      evals[i] == Mul(initial, EqAt(r[k + 1..], i - off))
    modifies evals
    ensures forall i {:trigger evals[i]} :: off <= i < off + Pow2(|r| - k) ==>
      evals[i] == map_(Mul(initial, EqAt(r[k..], i - off)))
    ensures forall i {:trigger evals[i]} :: 0 <= i < evals.Length && !(off <= i < off + Pow2(|r| - k)) ==>
      evals[i] == old(evals[i])
  {
    hide *;
    ghost var before := evals[..];
    Pow2Step(|r| - k - 1);
    ExpandLayer(evals, off, Pow2(|r| - k - 1), r[k], map_);
    LayerIsEq(before, evals[..], off, Pow2(|r| - k - 1), initial, r, k, map_);
    ghost var after: seq<F> := evals[..];
    assert forall i {:trigger evals[i]} :: 0 <= i < evals.Length ==> evals[i] == after[i];
  }

  /**
   `fill_serial_with_final_map` on the slab of 2^|r| slots starting at `off`: coordinates are consumed
   from the last to the first, and the first one's layer applies the map.
   */
  method FillSerial(evals: array<F>, off: nat, r: seq<F>, initial: F, map_: F -> F)
    requires off + Pow2(|r|) <= evals.Length
    modifies evals
    ensures forall i {:trigger evals[i]} :: off <= i < off + Pow2(|r|) ==> evals[i] == map_(Mul(initial, EqAt(r, i - off)))
    ensures forall i {:trigger evals[i]} :: 0 <= i < evals.Length && !(off <= i < off + Pow2(|r|)) ==> evals[i] == old(evals[i])
  {
    hide *;
    Pow2Step(0);
    MulOne(initial); EqNil(0); assert r[|r|..] == [];
    if |r| == 0 {
      evals[off] := map_(initial);
      return;
    }
    evals[off] := initial;
    var k := |r|;
    Pow2Mono(0, |r|);
    while k > 1
      invariant 1 <= k <= |r| && Pow2(|r| - k) <= Pow2(|r|)
      invariant forall i {:trigger evals[i]} :: off <= i < off + Pow2(|r| - k) ==>
        evals[i] == Mul(initial, EqAt(r[k..], i - off))
      invariant forall i {:trigger evals[i]} :: 0 <= i < evals.Length && !(off <= i < off + Pow2(|r|)) ==>
        evals[i] == old(evals[i])
    {
      k := k - 1;
      Pow2Mono(|r| - k, |r|);
      ExpandCoordinate(evals, off, r, k, initial, x => x);
    }
    ExpandCoordinate(evals, off, r, 0, initial, map_);
    assert r[0..] == r;
  }

  /** A layer expanded by coordinate k turns the table of r[k+1..] into that of r[k..]. */
  lemma LayerIsEq(before: seq<F>, after: seq<F>, off: nat, len: nat, initial: F, r: seq<F>, k: nat, map_: F -> F)
    requires k < |r| && off + 2 * len <= |before| == |after|
    requires forall i {:trigger before[i]} :: off <= i < off + len ==> before[i] == Mul(initial, EqAt(r[k + 1..], i - off))
    requires forall i {:trigger after[i]} :: off <= i < off + 2 * len ==>
      after[i] == map_(Mul(before[off + (i - off) / 2], Factor(r[k], (i - off) % 2)))
    ensures forall i {:trigger after[i]} :: off <= i < off + 2 * len ==> after[i] == map_(Mul(initial, EqAt(r[k..], i - off)))
  {
    hide *;
    forall i | off <= i < off + 2 * len
      ensures after[i] == map_(Mul(initial, EqAt(r[k..], i - off)))
    {
      var x := i - off;
      EqSuffix(r, k, x);
      assert before[off + x / 2] == Mul(initial, EqAt(r[k + 1..], x / 2));
      var parent, bit := EqAt(r[k + 1..], x / 2), Factor(r[k], x % 2);
      MulAssoc(initial, parent, bit);
      MulComm(parent, bit);
    }
  }

  /** The serial table, its allocation failures aside: an error exactly when 2^|r| is not a `usize`. */
  method EvalsSerial(r: seq<F>, scale: Option<F>) returns (res: Result<seq<F>>)
    ensures res.Ok? <==> |r| < USIZE_BITS
    ensures res.Ok? ==> res.value == ScaledTable(if scale.Some? then scale.value else One, r)
  {
    if |r| >= USIZE_BITS { return Err; }
    var c := if scale.Some? then scale.value else One;
    var evals := new F[Pow2(|r|)](_ => Zero);
    FillSerial(evals, 0, r, c, x => x);
    res := Ok(evals[..]);
  }

  /** Serial evaluation with a final map applied in the last layer. */
  method EvalsMappedSerial(r: seq<F>, map_: F -> F) returns (res: Result<seq<F>>)
    ensures res.Ok? <==> |r| < USIZE_BITS
    ensures res.Ok? ==> |res.value| == Pow2(|r|) && forall i :: 0 <= i < Pow2(|r|) ==> res.value[i] == map_(EqAt(r, i))
  {
    if |r| >= USIZE_BITS { return Err; }
    var evals := new F[Pow2(|r|)](_ => Zero);
    FillSerial(evals, 0, r, One, map_);
    forall i | 0 <= i < Pow2(|r|) ensures evals[i] == map_(EqAt(r, i)) { MulOne(EqAt(r, i)); }
    res := Ok(evals[..]);
  }

  /**
   Slab expansion: the table of the high `outerVars` coordinates seeds one contiguous slab per entry,
   and each slab is filled by the serial recurrence over the low coordinates.
   */
  method EvalsMappedSlabs(r: seq<F>, outerVars: nat, map_: F -> F) returns (res: Result<seq<F>>)
    requires outerVars <= |r|
    ensures res.Ok? <==> |r| < USIZE_BITS
    ensures res.Ok? ==> |res.value| == Pow2(|r|) && forall i :: 0 <= i < Pow2(|r|) ==> res.value[i] == map_(EqAt(r, i))
  {
    hide *;
    if |r| >= USIZE_BITS { return Err; }
    var lowVars := |r| - outerVars;
    var slab := Pow2(lowVars);
    var outerTable := EvalsSerial(r[lowVars..], None);
    var outer := outerTable.value;
    ScaledByOne(r[lowVars..]);
    EqEntries(r[lowVars..]);
    var out := new F[Pow2(|r|)](_ => Zero);
    Pow2Add(lowVars, outerVars);
    var task, start := 0, 0;
    while task < |outer|
      invariant 0 <= task <= |outer|
      invariant start == task * slab <= out.Length
      invariant forall i {:trigger out[i]} :: 0 <= i < start ==> out[i] == map_(EqAt(r, i))
    {
      MulMono(task + 1, |outer|, slab);
      assert start + slab == (task + 1) * slab;
      FillSerial(out, start, r[..lowVars], outer[task], map_);
      forall i | start <= i < start + slab ensures out[i] == map_(EqAt(r, i)) {
        SlabEntry(r, lowVars, task, i - start);
      }
      task, start := task + 1, start + slab;
    }
    res := Ok(out[..]);
  }

  lemma SlabEntry(r: seq<F>, lowVars: nat, task: nat, x: nat)
    requires lowVars <= |r| && x < Pow2(lowVars)
    ensures EqAt(r, task * Pow2(lowVars) + x) == Mul(EqAt(r[lowVars..], task), EqAt(r[..lowVars], x))
  {
    hide *;
    TimesIs(task, Pow2(lowVars));
    EqSplit(r, lowVars, task * Pow2(lowVars) + x, task, x);
    MulComm(EqAt(r[lowVars..], task), EqAt(r[..lowVars], x));
  }

  method DoubleLayer(evals: array<F>, size: nat, coordinate: F)
    requires 2 * size <= evals.Length
    modifies evals
    ensures forall i {:trigger evals[i]} :: 0 <= i < size ==> evals[i] == Mul(old(evals[i]), Factor(coordinate, 0))
    ensures forall i {:trigger evals[i]} :: size <= i < 2 * size ==>
      evals[i] == Mul(old(evals[i - size]), Factor(coordinate, 1))
  {
    hide *;
    for x := 0 to size
      invariant forall i {:trigger evals[i]} :: 0 <= i < x ==> evals[i] == Mul(old(evals[i]), Factor(coordinate, 0))
      invariant forall i {:trigger evals[i]} :: size <= i < size + x ==>
        evals[i] == Mul(old(evals[i - size]), Factor(coordinate, 1))
      invariant forall i {:trigger evals[i]} :: x <= i < size ==> evals[i] == old(evals[i])
    {
      SplitParentIsFactor(evals[x], coordinate);
      var (left, right) := SplitParent(evals[x], coordinate);
      evals[x], evals[size + x] := left, right;
    }
  }

  lemma DoubledEntry(r: seq<F>, k: nat, c: F, low: nat, b: nat)
    requires k < |r| && low < Pow2(k) && b < 2
    ensures Mul(c, EqAt(r[..k + 1], b * Pow2(k) + low)) == Mul(Mul(c, EqAt(r[..k], low)), Factor(r[k], b))
  {
    hide *;
    assert r[..k + 1] == r[..k] + [r[k]];
    EqSnoc(r[..k], r[k], low, b);
    MulAssoc(c, EqAt(r[..k], low), Factor(r[k], b));
  }

  /** Forward doubling (`evals_parallel`): coordinate k splits the first 2^k slots into both halves of 2^(k+1). */
  method EvalsParallel(r: seq<F>, scale: Option<F>) returns (res: Result<seq<F>>)
    ensures res.Ok? <==> |r| < USIZE_BITS
    ensures res.Ok? ==> res.value == ScaledTable(if scale.Some? then scale.value else One, r)
  {
    if |r| >= USIZE_BITS { return Err; }
    hide *;
    Pow2Step(0);
    var c := if scale.Some? then scale.value else One;
    var evals := new F[Pow2(|r|)](_ => Zero);
    evals[0] := c;
    MulOne(c); EqNil(0); assert r[..0] == [];
    var size := 1;
    for k := 0 to |r|
      invariant size == Pow2(k) <= evals.Length == Pow2(|r|)
      invariant forall x {:trigger evals[x]} :: 0 <= x < size ==> evals[x] == Mul(c, EqAt(r[..k], x))
    {
      Pow2Step(k); Pow2Mono(k + 1, |r|);
      DoubleTable(evals, r, k, c);
      size := 2 * size;
    }
    assert r[..|r|] == r;
    ScaledIs(c, r, evals[..]);
    res := Ok(evals[..]);
  }

  method DoubleTable(evals: array<F>, r: seq<F>, k: nat, c: F)
    requires k < |r| && 2 * Pow2(k) <= evals.Length
    requires forall x {:trigger evals[x]} :: 0 <= x < Pow2(k) ==> evals[x] == Mul(c, EqAt(r[..k], x))
    modifies evals
    ensures forall x {:trigger evals[x]} :: 0 <= x < 2 * Pow2(k) ==> evals[x] == Mul(c, EqAt(r[..k + 1], x))
  {
    hide *;
    var size := Pow2(k);
    DoubleLayer(evals, size, r[k]);
    forall x | 0 <= x < 2 * size ensures evals[x] == Mul(c, EqAt(r[..k + 1], x)) {
      if x < size { DoubledEntry(r, k, c, x, 0); } else { DoubledEntry(r, k, c, x - size, 1); }
    }
  }

  lemma ScaledIs(c: F, r: seq<F>, t: seq<F>)
    requires |t| == Pow2(|r|) && forall x :: 0 <= x < |t| ==> t[x] == Mul(c, EqAt(r, x))
    ensures t == ScaledTable(c, r)
  {
    hide EqAt, Pow2;
  }

  method NextLayer(layer: seq<F>, coordinate: F) returns (next: seq<F>)
    ensures |next| == 2 * |layer|
    ensures forall x :: 0 <= x < 2 * |layer| ==> next[x] == Mul(layer[x / 2], Factor(coordinate, x % 2))
  {
    hide *;
    var out := new F[2 * |layer|](_ => Zero);
    var i := |layer|;
    while i > 0
      invariant 0 <= i <= |layer|
      invariant forall x {:trigger out[x]} :: 2 * i <= x < 2 * |layer| ==>
        out[x] == Mul(layer[x / 2], Factor(coordinate, x % 2))
    {
      i := i - 1;
      var (left, right) := SplitParent(layer[i], coordinate);
      SplitParentIsFactor(layer[i], coordinate);
      out[2 * i], out[2 * i + 1] := left, right;
    }
    next := out[..];
  }

  /**
   `evals_cached`: layer j is expanded from layer j - 1 by coordinate |r| - j, so it is the table of the
   last j coordinates.
   */
  method EvalsCached(r: seq<F>, scale: Option<F>) returns (res: Result<seq<seq<F>>>)
    ensures res.Ok? <==> |r| < USIZE_BITS - 1
    ensures res.Ok? ==> |res.value| == |r| + 1
    ensures res.Ok? ==> forall j :: 0 <= j <= |r| ==>
      res.value[j] == ScaledTable(if scale.Some? then scale.value else One, r[|r| - j..])
  {
    // 2 * 2^|r| - 1 must be a `usize`
    if |r| >= USIZE_BITS - 1 { return Err; }
    var c := if scale.Some? then scale.value else One;
    var layers := [[c]];
    assert r[|r|..] == [];
    MulOne(c); EqNil(0);
    assert layers[0] == ScaledTable(c, r[|r|..]);
    hide *;
    for j := 0 to |r|
      invariant |layers| == j + 1
      invariant forall k :: 0 <= k <= j ==> layers[k] == ScaledTable(c, r[|r| - k..])
    {
      var idx := |r| - 1 - j;
      var next := NextLayer(layers[j], r[idx]);
      NextIsSuffix(layers[j], next, c, r, idx);
      assert |r| - (j + 1) == idx;
      layers := layers + [next];
    }
    res := Ok(layers);
  }

  /** A layer's expansion by coordinate idx is the table from idx on. */
  lemma NextIsSuffix(layer: seq<F>, next: seq<F>, c: F, r: seq<F>, idx: nat)
    requires idx < |r| && layer == ScaledTable(c, r[idx + 1..]) && |next| == 2 * |layer|
    requires forall x :: 0 <= x < 2 * |layer| ==> next[x] == Mul(layer[x / 2], Factor(r[idx], x % 2))
    ensures next == ScaledTable(c, r[idx..])
  {
    hide EqAt;
    LayerIsEq(layer + layer, next, 0, |layer|, c, r, idx, x => x);
  }

  // ----- the split table

  /** The two half tables of `SplitEqEvals`. */
  datatype SplitEqEvals = SplitEqEvals(eOut: seq<F>, eIn: seq<F>) {
    function EvalAt(index: nat): Result<F>
      requires |eIn| > 0
    {
      if index >= |eIn| * |eOut| then Err
      else
        QuotientBound(index, |eIn|, |eOut|);
        Ok(Mul(eOut[index / |eIn|], eIn[index % |eIn|]))
    }
  }

  method SplitTables(point: seq<F>) returns (res: Result<SplitEqEvals>)
    ensures res.Ok? <==> |point| - |point| / 2 < USIZE_BITS
    ensures res.Ok? ==> res.value == SplitEqEvals(EqTable(point[|point| / 2..]), EqTable(point[..|point| / 2]))
  {
    var m := |point| / 2;
    var inner := EvalsSerial(point[..m], None);
    var outer := EvalsSerial(point[m..], None);
    if inner.Err? || outer.Err? { return Err; }
    ScaledByOne(point[..m]);
    ScaledByOne(point[m..]);
    res := Ok(SplitEqEvals(outer.value, inner.value));
  }

  lemma ScaledByOne(r: seq<F>)
    ensures ScaledTable(One, r) == EqTable(r)
  {
    forall x: nat | x < Pow2(|r|) ensures ScaledTable(One, r)[x] == EqTable(r)[x] { MulOne(EqAt(r, x)); }
  }

  lemma SplitEvalIs(split: SplitEqEvals, index: nat, hi: nat, lo: nat)
    requires lo < |split.eIn| && index == Times(hi, |split.eIn|) + lo
    ensures split.EvalAt(index) == if hi < |split.eOut| then Ok(Mul(split.eOut[hi], split.eIn[lo])) else Err
  {
    hide Mul;
    DivModUnique(index, |split.eIn|, hi, lo);
    if hi < |split.eOut| { MulMono(hi + 1, |split.eOut|, |split.eIn|); } else { MulMono(|split.eOut|, hi, |split.eIn|); }
  }

  /** The split tables cover exactly the 2^n indices of the domain, with the full table's values. */
  lemma SplitTablesAreEq(point: seq<F>, index: nat)
    ensures
      var split := SplitEqEvals(EqTable(point[|point| / 2..]), EqTable(point[..|point| / 2]));
      split.EvalAt(index) == if index < Pow2(|point|) then Ok(EqAt(point, index)) else Err
  {
    var m := |point| / 2;
    var split := SplitEqEvals(EqTable(point[m..]), EqTable(point[..m]));
    hide *;
    DivModIs(index, Pow2(m));
    SplitTablesAt(point, m, split, index, index / Pow2(m), index % Pow2(m));
  }

  lemma SplitTablesAt(point: seq<F>, m: nat, split: SplitEqEvals, index: nat, hi: nat, lo: nat)
    requires m <= |point| && split == SplitEqEvals(EqTable(point[m..]), EqTable(point[..m]))
    requires lo < Pow2(m) && index == Times(hi, Pow2(m)) + lo
    ensures |split.eIn| > 0
    ensures split.EvalAt(index) == if index < Pow2(|point|) then Ok(EqAt(point, index)) else Err
  {
    hide *;
    SplitEvalIs(split, index, hi, lo);
    TablesSplit(point, m, index, hi, lo);
    if index < Pow2(|point|) { MulComm(split.eOut[hi], split.eIn[lo]); }
  }

  // ----- sums of table entries

  /** Summing out the lowest coordinate. */
  lemma PairSum(r: seq<F>, k: nat, x: nat)
    requires k < |r|
    ensures Add(EqAt(r[k..], 2 * x), EqAt(r[k..], 2 * x + 1)) == EqAt(r[k + 1..], x)
  {
    hide *;
    var rest := EqAt(r[k + 1..], x);
    EqSuffix(r, k, 2 * x);
    EqSuffix(r, k, 2 * x + 1);
    Distrib(rest, Factor(r[k], 0), Factor(r[k], 1));
    FactorsSumToOne(r[k]);
    MulOne(rest);
  }

  /** eq at any integer, zero below the domain too. */
  function EqInt(r: seq<F>, x: int): F { if x < 0 then Zero else EqAt(r, x) }

  lemma EqIntIs(r: seq<F>, x: nat) ensures EqInt(r, x) == EqAt(r, x) { }

  function Entries(r: seq<F>): int -> F { (x: int) => EqInt(r, x) }

  lemma PrefixPairs(r: seq<F>, k: nat, n: nat)
    requires k < |r|
    ensures Sum(Entries(r[k..]), 2 * n) == Sum(Entries(r[k + 1..]), n)
  {
    hide EqAt, Sum;
    var e, g := Entries(r[k..]), Entries(r[k + 1..]);
    forall x | 0 <= x < n ensures g(x) == Add(e(2 * x), e(2 * x + 1)) { PairSum(r, k, x); }
    SumPairs(e, g, n);
  }

  lemma {:induction false} TotalIsOne(r: seq<F>, k: nat)
    requires k <= |r|
    ensures Sum(Entries(r[k..]), Pow2(|r| - k)) == One
    decreases |r| - k
  {
    hide EqAt, Sum;
    if k == |r| {
      assert r[k..] == [];
      EqNil(0);
      SumOne(Entries([]));
    } else {
      TotalIsOne(r, k + 1);
      PrefixPairs(r, k, Pow2(|r| - k - 1));
    }
  }

  /** One step of the scan: from the bits of `len` above `bit` to those from `bit` on. */
  lemma PrefixStep(r: seq<F>, bit: nat, len: nat)
    requires bit < |r|
    ensures
      var h, h' := High(len, bit), High(len, bit + 1);
      var (left, right) := SplitParent(EqAt(r[bit + 1..], h'), r[bit]);
      && EqAt(r[bit..], h) == (if h % 2 == 1 then right else left)
      && Sum(Entries(r[bit..]), h) ==
           if h % 2 == 1 then Add(Sum(Entries(r[bit + 1..]), h'), left) else Sum(Entries(r[bit + 1..]), h')
  {
    hide EqAt, Sum, High;
    var h, h' := High(len, bit), High(len, bit + 1);
    var parent := EqAt(r[bit + 1..], h');
    HighStep(len, bit);
    SplitParentIsFactor(parent, r[bit]);
    MulComm(parent, Factor(r[bit], 0)); MulComm(parent, Factor(r[bit], 1));
    EqSuffix(r, bit, h);
    PrefixPairs(r, bit, h');
    if h % 2 == 1 {
      EqSuffix(r, bit, 2 * h');
      SumSnoc(Entries(r[bit..]), h);
    }
  }

  /** `prefix_sum`: the sum of the first `len` entries of the table, from one scan of the bits of `len`. */
  method PrefixSum(r: seq<F>, len: nat) returns (res: Result<F>)
    ensures res.Ok? <==> |r| < USIZE_BITS && len <= Pow2(|r|)
    ensures res.Ok? ==> res.value == Sum(Entries(r), len)
  {
    if |r| >= USIZE_BITS || len > Pow2(|r|) { return Err; }
    assert r[0..] == r;
    if len == Pow2(|r|) {
      TotalIsOne(r, 0);
      return Ok(One);
    }
    hide EqAt, Sum;
    var below, equalPrefix := Zero, One;
    var bit := |r|;
    LowHigh(len, |r|);
    DivModUnique(len, Pow2(|r|), 0, len);
    assert r[|r|..] == [];
    EqNil(0); SumNil(Entries([]));
    while bit > 0
      invariant 0 <= bit <= |r|
      invariant below == Sum(Entries(r[bit..]), High(len, bit))
      invariant equalPrefix == EqAt(r[bit..], High(len, bit))
    {
      bit := bit - 1;
      var (left, right) := SplitParent(equalPrefix, r[bit]);
      PrefixStep(r, bit, len);
      LowHigh(len, bit);
      if (len / Pow2(bit)) % 2 == 1 {
        below := Add(below, left);
        equalPrefix := right;
      } else {
        equalPrefix := left;
      }
    }
    res := Ok(below);
  }

  /** `evals_prefix`: the first `len` entries, one split-table lookup each. */
  method EvalsPrefix(r: seq<F>, len: nat) returns (res: Result<seq<F>>)
    ensures res.Ok? <==> |r| - |r| / 2 < USIZE_BITS && len <= Pow2(|r|)
    ensures res.Ok? ==> res.value == EqTable(r)[..len]
  {
    hide EqAt;
    var tables := SplitTables(r);
    if tables.Err? { return Err; }
    var split := tables.value;
    Pow2Add(|r| / 2, |r| - |r| / 2);
    if len > |split.eIn| * |split.eOut| { return Err; }
    var out: seq<F> := [];
    for i := 0 to len
      invariant out == EqTable(r)[..i]
    {
      SplitTablesAreEq(r, i);
      var entry := split.EvalAt(i);
      out := out + [entry.value];
    }
    res := Ok(out);
  }
}
