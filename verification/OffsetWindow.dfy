/**
 The bounded equality window.
 Models `OffsetEqWindow` and `AmortizedOffsetEq` of crates/akita-algebra/src/offset_eq.rs.
 */
module OffsetWindow {
  import opened Arith
  import opened Field
  import opened EqPoly

  const LOW_BITS_CAP: nat := 16
  const HIGH_BITS_CAP: nat := 16

  datatype Window = Window(lowBits: nat, eqLow: seq<F>, eqHigh: Option<seq<F>>, highChallenges: seq<F>)

  /** `split_low_bits`. */
  function SplitLowBits(count: nat, cap: nat): (low: nat)
    ensures low <= count && low <= cap && low <= LOW_BITS_CAP
  {
    var lowCap := Min(cap, LOW_BITS_CAP);
    if count <= lowCap + HIGH_BITS_CAP then
      Min(Max((count + 1) / 2, Max(count - HIGH_BITS_CAP, 0)), lowCap)
    else Min(count, lowCap)
  }

  /** w holds the tables of the point r split at its low bits, the high one only up to the cap. */
  ghost predicate WindowFor(w: Window, r: seq<F>) {
    && w.lowBits <= |r|
    && w.eqLow == EqTable(r[..w.lowBits])
    && w.highChallenges == r[w.lowBits..]
    && (w.eqHigh.Some? <==> |r| - w.lowBits <= HIGH_BITS_CAP)
    && (w.eqHigh.Some? ==> w.eqHigh.value == EqTable(r[w.lowBits..]))
  }

  /** `with_low_bits`; `new` is the default cap. */
  method WithLowBits(challenges: seq<F>, cap: nat) returns (w: Window)
    ensures WindowFor(w, challenges) && w.lowBits == SplitLowBits(|challenges|, cap)
  {
    hide EqTable, ScaledTable;
    var lowBits := SplitLowBits(|challenges|, cap);
    var low := EvalsSerial(challenges[..lowBits], None);
    ScaledByOne(challenges[..lowBits]);
    var high := challenges[lowBits..];
    var eqHigh: Option<seq<F>> := None;
    if |high| <= HIGH_BITS_CAP {
      var table := EvalsSerial(high, None);
      ScaledByOne(high);
      eqHigh := Some(table.value);
    }
    w := Window(lowBits, low.value, eqHigh, high);
  }

  /** `eval_factors`: zeros when the low factor is zero, and zero past a tabled high side. */
  function EvalFactors(w: Window, index: nat): (F, F) {
    DivModIs(index, Pow2(w.lowBits));
    var low := index % Pow2(w.lowBits);
    var eqLow := if low < |w.eqLow| then w.eqLow[low] else Zero;
    if eqLow == Zero then (Zero, Zero)
    else
      var high := index / Pow2(w.lowBits);
      (eqLow,
       match w.eqHigh
       case Some(table) => if high < |table| then table[high] else Zero
       case None => EqEvalAtIndex(w.highChallenges, high))
  }

  function Eval(w: Window, index: nat): F {
    var (eqLow, eqHigh) := EvalFactors(w, index);
    if eqLow == Zero then Zero else Mul(eqLow, eqHigh)
  }

  /** The window agrees with eq on every index, inside the domain or not. */
  lemma WindowEvalIsEq(w: Window, r: seq<F>, index: nat)
    requires WindowFor(w, r) && index <= USIZE_MAX
    ensures Eval(w, index) == EqAt(r, index)
  {
    hide EqAt, EqEvalAtIndex, Pow2;
    var k := w.lowBits;
    var low, high := index % Pow2(k), index / Pow2(k);
    DivModIs(index, Pow2(k));
    EqSplit(r, k, index, high, low);
    EqEntries(r[..k]); EqEntries(r[k..]);
    MulZero(EqAt(r[k..], high));
    assert high <= index by { MulMono(1, Pow2(k), high); }
    EqEvalAtIndexIsEq(r[k..], high);
    if w.eqHigh.Some? && high >= |w.eqHigh.value| { EqOutside(r[k..], high); }
  }

  // ----- the split minimizes what is materialized

  function TableSize(count: nat, low: nat): nat
    requires low <= count
  {
    Pow2(low) + Pow2(count - low)
  }

  /** Moving one bit away from balance does not shrink the tables. */
  lemma Unbalance(a: nat, b: nat)
    requires a >= b
    ensures Pow2(a + 1) + Pow2(b) >= Pow2(a) + Pow2(b + 1)
  {
    Pow2Step(a); Pow2Step(b); Pow2Mono(b, a);
  }

  lemma {:induction false} GrowsAway(count: nat, from: nat, to: nat)
    requires to <= count && from <= count
    requires (count <= 2 * from + 1 && from <= to) || (2 * from <= count + 1 && to <= from)
    ensures TableSize(count, from) <= TableSize(count, to)
    decreases if from <= to then to - from else from - to
  {
    hide Pow2;
    if from < to {
      Unbalance2(count, from);
      GrowsAway(count, from + 1, to);
    } else if to < from {
      Unbalance2(count, from - 1);
      GrowsAway(count, from - 1, to);
    }
  }

  lemma Unbalance2(count: nat, low: nat)
    requires low + 1 <= count
    ensures count <= 2 * low + 1 ==> TableSize(count, low) <= TableSize(count, low + 1)
    ensures 2 * low + 1 <= count ==> TableSize(count, low + 1) <= TableSize(count, low)
  {
    if count <= 2 * low + 1 { Unbalance(low, count - low - 1); }
    if 2 * low + 1 <= count { Unbalance(count - low - 1, low); }
  }

  /** Whenever both sides can fit their caps, the chosen split has the smallest total table size. */
  lemma SplitIsMinimal(count: nat, cap: nat, other: nat)
    requires count <= Min(cap, LOW_BITS_CAP) + HIGH_BITS_CAP
    requires other <= count && other <= Min(cap, LOW_BITS_CAP) && count - other <= HIGH_BITS_CAP
    ensures
      var low := SplitLowBits(count, cap);
      count - low <= HIGH_BITS_CAP && TableSize(count, low) <= TableSize(count, other)
  {
    hide Pow2, TableSize;
    GrowsAway(count, SplitLowBits(count, cap), other);
  }

  // ----- filling intervals

  /** `fill_bounded_high_interval` on the slots from `off` to `end`, which stand for indices from `start` on. */
  method FillBounded(w: Window, ghost r: seq<F>, start: nat, output: array<F>, off: nat, end: nat)
    requires WindowFor(w, r) && w.eqHigh.Some? && off <= end <= output.Length
    modifies output
    ensures forall i {:trigger output[i]} :: off <= i < end ==> output[i] == EqAt(r, start + (i - off))
    ensures forall i {:trigger output[i]} :: 0 <= i < output.Length && !(off <= i < end) ==> output[i] == old(output[i])
  {
    hide *;
    var done := off;
    while done < end
      invariant off <= done <= end
      invariant forall i {:trigger output[i]} :: off <= i < done ==> output[i] == EqAt(r, start + (i - off))
      invariant forall i {:trigger output[i]} :: 0 <= i < output.Length && !(off <= i < done) ==> output[i] == old(output[i])
    {
      var from := start + (done - off);
      WindowParts(w, r, from);
      var low := from % Pow2(w.lowBits);
      var take := Min(|w.eqLow| - low, end - done);
      MinIs(|w.eqLow| - low, end - done);
      var high := from / Pow2(w.lowBits);
      DivModIs(from, Pow2(w.lowBits));
      if high >= |w.eqHigh.value| {
        for i := done to end
          invariant forall k {:trigger output[k]} :: done <= k < i ==> output[k] == Zero
          invariant forall k {:trigger output[k]} :: off <= k < done ==> output[k] == EqAt(r, start + (k - off))
          invariant forall k {:trigger output[k]} :: 0 <= k < output.Length && !(off <= k < i) ==> output[k] == old(output[k])
        {
          output[i] := Zero;
        }
        forall i | done <= i < end ensures output[i] == EqAt(r, start + (i - off)) {
          PastDomain(w, r, from, high, low, start + (i - off));
        }
        done := end;
      } else {
        var scale := w.eqHigh.value[high];
        for i := 0 to take
          invariant forall k {:trigger output[k]} :: done <= k < done + i ==> output[k] == EqAt(r, start + (k - off))
          invariant forall k {:trigger output[k]} :: off <= k < done ==> output[k] == EqAt(r, start + (k - off))
          invariant forall k {:trigger output[k]} :: 0 <= k < output.Length && !(off <= k < done + i) ==> output[k] == old(output[k])
        {
          RunEntry(w, r, from, low, high, i);
          MulZero(w.eqLow[low + i]); MulOne(w.eqLow[low + i]);
          output[done + i] :=
            if scale == Zero then Zero else if scale == One then w.eqLow[low + i] else Mul(w.eqLow[low + i], scale);
        }
        done := done + take;
      }
    }
  }

  lemma MinIs(a: int, b: int) ensures Min(a, b) <= a && Min(a, b) <= b && (Min(a, b) == a || Min(a, b) == b) { }

  lemma WindowParts(w: Window, r: seq<F>, index: nat)
    requires WindowFor(w, r) && w.eqHigh.Some?
    ensures index % Pow2(w.lowBits) < |w.eqLow|
  { }

  lemma PastDomain(w: Window, r: seq<F>, from: nat, high: nat, low: nat, index: nat)
    requires WindowFor(w, r) && w.eqHigh.Some? && from == Times(high, Pow2(w.lowBits)) + low && high >= |w.eqHigh.value| && index >= from
    ensures EqAt(r, index) == Zero
  {
    var k := w.lowBits;
    assert |w.eqHigh.value| == Pow2(|r| - k);
    hide *;
    TimesPow2(|r| - k, k);
    TimesMono(Pow2(|r| - k), high, Pow2(k));
    EqOutside(r, index);
  }

  /** Entries that share the high index of `from` are low entries times one high entry. */
  lemma RunEntry(w: Window, r: seq<F>, from: nat, low: nat, high: nat, i: nat)
    requires WindowFor(w, r) && w.eqHigh.Some?
    requires from == Times(high, Pow2(w.lowBits)) + low && low + i < |w.eqLow| && high < |w.eqHigh.value|
    ensures EqAt(r, from + i) == Mul(w.eqLow[low + i], w.eqHigh.value[high])
  {
    hide EqAt, Pow2;
    var k := w.lowBits;
    EqSplit(r, k, from + i, high, low + i);
  }

  const FILL_CHUNK: nat := 0x4000

  /** `fill_interval`: in chunks when the high side is tabled and the interval is long, entry by entry otherwise. */
  method FillInterval(w: Window, ghost r: seq<F>, start: nat, output: array<F>) returns (ok: bool)
    requires WindowFor(w, r)
    modifies output
    ensures ok <==> start + output.Length <= USIZE_MAX
    ensures ok ==> forall i {:trigger output[i]} :: 0 <= i < output.Length ==> output[i] == EqAt(r, start + i)
  {
    hide EqAt, WindowFor, Eval;
    if start + output.Length > USIZE_MAX { return false; }
    ok := true;
    if w.eqHigh.Some? {
      if output.Length >= FILL_CHUNK {
        var chunk := 0;
        while chunk < output.Length
          invariant 0 <= chunk <= output.Length
          invariant forall i {:trigger output[i]} :: 0 <= i < chunk ==> output[i] == EqAt(r, start + i)
        {
          var end := Min(chunk + FILL_CHUNK, output.Length);
          FillBounded(w, r, start + chunk, output, chunk, end);
          chunk := end;
        }
      } else {
        FillBounded(w, r, start, output, 0, output.Length);
      }
      return;
    }
    for i := 0 to output.Length
      invariant forall k {:trigger output[k]} :: 0 <= k < i ==> output[k] == EqAt(r, start + k)
    {
      WindowEvalIsEq(w, r, start + i);
      output[i] := Eval(w, start + i);
    }
  }

  // ----- equality evaluations that tabulate once they pay for it

  /** `materialized_len`. */
  function MaterializedLen(count: nat): nat {
    var low := SplitLowBits(count, LOW_BITS_CAP);
    Pow2(low) + if count - low <= HIGH_BITS_CAP then Pow2(count - low) else 0
  }

  /** It counts the entries the default window holds. */
  lemma MaterializedLenCounts(w: Window, r: seq<F>)
    requires WindowFor(w, r) && w.lowBits == SplitLowBits(|r|, LOW_BITS_CAP)
    ensures |w.eqLow| + (if w.eqHigh.Some? then |w.eqHigh.value| else 0) == MaterializedLen(|r|)
  {
    hide EqTable, Pow2;
  }

  /** The default window in numbers: up to 32 coordinates are halved, low half first; past 32 only 16 low ones are tabled. */
  lemma DefaultSplit(count: nat)
    ensures SplitLowBits(count, 16) == if count <= 32 then (count + 1) / 2 else 16
    ensures MaterializedLen(count) == if count <= 32 then Pow2((count + 1) / 2) + Pow2(count / 2) else 0x1_0000
  {
    assert Pow2(16) == 0x1_0000 by { hide Pow2; Pow2Step(0); Pow2Step(1); Pow2Add(2, 2); Pow2Add(4, 4); Pow2Add(8, 8); }
    hide Pow2;
    assert count - (count + 1) / 2 == count / 2;
  }

  /** `AmortizedOffsetEq`: a window once one has been prepared, scalar evaluations until then. */
  datatype AmortizedEq = AmortizedEq(challenges: seq<F>, window: Option<Window>) {
    ghost predicate Valid() { window.Some? ==> WindowFor(window.value, challenges) }

    function EvalAt(index: nat): F {
      match window
      case Some(w) => Eval(w, index)
      case None => EqEvalAtIndex(challenges, index)
    }

    lemma EvalAtIsEq(index: nat)
      requires Valid() && index <= USIZE_MAX
      ensures EvalAt(index) == EqAt(challenges, index)
    {
      match window
      case Some(w) => WindowEvalIsEq(w, challenges, index);
      case None => EqEvalAtIndexIsEq(challenges, index);
    }

    method Prepare(evaluations: nat) returns (next: AmortizedEq)
      requires Valid()
      ensures next.Valid() && next.challenges == challenges
      ensures next.window.Some? <==> window.Some? || (|challenges| > 0 && evaluations >= MaterializedLen(|challenges|))
    {
      hide WindowFor;
      next := this;
      if window.None? && |challenges| > 0 && evaluations >= MaterializedLen(|challenges|) {
        var w := WithLowBits(challenges, LOW_BITS_CAP);
        next := AmortizedEq(challenges, Some(w));
      }
    }
  }
}
