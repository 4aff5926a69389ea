/**
 Carry summaries of the low factor: what they are, and the dense and unit builders.
 Models `build_affine_low_summaries` of crates/akita-algebra/src/offset_eq.rs.
 */
module AffineLow {
  import opened Arith
  import opened Field
  import opened Sums
  import opened Powers
  import opened EqPoly
  import opened Buckets
  import opened AffineSpec

  /** The challenges split at k low bits, where the low length is 2^k. */
  ghost predicate SplitAt(g: Affine, k: nat) { k <= |g.challenges| && LowLen(g) == Pow2(k) }

  /** Where term e of a row lands from the low address a: its quotient is the carry, its remainder the low index. */
  function Shift(g: Affine, a: nat, e: nat): (x: nat)
    requires |g.digits| > 0
  {
    TimesNat(g.outerStride, e / |g.digits|); TimesNat(g.digitStride, e % |g.digits|);
    a + Times(g.outerStride, e / |g.digits|) + Times(g.digitStride, e % |g.digits|)
  }

  function Carry(g: Affine, a: nat, e: int): int
    requires |g.digits| > 0
  {
    if e < 0 then 0 else Shift(g, a, e) / LowLen(g)
  }

  function LowValue(g: Affine, s: Seg, k: nat, a: nat, e: int): F
    requires |g.digits| > 0 && k <= |g.challenges|
  {
    if e < 0 then Zero
    else
      Mul(Mul(LowWeight(g, s.lowStart + e / |g.digits|), At(g.digits, e % |g.digits|)),
          EqAt(g.challenges[..k], Shift(g, a, e) % LowLen(g)))
  }

  function Carries(g: Affine, a: nat): int -> int requires |g.digits| > 0 { (e: int) => Carry(g, a, e) }

  function LowValues(g: Affine, s: Seg, k: nat, a: nat): int -> F
    requires |g.digits| > 0 && k <= |g.challenges|
  {
    (e: int) => LowValue(g, s, k, a, e)
  }

  function TermCount(g: Affine, s: Seg): (n: nat)
    requires SegOk(g, s)
  {
    TimesNat(Span(s), |g.digits|);
    Times(Span(s), |g.digits|)
  }

  /** Summary c: the low terms whose address carries c. */
  function Summary(g: Affine, s: Seg, k: nat, a: nat, c: int): F
    requires SegOk(g, s) && k <= |g.challenges|
  {
    Bucket(LowValues(g, s, k, a), Carries(g, a), c, TermCount(g, s))
  }

  /** The carry support `accumulate_group` allocates for the low address a. */
  function CarryCount(g: Affine, s: Seg, a: nat): (n: nat)
    requires SegOk(g, s)
    ensures n >= 1
  {
    TimesNat(g.outerStride, Span(s) - 1); TimesNat(g.digitStride, |g.digits| - 1);
    (a + Times(g.outerStride, Span(s) - 1) + Times(g.digitStride, |g.digits| - 1)) / LowLen(g) + 1
  }

  /** No carry index leaves the allocated support. */
  lemma CarryInside(g: Affine, s: Seg, a: nat, e: nat)
    requires SegOk(g, s) && e < TermCount(g, s)
    ensures 0 <= Carry(g, a, e) < CarryCount(g, s, a)
  {
    hide *;
    SegSpan(g, s);
    TermCountIs(g, s);
    var n := |g.digits|;
    DivModIs(e, n);
    CarryBelow(g, s, a, e, e / n, e % n);
  }

  lemma CarryBelow(g: Affine, s: Seg, a: nat, e: nat, l: nat, digit: nat)
    requires SegOk(g, s) && |g.digits| > 0 && s.lowStart < s.lowEnd && Times(Span(s), |g.digits|) > e
    requires l == e / |g.digits| && digit == e % |g.digits| && digit < |g.digits| && e == Times(l, |g.digits|) + digit
    ensures 0 <= Carry(g, a, e) < CarryCount(g, s, a)
  {
    hide *;
    TimesBound(e, |g.digits|, l, digit, Span(s));
    MulMono2(g.outerStride, l, Span(s) - 1);
    MulMono2(g.digitStride, digit, |g.digits| - 1);
    CarryIs(g, a, e);
    CarryCountIs(g, s, a);
    DivMono(Shift(g, a, e), a + Times(g.outerStride, Span(s) - 1) + Times(g.digitStride, |g.digits| - 1), LowLen(g));
  }

  lemma TermCountIs(g: Affine, s: Seg)
    requires SegOk(g, s)
    ensures s.lowStart < s.lowEnd && TermCount(g, s) == Times(Span(s), |g.digits|)
  { }

  lemma CarryIs(g: Affine, a: nat, e: nat)
    requires |g.digits| > 0
    ensures Shift(g, a, e) == a + Times(g.outerStride, e / |g.digits|) + Times(g.digitStride, e % |g.digits|)
    ensures Carry(g, a, e) == Shift(g, a, e) / LowLen(g) && Carry(g, a, e) >= 0
  {
    hide Times, LowLen;
    DivModIs(Shift(g, a, e), LowLen(g));
  }

  lemma CarryCountIs(g: Affine, s: Seg, a: nat)
    requires SegOk(g, s)
    ensures s.lowStart < s.lowEnd
    ensures
      var top := a + Times(g.outerStride, Span(s) - 1) + Times(g.digitStride, |g.digits| - 1);
      top >= 0 && CarryCount(g, s, a) == top / LowLen(g) + 1
  {
    TimesNat(g.outerStride, Span(s) - 1); TimesNat(g.digitStride, |g.digits| - 1);
    hide Times;
  }

  lemma MulMono2(c: nat, a: int, b: int)
    requires a <= b
    ensures Times(c, a) <= Times(c, b)
  {
    MulMono(a, b, c);
  }

  lemma DivMono(a: nat, b: nat, d: nat)
    requires a <= b && d > 0
    ensures a / d <= b / d
  {
    if a / d > b / d { MulMono(b / d + 1, a / d, d); }
  }

  // ----- a row contracts the summaries with the high point

  function HighTerms(g: Affine, s: Seg, k: nat, a: nat, x: int): int -> F
    requires SegOk(g, s) && k <= |g.challenges|
  {
    (c: int) => Mul(Summary(g, s, k, a, c), EqInt(g.challenges[k..], x + c))
  }

  /** eq at an address whose low part overflows into the high index. */
  lemma EqCarry(r: seq<F>, k: nat, x: nat, shift: nat)
    requires k <= |r|
    ensures shift % Pow2(k) >= 0 && shift / Pow2(k) >= 0 && Times(x, Pow2(k)) >= 0
    ensures EqAt(r, Times(x, Pow2(k)) + shift) == Mul(EqAt(r[..k], shift % Pow2(k)), EqAt(r[k..], x + shift / Pow2(k)))
  {
    hide *;
    var q := Pow2(k);
    TimesNat(x, q);
    DivModIs(shift, q);
    CarryJoin(x, q, shift, shift / q, shift % q);
    EqSplit(r, k, Times(x, q) + shift, x + shift / q, shift % q);
  }

  lemma CarryJoin(x: nat, q: nat, shift: nat, hi: nat, lo: nat)
    requires shift == Times(hi, q) + lo
    ensures Times(x, q) + shift == Times(x + hi, q) + lo
  { }

  function TermWeight(g: Affine, s: Seg, e: nat): F
    requires |g.digits| > 0
  {
    Mul(LowWeight(g, s.lowStart + e / |g.digits|), At(g.digits, e % |g.digits|))
  }

  lemma TermParts(g: Affine, s: Seg, k: nat, a: nat, x: nat, e: nat)
    requires |g.digits| > 0 && k <= |g.challenges|
    ensures LowValue(g, s, k, a, e) == Mul(TermWeight(g, s, e), EqAt(g.challenges[..k], Shift(g, a, e) % LowLen(g)))
    ensures Carry(g, a, e) == Shift(g, a, e) / LowLen(g)
    ensures Times(x, LowLen(g)) >= 0
    ensures RowTerms(g, s, Join(x, LowLen(g), a))(e) == Mul(TermWeight(g, s, e), EqAt(g.challenges, Times(x, LowLen(g)) + Shift(g, a, e)))
  {
    hide EqAt, Mul, LowWeight, At;
    TimesNat(x, LowLen(g));
    JoinIs(x, LowLen(g), a);
  }

  /** One term of a row: its low value times eq of the high point at the carried high index. */
  lemma RowTermSplits(g: Affine, s: Seg, k: nat, a: nat, x: nat, e: nat)
    requires SegOk(g, s) && SplitAt(g, k) && a < LowLen(g)
    ensures Carry(g, a, e) >= 0
    ensures RowTerms(g, s, Join(x, LowLen(g), a))(e) ==
      Mul(LowValue(g, s, k, a, e), EqInt(g.challenges[k..], x + Carry(g, a, e)))
  {
    hide *;
    SplitParts(g, s, k);
    var q, sh := LowLen(g), Shift(g, a, e);
    TermParts(g, s, k, a, x, e);
    EqCarry(g.challenges, k, x, sh);
    EqIntIs(g.challenges[k..], x + sh / q);
    MulAssoc(TermWeight(g, s, e), EqAt(g.challenges[..k], sh % q), EqAt(g.challenges[k..], x + sh / q));
  }

  lemma SplitParts(g: Affine, s: Seg, k: nat)
    requires SegOk(g, s) && SplitAt(g, k)
    ensures |g.digits| > 0 && k <= |g.challenges| && LowLen(g) == Pow2(k)
  { }

  /** A row starting at high index x and low address a is the carry-weighted contraction of its summaries. */
  lemma RowFactors(g: Affine, s: Seg, k: nat, a: nat, x: nat, count: nat)
    requires SegOk(g, s) && SplitAt(g, k) && a < LowLen(g)
    requires forall e :: 0 <= e < TermCount(g, s) ==> 0 <= Carry(g, a, e) < count
    ensures RowSum(g, s, Join(x, LowLen(g), a)) == Sum(HighTerms(g, s, k, a, x), count)
  {
    var n := TermCount(g, s);
    RowSumIs(g, s, Join(x, LowLen(g), a));
    hide *;
    SplitParts(g, s, k);
    var v, key := LowValues(g, s, k, a), Carries(g, a);
    var eq := From(Entries(g.challenges[k..]), x);
    var direct, dot := RowTerms(g, s, Join(x, LowLen(g), a)), HighTerms(g, s, k, a, x);
    forall e | 0 <= e < n ensures 0 <= key(e) < count && direct(e) == Mul(v(e), eq(key(e))) {
      RowTermSplits(g, s, k, a, x, e);
      LowAt(g, s, k, a, e);
      EntryFrom(g.challenges[k..], x, Carry(g, a, e));
    }
    forall c | 0 <= c < count ensures dot(c) == Mul(Bucket(v, key, c, n), eq(c)) {
      HighTermAt(g, s, k, a, x, c);
      EntryFrom(g.challenges[k..], x, c);
    }
    BucketDot(v, key, eq, dot, direct, n, count);
  }

  lemma EntryFrom(r: seq<F>, x: int, c: int) ensures From(Entries(r), x)(c) == EqInt(r, x + c) { }

  lemma LowAt(g: Affine, s: Seg, k: nat, a: nat, e: int)
    requires |g.digits| > 0 && k <= |g.challenges|
    ensures LowValues(g, s, k, a)(e) == LowValue(g, s, k, a, e) && Carries(g, a)(e) == Carry(g, a, e)
  { }

  lemma HighTermAt(g: Affine, s: Seg, k: nat, a: nat, x: int, c: int)
    requires SegOk(g, s) && k <= |g.challenges|
    ensures HighTerms(g, s, k, a, x)(c) ==
      Mul(Bucket(LowValues(g, s, k, a), Carries(g, a), c, TermCount(g, s)), EqInt(g.challenges[k..], x + c))
  {   }

  // ----- the dense builders

  /** summaries[c] is Summary c, for every carry in the support. */
  ghost predicate Summaries(out: seq<F>, g: Affine, s: Seg, k: nat, a: nat)
    requires SegOk(g, s) && k <= |g.challenges|
  {
    |out| == CarryCount(g, s, a) && Holds(out, LowValues(g, s, k, a), Carries(g, a), TermCount(g, s))
  }

  /** The low equality table, when one was built. */
  ghost predicate TableFor(table: Option<seq<F>>, g: Affine, k: nat) {
    k <= |g.challenges| && (table.Some? ==> table.value == EqTable(g.challenges[..k]))
  }

  method BuildDense(g: Affine, s: Seg, k: nat, a: nat, table: Option<seq<F>>) returns (out: seq<F>)
    requires SegOk(g, s) && SplitAt(g, k) && a < LowLen(g) && |g.low| > 0 && TableFor(table, g, k)
    requires k <= USIZE_BITS
    ensures Summaries(out, g, s, k, a)
  {
    hide *;
    SplitParts(g, s, k); SegSpan(g, s);
    ghost var v, key := LowValues(g, s, k, a), Carries(g, a);
    out := seq(CarryCount(g, s, a), _ => Zero);
    HoldsNothing(out, v, key);
    TimesZero(|g.digits|);
    for low := s.lowStart to s.lowEnd
      invariant |out| == CarryCount(g, s, a) && Times(low - s.lowStart, |g.digits|) >= 0
      invariant Holds(out, v, key, Times(low - s.lowStart, |g.digits|))
    {
      out := DenseDigits(g, s, k, a, table, low, out);
    }
    SummariesIntro(out, g, s, k, a);
  }

  /** The digits of one low position. */
  method DenseDigits(g: Affine, s: Seg, k: nat, a: nat, table: Option<seq<F>>, low: nat, before: seq<F>) returns (out: seq<F>)
    requires SegOk(g, s) && SplitAt(g, k) && a < LowLen(g) && |g.low| > 0 && TableFor(table, g, k)
    requires k <= USIZE_BITS && s.lowStart <= low < s.lowEnd && Times(low - s.lowStart, |g.digits|) >= 0
    requires |before| == CarryCount(g, s, a)
    requires Holds(before, LowValues(g, s, k, a), Carries(g, a), Times(low - s.lowStart, |g.digits|))
    ensures |out| == CarryCount(g, s, a) && Times(low + 1 - s.lowStart, |g.digits|) >= 0
    ensures Holds(out, LowValues(g, s, k, a), Carries(g, a), Times(low + 1 - s.lowStart, |g.digits|))
  {
    hide *;
    SplitParts(g, s, k); SegSpan(g, s);
    ghost var v, key := LowValues(g, s, k, a), Carries(g, a);
    ghost var l := low - s.lowStart;
    out := before;
    for digit := 0 to |g.digits|
      invariant |out| == CarryCount(g, s, a)
      invariant Holds(out, v, key, Times(l, |g.digits|) + digit)
    {
      ghost var e := Join(l, |g.digits|, digit);
      JoinIs(l, |g.digits|, digit);
      DenseTerm(g, s, k, a, l, digit);
      var shifted := a + Times(g.outerStride, low - s.lowStart) + Times(g.digitStride, digit);
      var carry := shifted / LowLen(g);
      var eqLow := LowEq(g, k, table, shifted % LowLen(g));
      var value := Mul(g.low[low], Mul(g.digits[digit], eqLow));
      CarryInside(g, s, a, e);
      HoldsNext(out, v, key, e);
      out := out[carry := Add(out[carry], value)];
    }
    TimesStep(l, |g.digits|);
  }

  lemma SummariesIntro(out: seq<F>, g: Affine, s: Seg, k: nat, a: nat)
    requires SegOk(g, s) && k <= |g.challenges| && |out| == CarryCount(g, s, a)
    requires Times(Span(s), |g.digits|) >= 0 && Holds(out, LowValues(g, s, k, a), Carries(g, a), Times(Span(s), |g.digits|))
    ensures Summaries(out, g, s, k, a)
  {
    hide Holds, Times, LowValues, Carries, CarryCount;
  }

  /** A table lookup, or the scalar primitive when there is no table. */
  method LowEq(g: Affine, k: nat, table: Option<seq<F>>, index: nat) returns (v: F)
    requires TableFor(table, g, k) && k <= USIZE_BITS && index < Pow2(k)
    ensures v == EqAt(g.challenges[..k], index)
  {
    hide EqAt, EqEvalAtIndex, Pow2;
    match table {
      case Some(t) =>
        EqEntries(g.challenges[..k]);
        v := t[index];
      case None =>
        Pow2Mono(k, 64); Pow2Of64();
        EqEvalAtIndexIsEq(g.challenges[..k], index);
        v := EqEvalAtIndex(g.challenges[..k], index);
    }
  }

  /** The dense loop's carry and value for low position l and digit d are those of term l D + d. */
  lemma DenseTerm(g: Affine, s: Seg, k: nat, a: nat, l: nat, d: nat)
    requires SegOk(g, s) && SplitAt(g, k) && |g.low| > 0 && l < Span(s) && d < |g.digits|
    ensures
      var e := Join(l, |g.digits|, d);
      var shifted := a + Times(g.outerStride, l) + Times(g.digitStride, d);
      && e < TermCount(g, s) && shifted >= 0 && LowLen(g) == Pow2(k)
      && shifted % LowLen(g) < Pow2(k) && s.lowStart + l < |g.low|
      && Carries(g, a)(e) == Carry(g, a, e) == shifted / LowLen(g)
      && LowValues(g, s, k, a)(e) == Mul(g.low[s.lowStart + l], Mul(g.digits[d], EqAt(g.challenges[..k], shifted % LowLen(g))))
  {
    hide EqAt, Mul, Pow2;
    var e := Join(l, |g.digits|, d);
    JoinSplit(l, |g.digits|, d, Span(s));
    TermParts(g, s, k, a, 0, e);
    MulAssoc(g.low[s.lowStart + l], g.digits[d], EqAt(g.challenges[..k], Shift(g, a, e) % LowLen(g)));
  }

  /** The unit low factor: digit d carries digitStride * d. */
  method BuildIdentity(g: Affine, s: Seg) returns (out: seq<F>)
    requires SegOk(g, s) && |g.low| == 0
    ensures Summaries(out, g, s, 0, 0)
  {
    var n := |g.digits|;
    ghost var v, key := LowValues(g, s, 0, 0), Carries(g, 0);
    var count := CarryCount(g, s, 0);
    out := seq(count, _ => Zero);
    hide *;
    HoldsNothing(out, v, key);
    for digit := 0 to n
      invariant |out| == count && Holds(out, v, key, digit)
    {
      IdentityTerm(g, s, digit);
      CarryInside(g, s, 0, digit);
      HoldsNext(out, v, key, digit);
      var carry := Times(g.digitStride, digit);
      out := out[carry := Add(out[carry], g.digits[digit])];
    }
    IdentityCount(g, s);
    SummariesIntro(out, g, s, 0, 0);
  }

  lemma IdentityCount(g: Affine, s: Seg)
    requires SegOk(g, s) && |g.low| == 0
    ensures Times(Span(s), |g.digits|) == |g.digits|
  { }

  lemma IdentityTerm(g: Affine, s: Seg, d: nat)
    requires SegOk(g, s) && |g.low| == 0 && d < |g.digits|
    ensures d < TermCount(g, s) && Times(g.digitStride, d) >= 0
    ensures Carries(g, 0)(d) == Carry(g, 0, d) == Times(g.digitStride, d)
    ensures LowValues(g, s, 0, 0)(d) == g.digits[d]
  {
    hide EqAt, Mul;
    DivModUnique(d, |g.digits|, 0, d);
    TimesNat(g.digitStride, d);
    TimesZero(g.outerStride);
    TermParts(g, s, 0, 0, 0, d);
    EqNil(0);
    MulOne(g.digits[d]);
  }

  // ----- the geometric prefix scan

  function PrefixTerms(r: F, e: seq<F>): int -> F { (u: int) => Mul(Pow(r, u), At(e, u)) }

  lemma PrefixTermAt(r: F, e: seq<F>, u: int) ensures PrefixTerms(r, e)(u) == Mul(Pow(r, u), At(e, u)) { }

  /** A window inside one block, from two prefix values: the sum over d of d0 r^d e[s + d]. */
  lemma WindowFromPrefix(d0: F, r: F, e: seq<F>, s: nat, count: nat, f: int -> F)
    requires r != Zero
    requires forall d :: 0 <= d < count ==> f(d) == Mul(Mul(d0, Pow(r, d)), At(e, s + d))
    ensures Sum(f, count) ==
      Mul(Mul(d0, Pow(Inv(r), s)), Sub(Sum(PrefixTerms(r, e), s + count), Sum(PrefixTerms(r, e), s)))
  {
    hide *;
    var p := PrefixTerms(r, e);
    var tail := (d: int) => p(s + d);
    SumSplit(p, tail, s, count);
    SubUnique(Sum(p, s + count), Sum(p, s), Sum(tail, count));
    var anchor := Pow(Inv(r), s);
    forall d | 0 <= d < count ensures f(d) == Mul(Mul(d0, anchor), tail(d)) {
      PrefixTermAt(r, e, s + d);
      PowAdd(r, s, d);
      PowOfProduct(r, Inv(r), s); MulInv(r); PowOfOne(s);
      var a, b, v := Pow(r, s), Pow(r, d), At(e, s + d);
      // (d0 anchor) ((a b) v) = d0 ((anchor a) (b v)) = d0 (b v)
      MulAssoc(a, b, v); MulAssoc(d0, anchor, Mul(a, Mul(b, v))); MulAssoc(anchor, a, Mul(b, v));
      MulComm(anchor, a); MulOne(Mul(b, v)); MulAssoc(d0, b, v);
    }
    SumScale(Mul(d0, anchor), tail, f, count);
  }

  /** The wrapped part, from the start of the next block: the sum over d of d0 r^(c + d) e[d]. */
  lemma WrapFromPrefix(d0: F, r: F, e: seq<F>, c: nat, count: nat, f: int -> F)
    requires forall d :: 0 <= d < count ==> f(d) == Mul(Mul(d0, Pow(r, c + d)), At(e, d))
    ensures Sum(f, count) == Mul(Mul(d0, Pow(r, c)), Sum(PrefixTerms(r, e), count))
  {
    hide *;
    var p := PrefixTerms(r, e);
    forall d | 0 <= d < count ensures f(d) == Mul(Mul(d0, Pow(r, c)), p(d)) {
      PrefixTermAt(r, e, d);
      PowAdd(r, c, d);
      MulAssoc(d0, Pow(r, c), Pow(r, d)); MulAssoc(Mul(d0, Pow(r, c)), Pow(r, d), At(e, d));
    }
    SumScale(Mul(d0, Pow(r, c)), p, f, count);
  }
}
