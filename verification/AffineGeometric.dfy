/**
 The geometric prefix scan.
 Models `build_geometric_low_summaries` of crates/akita-algebra/src/offset_eq.rs.
 */
module AffineGeometric {
  import opened Arith
  import opened Field
  import opened Sums
  import opened Powers
  import opened EqPoly
  import opened Buckets
  import opened AffineSpec
  import opened AffineLow

  /** The ratio of the first two digit weights, one for a single digit. */
  function Ratio(g: Affine): F
    requires |g.digits| > 0
  {
    if |g.digits| >= 2 then Mul(g.digits[1], Inv(g.digits[0])) else One
  }

  /** The digit weights are geometric with a nonzero first weight and ratio. */
  ghost predicate IsGeometric(g: Affine) {
    && |g.digits| > 0 && g.digits[0] != Zero && Ratio(g) != Zero
    && forall i :: 0 <= i < |g.digits| ==> g.digits[i] == Mul(g.digits[0], Pow(Ratio(g), i))
  }

  /** d, d r, d r^2, ... for a nonzero ratio r. */
  ghost predicate GeometricBy(digits: seq<F>, r: F) {
    r != Zero && forall i :: 0 <= i < |digits| ==> digits[i] == Mul(digits[0], Pow(r, i))
  }

  /** The test on the first two digits finds the ratio whenever there is one. */
  lemma GeometricMeans(g: Affine)
    ensures IsGeometric(g) <==> |g.digits| > 0 && g.digits[0] != Zero && exists r: F :: GeometricBy(g.digits, r)
  {
    if IsGeometric(g) { assert GeometricBy(g.digits, Ratio(g)); }
    if |g.digits| > 0 && g.digits[0] != Zero && exists r: F :: GeometricBy(g.digits, r) {
      var r: F :| GeometricBy(g.digits, r);
      if |g.digits| >= 2 { RatioIs(g, r); } else { SingleDigit(g); }
    }
  }

  lemma SingleDigit(g: Affine)
    requires |g.digits| == 1 && g.digits[0] != Zero
    ensures IsGeometric(g)
  {
    PowNil(One); MulOne(g.digits[0]); OneIsNotZero();
  }

  lemma RatioIs(g: Affine, r: F)
    requires |g.digits| >= 2 && g.digits[0] != Zero && GeometricBy(g.digits, r)
    ensures Ratio(g) == r
  {
    var d := g.digits[0];
    assert g.digits[1] == Mul(d, Pow(r, 1));
    PowNil(r);
    MulComm(d, r); MulAssoc(r, d, Inv(d)); MulInv(d); MulOne(r);
  }

  /** The tables the scan reads: powers, inverse powers and prefix sums of the low table. */
  datatype Scan = Scan(d0: F, rpow: seq<F>, rinvpow: seq<F>, prefix: seq<F>)

  ghost predicate ScanFor(t: Scan, g: Affine, e: seq<F>)
    requires |g.digits| > 0
  {
    var r := Ratio(g);
    && t.d0 == g.digits[0]
    && |t.rpow| == |e| + 1 && (forall i :: 0 <= i <= |e| ==> t.rpow[i] == Pow(r, i))
    && |t.rinvpow| == |e| && (forall i :: 0 <= i < |e| ==> t.rinvpow[i] == Pow(Inv(r), i))
    && |t.prefix| == |e| + 1 && (forall i :: 0 <= i <= |e| ==> t.prefix[i] == Sum(PrefixTerms(r, e), i))
  }

  method PowerRow(r: F, count: nat) returns (table: seq<F>)
    ensures |table| == count && forall i :: 0 <= i < count ==> table[i] == Pow(r, i)
  {
    hide Pow, Mul;
    table := seq(count, _ => One);
    PowNil(r);
    var i := 1;
    while i < count
      invariant i >= 1 && |table| == count && forall j :: 0 <= j < i && j < count ==> table[j] == Pow(r, j)
    {
      PowStep(r, i);
      table := table[i := Mul(table[i - 1], r)];
      i := i + 1;
    }
  }

  method Prefixes(r: F, rpow: seq<F>, e: seq<F>) returns (prefix: seq<F>)
    requires |rpow| == |e| + 1 && forall i :: 0 <= i <= |e| ==> rpow[i] == Pow(r, i)
    ensures |prefix| == |e| + 1 && forall i :: 0 <= i <= |e| ==> prefix[i] == Sum(PrefixTerms(r, e), i)
  {
    hide Pow, Mul, Sum, Add;
    prefix := [Zero];
    SumNil(PrefixTerms(r, e));
    for u := 0 to |e|
      invariant |prefix| == u + 1 && forall i :: 0 <= i <= u ==> prefix[i] == Sum(PrefixTerms(r, e), i)
    {
      SumSnoc(PrefixTerms(r, e), u + 1);
      prefix := prefix + [Add(prefix[u], Mul(rpow[u], e[u]))];
    }
  }

  /** The scan's window of low position l: carry, low index, and how many digits stay in the block. */
  function Start(g: Affine, a: nat, l: nat): nat { TimesNat(g.outerStride, l); a + Times(g.outerStride, l) }

  /** Low position l starts at block `carry`, low index `pos`. */
  ghost predicate StartsAt(g: Affine, a: nat, l: nat, carry: nat, pos: nat) {
    Start(g, a, l) == Times(carry, LowLen(g)) + pos && pos < LowLen(g)
  }

  lemma WrapDivMod(carry: nat, q: nat, pos: nat, d: nat)
    requires pos < q && d < q
    ensures Times(carry, q) + pos + d >= 0
    ensures (Times(carry, q) + pos + d) / q == if pos + d >= q then carry + 1 else carry
    ensures (Times(carry, q) + pos + d) % q == if pos + d >= q then pos + d - q else pos + d
  {
    TimesNat(carry, q);
    var x := carry * q + pos + d;
    if pos + d >= q { DivModUnique(x, q, carry + 1, pos + d - q); } else { DivModUnique(x, q, carry, pos + d); }
  }

  /** The digits of one window stay in its block up to its end and continue at the start of the next one. */
  lemma WindowDigit(g: Affine, s: Seg, k: nat, a: nat, e: seq<F>, l: nat, d: nat, carry: nat, pos: nat)
    requires SegOk(g, s) && SplitAt(g, k) && |g.low| > 0 && g.digitStride == 1 && IsGeometric(g)
    requires e == EqTable(g.challenges[..k]) && |g.digits| <= LowLen(g) && l < Span(s) && d < |g.digits|
    requires StartsAt(g, a, l, carry, pos)
    ensures s.lowStart + l < |g.low| && Times(l, |g.digits|) >= 0
    ensures
      var q := LowLen(g);
      && Carries(g, a)(Times(l, |g.digits|) + d) == (if pos + d >= q then carry + 1 else carry)
      && LowValues(g, s, k, a)(Times(l, |g.digits|) + d) ==
           Mul(g.low[s.lowStart + l],
               Mul(Mul(g.digits[0], Pow(Ratio(g), d)), At(e, if pos + d >= q then pos + d - q else pos + d)))
  {
    hide *;
    SplitParts(g, s, k);
    DenseTerm(g, s, k, a, l, d);
    JoinIs(l, |g.digits|, d); TimesNat(l, |g.digits|);
    TimesOne(d);
    StartIs(g, a, l, carry, pos);
    WrapDivMod(carry, LowLen(g), pos, d);
    GeometricDigit(g, d);
    EqEntries(g.challenges[..k]); AtInside(e);
  }

  lemma StartIs(g: Affine, a: nat, l: nat, carry: nat, pos: nat)
    requires StartsAt(g, a, l, carry, pos)
    ensures a + Times(g.outerStride, l) == Times(carry, LowLen(g)) + pos && pos < LowLen(g)
  { }

  lemma GeometricDigit(g: Affine, d: nat)
    requires IsGeometric(g) && d < |g.digits|
    ensures g.digits[d] == Mul(g.digits[0], Pow(Ratio(g), d)) && Ratio(g) != Zero
  { }

  function FirstPart(g: Affine, e: seq<F>, pos: nat, count1: nat): F
    requires |g.digits| > 0
  {
    var r := Ratio(g);
    Mul(Mul(g.digits[0], Pow(Inv(r), pos)), Sub(Sum(PrefixTerms(r, e), pos + count1), Sum(PrefixTerms(r, e), pos)))
  }

  function SecondPart(g: Affine, e: seq<F>, count1: nat): F
    requires 0 < |g.digits| && count1 <= |g.digits|
  {
    var r := Ratio(g);
    Mul(Mul(g.digits[0], Pow(r, count1)), Sum(PrefixTerms(r, e), |g.digits| - count1))
  }

  lemma PartsAre(g: Affine, e: seq<F>, pos: nat, count1: nat)
    requires 0 < |g.digits| && count1 <= |g.digits|
    ensures
      var r := Ratio(g);
      && FirstPart(g, e, pos, count1) ==
           Mul(Mul(g.digits[0], Pow(Inv(r), pos)), Sub(Sum(PrefixTerms(r, e), pos + count1), Sum(PrefixTerms(r, e), pos)))
      && SecondPart(g, e, count1) == Mul(Mul(g.digits[0], Pow(r, count1)), Sum(PrefixTerms(r, e), |g.digits| - count1))
  {
    hide Mul, Pow, Sub, Sum, PrefixTerms, Ratio;
  }

  /** What low position l adds to bucket c. */
  function BlockValue(g: Affine, s: Seg, e: seq<F>, l: nat, carry: nat, pos: nat, c: int): F
    requires SegOk(g, s) && l < Span(s) && |g.low| > 0 && pos < LowLen(g)
  {
    var count1 := Min(|g.digits|, LowLen(g) - pos);
    if c == carry then Mul(g.low[s.lowStart + l], FirstPart(g, e, pos, count1))
    else if c == carry + 1 && count1 < |g.digits| then Mul(g.low[s.lowStart + l], SecondPart(g, e, count1))
    else Zero
  }

  lemma GeometricBlock(g: Affine, s: Seg, k: nat, a: nat, e: seq<F>, l: nat, c: int, carry: nat, pos: nat)
    requires SegOk(g, s) && SplitAt(g, k) && |g.low| > 0 && g.digitStride == 1 && IsGeometric(g)
    requires e == EqTable(g.challenges[..k]) && |g.digits| <= LowLen(g) && l < Span(s)
    requires StartsAt(g, a, l, carry, pos)
    ensures
      var v, key, n := LowValues(g, s, k, a), Carries(g, a), |g.digits|;
      && Times(l, n) >= 0 && Times(l + 1, n) >= 0 && pos < LowLen(g)
      && Bucket(v, key, c, Times(l + 1, n)) == Add(Bucket(v, key, c, Times(l, n)), BlockValue(g, s, e, l, carry, pos, c))
  {
    hide *;
    SplitParts(g, s, k); StartIs(g, a, l, carry, pos);
    var v, key, n := LowValues(g, s, k, a), Carries(g, a), |g.digits|;
    TimesNat(l, n); TimesStep(l, n);
    var v', key' := (d: int) => v(Times(l, n) + d), (d: int) => key(Times(l, n) + d);
    BucketSplit(v, key, v', key', c, Times(l, n), n);
    WindowBucket(g, s, k, a, e, l, c, carry, pos, v', key');
  }

  lemma WindowBucket(g: Affine, s: Seg, k: nat, a: nat, e: seq<F>, l: nat, c: int, carry: nat, pos: nat, v: int -> F, key: int -> int)
    requires SegOk(g, s) && SplitAt(g, k) && |g.low| > 0 && g.digitStride == 1 && IsGeometric(g)
    requires e == EqTable(g.challenges[..k]) && |g.digits| <= LowLen(g) && l < Span(s)
    requires StartsAt(g, a, l, carry, pos) && pos < LowLen(g)
    requires forall d :: 0 <= d < |g.digits| ==>
      v(d) == LowValues(g, s, k, a)(Times(l, |g.digits|) + d) && key(d) == Carries(g, a)(Times(l, |g.digits|) + d)
    ensures Bucket(v, key, c, |g.digits|) == BlockValue(g, s, e, l, carry, pos, c)
  {
    hide *;
    SplitParts(g, s, k); SegSpan(g, s);
    var n, q := |g.digits|, LowLen(g);
    WindowInside(g, s, l);
    GeometricDigit(g, 0);
    var lw, d0, r := g.low[s.lowStart + l], g.digits[0], Ratio(g);
    forall d | 0 <= d < n
      ensures key(d) == if pos + d >= q then carry + 1 else carry
      ensures v(d) == Mul(lw, Mul(Mul(d0, Pow(r, d)), At(e, if pos + d >= q then pos + d - q else pos + d)))
    {
      WindowDigit(g, s, k, a, e, l, d, carry, pos);
    }
    BlockBucket(v, key, c, carry, n, lw, d0, r, e, pos, q);
    PartsAre(g, e, pos, if n <= q - pos then n else q - pos);
    BlockValueIs(g, s, e, l, carry, pos, c);
  }

  /** A window's terms, gathered by block. */
  lemma BlockBucket(v: int -> F, key: int -> int, c: int, carry: nat, n: nat, lw: F, d0: F, r: F, e: seq<F>, pos: nat, q: nat)
    requires pos < q && n <= q && r != Zero
    requires forall d :: 0 <= d < n ==> key(d) == if pos + d >= q then carry + 1 else carry
    requires forall d :: 0 <= d < n ==>
      v(d) == Mul(lw, Mul(Mul(d0, Pow(r, d)), At(e, if pos + d >= q then pos + d - q else pos + d)))
    ensures
      var count1 := if n <= q - pos then n else q - pos;
      Bucket(v, key, c, n) ==
        if c == carry then
          Mul(lw, Mul(Mul(d0, Pow(Inv(r), pos)), Sub(Sum(PrefixTerms(r, e), pos + count1), Sum(PrefixTerms(r, e), pos))))
        else if c == carry + 1 && count1 < n then
          Mul(lw, Mul(Mul(d0, Pow(r, count1)), Sum(PrefixTerms(r, e), n - count1)))
        else Zero
  {
    hide *;
    var count1 := if n <= q - pos then n else q - pos;
    if c == carry { BlockFirst(v, key, c, n, count1, lw, d0, r, e, pos, q); }
    else if c == carry + 1 { BlockSecond(v, key, c, n, count1, lw, d0, r, e, pos, q); }
    else { BlockOther(v, key, c, carry, n); }
  }

  lemma WindowInside(g: Affine, s: Seg, l: nat)
    requires SegOk(g, s) && l < Span(s) && |g.low| > 0
    ensures s.lowStart + l < |g.low|
  { }

  lemma BlockValueIs(g: Affine, s: Seg, e: seq<F>, l: nat, carry: nat, pos: nat, c: int)
    requires SegOk(g, s) && l < Span(s) && |g.low| > 0 && pos < LowLen(g) && s.lowStart + l < |g.low| && |g.digits| > 0
    ensures
      var n := |g.digits|;
      var count1 := if n <= LowLen(g) - pos then n else LowLen(g) - pos;
      BlockValue(g, s, e, l, carry, pos, c) ==
        if c == carry then Mul(g.low[s.lowStart + l], FirstPart(g, e, pos, count1))
        else if c == carry + 1 && count1 < n then Mul(g.low[s.lowStart + l], SecondPart(g, e, count1))
        else Zero
  {
    hide Mul, FirstPart, SecondPart, LowLen;
  }

  /** Digit c + d of a geometric sequence against entry low + d. */
  function WindowTerms(d0: F, r: F, e: seq<F>, c: int, low: int): int -> F {
    (d: int) => Mul(Mul(d0, Pow(r, c + d)), At(e, low + d))
  }

  lemma WindowTermIs(d0: F, r: F, e: seq<F>, c: int, low: int, d: int)
    ensures WindowTerms(d0, r, e, c, low)(d) == Mul(Mul(d0, Pow(r, c + d)), At(e, low + d))
  { }

  /** The part of a window in its own block. */
  lemma BlockFirst(v: int -> F, key: int -> int, c: int, n: nat, count1: nat, lw: F, d0: F, r: F, e: seq<F>, low: nat, q: nat)
    requires low < q && n <= q && r != Zero && count1 == (if n <= q - low then n else q - low)
    requires forall d :: 0 <= d < n ==> key(d) == if low + d >= q then c + 1 else c
    requires forall d :: 0 <= d < n ==>
      v(d) == Mul(lw, Mul(Mul(d0, Pow(r, d)), At(e, if low + d >= q then low + d - q else low + d)))
    ensures Bucket(v, key, c, n) ==
      Mul(lw, Mul(Mul(d0, Pow(Inv(r), low)), Sub(Sum(PrefixTerms(r, e), low + count1), Sum(PrefixTerms(r, e), low))))
  {
    hide *;
    var terms := BucketTerms(v, key, c);
    BucketIsSum(v, key, c, n);
    SumFrom(terms, count1, n - count1);
    var f := WindowTerms(d0, r, e, 0, low);
    forall d | 0 <= d < count1 ensures terms(d) == Mul(lw, f(d)) { BucketTermAt(v, key, c, d); WindowTermIs(d0, r, e, 0, low, d); }
    SumScale(lw, f, terms, count1);
    forall d | 0 <= d < count1 ensures f(d) == Mul(Mul(d0, Pow(r, d)), At(e, low + d)) { WindowTermIs(d0, r, e, 0, low, d); }
    WindowFromPrefix(d0, r, e, low, count1, f);
    forall d | 0 <= d < n - count1 ensures From(terms, count1)(d) == Zero { FromAt(terms, count1, d); BucketTermAt(v, key, c, count1 + d); }
    SumZero(From(terms, count1), n - count1);
    AddZero(Sum(terms, count1));
  }

  lemma WrapTerm(value: F, slot: int, v: int -> F, key: int -> int, c: int, lw: F, d0: F, r: F, e: seq<F>, count1: nat, d: nat)
    requires value == v(count1 + d) && slot == key(count1 + d) && slot == c
    requires value == Mul(lw, Mul(Mul(d0, Pow(r, count1 + d)), At(e, d)))
    ensures BucketTerms(v, key, c)(count1 + d) == Mul(lw, WindowTerms(d0, r, e, count1, 0)(d))
  {
    hide *;
    BucketTermAt(v, key, c, count1 + d);
    WindowTermIs(d0, r, e, count1, 0, d);
  }

  /** The part of a window wrapped into the next block. */
  lemma BlockSecond(v: int -> F, key: int -> int, c: int, n: nat, count1: nat, lw: F, d0: F, r: F, e: seq<F>, low: nat, q: nat)
    requires low < q && n <= q && count1 == (if n <= q - low then n else q - low)
    requires forall d :: 0 <= d < n ==> key(d) == if low + d >= q then c else c - 1
    requires forall d :: 0 <= d < n ==>
      v(d) == Mul(lw, Mul(Mul(d0, Pow(r, d)), At(e, if low + d >= q then low + d - q else low + d)))
    ensures Bucket(v, key, c, n) ==
      if count1 < n then Mul(lw, Mul(Mul(d0, Pow(r, count1)), Sum(PrefixTerms(r, e), n - count1))) else Zero
  {
    hide *;
    var terms := BucketTerms(v, key, c);
    var rest := From(terms, count1);
    BucketIsSum(v, key, c, n);
    SumFrom(terms, count1, n - count1);
    forall d | 0 <= d < count1 ensures terms(d) == Zero { BucketTermAt(v, key, c, d); }
    SumZero(terms, count1);
    AddZero(Sum(rest, n - count1));
    if count1 == n { SumNil(rest); } else {
      var f := WindowTerms(d0, r, e, count1, 0);
      forall d | 0 <= d < n - count1 ensures rest(d) == Mul(lw, f(d)) {
        FromAt(terms, count1, d);
        WrapTerm(v(count1 + d), key(count1 + d), v, key, c, lw, d0, r, e, count1, d);
      }
      SumScale(lw, f, rest, n - count1);
      forall d | 0 <= d < n - count1 ensures f(d) == Mul(Mul(d0, Pow(r, count1 + d)), At(e, d)) { WindowTermIs(d0, r, e, count1, 0, d); }
      WrapFromPrefix(d0, r, e, count1, n - count1, f);
    }
  }

  lemma BlockOther(v: int -> F, key: int -> int, c: int, carry: int, n: nat)
    requires c != carry && c != carry + 1
    requires forall d :: 0 <= d < n ==> key(d) == carry || key(d) == carry + 1
    ensures Bucket(v, key, c, n) == Zero
  {
    hide *;
    BucketIsSum(v, key, c, n);
    forall d | 0 <= d < n ensures BucketTerms(v, key, c)(d) == Zero { BucketTermAt(v, key, c, d); }
    SumZero(BucketTerms(v, key, c), n);
  }

  /** One low position of the scan: its window's value, and the wrapped remainder when there is one. */
  method ScanStep(g: Affine, s: Seg, k: nat, a: nat, ghost e: seq<F>, t: Scan, low: nat, before: seq<F>) returns (out: seq<F>)
    requires SegOk(g, s) && SplitAt(g, k) && |g.low| > 0 && g.digitStride == 1 && IsGeometric(g)
    requires e == EqTable(g.challenges[..k]) && |g.digits| <= LowLen(g) && ScanFor(t, g, e)
    requires s.lowStart <= low < s.lowEnd && |before| == CarryCount(g, s, a)
    requires Times(low - s.lowStart, |g.digits|) >= 0
    requires Holds(before, LowValues(g, s, k, a), Carries(g, a), Times(low - s.lowStart, |g.digits|))
    ensures |out| == CarryCount(g, s, a) && Times(low + 1 - s.lowStart, |g.digits|) >= 0
    ensures Holds(out, LowValues(g, s, k, a), Carries(g, a), Times(low + 1 - s.lowStart, |g.digits|))
  {
    hide *;
    SplitParts(g, s, k); SegSpan(g, s); ScanParts(t, g, k, e);
    var delta, lowLen := |g.digits|, LowLen(g);
    var start := Start(g, a, low - s.lowStart);
    DivModIs(start, lowLen);
    var carry, pos := start / lowLen, start % lowLen;
    var count1 := if delta <= lowLen - pos then delta else lowLen - pos;
    var first := Mul(Mul(t.d0, t.rinvpow[pos]), Sub(t.prefix[pos + count1], t.prefix[pos]));
    var second := Mul(Mul(t.d0, t.rpow[count1]), t.prefix[delta - count1]);
    ghost var l := low - s.lowStart;
    StartSplit(g, a, l, carry, pos);
    WindowCarries(g, s, a, l, carry, pos);
    WindowInside(g, s, l);
    out := before[carry := Add(before[carry], Mul(g.low[low], first))];
    if count1 < delta {
      out := out[carry + 1 := Add(out[carry + 1], Mul(g.low[low], second))];
    }
    PartsAre(g, e, pos, count1);
    ScanHolds(g, s, k, a, e, l, carry, pos, before, out);
  }

  /** Adding a window's two parts to their buckets moves the buckets on to the next low position. */
  lemma ScanHolds(g: Affine, s: Seg, k: nat, a: nat, e: seq<F>, l: nat, carry: nat, pos: nat, before: seq<F>, out: seq<F>)
    requires SegOk(g, s) && SplitAt(g, k) && |g.low| > 0 && g.digitStride == 1 && IsGeometric(g)
    requires e == EqTable(g.challenges[..k]) && |g.digits| <= LowLen(g) && l < Span(s) && s.lowStart + l < |g.low|
    requires StartsAt(g, a, l, carry, pos) && pos < LowLen(g)
    requires |before| == |out| && Times(l, |g.digits|) >= 0
    requires Holds(before, LowValues(g, s, k, a), Carries(g, a), Times(l, |g.digits|))
    requires
      var n := |g.digits|;
      var count1 := if n <= LowLen(g) - pos then n else LowLen(g) - pos;
      forall c :: 0 <= c < |out| ==>
        out[c] ==
          if c == carry then Add(before[c], Mul(g.low[s.lowStart + l], FirstPart(g, e, pos, count1)))
          else if c == carry + 1 && count1 < n then Add(before[c], Mul(g.low[s.lowStart + l], SecondPart(g, e, count1)))
          else before[c]
    ensures Times(l + 1, |g.digits|) >= 0
    ensures Holds(out, LowValues(g, s, k, a), Carries(g, a), Times(l + 1, |g.digits|))
  {
    hide *;
    SplitParts(g, s, k);
    TimesStep(l, |g.digits|);
    forall c | 0 <= c < |out|
      ensures out[c] == Bucket(LowValues(g, s, k, a), Carries(g, a), c, Times(l + 1, |g.digits|))
    {
      GeometricBlock(g, s, k, a, e, l, c, carry, pos);
      BlockValueIs(g, s, e, l, carry, pos, c);
      HoldsAt(before, LowValues(g, s, k, a), Carries(g, a), Times(l, |g.digits|), c);
      AddZero(before[c]);
    }
    HoldsIntro(out, LowValues(g, s, k, a), Carries(g, a), Times(l + 1, |g.digits|));
  }

  lemma ScanParts(t: Scan, g: Affine, k: nat, e: seq<F>)
    requires |g.digits| > 0 && k <= |g.challenges| && LowLen(g) == Pow2(k) && |g.low| > 0
    requires ScanFor(t, g, e) && e == EqTable(g.challenges[..k])
    ensures
      var r, q := Ratio(g), LowLen(g);
      && |e| == q == |g.low| && t.d0 == g.digits[0]
      && |t.rpow| == q + 1 && (forall i :: 0 <= i <= q ==> t.rpow[i] == Pow(r, i))
      && |t.rinvpow| == q && (forall i :: 0 <= i < q ==> t.rinvpow[i] == Pow(Inv(r), i))
      && |t.prefix| == q + 1 && (forall i :: 0 <= i <= q ==> t.prefix[i] == Sum(PrefixTerms(r, e), i))
  { }

  lemma StartSplit(g: Affine, a: nat, l: nat, carry: nat, pos: nat)
    requires carry == Start(g, a, l) / LowLen(g) && pos == Start(g, a, l) % LowLen(g)
    ensures StartsAt(g, a, l, carry, pos)
  { }

  /** Both carries of a window lie in the support: a window wraps at most once. */
  lemma WindowCarries(g: Affine, s: Seg, a: nat, l: nat, carry: nat, pos: nat)
    requires SegOk(g, s) && g.digitStride == 1 && l < Span(s) && |g.digits| <= LowLen(g)
    requires StartsAt(g, a, l, carry, pos)
    ensures carry < CarryCount(g, s, a)
    ensures LowLen(g) - pos < |g.digits| ==> carry + 1 < CarryCount(g, s, a)
  {
    hide *;
    SegSpan(g, s); StartIs(g, a, l, carry, pos);
    var n, q := |g.digits|, LowLen(g);
    DigitCarry(g, s, a, l, 0); DigitCarry(g, s, a, l, n - 1);
    TimesOne(n - 1); TimesZero(1);
    WrapDivMod(carry, q, pos, 0); WrapDivMod(carry, q, pos, n - 1);
  }

  lemma DigitCarry(g: Affine, s: Seg, a: nat, l: nat, d: nat)
    requires SegOk(g, s) && l < Span(s) && d < |g.digits|
    ensures a + Times(g.outerStride, l) + Times(g.digitStride, d) >= 0
    ensures (a + Times(g.outerStride, l) + Times(g.digitStride, d)) / LowLen(g) < CarryCount(g, s, a)
  {
    hide CarryCount;
    JoinSplit(l, |g.digits|, d, Span(s));
    CarryInside(g, s, a, Join(l, |g.digits|, d));
  }

  /** When the scan is used: a window fits one block and the span is long enough to pay for the tables. */
  ghost predicate Eligible(g: Affine, s: Seg)
    requires SegOk(g, s)
  {
    |g.digits| <= LowLen(g) && Times(Span(s), |g.digits|) >= LowLen(g) && IsGeometric(g)
  }

  /** The prefix scan: it applies exactly to eligible geometric digits, and then gives the dense summaries. */
  method BuildGeometric(g: Affine, s: Seg, k: nat, a: nat, e: seq<F>) returns (res: Option<seq<F>>)
    requires SegOk(g, s) && SplitAt(g, k) && a < LowLen(g) && |g.low| > 0 && g.digitStride == 1
    requires e == EqTable(g.challenges[..k])
    ensures res.Some? <==> Eligible(g, s)
    ensures res.Some? ==> Summaries(res.value, g, s, k, a)
  {
    var delta, lowLen := |g.digits|, LowLen(g);
    if delta > lowLen || |e| != lowLen || Times(Span(s), delta) < lowLen { return None; }
    var d0 := g.digits[0];
    if d0 == Zero { return None; }
    var r := if delta >= 2 then Mul(g.digits[1], Inv(d0)) else One;
    if r == Zero { return None; }
    var rpow := PowerRow(r, lowLen + 1);
    for i := 0 to delta
      invariant forall j :: 0 <= j < i ==> g.digits[j] == Mul(d0, Pow(r, j))
    {
      if g.digits[i] != Mul(d0, rpow[i]) { return None; }
    }
    assert IsGeometric(g);
    var rinvpow := PowerRow(Inv(r), lowLen);
    var prefix := Prefixes(r, rpow, e);
    var scan := Scan(d0, rpow, rinvpow, prefix);
    assert ScanFor(scan, g, e);
    hide Eligible, Summaries;
    var out := ScanAll(g, s, k, a, e, scan);
    res := Some(out);
  }

  /** The scan over all low positions. */
  method ScanAll(g: Affine, s: Seg, k: nat, a: nat, ghost e: seq<F>, scan: Scan) returns (out: seq<F>)
    requires SegOk(g, s) && SplitAt(g, k) && |g.low| > 0 && g.digitStride == 1 && IsGeometric(g)
    requires e == EqTable(g.challenges[..k]) && |g.digits| <= LowLen(g) && ScanFor(scan, g, e)
    ensures k <= |g.challenges| && Summaries(out, g, s, k, a)
  {
    hide *;
    SegSpan(g, s); SplitParts(g, s, k);
    ghost var v, key := LowValues(g, s, k, a), Carries(g, a);
    out := seq(CarryCount(g, s, a), _ => Zero);
    HoldsNothing(out, v, key);
    TimesZero(|g.digits|);
    for low := s.lowStart to s.lowEnd
      invariant |out| == CarryCount(g, s, a) && Times(low - s.lowStart, |g.digits|) >= 0
      invariant Holds(out, v, key, Times(low - s.lowStart, |g.digits|))
    {
      out := ScanStep(g, s, k, a, e, scan, low, out);
    }
    SummariesIntro(out, g, s, k, a);
  }

  /** `build_affine_low_summaries`: the unit factor, the prefix scan when it applies, the dense loop otherwise. */
  method BuildSummaries(g: Affine, s: Seg, k: nat, a: nat, table: Option<seq<F>>) returns (out: seq<F>)
    requires SegOk(g, s) && SplitAt(g, k) && a < LowLen(g) && k <= USIZE_BITS && TableFor(table, g, k)
    requires |g.low| == 0 ==> k == 0
    ensures Summaries(out, g, s, k, a)
  {
    hide Summaries;
    if |g.low| == 0 {
      out := BuildIdentity(g, s);
      return;
    }
    if g.digitStride == 1 && table.Some? {
      var fast := BuildGeometric(g, s, k, a, table.value);
      if fast.Some? { return fast.value; }
    }
    out := BuildDense(g, s, k, a, table);
  }
}
