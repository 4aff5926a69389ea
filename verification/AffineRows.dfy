/**
 All bases of one segment: addresses sorted and grouped by their low residue.
 Models the address handling of `accumulate_affine_rows` of crates/akita-algebra/src/offset_eq.rs.
 */
module AffineRows {
  import opened Arith
  import opened Field
  import opened Sums
  import opened EqPoly
  import opened OffsetWindow
  import opened AffineSpec
  import opened AffineLow
  import opened AffineHigh
  import opened AffineBuckets
  import opened AffineGroup

  // ----- sorting by residue

  /** The sort key. */
  function Residue(a: AffineAddress, q: nat): nat requires q > 0 { a.first % q }

  ghost predicate ByResidue(adr: seq<AffineAddress>, q: nat)
    requires q > 0
  {
    forall i, j :: 0 <= i < j < |adr| ==> Residue(adr[i], q) <= Residue(adr[j], q)
  }

  /** Where an address goes: after every residue that is not larger. */
  function Slot(adr: seq<AffineAddress>, a: AffineAddress, q: nat): (n: nat)
    requires q > 0
    ensures n <= |adr|
    ensures forall i :: n <= i < |adr| ==> Residue(adr[i], q) > Residue(a, q)
    ensures n > 0 ==> Residue(adr[n - 1], q) <= Residue(a, q)
  {
    if |adr| == 0 || Residue(adr[|adr| - 1], q) <= Residue(a, q) then |adr| else Slot(adr[..|adr| - 1], a, q)
  }

  lemma InsertSorted(adr: seq<AffineAddress>, a: AffineAddress, q: nat, n: nat)
    requires q > 0 && ByResidue(adr, q) && n <= |adr|
    requires forall i :: n <= i < |adr| ==> Residue(adr[i], q) > Residue(a, q)
    requires n > 0 ==> Residue(adr[n - 1], q) <= Residue(a, q)
    ensures ByResidue(adr[..n] + [a] + adr[n..], q)
    ensures multiset(adr[..n] + [a] + adr[n..]) == multiset(adr) + multiset{a}
  {
    hide Residue;
    hide *;
    InsertOrder(adr, a, q, n);
    InsertMembers(adr[..n], a, adr[n..]);
    assert adr == adr[..n] + adr[n..];
  }

  lemma InsertMembers(x: seq<AffineAddress>, a: AffineAddress, y: seq<AffineAddress>)
    ensures multiset(x + [a] + y) == multiset(x + y) + multiset{a}
  {
    assert multiset(x + y) == multiset(x) + multiset(y);
  }

  lemma InsertOrder(adr: seq<AffineAddress>, a: AffineAddress, q: nat, n: nat)
    requires q > 0 && ByResidue(adr, q) && n <= |adr|
    requires forall i :: n <= i < |adr| ==> Residue(adr[i], q) > Residue(a, q)
    requires n > 0 ==> Residue(adr[n - 1], q) <= Residue(a, q)
    ensures ByResidue(adr[..n] + [a] + adr[n..], q)
  {
    hide Residue;
    var next := adr[..n] + [a] + adr[n..];
    forall i, j | 0 <= i < j < |next| ensures Residue(next[i], q) <= Residue(next[j], q) {
      var x, y := if i < n then adr[i] else if i == n then a else adr[i - 1], if j < n then adr[j] else if j == n then a else adr[j - 1];
      assert next[i] == x && next[j] == y;
      if i < n { assert i == n - 1 || Residue(adr[i], q) <= Residue(adr[n - 1], q); }
    }
  }

  /** `sort_unstable_by_key` on the low residue. */
  method SortByResidue(adr: seq<AffineAddress>, q: nat) returns (out: seq<AffineAddress>)
    requires q > 0
    ensures multiset(out) == multiset(adr) && ByResidue(out, q)
  {
    out := [];
    for i := 0 to |adr|
      invariant multiset(out) == multiset(adr[..i]) && ByResidue(out, q)
    {
      var n := Slot(out, adr[i], q);
      InsertSorted(out, adr[i], q, n);
      assert adr[..i + 1] == adr[..i] + [adr[i]];
      hide ByResidue;
      out := out[..n] + [adr[i]] + out[n..];
    }
    assert adr[..|adr|] == adr;
  }

  // ----- the addresses of a segment

  /** The address base b starts the segment at. */
  function Address(g: Affine, b: nat, delta: nat): AffineAddress
    requires b < |g.bases|
  {
    AffineAddress(g.bases[b] + delta, if b < |g.scales| then Some(g.scales[b]) else None)
  }

  /** The distance of the segment's first outer position from the window's start, in addresses. */
  function Delta(g: Affine, s: Seg): int { Times(g.outerStride, SegFirst(g, s) - g.outerStart) }

  function SegBase(g: Affine, s: Seg, b: int): F
    requires SegOk(g, s)
  {
    if 0 <= b < |g.bases| then Mul(BaseScale(g, b), SegSum(g, s, g.bases[b] + Delta(g, s))) else Zero
  }

  function SegBases(g: Affine, s: Seg): int -> F requires SegOk(g, s) { (b: int) => SegBase(g, s, b) }

  /** The segment's contribution over all bases. */
  function SegTotal(g: Affine, s: Seg): F
    requires SegOk(g, s)
  {
    Sum(SegBases(g, s), |g.bases|)
  }

  lemma AddressesSum(g: Affine, s: Seg, adr: seq<AffineAddress>)
    requires SegOk(g, s) && Delta(g, s) >= 0 && (|g.scales| == 0 || |g.scales| == |g.bases|)
    requires |adr| == |g.bases| && forall b :: 0 <= b < |adr| ==> adr[b] == Address(g, b, Delta(g, s))
    ensures AddressSum(g, s, adr) == SegTotal(g, s)
  {
    hide SegSum, Delta, Mul, AddressSum, Sum;
    AddressSumIs(g, s, adr, SegBases(g, s));
  }

  // ----- all bases

  /** What `eval_affine_digit_intervals` has checked by the time it accumulates a segment. */
  ghost predicate RowsReady(g: Affine, s: Seg, k: nat) {
    && GroupReady(g, s, k) && |g.bases| > 0
    && (|g.scales| == 0 || |g.scales| == |g.bases|)
    && SegFirst(g, s) >= g.outerStart && Delta(g, s) >= 0
    && (forall b :: 0 <= b < |g.bases| ==> SegFits(g, s, g.bases[b] + Delta(g, s)))
    && Times(Times(|g.bases|, s.rows), g.outerStride + 1) <= MAX_TERMS
  }

  lemma RowsParts(g: Affine, s: Seg, k: nat)
    requires RowsReady(g, s, k)
    ensures GroupReady(g, s, k) && |g.bases| > 0 && (|g.scales| == 0 || |g.scales| == |g.bases|)
    ensures SegOk(g, s) && SplitAt(g, k) && k <= |g.challenges| && s.rows > 0 && Delta(g, s) >= 0
    ensures forall b :: 0 <= b < |g.bases| ==> SegFits(g, s, g.bases[b] + Delta(g, s))
    ensures Times(Times(|g.bases|, s.rows), g.outerStride + 1) <= MAX_TERMS
  { }

  /** `accumulate_affine_rows`: adds the segment's contribution of every base. */
  method AccumulateRows(g: Affine, s: Seg, k: nat, out0: F) returns (out: F)
    requires RowsReady(g, s, k)
    ensures SegOk(g, s)
    ensures out == Add(out0, SegTotal(g, s))
  {
    hide *;
    RowsParts(g, s, k);
    var delta := Delta(g, s);
    var table := LowTable(g, k);
    var eq := AmortizedEq(g.challenges[k..], None);
    FreshEq(eq);
    if |g.bases| == 1 {
      var adr := [Address(g, 0, delta)];
      AddressesSum(g, s, adr);
      AddressFirst(g, 0, delta);
      LowResidue(adr[0].first, LowLen(g));
      out, eq := AccumulateGroup(g, s, k, adr[0].first % LowLen(g), table, adr, eq, out0);
      return;
    }
    var addresses := seq(|g.bases|, b requires 0 <= b < |g.bases| => Address(g, b, delta));
    AddressesSum(g, s, addresses);
    AddressesFit(g, s, addresses);
    var sorted := SortByResidue(addresses, LowLen(g));
    SameMembers(g, s, addresses, sorted);
    AddressOrder(g, s, addresses, sorted);
    out := AccumulateGroups(g, s, k, table, sorted, eq, out0);
  }

  lemma FreshEq(eq: AmortizedEq) requires eq.window.None? ensures eq.Valid() { }

  lemma AddressFirst(g: Affine, b: nat, delta: nat)
    requires b < |g.bases|
    ensures Address(g, b, delta).first == g.bases[b] + delta
  { }

  ghost predicate AllFit(g: Affine, s: Seg, adr: seq<AffineAddress>)
    requires SegOk(g, s)
  {
    forall i :: 0 <= i < |adr| ==> SegFits(g, s, adr[i].first)
  }

  lemma AddressesFit(g: Affine, s: Seg, adr: seq<AffineAddress>)
    requires SegOk(g, s) && Delta(g, s) >= 0
    requires forall b :: 0 <= b < |g.bases| ==> SegFits(g, s, g.bases[b] + Delta(g, s))
    requires |adr| == |g.bases| && forall b :: 0 <= b < |adr| ==> adr[b] == Address(g, b, Delta(g, s))
    ensures AllFit(g, s, adr)
  {
    hide SegFits, Delta;
  }

  lemma SameMembers(g: Affine, s: Seg, x: seq<AffineAddress>, y: seq<AffineAddress>)
    requires SegOk(g, s) && multiset(x) == multiset(y) && AllFit(g, s, x)
    ensures AllFit(g, s, y) && |x| == |y|
  {
    hide SegFits;
    assert |x| == |multiset(x)| == |multiset(y)| == |y|;
    forall i | 0 <= i < |y| ensures SegFits(g, s, y[i].first) {
      assert y[i] in multiset(x);
      assert y[i] in x;
    }
  }

  /** The shared low table, when there is a low factor of bounded width. */
  method LowTable(g: Affine, k: nat) returns (table: Option<seq<F>>)
    requires k <= |g.challenges|
    ensures TableFor(table, g, k)
  {
    hide EqTable, ScaledTable;
    table := None;
    if |g.low| > 0 && k <= LOW_BITS_CAP {
      var t := EvalsSerial(g.challenges[..k], None);
      ScaledByOne(g.challenges[..k]);
      table := Some(t.value);
    }
  }

  /** The end of the run of equal residues that starts at `start`; `partition_point`. */
  method GroupEnd(adr: seq<AffineAddress>, q: nat, start: nat) returns (end: nat)
    requires q > 0 && start < |adr| && ByResidue(adr, q)
    ensures start < end <= |adr|
    ensures forall i :: start <= i < end ==> adr[i].first % q == adr[start].first % q
    ensures forall i :: end <= i < |adr| ==> adr[i].first % q != adr[start].first % q
  {
    end := start + 1;
    while end < |adr| && adr[end].first % q == adr[start].first % q
      invariant start < end <= |adr|
      invariant forall i :: start <= i < end ==> adr[i].first % q == adr[start].first % q
    {
      end := end + 1;
    }
    if end < |adr| {
      forall i | end <= i < |adr| ensures adr[i].first % q != adr[start].first % q {
        assert adr[start].first % q <= adr[end].first % q;
        assert i == end || adr[end].first % q <= adr[i].first % q;
      }
    }
  }

  /** The residue groups, one after the other. */
  method AccumulateGroups(g: Affine, s: Seg, k: nat, table: Option<seq<F>>, adr: seq<AffineAddress>, eq0: AmortizedEq, out0: F)
    returns (out: F)
    requires GroupReady(g, s, k) && SegOk(g, s) && k <= |g.challenges| && TableFor(table, g, k) && ByResidue(adr, LowLen(g))
    requires AllFit(g, s, adr) && Times(Times(|adr|, s.rows), g.outerStride + 1) <= MAX_TERMS
    requires eq0.Valid() && eq0.challenges == g.challenges[k..]
    ensures out == Add(out0, AddressSum(g, s, adr))
  {
    hide *;
    var start, eq := 0, eq0;
    out := out0;
    AddressNil(g, s); AddZero(out0);
    assert adr[..0] == [];
    while start < |adr|
      invariant 0 <= start <= |adr| && eq.Valid() && eq.challenges == g.challenges[k..]
      invariant out == Add(out0, AddressSum(g, s, adr[..start]))
    {
      var end := GroupEnd(adr, LowLen(g), start);
      var group := adr[start..end];
      SubGroup(g, s, adr, start, end);
      LowResidue(adr[start].first, LowLen(g));
      GroupShare(|group|, |adr|, s.rows, g.outerStride + 1);
      out, eq := AccumulateGroup(g, s, k, adr[start].first % LowLen(g), table, group, eq, out);
      assert adr[..end] == adr[..start] + group;
      AddressConcat(g, s, adr[..start], group);
      AddAssoc(out0, AddressSum(g, s, adr[..start]), AddressSum(g, s, group));
      start := end;
    }
    assert adr[..|adr|] == adr;
  }

  lemma SubGroup(g: Affine, s: Seg, adr: seq<AffineAddress>, start: nat, end: nat)
    requires SegOk(g, s) && AllFit(g, s, adr) && start <= end <= |adr|
    ensures forall i :: 0 <= i < end - start ==> adr[start..end][i] == adr[start + i] && SegFits(g, s, adr[start..end][i].first)
  {
    hide SegFits;
  }

  lemma GroupShare(m: nat, n: nat, rows: nat, stride: nat)
    requires m <= n
    ensures Times(Times(m, rows), stride) <= Times(Times(n, rows), stride)
  {
    MulMono(m, n, rows);
    MulMono(m * rows, n * rows, stride);
  }
}
