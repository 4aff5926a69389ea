/**
 The high contraction: rows against carry summaries, and its direct double loop.
 Models the row loop of `accumulate_affine_rows` of crates/akita-algebra/src/offset_eq.rs.
 */
module AffineHigh {
  import opened Arith
  import opened Field
  import opened Sums
  import opened EqPoly
  import opened Buckets
  import opened OffsetWindow

  datatype AffineAddress = AffineAddress(first: nat, scale: Option<F>)

  function ScaleOf(a: AffineAddress): F { if a.scale.Some? then a.scale.value else One }

  /** The high side of one group of rows: point, strides, row weights, and the carry summaries. */
  datatype High = High(point: seq<F>, stride: nat, lowLen: nat, weights: seq<F>, firstHigh: nat, rows: nat, summaries: seq<F>)

  ghost predicate HighOk(h: High) {
    h.lowLen > 0 && h.rows > 0 && h.firstHigh + h.rows <= |h.weights|
  }

  /** Row `row` of an address: its high index before carries, and its weight. */
  function RowIndex(h: High, a: AffineAddress, row: nat): (x: nat)
    requires h.lowLen > 0
  {
    TimesNat(h.stride, row);
    a.first / h.lowLen + Times(h.stride, row)
  }

  function RowWeight(h: High, a: AffineAddress, row: nat): F { Mul(At(h.weights, h.firstHigh + row), ScaleOf(a)) }

  function CarryTerms(h: High, x: int): int -> F { (c: int) => Mul(At(h.summaries, c), EqInt(h.point, x + c)) }

  /** The summaries against eq of the high point, from high index x on. */
  function CarrySum(h: High, x: int): F { Sum(CarryTerms(h, x), |h.summaries|) }

  /** Item t of a list of addresses: address t / rows, row t mod rows. */
  function ItemIndex(h: High, adr: seq<AffineAddress>, t: int): int
    requires h.lowLen > 0 && h.rows > 0
  {
    if 0 <= t / h.rows < |adr| then RowIndex(h, adr[t / h.rows], t % h.rows) else 0
  }

  function ItemWeight(h: High, adr: seq<AffineAddress>, t: int): F
    requires h.rows > 0
  {
    if 0 <= t / h.rows < |adr| then RowWeight(h, adr[t / h.rows], t % h.rows) else Zero
  }

  function ItemTerms(h: High, adr: seq<AffineAddress>): int -> F
    requires h.lowLen > 0 && h.rows > 0
  {
    (t: int) => Mul(ItemWeight(h, adr, t), CarrySum(h, ItemIndex(h, adr, t)))
  }

  /** What either contraction must add: over all addresses, rows and carries. */
  function HighTotal(h: High, adr: seq<AffineAddress>): F
    requires h.lowLen > 0 && h.rows > 0
  {
    TimesNat(|adr|, h.rows);
    Sum(ItemTerms(h, adr), Times(|adr|, h.rows))
  }

  lemma ItemAt(h: High, adr: seq<AffineAddress>, i: nat, row: nat)
    requires h.lowLen > 0 && row < h.rows && i < |adr|
    ensures ItemIndex(h, adr, Join(i, h.rows, row)) == RowIndex(h, adr[i], row)
    ensures ItemWeight(h, adr, Join(i, h.rows, row)) == RowWeight(h, adr[i], row)
    ensures ItemTerms(h, adr)(Join(i, h.rows, row)) == Mul(RowWeight(h, adr[i], row), CarrySum(h, RowIndex(h, adr[i], row)))
  {
    hide RowIndex, RowWeight, CarrySum;
    JoinSplit(i, h.rows, row, |adr|);
  }

  lemma HighTotalIs(h: High, adr: seq<AffineAddress>)
    requires h.lowLen > 0 && h.rows > 0
    ensures Times(|adr|, h.rows) >= 0
    ensures HighTotal(h, adr) == Sum(ItemTerms(h, adr), Times(|adr|, h.rows))
  { }

  lemma CarrySumIs(h: High, x: int) ensures CarrySum(h, x) == Sum(CarryTerms(h, x), |h.summaries|) { }

  lemma CarryTermAt(h: High, x: int, c: int)
    ensures CarryTerms(h, x)(c) == Mul(At(h.summaries, c), EqInt(h.point, x + c))
  { }

  // ----- the direct contraction

  /** Every address fits: the largest high index reached with a carry is a `usize`. */
  ghost predicate IndicesFit(h: High, adr: seq<AffineAddress>)
    requires h.lowLen > 0
  {
    forall i, row: nat :: 0 <= i < |adr| && row < h.rows ==> RowIndex(h, adr[i], row) + |h.summaries| <= USIZE_MAX + 1
  }

  /** The row-by-carry double loop. */
  method Direct(h: High, adr: seq<AffineAddress>, eq: AmortizedEq, out0: F) returns (out: F)
    requires HighOk(h) && IndicesFit(h, adr) && eq.Valid() && eq.challenges == h.point
    ensures out == Add(out0, HighTotal(h, adr))
  {
    hide *;
    HighParts(h);
    ghost var terms := ItemTerms(h, adr);
    out := out0;
    SumNil(terms); AddZero(out0); TimesZero(h.rows);
    for i := 0 to |adr|
      invariant Times(i, h.rows) >= 0 && out == Add(out0, Sum(terms, Times(i, h.rows)))
    {
      for row := 0 to h.rows
        invariant out == Add(out0, Sum(terms, Times(i, h.rows) + row))
      {
        FitsAt(h, adr, i, row);
        out := DirectRow(h, adr[i], row, eq, out);
        ItemAt(h, adr, i, row);
        JoinIs(i, h.rows, row);
        SumSnoc(terms, Times(i, h.rows) + row + 1);
        AddAssoc(out0, Sum(terms, Times(i, h.rows) + row), terms(Times(i, h.rows) + row));
      }
      TimesStep(i, h.rows);
    }
    HighTotalIs(h, adr);
  }

  lemma HighParts(h: High)
    requires HighOk(h)
    ensures h.lowLen > 0 && h.rows > 0 && h.firstHigh + h.rows <= |h.weights|
  { }

  lemma FitsAt(h: High, adr: seq<AffineAddress>, i: nat, row: nat)
    requires h.lowLen > 0 && IndicesFit(h, adr) && i < |adr| && row < h.rows
    ensures RowIndex(h, adr[i], row) + |h.summaries| <= USIZE_MAX + 1
  { }

  /** One row: each nonzero equality value scales the weighted summary into the accumulator. */
  method DirectRow(h: High, a: AffineAddress, row: nat, eq: AmortizedEq, out0: F) returns (out: F)
    requires h.lowLen > 0 && h.firstHigh + row < |h.weights| && eq.Valid() && eq.challenges == h.point
    requires RowIndex(h, a, row) + |h.summaries| <= USIZE_MAX + 1
    ensures out == Add(out0, Mul(RowWeight(h, a, row), CarrySum(h, RowIndex(h, a, row))))
  {
    hide *;
    var x, weight := RowIndex(h, a, row), h.weights[h.firstHigh + row];
    ghost var terms := CarryTerms(h, x);
    ghost var w := RowWeight(h, a, row);
    RowWeightIs(h, a, row);
    out := out0;
    SumNil(terms); MulZero(w); AddZero(out0);
    for carry := 0 to |h.summaries|
      invariant out == Add(out0, Mul(w, Sum(terms, carry)))
    {
      var eqHigh := eq.EvalAt(x + carry);
      eq.EvalAtIsEq(x + carry);
      var scaled := if a.scale.Some? then Mul(eqHigh, a.scale.value) else eqHigh;
      DirectTerm(h, a, row, x, carry, eqHigh, scaled);
      SumSnoc(terms, carry + 1);
      Distrib(w, Sum(terms, carry), terms(carry));
      AddAssoc(out0, Mul(w, Sum(terms, carry)), Mul(w, terms(carry)));
      if eqHigh != Zero {
        out := Add(out, Mul(Mul(weight, h.summaries[carry]), scaled));
      } else {
        AddZero(out);
      }
    }
    CarrySumIs(h, x);
  }

  lemma RowWeightIs(h: High, a: AffineAddress, row: nat)
    requires h.firstHigh + row < |h.weights|
    ensures RowWeight(h, a, row) == Mul(h.weights[h.firstHigh + row], ScaleOf(a))
  { }

  lemma DirectTerm(h: High, a: AffineAddress, row: nat, x: nat, carry: nat, eqHigh: F, scaled: F)
    requires h.firstHigh + row < |h.weights| && carry < |h.summaries| && eqHigh == EqAt(h.point, x + carry)
    requires scaled == if a.scale.Some? then Mul(eqHigh, a.scale.value) else eqHigh
    ensures
      var term := Mul(RowWeight(h, a, row), CarryTerms(h, x)(carry));
      && Mul(Mul(h.weights[h.firstHigh + row], h.summaries[carry]), scaled) == term
      && (eqHigh == Zero ==> term == Zero)
  {
    hide Mul, EqAt;
    var w, m, sc := h.weights[h.firstHigh + row], h.summaries[carry], ScaleOf(a);
    MulOne(eqHigh);
    assert scaled == Mul(eqHigh, sc);
    MulComm(eqHigh, sc);
    Mul4(w, m, sc, eqHigh);
    MulZero(m); MulZero(Mul(w, sc));
  }
}
