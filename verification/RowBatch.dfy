/**
 Bounded batching of row kernels.
 Models crates/akita-algebra/src/row_batch.rs.
 */
module RowBatch {
  import opened Arith
  import opened Field
  import opened Sums

  const ROW_BATCH: nat := 32

  function DotTerms(row: seq<F>, pows: seq<F>): int -> F { (j: int) => Mul(At(row, j), At(pows, j)) }

  /** One row against the powers. */
  function Dot(row: seq<F>, pows: seq<F>): F { Sum(DotTerms(row, pows), |pows|) }

  lemma DotTermAt(row: seq<F>, pows: seq<F>, j: int) ensures DotTerms(row, pows)(j) == Mul(At(row, j), At(pows, j)) { }

  lemma DotIs(row: seq<F>, pows: seq<F>) ensures Dot(row, pows) == Sum(DotTerms(row, pows), |pows|) { }

  /** The row kernel; it panics on a row of another length. */
  method DotRow(row: seq<F>, pows: seq<F>) returns (sum: F)
    requires |row| == |pows|
    ensures sum == Dot(row, pows)
  {
    hide *;
    sum := Zero;
    SumNil(DotTerms(row, pows));
    AtInside(row); AtInside(pows);
    for j := 0 to |pows|
      invariant sum == Sum(DotTerms(row, pows), j)
    {
      SumSnoc(DotTerms(row, pows), j + 1);
      DotTermAt(row, pows, j);
      sum := Add(sum, Mul(row[j], pows[j]));
    }
    DotIs(row, pows);
  }

  /** The product of a row with the powers, one pair at a time. */
  lemma DotAppends(row: seq<F>, pows: seq<F>, a: F, p: F)
    requires |row| == |pows|
    ensures Dot([], []) == Zero && Dot(row + [a], pows + [p]) == Add(Dot(row, pows), Mul(a, p))
  {
    hide *;
    DotIs([], []); SumNil(DotTerms([], []));
    var longer, powers, n := row + [a], pows + [p], |pows|;
    DotIs(longer, powers); DotIs(row, pows);
    SumSnoc(DotTerms(longer, powers), n + 1);
    DotTermAt(longer, powers, n);
    AtInside(longer); AtInside(powers); AtInside(row); AtInside(pows);
    forall j | 0 <= j < n ensures DotTerms(longer, powers)(j) == DotTerms(row, pows)(j) {
      DotTermAt(longer, powers, j); DotTermAt(row, pows, j);
    }
    SumExt(DotTerms(longer, powers), DotTerms(row, pows), n);
  }

  datatype Weighted = Weighted(row: seq<F>, weight: F)

  /** The exact weighted sum of a list of rows. */
  function WeightedSum(items: seq<Weighted>, pows: seq<F>): F {
    if |items| == 0 then Zero
    else Add(WeightedSum(items[..|items| - 1], pows), Mul(items[|items| - 1].weight, Dot(items[|items| - 1].row, pows)))
  }

  /** No rows sum to zero, and one more row adds its weight times its product. */
  lemma WeightedSnoc(items: seq<Weighted>, item: Weighted, pows: seq<F>)
    ensures WeightedSum([], pows) == Zero
    ensures WeightedSum(items + [item], pows) == Add(WeightedSum(items, pows), Mul(item.weight, Dot(item.row, pows)))
  {
    hide Dot;
    assert (items + [item])[..|items|] == items;
  }

  /** Staged rows with their weights. */
  ghost function Pair(rs: seq<seq<F>>, ws: seq<F>): (items: seq<Weighted>)
    requires |rs| == |ws|
    ensures |items| == |rs|
  {
    if |rs| == 0 then [] else Pair(rs[..|rs| - 1], ws[..|ws| - 1]) + [Weighted(rs[|rs| - 1], ws[|ws| - 1])]
  }

  lemma PairSnoc(rs: seq<seq<F>>, ws: seq<F>, r: seq<F>, w: F, pows: seq<F>)
    requires |rs| == |ws|
    ensures Pair(rs + [r], ws + [w]) == Pair(rs, ws) + [Weighted(r, w)]
    ensures WeightedSum(Pair(rs + [r], ws + [w]), pows) == Add(WeightedSum(Pair(rs, ws), pows), Mul(w, Dot(r, pows)))
  {
    assert (rs + [r])[..|rs|] == rs && (ws + [w])[..|ws|] == ws;
    hide WeightedSum;
    WeightedSnoc(Pair(rs, ws), Weighted(r, w), pows);
  }

  /** `weighted_dot_base_rows`. */
  method WeightedDotRows(rs: seq<seq<F>>, ws: seq<F>, pows: seq<F>) returns (sum: F)
    requires |rs| == |ws| && forall i :: 0 <= i < |rs| ==> |rs[i]| == |pows|
    ensures sum == WeightedSum(Pair(rs, ws), pows)
  {
    sum := Zero;
    for i := 0 to |rs|
      invariant sum == WeightedSum(Pair(rs[..i], ws[..i]), pows)
    {
      assert rs[..i + 1] == rs[..i] + [rs[i]] && ws[..i + 1] == ws[..i] + [ws[i]];
      hide *;
      PairSnoc(rs[..i], ws[..i], rs[i], ws[i], pows);
      var dot := DotRow(rs[i], pows);
      sum := Add(sum, Mul(ws[i], dot));
    }
    assert rs[..|rs|] == rs && ws[..|ws|] == ws;
  }

  class WeightedRowBatch {
    const pows: seq<F>
    const rows: array<seq<F>>
    const weights: array<F>
    var len: nat
    var sum: F

    /** The rows staged so far complete the sum of all pushed rows. */
    ghost predicate Staged(pushed: seq<Weighted>)
      reads this, rows, weights
    {
      && rows.Length == weights.Length == ROW_BATCH && len <= ROW_BATCH
      && (forall i :: 0 <= i < len ==> |rows[i]| == |pows|)
      && WeightedSum(pushed, pows) == Add(sum, WeightedSum(Pair(rows[..len], weights[..len]), pows))
    }

    /** Between calls fewer than ROW_BATCH rows are staged. */
    ghost predicate Holds(pushed: seq<Weighted>)
      reads this, rows, weights
    {
      Staged(pushed) && len < ROW_BATCH
    }

    constructor (pows: seq<F>)
      ensures Holds([]) && this.pows == pows && fresh(rows) && fresh(weights)
    {
      this.pows := pows;
      rows := new seq<F>[ROW_BATCH](_ => []);
      weights := new F[ROW_BATCH](_ => Zero);
      len, sum := 0, Zero;
      new;
      AddZero(Zero);
      assert rows[..0] == [] && weights[..0] == [];
    }

    method Push(row: seq<F>, weight: F, ghost pushed: seq<Weighted>)
      requires Holds(pushed) && |row| == |pows|
      modifies this, rows, weights
      ensures Holds(pushed + [Weighted(row, weight)])
    {
      Stage(row, weight, pushed);
      if len == ROW_BATCH {
        Flush(pushed + [Weighted(row, weight)]);
      }
    }

    /** The row written into the next slot. */
    method Stage(row: seq<F>, weight: F, ghost pushed: seq<Weighted>)
      requires Holds(pushed) && |row| == |pows|
      modifies this, rows, weights
      ensures Staged(pushed + [Weighted(row, weight)])
    {
      hide WeightedSum, Dot, Add, Mul, Pair;
      ghost var rs, ws := rows[..len], weights[..len];
      rows[len] := row;
      weights[len] := weight;
      len := len + 1;
      assert rows[..len] == rs + [row] && weights[..len] == ws + [weight];
      PairSnoc(rs, ws, row, weight, pows);
      WeightedSnoc(pushed, Weighted(row, weight), pows);
      AddAssoc(sum, WeightedSum(Pair(rs, ws), pows), Mul(weight, Dot(row, pows)));
    }

    /** The staged rows moved into the sum. */
    method Flush(ghost pushed: seq<Weighted>)
      requires Staged(pushed)
      modifies this
      ensures Holds(pushed) && sum == WeightedSum(pushed, pows)
    {
      EmptyPair(pows);
      hide WeightedSum, Dot, Add, Mul, Pair;
      if len > 0 {
        var batch := WeightedDotRows(rows[..len], weights[..len], pows);
        sum := Add(sum, batch);
        len := 0;
      }
      assert rows[..0] == [] && weights[..0] == [];
      AddZero(sum);
    }

    /** The weighted sum over every pushed row. */
    method Finish(ghost pushed: seq<Weighted>) returns (r: F)
      requires Holds(pushed)
      modifies this
      ensures r == WeightedSum(pushed, pows)
    {
      Flush(pushed);
      r := sum;
    }
  }

  lemma EmptyPair(pows: seq<F>) ensures WeightedSum(Pair([], []), pows) == Zero { }

  /** Any sequence of pushes, then `finish`: the exact weighted sum. */
  method SumPushed(pows: seq<F>, items: seq<Weighted>) returns (r: F)
    requires forall i :: 0 <= i < |items| ==> |items[i].row| == |pows|
    ensures r == WeightedSum(items, pows)
  {
    var batch := new WeightedRowBatch(pows);
    for i := 0 to |items|
      invariant batch.pows == pows && fresh(batch) && fresh(batch.rows) && fresh(batch.weights) && batch.Holds(items[..i])
    {
      assert items[..i + 1] == items[..i] + [items[i]];
      batch.Push(items[i].row, items[i].weight, items[..i]);
    }
    assert items[..|items|] == items;
    r := batch.Finish(items);
  }

  // ----- the batched dot products

  /** Rows up to the first ROW_BATCH from `from`, or the first error. */
  method TakeBatch(rows: seq<Result<seq<F>>>, from: nat) returns (batch: Result<seq<seq<F>>>)
    requires from <= |rows|
    ensures batch.Ok? ==> from + |batch.value| <= |rows| && |batch.value| <= ROW_BATCH
    ensures batch.Ok? ==> forall i :: 0 <= i < |batch.value| ==> rows[from + i] == Ok(batch.value[i])
    ensures batch.Ok? && |batch.value| < ROW_BATCH ==> from + |batch.value| == |rows|
    ensures batch.Err? ==> exists i :: from <= i < |rows| && rows[i].Err?
  {
    var taken: seq<seq<F>> := [];
    while |taken| < ROW_BATCH && from + |taken| < |rows|
      invariant |taken| <= ROW_BATCH && from + |taken| <= |rows|
      invariant forall i :: 0 <= i < |taken| ==> rows[from + i] == Ok(taken[i])
      decreases |rows| - |taken|
    {
      var row := rows[from + |taken|];
      if row.Err? { return Err; }
      taken := taken + [row.value];
    }
    batch := Ok(taken);
  }

  /** `dot_base_rows_batched`: one value per row in order; an error exactly when some row is one. */
  method DotRowsBatched(pows: seq<F>, rows: seq<Result<seq<F>>>) returns (res: Result<seq<F>>)
    requires forall i :: 0 <= i < |rows| && rows[i].Ok? ==> |rows[i].value| == |pows|
    ensures res.Ok? <==> forall i :: 0 <= i < |rows| ==> rows[i].Ok?
    ensures res.Ok? ==> |res.value| == |rows|
    ensures res.Ok? ==> forall i {:trigger res.value[i]} :: 0 <= i < |rows| ==> res.value[i] == Dot(rows[i].value, pows)
  {
    hide Dot;
    var out: seq<F> := [];
    while true
      invariant |out| <= |rows|
      invariant forall i :: 0 <= i < |out| ==> rows[i].Ok? && out[i] == Dot(rows[i].value, pows)
      decreases |rows| - |out|
    {
      var from := |out|;
      var batch := TakeBatch(rows, from);
      if batch.Err? { return Err; }
      var taken := batch.value;
      if |taken| == 0 { return Ok(out); }
      for k := 0 to |taken|
        invariant |out| == from + k
        invariant forall i :: 0 <= i < |out| ==> rows[i].Ok? && out[i] == Dot(rows[i].value, pows)
      {
        assert rows[from + k] == Ok(taken[k]);
        var value := DotRow(taken[k], pows);
        out := out + [value];
      }
      if |taken| < ROW_BATCH { return Ok(out); }
    }
  }
}
