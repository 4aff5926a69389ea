/** Finite sums over the field. */
module Sums {
  import opened Arith
  import opened Field

  /** f(0) + ... + f(n-1) */
  function Sum(f: int -> F, n: nat): F {
    if n == 0 then Zero else Add(Sum(f, n - 1), f(n - 1))
  }

  lemma SumNil(f: int -> F) ensures Sum(f, 0) == Zero { }

  lemma SumSnoc(f: int -> F, n: nat)
    requires n > 0
    ensures Sum(f, n) == Add(Sum(f, n - 1), f(n - 1))
  { }

  lemma SumOne(f: int -> F) ensures Sum(f, 1) == f(0) { SumSnoc(f, 1); SumNil(f); AddZero(f(0)); }

  lemma {:induction false} SumExt(f: int -> F, g: int -> F, n: nat)
    requires forall i :: 0 <= i < n ==> f(i) == g(i)
    ensures Sum(f, n) == Sum(g, n)
  {
    hide *;
    if n == 0 { SumNil(f); SumNil(g); } else { SumExt(f, g, n - 1); SumSnoc(f, n); SumSnoc(g, n); }
  }

  lemma {:induction false} SumZero(f: int -> F, n: nat)
    requires forall i :: 0 <= i < n ==> f(i) == Zero
    ensures Sum(f, n) == Zero
  {
    hide *;
    if n == 0 { SumNil(f); } else { SumZero(f, n - 1); SumSnoc(f, n); AddZero(Zero); }
  }

  lemma {:induction false} SumAdd(f: int -> F, g: int -> F, h: int -> F, n: nat)
    requires forall i :: 0 <= i < n ==> h(i) == Add(f(i), g(i))
    ensures Sum(h, n) == Add(Sum(f, n), Sum(g, n))
  {
    hide *;
    if n == 0 { SumNil(f); SumNil(g); SumNil(h); AddZero(Zero); } else {
      SumAdd(f, g, h, n - 1);
      SumSnoc(f, n); SumSnoc(g, n); SumSnoc(h, n);
      Add4(Sum(f, n - 1), Sum(g, n - 1), f(n - 1), g(n - 1));
    }
  }

  lemma {:induction false} SumScale(c: F, f: int -> F, g: int -> F, n: nat)
    requires forall i :: 0 <= i < n ==> g(i) == Mul(c, f(i))
    ensures Sum(g, n) == Mul(c, Sum(f, n))
  {
    hide *;
    if n == 0 { SumNil(f); SumNil(g); MulZero(c); } else {
      SumScale(c, f, g, n - 1);
      SumSnoc(f, n); SumSnoc(g, n);
      Distrib(c, Sum(f, n - 1), f(n - 1));
    }
  }

  lemma {:induction false} SumSplit(f: int -> F, g: int -> F, m: nat, n: nat)
    requires forall i :: 0 <= i < n ==> g(i) == f(m + i)
    ensures Sum(f, m + n) == Add(Sum(f, m), Sum(g, n))
  {
    hide *;
    if n == 0 { SumNil(g); AddZero(Sum(f, m)); } else {
      SumSplit(f, g, m, n - 1);
      SumSnoc(f, m + n); SumSnoc(g, n);
      AddAssoc(Sum(f, m), Sum(g, n - 1), g(n - 1));
    }
  }

  /** The terms from m on. */
  function From(f: int -> F, m: int): int -> F { (i: int) => f(m + i) }

  lemma FromAt(f: int -> F, m: int, i: int) ensures From(f, m)(i) == f(m + i) { }

  lemma SumFrom(f: int -> F, m: nat, n: nat)
    ensures Sum(f, m + n) == Add(Sum(f, m), Sum(From(f, m), n))
  {
    hide Sum;
    SumSplit(f, From(f, m), m, n);
  }

  function Scaled(c: F, f: int -> F): int -> F { (t: int) => Mul(c, f(t)) }

  lemma ScaledAt(c: F, f: int -> F, t: int) ensures Scaled(c, f)(t) == Mul(c, f(t)) { }

  /** A sum of two scaled sums, term by term. */
  lemma SumOfTwo(f: int -> F, u0: int -> F, u1: int -> F, c0: F, c1: F, n: nat)
    requires forall t :: 0 <= t < n ==> f(t) == Add(Mul(c0, u0(t)), Mul(c1, u1(t)))
    ensures Sum(f, n) == Add(Mul(c0, Sum(u0, n)), Mul(c1, Sum(u1, n)))
  {
    hide *;
    var f0, f1 := Scaled(c0, u0), Scaled(c1, u1);
    forall t | 0 <= t < n ensures f(t) == Add(f0(t), f1(t)) { ScaledAt(c0, u0, t); ScaledAt(c1, u1, t); }
    SumAdd(f0, f1, f, n);
    forall t | 0 <= t < n ensures f0(t) == Mul(c0, u0(t)) && f1(t) == Mul(c1, u1(t)) { ScaledAt(c0, u0, t); ScaledAt(c1, u1, t); }
    SumScale(c0, u0, f0, n);
    SumScale(c1, u1, f1, n);
  }

  /** Exchanging the order of a double sum: `rows(i)` sums over j, `cols(j)` sums over i. */
  lemma {:induction false} SumSwap(f: (int, int) -> F, rows: int -> F, cols: int -> F, m: nat, n: nat)
    requires forall i :: 0 <= i < m ==> rows(i) == Sum(j => f(i, j), n)
    requires forall j :: 0 <= j < n ==> cols(j) == Sum(i => f(i, j), m)
    ensures Sum(rows, m) == Sum(cols, n)
  {
    hide *;
    if m == 0 {
      SumNil(rows);
      forall j | 0 <= j < n ensures cols(j) == Zero { SumNil(i => f(i, j)); }
      SumZero(cols, n);
    } else {
      var cols' := (j: int) => Sum(i => f(i, j), m - 1);
      SumSwap(f, rows, cols', m - 1, n);
      SumSnoc(rows, m);
      forall j | 0 <= j < n ensures cols(j) == Add(cols'(j), f(m - 1, j)) { SumSnoc(i => f(i, j), m); }
      SumAdd(cols', j => f(m - 1, j), cols, n);
    }
  }

  /** A sum over m*n consecutive indices, n at a time. */
  lemma {:induction false} SumBlocks(f: int -> F, g: int -> F, m: nat, n: nat)
    requires forall i {:trigger g(i)} :: 0 <= i < m ==> g(i) == Sum(j => f(i * n + j), n)
    ensures m * n >= 0
    ensures Sum(f, m * n) == Sum(g, m)
  {
    hide *;
    if m == 0 { SumNil(f); SumNil(g); } else {
      SumBlocks(f, g, m - 1, n);
      var base := (m - 1) * n;
      assert m * n == base + n;
      SumSplit(f, j => f(base + j), base, n);
      SumSnoc(g, m);
    }
  }

  lemma SumTimesBlocks(f: int -> F, g: int -> F, m: nat, n: nat)
    requires forall i {:trigger g(i)} :: 0 <= i < m ==> g(i) == Sum(j => f(Times(i, n) + j), n)
    requires Times(m, n) >= 0
    ensures Sum(f, Times(m, n)) == Sum(g, m)
  {
    hide Sum;
    forall i | 0 <= i < m ensures g(i) == Sum(j => f(i * n + j), n) {
      SumExt(j => f(Times(i, n) + j), j => f(i * n + j), n);
    }
    SumBlocks(f, g, m, n);
  }

  lemma {:induction false} SumPick(f: int -> F, n: nat, k: int)
    requires 0 <= k < n
    requires forall i :: 0 <= i < n && i != k ==> f(i) == Zero
    ensures Sum(f, n) == f(k)
  {
    hide *;
    SumSnoc(f, n);
    AddZero(f(k));
    if k == n - 1 { SumZero(f, n - 1); } else { SumPick(f, n - 1, k); }
  }

  lemma {:induction false} SumPairs(e: int -> F, g: int -> F, n: nat)
    requires forall x :: 0 <= x < n ==> g(x) == Add(e(2 * x), e(2 * x + 1))
    ensures Sum(e, 2 * n) == Sum(g, n)
  {
    hide *;
    if n == 0 { SumNil(e); SumNil(g); } else {
      SumPairs(e, g, n - 1);
      SumSnoc(e, 2 * n); SumSnoc(e, 2 * n - 1); SumSnoc(g, n);
      AddAssoc(Sum(e, 2 * n - 2), e(2 * n - 2), e(2 * n - 1));
    }
  }

  /** Entry i of a sequence, zero outside it. */
  function At(s: seq<F>, i: int): F { if 0 <= i < |s| then s[i] else Zero }

  lemma AtInside(s: seq<F>)
    ensures forall i {:trigger At(s, i)} :: 0 <= i < |s| ==> At(s, i) == s[i]
  { }
}
