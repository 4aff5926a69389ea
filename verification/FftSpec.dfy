/**
 The discrete Fourier transform and the decimation-in-time identity behind each butterfly stage.
 The specification of crates/akita-algebra/src/fft.rs.
 */
module FftSpec {
  import opened Arith
  import opened Field
  import opened Sums
  import opened Powers

  function DftTerms(x: seq<F>, w: F, k: int): int -> F { (j: int) => Mul(At(x, j), Pow(w, Times(j, k))) }

  /** The naive transform: output k is the sum over j of x[j] * w^(jk). */
  function Dft(x: seq<F>, w: F, k: int): F { Sum(DftTerms(x, w, k), |x|) }

  function PartTerms(x: seq<F>, w: F, n: nat, c: int, j: int): int -> F {
    (k: int) => Mul(At(x, c + Times(n, k)), Pow(Pow(w, n), Times(k, j)))
  }

  /** Output j of the size-b transform, with root w^n, of the entries of x at c, c + n, c + 2n, ... */
  function Part(x: seq<F>, w: F, n: nat, b: nat, c: int, j: int): F { Sum(PartTerms(x, w, n, c, j), b) }

  lemma DftTermAt(x: seq<F>, w: F, k: int, j: int)
    ensures DftTerms(x, w, k)(j) == Mul(At(x, j), Pow(w, Times(j, k)))
  { }

  lemma DftIsSum(x: seq<F>, w: F, k: int) ensures Dft(x, w, k) == Sum(DftTerms(x, w, k), |x|) { }

  lemma PartTermAt(x: seq<F>, w: F, n: nat, c: int, j: int, k: int)
    ensures PartTerms(x, w, n, c, j)(k) == Mul(At(x, c + Times(n, k)), Pow(Pow(w, n), Times(k, j)))
  { }

  lemma PartIsSum(x: seq<F>, w: F, n: nat, b: nat, c: int, j: int)
    ensures Part(x, w, n, b, c, j) == Sum(PartTerms(x, w, n, c, j), b)
  { }

  /** One part of stride one is the whole transform. */
  lemma PartWhole(x: seq<F>, w: F, j: int)
    ensures Part(x, w, 1, |x|, 0, j) == Dft(x, w, j)
  {
    hide *;
    PartIsSum(x, w, 1, |x|, 0, j); DftIsSum(x, w, j);
    PowNil(w);
    forall k | 0 <= k < |x| ensures PartTerms(x, w, 1, 0, j)(k) == DftTerms(x, w, j)(k) {
      TimesOne(k);
      PartTermAt(x, w, 1, 0, j, k); DftTermAt(x, w, j, k);
    }
    SumExt(PartTerms(x, w, 1, 0, j), DftTerms(x, w, j), |x|);
  }

  /** Parts of size one are the entries. */
  lemma PartSingle(x: seq<F>, w: F, n: nat, c: int)
    ensures Part(x, w, n, 1, c, 0) == At(x, c)
  {
    hide *;
    PartIsSum(x, w, n, 1, c, 0);
    SumOne(PartTerms(x, w, n, c, 0));
    PartTermAt(x, w, n, c, 0, 0); TimesZero(n); TimesZero(0);
    PowNil(Pow(w, n)); MulOne(At(x, c));
  }

  /** u^((k r + d)(q b + j)), split into the factors the stage applies one by one. */
  lemma ExponentSplit(u: F, b: nat, r: nat, q: nat, j: nat, k: nat, d: nat)
    requires Pow(u, r * b) == One
    ensures d * q >= 0 && k * j >= 0
    ensures Pow(u, (k * r + d) * (q * b + j)) ==
      Mul(Mul(Pow(Pow(u, j), d), Pow(Pow(u, b), d * q)), Pow(Pow(u, r), k * j))
  {
    hide *;
    var e0, e1, e2, e3 := (r * b) * (k * q), r * (k * j), b * (d * q), j * d;
    ExponentExpand(b, r, q, j, k, d);
    PowAdd(u, e0, e1 + e2 + e3); PowAdd(u, e3, e2); PowAdd(u, e3 + e2, e1);
    PowMul(u, r * b, k * q); PowOfOne(k * q);
    MulOne(Pow(u, e1 + e2 + e3));
    PowMul(u, r, k * j); PowMul(u, b, d * q); PowMul(u, j, d);
  }

  lemma ExponentExpand(b: nat, r: nat, q: nat, j: nat, k: nat, d: nat)
    ensures k * q >= 0 && k * j >= 0 && d * q >= 0
    ensures (r * b) * (k * q) >= 0 && r * (k * j) >= 0 && b * (d * q) >= 0 && j * d >= 0
    ensures (k * r + d) * (q * b + j) == (r * b) * (k * q) + (r * (k * j) + b * (d * q) + j * d)
  {
    calc {
      (k * r + d) * (q * b + j);
      (k * r) * (q * b + j) + d * (q * b + j);
      (k * r) * (q * b) + (k * r) * j + d * (q * b) + d * j;
      { assert (k * r) * (q * b) == (r * b) * (k * q); }
      { assert (k * r) * j == r * (k * j); }
      { assert d * (q * b) == b * (d * q); }
      (r * b) * (k * q) + (r * (k * j) + b * (d * q) + j * d);
    }
  }

  /** One term of a larger part, written with the twiddle, the small root and a smaller part's term. */
  lemma StageTerm(x: seq<F>, w: F, n: nat, r: nat, b: nat, c: nat, q: nat, j: nat, k: nat, d: nat)
    requires Pow(Pow(w, n), Times(r, b)) == One
    ensures Times(n, r) >= 0
    ensures
      var u := Pow(w, n);
      PartTerms(x, w, n, c, Times(q, b) + j)(Times(k, r) + d) ==
        Mul(Mul(Pow(Pow(u, j), d), Pow(Pow(u, b), Times(d, q))), PartTerms(x, w, Times(n, r), c + Times(n, d), j)(k))
  {
    hide Pow, Mul, PartTerms, At;
    var u, i := Pow(w, n), c + n * d + (n * r) * k;
    TimesNat(n, r);
    PartTermAt(x, w, n, c, Times(q, b) + j, Times(k, r) + d);
    PartTermAt(x, w, Times(n, r), c + Times(n, d), j, k);
    ExponentSplit(u, b, r, q, j, k, d);
    PowMul(w, n, r);
    assert c + n * (k * r + d) == i;
    var t, p := Mul(Pow(Pow(u, j), d), Pow(Pow(u, b), d * q)), Pow(Pow(u, r), k * j);
    MulAssoc(At(x, i), t, p); MulComm(At(x, i), t); MulAssoc(t, At(x, i), p);
  }

  /** The terms of a larger part that share the residue d modulo r, summed. */
  lemma DecimationColumn(x: seq<F>, w: F, n: nat, r: nat, b: nat, c: nat, q: nat, j: nat, d: nat, column: int -> F, lane: F)
    requires Pow(Pow(w, n), Times(r, b)) == One && Times(n, r) >= 0
    requires forall k :: 0 <= k < b ==> column(k) == PartTerms(x, w, n, c, Times(q, b) + j)(Times(k, r) + d)
    requires lane == Mul(Pow(Pow(Pow(w, n), j), d), Part(x, w, Times(n, r), b, c + Times(n, d), j))
    ensures Sum(column, b) == Mul(lane, Pow(Pow(Pow(w, n), b), Times(d, q)))
  {
    hide *;
    var u := Pow(w, n);
    var inner := PartTerms(x, w, Times(n, r), c + Times(n, d), j);
    var t, o, p := Pow(Pow(u, j), d), Pow(Pow(u, b), Times(d, q)), Part(x, w, Times(n, r), b, c + Times(n, d), j);
    forall k | 0 <= k < b ensures column(k) == Mul(Mul(t, o), inner(k)) { StageTerm(x, w, n, r, b, c, q, j, k, d); }
    SumScale(Mul(t, o), inner, column, b);
    PartIsSum(x, w, Times(n, r), b, c + Times(n, d), j);
    MulAssoc(t, o, p); MulComm(o, p); MulAssoc(t, p, o);
  }

  /**
   The decimation-in-time identity. Output q b + j of a part of size b r is output q of the size-r
   transform of the r interleaved parts of size b at j, each scaled by a power of the twiddle.
   */
  lemma Decimation(x: seq<F>, w: F, n: nat, r: nat, b: nat, c: nat, q: nat, j: nat, lanes: seq<F>)
    requires Pow(Pow(w, n), Times(r, b)) == One && |lanes| == r
    requires Times(n, r) >= 0 && Times(b, r) >= 0
    requires forall d :: 0 <= d < r ==>
      lanes[d] == Mul(Pow(Pow(Pow(w, n), j), d), Part(x, w, Times(n, r), b, c + Times(n, d), j))
    ensures Part(x, w, n, Times(b, r), c, Times(q, b) + j) == Dft(lanes, Pow(Pow(w, n), b), q)
  {
    hide *;
    var f := PartTerms(x, w, n, c, Times(q, b) + j);
    var g := (k: int, d: int) => f(Times(k, r) + d);
    var rows := (k: int) => Sum(d => g(k, d), r);
    var cols := DftTerms(lanes, Pow(Pow(w, n), b), q);
    PartIsSum(x, w, n, Times(b, r), c, Times(q, b) + j); DftIsSum(lanes, Pow(Pow(w, n), b), q);
    forall k | 0 <= k < b ensures rows(k) == Sum(d => f(Times(k, r) + d), r) {
      SumExt(d => g(k, d), d => f(Times(k, r) + d), r);
    }
    SumTimesBlocks(f, rows, b, r);
    forall d | 0 <= d < r ensures cols(d) == Sum(k => g(k, d), b) {
      DecimationColumn(x, w, n, r, b, c, q, j, d, k => g(k, d), lanes[d]);
      DftTermAt(lanes, Pow(Pow(w, n), b), q, d);
      AtInside(lanes);
    }
    SumSwap(g, rows, cols, b, r);
  }
}
