/** Sums gathered by key: the carry summaries and carry buckets of the offset-equality kernels. */
module Buckets {
  import opened Field
  import opened Sums

  function BucketTerms(v: int -> F, key: int -> int, c: int): int -> F { (e: int) => if key(e) == c then v(e) else Zero }

  /** The sum of v(e) over the e below n whose key is c. */
  function Bucket(v: int -> F, key: int -> int, c: int, n: nat): F { Sum(BucketTerms(v, key, c), n) }

  lemma BucketIsSum(v: int -> F, key: int -> int, c: int, n: nat)
    ensures Bucket(v, key, c, n) == Sum(BucketTerms(v, key, c), n)
  { }

  lemma BucketTermAt(v: int -> F, key: int -> int, c: int, e: int)
    ensures BucketTerms(v, key, c)(e) == if key(e) == c then v(e) else Zero
  { }

  lemma BucketSnoc(v: int -> F, key: int -> int, c: int, n: nat)
    ensures Bucket(v, key, c, n + 1) == if key(n) == c then Add(Bucket(v, key, c, n), v(n)) else Bucket(v, key, c, n)
  {
    hide *;
    BucketIsSum(v, key, c, n); BucketIsSum(v, key, c, n + 1);
    SumSnoc(BucketTerms(v, key, c), n + 1);
    BucketTermAt(v, key, c, n);
    AddZero(Bucket(v, key, c, n));
  }

  /** Weighting each bucket by g of its key is weighting each term by g of its own key. */
  lemma BucketDot(v: int -> F, key: int -> int, g: int -> F, dot: int -> F, direct: int -> F, n: nat, count: nat)
    requires forall e :: 0 <= e < n ==> 0 <= key(e) < count && direct(e) == Mul(v(e), g(key(e)))
    requires forall c :: 0 <= c < count ==> dot(c) == Mul(Bucket(v, key, c, n), g(c))
    ensures Sum(dot, count) == Sum(direct, n)
  {
    hide *;
    var f := (c: int, e: int) => Mul(g(c), BucketTerms(v, key, c)(e));
    forall c | 0 <= c < count ensures dot(c) == Sum(e => f(c, e), n) {
      SumScale(g(c), BucketTerms(v, key, c), e => f(c, e), n);
      BucketIsSum(v, key, c, n);
      MulComm(g(c), Bucket(v, key, c, n));
    }
    forall e | 0 <= e < n ensures direct(e) == Sum(c => f(c, e), count) {
      var column := (c: int) => f(c, e);
      forall c | 0 <= c < count && c != key(e) ensures column(c) == Zero {
        BucketTermAt(v, key, c, e); MulZero(g(c));
      }
      SumPick(column, count, key(e));
      BucketTermAt(v, key, key(e), e);
      MulComm(g(key(e)), v(e));
      SumExt(column, c => f(c, e), count);
    }
    SumSwap(f, dot, direct, count, n);
  }

  /** The slots of s hold the buckets of the first n terms. */
  ghost predicate Holds(s: seq<F>, v: int -> F, key: int -> int, n: nat) {
    forall c :: 0 <= c < |s| ==> s[c] == Bucket(v, key, c, n)
  }

  lemma HoldsAt(s: seq<F>, v: int -> F, key: int -> int, n: nat, c: int)
    requires Holds(s, v, key, n) && 0 <= c < |s|
    ensures s[c] == Bucket(v, key, c, n)
  { }

  lemma HoldsIntro(s: seq<F>, v: int -> F, key: int -> int, n: nat)
    requires forall c :: 0 <= c < |s| ==> s[c] == Bucket(v, key, c, n)
    ensures Holds(s, v, key, n)
  { }

  lemma HoldsNothing(s: seq<F>, v: int -> F, key: int -> int)
    requires forall c :: 0 <= c < |s| ==> s[c] == Zero
    ensures Holds(s, v, key, 0)
  {
    hide Sum;
    forall c | 0 <= c < |s| ensures s[c] == Bucket(v, key, c, 0) { SumNil(BucketTerms(v, key, c)); }
  }

  /** Adding term n to the slot of its key. */
  lemma HoldsNext(s: seq<F>, v: int -> F, key: int -> int, n: nat)
    requires Holds(s, v, key, n) && 0 <= key(n) < |s|
    ensures Holds(s[key(n) := Add(s[key(n)], v(n))], v, key, n + 1)
  {
    hide Bucket, Add;
    var t := s[key(n) := Add(s[key(n)], v(n))];
    forall c | 0 <= c < |t| ensures t[c] == Bucket(v, key, c, n + 1) { BucketSnoc(v, key, c, n); }
  }

  /** The buckets of m + n terms are those of the first m plus those of the next n. */
  lemma BucketSplit(v: int -> F, key: int -> int, v': int -> F, key': int -> int, c: int, m: nat, n: nat)
    requires forall e :: 0 <= e < n ==> v'(e) == v(m + e) && key'(e) == key(m + e)
    ensures Bucket(v, key, c, m + n) == Add(Bucket(v, key, c, m), Bucket(v', key', c, n))
  {
    hide Sum;
    SumSplit(BucketTerms(v, key, c), BucketTerms(v', key', c), m, n);
  }
}
