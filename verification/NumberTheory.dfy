/** Divisibility and primes. */
module NumberTheory {
  import opened Arith

  predicate Divides(d: int, n: int) { d > 0 && n % d == 0 }

  ghost predicate IsPrime(p: int) { p >= 2 && forall m :: 2 <= m < p ==> !Divides(m, p) }

  lemma DividesMeans(d: int, n: int)
    requires d > 0
    ensures Divides(d, n) <==> n == d * (n / d)
  { }

  lemma DividesMultiple(d: int, k: int)
    requires d > 0
    ensures Divides(d, d * k) && (d * k) / d == k
  {
    DivModUnique(d * k, d, k, 0);
  }

  lemma DividesTransitive(a: int, b: int, c: int)
    requires Divides(a, b) && Divides(b, c)
    ensures Divides(a, c)
  {
    DividesMeans(a, b); DividesMeans(b, c);
    assert c == a * ((b / a) * (c / b));
    DividesMultiple(a, (b / a) * (c / b));
  }

  lemma DividesCombination(d: int, x: int, k: int, y: int)
    requires Divides(d, x) && Divides(d, y)
    ensures Divides(d, x - k * y)
  {
    DividesMeans(d, x); DividesMeans(d, y);
    assert x - k * y == d * (x / d - k * (y / d));
    DividesMultiple(d, x / d - k * (y / d));
  }

  /** The smallest divisor of n above one is prime. */
  lemma LeastDivisorIsPrime(p: int, n: int)
    requires p >= 2 && Divides(p, n) && forall m :: 2 <= m < p ==> !Divides(m, n)
    ensures IsPrime(p)
  {
    forall m | 2 <= m < p ensures !Divides(m, p) {
      if Divides(m, p) { DividesTransitive(m, p, n); }
    }
  }

  lemma {:induction false} PrimeDivisorExists(n: int, from: int) returns (p: int)
    requires 2 <= from <= n && forall m :: 2 <= m < from ==> !Divides(m, n)
    ensures IsPrime(p) && Divides(p, n)
    decreases n - from
  {
    if Divides(from, n) {
      LeastDivisorIsPrime(from, n);
      p := from;
    } else {
      DividesMultiple(n, 1);
      p := PrimeDivisorExists(n, from + 1);
    }
  }

  /** Euclid's lemma for a residue: a prime dividing a b, with 0 < a < q, divides b. */
  lemma {:induction false} EuclidResidue(q: int, a: int, b: int)
    requires IsPrime(q) && 0 < a < q && Divides(q, a * b)
    ensures Divides(q, b)
    decreases a
  {
    if a > 1 {
      var k, r := q / a, q % a;
      assert !Divides(a, q);
      assert q * b - k * (a * b) == r * b by { assert q == k * a + r; }
      DividesMultiple(q, b);
      DividesCombination(q, q * b, k, a * b);
      EuclidResidue(q, r, b);
    }
  }

  /** Euclid's lemma. */
  lemma Euclid(q: int, a: int, b: int)
    requires IsPrime(q) && Divides(q, a * b)
    ensures Divides(q, a) || Divides(q, b)
  {
    var k, r := a / q, a % q;
    if r != 0 {
      assert a * b - b * (q * k) == r * b by { assert a == q * k + r; }
      DividesMultiple(q, k);
      DividesCombination(q, a * b, b, q * k);
      EuclidResidue(q, r, b);
    }
  }

  // ----- factor lists

  /** The product of a list, taken from the front. */
  function Product(fs: seq<nat>): nat {
    if |fs| == 0 then 1 else Product(fs[..|fs| - 1]) * fs[|fs| - 1]
  }

  lemma {:induction false} ProductPositive(fs: seq<nat>)
    requires forall i :: 0 <= i < |fs| ==> fs[i] > 0
    ensures Product(fs) > 0
  {
    if |fs| > 0 { ProductPositive(fs[..|fs| - 1]); }
  }

  lemma ProductSnoc(fs: seq<nat>, f: nat)
    ensures Product(fs + [f]) == Product(fs) * f
  {
    assert (fs + [f])[..|fs|] == fs;
  }

  lemma {:induction false} ProductConcat(a: seq<nat>, b: seq<nat>)
    ensures Product(a + b) == Product(a) * Product(b)
  {
    if |b| == 0 { assert a + b == a; } else {
      var init, last := b[..|b| - 1], b[|b| - 1];
      ProductConcat(a, init);
      assert a + b == (a + init) + [last];
      ProductSnoc(a + init, last);
      assert Product(a) * Product(init) * last == Product(a) * (Product(init) * last);
    }
  }

  /** A prime dividing a product of primes is one of them. */
  lemma {:induction false} PrimeInProduct(q: int, fs: seq<nat>)
    requires IsPrime(q) && Divides(q, Product(fs))
    requires forall i :: 0 <= i < |fs| ==> IsPrime(fs[i])
    ensures q in fs
  {
    if |fs| > 0 {
      var init, last := fs[..|fs| - 1], fs[|fs| - 1];
      Euclid(q, Product(init), last);
      if Divides(q, last) {
        DivideBound(q, last);
        assert q == last;
      } else {
        PrimeInProduct(q, init);
      }
    }
  }

  lemma DivideBound(q: int, n: int)
    requires Divides(q, n) && n > 0
    ensures q <= n
  {
    DividesMeans(q, n);
    if n / q <= 0 { MulMono(n / q, 0, q); }
    MulMono(1, n / q, q);
  }
}
