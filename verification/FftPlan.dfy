/**
 The stage plan: factorization, roots of unity, digit reversal and the per-stage tables.
 Models `factorize`, `is_primitive_nth_root`, `digit_reversal_permutation` and `precompute_stages` of
 crates/akita-algebra/src/fft.rs.
 */
module FftPlan {
  import opened Arith
  import opened NumberTheory
  import opened Field
  import opened Sums
  import opened Powers
  import opened FftKernels
  import Goldilocks

  // ----- factorization

  const SMALL_PRIMES: seq<nat> := [2, 3, 5, 7, 11, 13, 17, 19, 23, 29, 31]

  /** A number below 37 is divisible by one of the listed primes. */
  lemma SmallDivisor(m: nat) returns (i: nat)
    requires 2 <= m < 37
    ensures i < |SMALL_PRIMES| && SMALL_PRIMES[i] <= m && Divides(SMALL_PRIMES[i], m)
  {
    i := if m % 2 == 0 then 0 else if m % 3 == 0 then 1 else if m % 5 == 0 then 2 else if m == 7 then 3
         else if m == 11 then 4 else if m == 13 then 5 else if m == 17 then 6 else if m == 19 then 7
         else if m == 23 then 8 else if m == 29 then 9 else 10;
  }

  ghost predicate NoDivisorBelow(n: int, bound: int) { forall m :: 2 <= m < bound ==> !Divides(m, n) }

  /** The square of the last odd trial divisor whose square is a `usize`: (2^32 - 1)^2. */
  const TRIAL_LIMIT: nat := 18446744065119617025

  /** The primes on which the trial square leaves `usize`. */
  ghost predicate TrialOverflows(n: nat) { IsPrime(n) && n >= TRIAL_LIMIT }

  lemma TrialOverflowsMeans(n: nat)
    ensures TrialOverflows(n) <==> IsPrime(n) && n >= 0xFFFF_FFFF * 0xFFFF_FFFF
  {
    hide IsPrime;
  }

  /**
   `smallest_prime_factor`: listed primes first, then odd trial divisors from 37. The square of a trial divisor
   leaves `usize` exactly when n is a prime from (2^32 - 1)^2 on: Err.
   */
  method SmallestPrimeFactor(n: nat) returns (res: Result<nat>)
    requires n <= USIZE_MAX
    ensures res.Err? <==> TrialOverflows(n)
    ensures res.Err? <==> IsPrime(n) && n >= 0xFFFF_FFFF * 0xFFFF_FFFF
    ensures res.Ok? && n <= 1 ==> res.value == n
    ensures res.Ok? && n > 1 ==> IsPrime(res.value) && Divides(res.value, n) && NoDivisorBelow(n, res.value)
  {
    if n <= 1 { return Ok(n); }
    for k := 0 to |SMALL_PRIMES|
      invariant forall i :: 0 <= i < k ==> !Divides(SMALL_PRIMES[i], n)
    {
      if n % SMALL_PRIMES[k] == 0 {
        var p := SMALL_PRIMES[k];
        SmallPrefix(n, k);
        LeastDivisorIsPrime(p, n);
        ProperDivisor(n, p);
        return Ok(p);
      }
    }
    SmallPrefix(n, |SMALL_PRIMES|);
    res := TrialDivision(n);
  }

  /** A number from the limit on with a divisor below it is no prime. */
  lemma ProperDivisor(n: nat, p: nat)
    requires 2 <= p < TRIAL_LIMIT && Divides(p, n)
    ensures !TrialOverflows(n)
  { }

  /** Odd trial divisors up to the square root. */
  method TrialDivision(n: nat) returns (res: Result<nat>)
    requires 1 < n <= USIZE_MAX && NoDivisorBelow(n, 37)
    ensures res.Err? <==> TrialOverflows(n)
    ensures res.Ok? ==> IsPrime(res.value) && Divides(res.value, n) && NoDivisorBelow(n, res.value)
  {
    hide SMALL_PRIMES, IsPrime, NoDivisorBelow, Divides, TrialOverflows;
    var i := 37;
    while true
      invariant 37 <= i <= 0x1_0000_0001 && i % 2 == 1
      invariant NoDivisorBelow(n, i) && (i > 0xFFFF_FFFF ==> n >= TRIAL_LIMIT)
      decreases 0x1_0000_0001 - i
    {
      var square := i * i;
      SquareRange(i);
      if square > USIZE_MAX {
        NoSmallDivisor(n, i);
        PrimeOverflows(n);
        return Err;
      }
      if square > n { break; }
      if n % i == 0 {
        DividesIs(i, n);
        LeastTrial(i, n);
        return Ok(i);
      }
      DividesIs(i, n);
      OddStep(n, i);
      i := i + 2;
    }
    NoSmallDivisor(n, i);
    DividesMultiple(n, 1);
    SmallIsFine(n);
    res := Ok(n);
  }

  lemma DividesIs(d: nat, n: nat) requires d > 0 ensures Divides(d, n) <==> n % d == 0 { }

  /** Squares of odd trial divisors are `usize`s exactly up to 2^32 - 1. */
  lemma SquareRange(i: nat)
    requires 37 <= i <= 0x1_0000_0001 && i % 2 == 1
    ensures i * i > USIZE_MAX <==> i > 0xFFFF_FFFF
    ensures i <= 0xFFFF_FFFF ==> i * i <= TRIAL_LIMIT && (i + 2 > 0xFFFF_FFFF ==> i * i == TRIAL_LIMIT)
  {
    if i <= 0xFFFF_FFFF {
      MulMono(i, 0xFFFF_FFFF, i); MulMono(i, 0xFFFF_FFFF, 0xFFFF_FFFF);
    }
  }

  lemma PrimeOverflows(n: nat)
    requires IsPrime(n) && n >= TRIAL_LIMIT
    ensures TrialOverflows(n)
  { }

  lemma SmallIsFine(n: nat)
    requires n < TRIAL_LIMIT
    ensures !TrialOverflows(n)
  { }

  lemma LeastTrial(i: nat, n: nat)
    requires 37 <= i <= 0xFFFF_FFFF && Divides(i, n) && NoDivisorBelow(n, i)
    ensures IsPrime(i) && !TrialOverflows(n)
  {
    LeastDivisorIsPrime(i, n);
    ProperDivisor(n, i);
  }

  lemma OddStep(n: nat, i: nat)
    requires i >= 37 && i % 2 == 1 && i * i <= n && NoDivisorBelow(n, i) && !Divides(i, n)
    ensures NoDivisorBelow(n, i + 2) && i < n
  {
    if Divides(i + 1, n) { DividesTransitive(2, i + 1, n); }
    MulMono(2, i, i);
  }

  /** Having passed the first k listed primes, n has no divisor below the next one (or below 37). */
  lemma SmallPrefix(n: nat, k: nat)
    requires k <= |SMALL_PRIMES| && forall i :: 0 <= i < k ==> !Divides(SMALL_PRIMES[i], n)
    ensures NoDivisorBelow(n, if k < |SMALL_PRIMES| then SMALL_PRIMES[k] else 37)
  {
    var bound := if k < |SMALL_PRIMES| then SMALL_PRIMES[k] else 37;
    forall m | 2 <= m < bound ensures !Divides(m, n) {
      var i := SmallDivisor(m);
      if Divides(m, n) { DividesTransitive(SMALL_PRIMES[i], m, n); }
      assert i < k;
    }
  }

  /** Beyond the square root, the cofactor of a divisor is a smaller divisor. */
  lemma NoSmallDivisor(n: int, i: int)
    requires n > 1 && i > 1 && i * i > n && NoDivisorBelow(n, i)
    ensures IsPrime(n) && NoDivisorBelow(n, n)
  {
    forall m | 2 <= m < n ensures !Divides(m, n) {
      if Divides(m, n) {
        var c := n / m;
        assert n == c * m;
        DividesMultiple(c, m);
        if c >= i { MulMono(i, c, m); MulMono(i, m, i); }
        if c <= 1 { MulMono(c, 1, m); }
      }
    }
  }

  /**
   `factorize`: the prime factors of n with multiplicity, in non-decreasing order; a cofactor is too small to
   overflow, so it fails exactly on the primes from (2^32 - 1)^2 on.
   */
  method Factorize(n: nat) returns (res: Result<seq<nat>>)
    requires n <= USIZE_MAX
    ensures res.Err? <==> TrialOverflows(n)
    ensures res.Err? <==> IsPrime(n) && n >= 0xFFFF_FFFF * 0xFFFF_FFFF
    ensures res.Ok? ==> forall i :: 0 <= i < |res.value| ==> IsPrime(res.value[i])
    ensures res.Ok? ==> forall i, j :: 0 <= i < j < |res.value| ==> res.value[i] <= res.value[j]
    ensures res.Ok? && n >= 1 ==> Product(res.value) == n
  {
    TrialOverflowsMeans(n);
    hide TrialOverflows;
    var factors: seq<nat> := [];
    var rest := n;
    if n <= 1 { SmallIsFine(n); }
    while rest > 1
      invariant rest <= n && (rest != n ==> 2 * rest <= n && !TrialOverflows(n))
      invariant rest <= 1 ==> !TrialOverflows(n)
      invariant forall i :: 0 <= i < |factors| ==> IsPrime(factors[i])
      invariant forall i, j :: 0 <= i < j < |factors| ==> factors[i] <= factors[j]
      invariant forall i, m :: 0 <= i < |factors| && 2 <= m < factors[i] ==> !Divides(m, rest)
      invariant n >= 1 ==> rest >= 1 && Product(factors) * rest == n
    {
      if rest != n { SmallIsFine(rest); }
      var found := SmallestPrimeFactor(rest);
      if found.Err? { return Err; }
      var p := found.value;
      var next := rest / p;
      DividesMeans(p, rest);
      FactorStep(factors, p, rest, next);
      MulMono(2, p, next);
      factors, rest := factors + [p], next;
    }
    res := Ok(factors);
  }

  /** An input on which the trial division overflows: the prime 2^64 - 2^32 + 1. */
  method LargePrimeFails() returns (res: Result<seq<nat>>)
    ensures res.Err? && IsPrime(Goldilocks.GOLDILOCKS) && TRIAL_LIMIT <= Goldilocks.GOLDILOCKS <= USIZE_MAX
  {
    Goldilocks.GoldilocksIsPrime();
    res := Factorize(Goldilocks.GOLDILOCKS);
  }

  lemma FactorStep(factors: seq<nat>, p: nat, rest: nat, next: nat)
    requires IsPrime(p) && rest > 1 && rest == p * next && NoDivisorBelow(rest, p)
    requires forall i, m :: 0 <= i < |factors| && 2 <= m < factors[i] ==> !Divides(m, rest)
    ensures 1 <= next < rest
    ensures forall i :: 0 <= i < |factors| ==> factors[i] <= p
    ensures forall i, m :: 0 <= i < |factors + [p]| && 2 <= m < (factors + [p])[i] ==> !Divides(m, next)
    ensures Product(factors + [p]) * next == Product(factors) * rest
  {
    if next < 1 { MulMono(next, 0, p); }
    MulMono(2, p, next);
    DividesMultiple(p, next); DividesMultiple(next, p);
    ProductSnoc(factors, p);
    Reassociate(Product(factors), p, next);
    hide Divides, Product, IsPrime;
    forall m | m >= 2 && Divides(m, next) ensures Divides(m, rest) { DividesTransitive(m, next, rest); }
  }

  lemma Reassociate(a: int, p: int, n: int) ensures a * p * n == a * (p * n) { }

  /** `distinct_prime_factors`: sorted already, so removing repeats leaves exactly the prime divisors of n. */
  method DistinctPrimeFactors(n: nat) returns (res: Result<seq<nat>>)
    requires 1 <= n <= USIZE_MAX
    ensures res.Err? <==> TrialOverflows(n)
    ensures res.Err? <==> IsPrime(n) && n >= 0xFFFF_FFFF * 0xFFFF_FFFF
    ensures res.Ok? ==> forall i, j :: 0 <= i < j < |res.value| ==> res.value[i] < res.value[j]
    ensures res.Ok? ==> forall q: nat :: q in res.value <==> IsPrime(q) && Divides(q, n)
  {
    hide TrialOverflows;
    var all' := Factorize(n);
    if all'.Err? { return Err; }
    var all := all'.value;
    var factors: seq<nat> := [];
    for k := 0 to |all|
      invariant forall i, j :: 0 <= i < j < |factors| ==> factors[i] < factors[j]
      invariant forall q :: q in factors <==> q in all[..k]
      invariant |factors| > 0 ==> k > 0 && factors[|factors| - 1] == all[k - 1]
      invariant k > 0 ==> |factors| > 0
    {
      if |factors| == 0 || factors[|factors| - 1] != all[k] { factors := factors + [all[k]]; }
    }
    forall q: nat ensures q in factors <==> IsPrime(q) && Divides(q, n) {
      if q in factors {
        var i :| 0 <= i < |all| && all[i] == q;
        FactorDivides(all, i);
      }
      if IsPrime(q) && Divides(q, n) { PrimeInProduct(q, all); assert all[..|all|] == all; }
    }
    res := Ok(factors);
  }

  lemma FactorDivides(fs: seq<nat>, i: nat)
    requires i < |fs| && fs[i] > 0
    ensures Divides(fs[i], Product(fs))
  {
    hide *;
    assert fs == fs[..i] + [fs[i]] + fs[i + 1..];
    ProductConcat(fs[..i] + [fs[i]], fs[i + 1..]);
    ProductSnoc(fs[..i], fs[i]);
    DividesInside(Product(fs[..i]), fs[i], Product(fs[i + 1..]));
  }

  lemma DividesInside(a: nat, f: nat, c: nat)
    requires f > 0
    ensures Divides(f, a * f * c)
  {
    hide *;
    assert a * f * c == f * (a * c);
    DividesMultiple(f, a * c);
  }

  // ----- primitive roots

  /** `is_primitive_nth_root`, given the distinct prime factors of n: exact multiplicative order n. */
  method IsPrimitiveNthRoot(omega: F, n: nat, factors: seq<nat>) returns (primitive: bool)
    requires n >= 1 && forall q: nat :: q in factors <==> IsPrime(q) && Divides(q, n)
    ensures primitive <==> HasOrder(omega, n)
  {
    var full := FieldPow(omega, n);
    if full != One { return false; }
    for k := 0 to |factors|
      invariant forall i :: 0 <= i < k ==> factors[i] > 0 && Pow(omega, n / factors[i]) != One
    {
      var q := factors[k];
      assert q in factors;
      var power := FieldPow(omega, n / q);
      ProperQuotient(n, q);
      if power == One { return false; }
    }
    OrderFromFactors(omega, n, factors);
    primitive := true;
  }

  lemma ProperQuotient(n: nat, q: nat)
    requires n >= 1 && q >= 2 && Divides(q, n)
    ensures 0 < n / q < n
  {
    DividesMeans(q, n);
    if n / q <= 0 { MulMono(n / q, 0, q); }
    MulMono(2, q, n / q);
  }

  lemma {:induction false} LeastExponent(w: F, m: nat) returns (least: nat)
    requires m > 0 && Pow(w, m) == One
    ensures HasOrder(w, least) && least <= m
    decreases m
  {
    hide Pow;
    if k :| 0 < k < m && Pow(w, k) == One { least := LeastExponent(w, k); } else { least := m; }
  }

  /** If no exponent n/q with q a prime factor of n gives one, then n is the order. */
  lemma OrderFromFactors(w: F, n: nat, factors: seq<nat>)
    requires n >= 1 && Pow(w, n) == One
    requires forall q: nat :: q in factors <==> IsPrime(q) && Divides(q, n)
    requires forall i :: 0 <= i < |factors| ==> factors[i] > 0 && Pow(w, n / factors[i]) != One
    ensures HasOrder(w, n)
  {
    hide Pow;
    var m := LeastExponent(w, n);
    var t, r := n / m, n % m;
    // the least exponent divides n
    assert n == m * t + r;
    PowMod(w, m, n);
    assert r == 0;
    if m < n {
      if t < 2 { MulMono(t, 1, m); }
      var q := PrimeDivisorExists(t, 2);
      DividesMeans(q, t);
      var c := t / q;
      assert n == q * (m * c);
      DividesMultiple(q, m * c);
      assert q in factors;
      PowMul(w, m, c); PowOfOne(c);
    }
  }

  // ----- digit reversal

  ghost predicate Positive(fs: seq<nat>) { forall i :: 0 <= i < |fs| ==> fs[i] > 0 }

  lemma PositivePrefix(fs: seq<nat>)
    requires Positive(fs) && |fs| > 0
    ensures Positive(fs[..|fs| - 1]) && Product(fs[..|fs| - 1]) > 0 && fs[|fs| - 1] > 0
    ensures Product(fs) == Product(fs[..|fs| - 1]) * fs[|fs| - 1]
  {
    ProductPositive(fs[..|fs| - 1]);
  }

  lemma PrefixPositive(fs: seq<nat>)
    requires Positive(fs) && |fs| > 0
    ensures Positive(fs[..|fs| - 1]) && Product(fs[..|fs| - 1]) > 0
  {
    ProductPositive(fs[..|fs| - 1]);
  }

  /** The index whose mixed-radix digits are those of c in reverse order. */
  function Rev(fs: seq<nat>, c: nat): nat
    requires Positive(fs)
  {
    if |fs| == 0 then 0
    else
      PrefixPositive(fs);
      var m := |fs| - 1;
      var n := Product(fs[..m]);
      DivModIs(c, n);
      Join(Rev(fs[..m], c % n), fs[m], c / n)
  }

  /** Its inverse. */
  function Unrev(fs: seq<nat>, p: nat): nat
    requires Positive(fs)
  {
    if |fs| == 0 then 0
    else
      PrefixPositive(fs);
      var m := |fs| - 1;
      DivModIs(p, fs[m]);
      Join(p % fs[m], Product(fs[..m]), Unrev(fs[..m], p / fs[m]))
  }

  /** Digit reversal is a permutation of the indices below the product: Unrev inverts it both ways. */
  lemma {:induction false} RevUnrev(fs: seq<nat>, c: nat)
    requires Positive(fs) && c < Product(fs)
    ensures Rev(fs, c) < Product(fs) && Unrev(fs, Rev(fs, c)) == c
    ensures Unrev(fs, c) < Product(fs) && Rev(fs, Unrev(fs, c)) == c
  {
    if |fs| == 0 { ProductNil(); assert fs == []; } else {
      PositivePrefix(fs);
      hide *;
      var m := |fs| - 1;
      var init, f, n := fs[..m], fs[m], Product(fs[..m]);
      TimesIs(n, f);
      DivModIs(c, n);
      RevUnrev(init, c % n);
      RevDigit(fs, c, c / n, c % n);
      DivModIs(c, f);
      TimesBound(c, f, c / f, c % f, n);
      RevUnrev(init, c / f);
      UnrevDigit(fs, c, c / f, c % f);
    }
  }

  /** The last radix: c = q n + r reverses to rev(r) f + q, and back. */
  lemma RevDigit(fs: seq<nat>, c: nat, q: nat, r: nat)
    requires Positive(fs) && |fs| > 0 && Positive(fs[..|fs| - 1]) && Product(fs) == Times(Product(fs[..|fs| - 1]), fs[|fs| - 1])
    requires r < Product(fs[..|fs| - 1]) && c == Times(q, Product(fs[..|fs| - 1])) + r && c < Product(fs)
    requires Rev(fs[..|fs| - 1], r) < Product(fs[..|fs| - 1]) && Unrev(fs[..|fs| - 1], Rev(fs[..|fs| - 1], r)) == r
    ensures Rev(fs, c) < Product(fs) && Unrev(fs, Rev(fs, c)) == c
  {
    hide *;
    var init, f, n := fs[..|fs| - 1], fs[|fs| - 1], Product(fs[..|fs| - 1]);
    TimesComm(n, f);
    TimesBound(c, n, q, r, f);
    RevAt(fs, q, r);
    JoinIs(q, n, r); JoinIs(Rev(init, r), f, q); JoinIs(q, n, Unrev(init, Rev(init, r)));
    TimesBound(Rev(fs, c), f, Rev(init, r), q, n);
    UnrevAt(fs, Rev(init, r), q);
  }

  lemma UnrevDigit(fs: seq<nat>, c: nat, q: nat, r: nat)
    requires Positive(fs) && |fs| > 0 && Positive(fs[..|fs| - 1]) && Product(fs) == Times(Product(fs[..|fs| - 1]), fs[|fs| - 1])
    requires r < fs[|fs| - 1] && c == Times(q, fs[|fs| - 1]) + r && c < Product(fs)
    requires Unrev(fs[..|fs| - 1], q) < Product(fs[..|fs| - 1]) && Rev(fs[..|fs| - 1], Unrev(fs[..|fs| - 1], q)) == q
    ensures Unrev(fs, c) < Product(fs) && Rev(fs, Unrev(fs, c)) == c
  {
    hide *;
    var init, f, n := fs[..|fs| - 1], fs[|fs| - 1], Product(fs[..|fs| - 1]);
    TimesComm(n, f);
    UnrevAt(fs, q, r);
    JoinIs(q, f, r); JoinIs(r, n, Unrev(init, q)); JoinIs(Rev(init, Unrev(init, q)), f, r);
    TimesBound(Unrev(fs, c), n, r, Unrev(init, q), f);
    RevAt(fs, r, Unrev(init, q));
  }

  lemma RevAt(fs: seq<nat>, q: nat, r: nat)
    requires Positive(fs) && |fs| > 0 && Positive(fs[..|fs| - 1]) && r < Product(fs[..|fs| - 1])
    ensures Rev(fs, Join(q, Product(fs[..|fs| - 1]), r)) == Join(Rev(fs[..|fs| - 1], r), fs[|fs| - 1], q)
  {
    JoinSplit(q, Product(fs[..|fs| - 1]), r, q + 1);
    hide Join, Product;
  }

  lemma UnrevAt(fs: seq<nat>, q: nat, r: nat)
    requires Positive(fs) && |fs| > 0 && Positive(fs[..|fs| - 1]) && r < fs[|fs| - 1]
    ensures Unrev(fs, Join(q, fs[|fs| - 1], r)) == Join(r, Product(fs[..|fs| - 1]), Unrev(fs[..|fs| - 1], q))
  {
    JoinSplit(q, fs[|fs| - 1], r, q + 1);
    hide Join, Product;
  }

  /** `digit_reversal_permutation`: digits from the front, then a Horner sum in the same order. */
  method DigitReversal(n: nat, factors: seq<nat>) returns (perm: seq<nat>)
    requires Positive(factors) && Product(factors) == n
    ensures |perm| == n && forall k :: 0 <= k < n ==> perm[k] == Rev(factors, k)
  {
    hide Rev;
    perm := [];
    for k := 0 to n
      invariant |perm| == k && forall i :: 0 <= i < k ==> perm[i] == Rev(factors, i)
    {
      var digits := DigitsOf(k, factors);
      var rev := HornerOf(k, factors, digits);
      perm := perm + [rev];
    }
  }

  method DigitsOf(k: nat, factors: seq<nat>) returns (digits: seq<nat>)
    requires Positive(factors)
    ensures |digits| == |factors|
    ensures forall i :: 0 <= i < |factors| ==> Product(factors[..i]) > 0 && digits[i] == k / Product(factors[..i]) % factors[i]
  {
    hide Product;
    digits := [];
    var tmp := k;
    ProductNil();
    for i := 0 to |factors|
      invariant |digits| == i && Product(factors[..i]) > 0 && tmp == k / Product(factors[..i])
      invariant forall j :: 0 <= j < i ==> Product(factors[..j]) > 0 && digits[j] == k / Product(factors[..j]) % factors[j]
    {
      digits := digits + [tmp % factors[i]];
      tmp := tmp / factors[i];
      PrefixProduct(factors, i);
      MixedRadix(k, Product(factors[..i]), factors[i]);
    }
  }

  lemma ProductNil() ensures Product([]) == 1 { }

  lemma PrefixProduct(fs: seq<nat>, i: nat)
    requires i < |fs|
    ensures Product(fs[..i + 1]) == Product(fs[..i]) * fs[i]
  {
    assert fs[..i + 1] == fs[..i] + [fs[i]];
    ProductSnoc(fs[..i], fs[i]);
  }

  method HornerOf(k: nat, factors: seq<nat>, digits: seq<nat>) returns (rev: nat)
    requires Positive(factors) && k < Product(factors) && |digits| == |factors|
    requires forall i :: 0 <= i < |factors| ==> Product(factors[..i]) > 0 && digits[i] == k / Product(factors[..i]) % factors[i]
    ensures rev == Rev(factors, k)
  {
    rev := 0;
    for i := 0 to |factors|
      invariant Product(factors[..i]) > 0
      invariant rev == Rev(factors[..i], k % Product(factors[..i]))
    {
      HornerStep(k, factors, i);
      rev := rev * factors[i] + digits[i];
    }
    assert factors[..|factors|] == factors;
    DivModUnique(k, Product(factors), 0, k);
  }

  lemma JoinTimes(hi: nat, f: nat, lo: nat) ensures Join(hi, f, lo) == hi * f + lo { }

  lemma HornerJoin(k: nat, n: nat, f: nat, q: nat, r: nat)
    requires n > 0 && f > 0 && n * f > 0 && k % (n * f) == q * n + r
    ensures k % (n * f) == Join(q, n, r)
  { }

  lemma HornerStep(k: nat, fs: seq<nat>, i: nat)
    requires Positive(fs) && i < |fs| && Product(fs[..i]) > 0
    ensures Product(fs[..i + 1]) > 0
    ensures Rev(fs[..i + 1], k % Product(fs[..i + 1])) ==
      Rev(fs[..i], k % Product(fs[..i])) * fs[i] + k / Product(fs[..i]) % fs[i]
  {
    PrefixProduct(fs, i);
    var g, n, f := fs[..i + 1], Product(fs[..i]), fs[i];
    assert g[..|g| - 1] == fs[..i] && Positive(g) && Positive(fs[..i]);
    MixedRadix(k, n, f);
    hide *;
    DivModIs(k, n);
    DivModIs(k / n, f);
    HornerJoin(k, n, f, k / n % f, k % n);
    RevAt(g, k / n % f, k % n);
    JoinTimes(Rev(fs[..i], k % n), f, k / n % f);
  }

  // ----- stage tables

  /** The tables of the stage for factor i, with every value a power of omega. */
  ghost predicate StageFor(s: StageData, omega: F, fs: seq<nat>, i: nat)
    requires i < |fs|
  {
    var u := Pow(omega, Product(fs[..i]));
    && s.r == fs[i] && s.block == Product(fs[i + 1..])
    && |s.omegaRPow| == 8 && (forall q :: 0 <= q < s.r && q < 8 ==> s.omegaRPow[q] == Pow(Pow(u, s.block), q))
    && |s.twiddle| == s.block && (forall j :: 0 <= j < s.block ==> s.twiddle[j] == Pow(u, j))
    && s.winograd == Winograd(s.r, s.omegaRPow)
  }

  /** Stages in sweep order: stage t serves factor |fs| - 1 - t. */
  ghost predicate StagesFor(stages: seq<StageData>, omega: F, fs: seq<nat>) {
    && |stages| == |fs|
    && forall t :: 0 <= t < |fs| ==> StageFor(stages[t], omega, fs, |fs| - 1 - t)
  }

  lemma SuffixProduct(fs: seq<nat>, i: nat)
    requires i < |fs|
    ensures Product(fs[i..]) == fs[i] * Product(fs[i + 1..])
    ensures Product(fs) == Product(fs[..i]) * Product(fs[i..])
  {
    hide Product;
    assert fs[i..] == [fs[i]] + fs[i + 1..];
    ProductNil();
    ProductConcat([fs[i]], fs[i + 1..]);
    ProductSnoc([], fs[i]);
    assert [] + [fs[i]] == [fs[i]];
    assert fs == fs[..i] + fs[i..];
    ProductConcat(fs[..i], fs[i..]);
  }

  /** `precompute_stages`: factors from the last to the first, each with its powers, twiddles and constants. */
  method PrecomputeStages(omega: F, n: nat, factors: seq<nat>) returns (stages: seq<StageData>)
    requires Positive(factors) && Product(factors) == n
    requires forall i :: 0 <= i < |factors| ==> factors[i] <= 8
    requires 5 in factors || 7 in factors ==> Add(One, One) != Zero
    ensures StagesFor(stages, omega, factors)
  {
    hide Pow, Product, Winograd;
    stages := [];
    var block := 1;
    var i := |factors|;
    ProductNil();
    assert factors[|factors|..] == [];
    while i > 0
      invariant 0 <= i <= |factors| && |stages| == |factors| - i
      invariant block == Product(factors[i..])
      invariant forall t :: 0 <= t < |stages| ==> StageFor(stages[t], omega, factors, |factors| - 1 - t)
    {
      i := i - 1;
      var r := factors[i];
      var newBlock := block * r;
      SuffixProduct(factors, i);
      ProductPositive(factors[i..]);
      DivModUnique(n, newBlock, Product(factors[..i]), 0);
      var omegaNewBlock := FieldPow(omega, n / newBlock);
      var omegaR := FieldPow(omegaNewBlock, block);
      var powers := PowerTable(omegaR, r);
      var twiddle := Twiddles(omegaNewBlock, block);
      var stage := StageData(r, block, powers, twiddle, Winograd(r, powers));
      assert StageFor(stage, omega, factors, i);
      stages := stages + [stage];
      block := newBlock;
    }
  }

  /** Eight slots, of which the first r hold the powers of w. */
  method PowerTable(w: F, r: nat) returns (powers: seq<F>)
    requires r <= 8
    ensures |powers| == 8 && forall q :: 0 <= q < r ==> powers[q] == Pow(w, q)
  {
    hide Pow;
    powers := seq(8, _ => One);
    PowNil(w);
    var q := 1;
    while q < r
      invariant |powers| == 8 && q >= 1
      invariant forall k :: 0 <= k < q && k < r ==> powers[k] == Pow(w, k)
    {
      PowStep(w, q);
      powers := powers[q := Mul(powers[q - 1], w)];
      q := q + 1;
    }
  }

  method Twiddles(w: F, count: nat) returns (table: seq<F>)
    ensures |table| == count && forall j :: 0 <= j < count ==> table[j] == Pow(w, j)
  {
    hide Pow;
    table := [];
    var tw := One;
    PowNil(w);
    for j := 0 to count
      invariant |table| == j && tw == Pow(w, j)
      invariant forall k :: 0 <= k < j ==> table[k] == Pow(w, k)
    {
      table := table + [tw];
      tw := Mul(tw, w);
      PowStep(w, j + 1);
    }
  }
}
