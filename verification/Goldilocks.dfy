/**
 The prime 2^64 - 2^32 + 1, certified by an element whose 2^31-th power is -1.
 An input on which the trial division of crates/akita-algebra/src/fft.rs overflows.
 */
module Goldilocks {
  import opened Arith
  import opened NumberTheory

  const GOLDILOCKS: nat := 0xFFFF_FFFF_0000_0001

  // ----- powers modulo m

  function IntPow(b: int, n: nat): int { if n == 0 then 1 else b * IntPow(b, n - 1) }

  lemma {:induction false} PowAdd(b: int, m: nat, n: nat)
    ensures IntPow(b, m + n) == IntPow(b, m) * IntPow(b, n)
  {
    if m > 0 {
      PowAdd(b, m - 1, n);
      assert b * (IntPow(b, m - 1) * IntPow(b, n)) == b * IntPow(b, m - 1) * IntPow(b, n);
    }
  }

  lemma {:induction false} PowOfSquare(b: int, n: nat)
    ensures IntPow(b * b, n) == IntPow(b, 2 * n)
  {
    if n > 0 {
      PowOfSquare(b, n - 1);
      assert IntPow(b, 2 * n) == b * IntPow(b, 2 * n - 1) && IntPow(b, 2 * n - 1) == b * IntPow(b, 2 * n - 2);
      assert b * b * IntPow(b, 2 * n - 2) == b * (b * IntPow(b, 2 * n - 2));
    }
  }

  lemma {:induction false} PowOfPow(b: int, m: nat, n: nat)
    ensures m * n >= 0 && IntPow(IntPow(b, m), n) == IntPow(b, m * n)
  {
    if n > 0 {
      PowOfPow(b, m, n - 1);
      assert m * n == m + m * (n - 1);
      PowAdd(b, m, m * (n - 1));
    }
  }

  ghost predicate Congruent(m: int, x: int, y: int) { Divides(m, x - y) }

  lemma CongruentMul(m: int, x: int, y: int, u: int, v: int)
    requires Congruent(m, x, y) && Congruent(m, u, v)
    ensures Congruent(m, x * u, y * v)
  {
    DividesMeans(m, x - y); DividesMeans(m, u - v);
    var k, l := (x - y) / m, (u - v) / m;
    assert x * u - y * v == m * (k * u + y * l) by { assert x == y + m * k && u == v + m * l; }
    DividesMultiple(m, k * u + y * l);
  }

  lemma CongruentTrans(m: int, x: int, y: int, z: int)
    requires Congruent(m, x, y) && Congruent(m, y, z)
    ensures Congruent(m, x, z)
  {
    DividesCombination(m, x - y, -1, y - z);
  }

  lemma CongruentSame(m: int, x: int)
    requires m > 0
    ensures Congruent(m, x, x)
  {
    DividesMultiple(m, 0);
  }

  lemma {:induction false} CongruentPow(m: int, x: int, y: int, n: nat)
    requires Congruent(m, x, y)
    ensures Congruent(m, IntPow(x, n), IntPow(y, n))
  {
    if n == 0 { CongruentSame(m, 1); } else {
      CongruentPow(m, x, y, n - 1);
      CongruentMul(m, x, y, IntPow(x, n - 1), IntPow(y, n - 1));
    }
  }

  lemma {:induction false} PowOfMinusOne(n: nat)
    ensures IntPow(-1, n) == if n % 2 == 0 then 1 else -1
  {
    if n > 0 { PowOfMinusOne(n - 1); }
  }

  lemma {:induction false} PowOfOne(n: nat)
    ensures IntPow(1, n) == 1
  {
    if n > 0 { PowOfOne(n - 1); }
  }

  // ----- the order of the witness

  /** If b^(2^e) is -1 modulo an odd m, no smaller positive power than the 2^(e+1)-th is 1. */
  lemma {:induction false} NoSmallOrder(m: int, b: int, e: nat, u: nat)
    requires m >= 3 && m % 2 == 1 && Congruent(m, IntPow(b, Pow2(e)), -1) && 0 < u < Pow2(e + 1)
    ensures !Congruent(m, IntPow(b, u), 1)
    decreases e
  {
    if Congruent(m, IntPow(b, u), 1) {
      if u % 2 == 0 {
        Pow2Step(e);
        EvenOrder(m, b, e, u / 2);
        NoSmallOrder(m, b * b, e - 1, u / 2);
      } else {
        OddOrder(m, b, Pow2(e), u);
      }
    }
  }

  lemma EvenOrder(m: int, b: int, e: nat, w: nat)
    requires m >= 3 && Congruent(m, IntPow(b, Pow2(e)), -1) && 0 < 2 * w < 2 * Pow2(e) && Congruent(m, IntPow(b, 2 * w), 1)
    ensures e >= 1 && Congruent(m, IntPow(b * b, Pow2(e - 1)), -1) && Congruent(m, IntPow(b * b, w), 1) && w < Pow2(e)
  {
    assert Pow2(0) == 1;
    PowOfSquare(b, w);
    PowOfSquare(b, Pow2(e - 1));
  }

  /** An odd power is not 1: otherwise 1 and -1 were congruent. */
  lemma OddOrder(m: int, b: int, q: nat, u: nat)
    requires m >= 3 && u % 2 == 1 && Congruent(m, IntPow(b, q), -1)
    ensures !Congruent(m, IntPow(b, u), 1)
  {
    hide IntPow;
    if Congruent(m, IntPow(b, u), 1) {
      CongruentPow(m, IntPow(b, u), 1, q); PowOfOne(q); PowOfPow(b, u, q);
      CongruentPow(m, IntPow(b, q), -1, u); PowOfMinusOne(u); PowOfPow(b, q, u);
      assert u * q == q * u;
      OppositeSigns(m, IntPow(b, q * u));
    }
  }

  lemma OppositeSigns(m: int, x: int)
    requires m >= 3
    ensures !(Congruent(m, x, 1) && Congruent(m, x, -1))
  {
    if Congruent(m, x, 1) && Congruent(m, x, -1) {
      DividesCombination(m, x - -1, 1, x - 1);
      DivideBound(m, 2);
    }
  }

  /** The powers below the order are pairwise incongruent. */
  lemma PowersDiffer(m: int, b: int, e: nat, i: nat, j: nat)
    requires m >= 3 && m % 2 == 1 && Congruent(m, IntPow(b, Pow2(e)), -1) && i < j < Pow2(e + 1)
    ensures IntPow(b, i) % m != IntPow(b, j) % m
  {
    if IntPow(b, i) % m == IntPow(b, j) % m {
      var n := Pow2(e + 1);
      SameRemainder(m, IntPow(b, j), IntPow(b, i));
      Pow2Step(e);
      FullOrder(m, b, Pow2(e));
      var back := IntPow(b, n - i);
      CongruentSame(m, back);
      hide IntPow, Pow2;
      CongruentMul(m, IntPow(b, j), IntPow(b, i), back, back);
      PowAdd(b, j, n - i); PowAdd(b, i, n - i); PowAdd(b, j - i, n);
      CongruentTrans(m, IntPow(b, j + (n - i)), IntPow(b, n), 1);
      CongruentSame(m, IntPow(b, j - i));
      CongruentMul(m, IntPow(b, j - i), IntPow(b, j - i), IntPow(b, n), 1);
      CongruentFlip(m, IntPow(b, j - i + n), IntPow(b, j - i));
      CongruentTrans(m, IntPow(b, j - i), IntPow(b, j - i + n), 1);
      NoSmallOrder(m, b, e, j - i);
    }
  }

  lemma SameRemainder(m: int, x: int, y: int)
    requires m > 0 && x % m == y % m
    ensures Congruent(m, x, y)
  {
    assert x - y == m * (x / m - y / m);
    DividesMultiple(m, x / m - y / m);
  }

  lemma CongruentFlip(m: int, x: int, y: int)
    requires Congruent(m, x, y)
    ensures Congruent(m, y, x)
  {
    DividesMultiple(m, 0);
    DividesCombination(m, 0, 1, x - y);
  }

  lemma FullOrder(m: int, b: int, q: nat)
    requires m > 0 && Congruent(m, IntPow(b, q), -1)
    ensures Congruent(m, IntPow(b, 2 * q), 1)
  {
    CongruentMul(m, IntPow(b, q), -1, IntPow(b, q), -1);
    PowAdd(b, q, q);
  }

  // ----- counting

  ghost function Below(m: nat): set<nat> { if m == 0 then {} else Below(m - 1) + {m - 1} }

  lemma {:induction false} BelowCount(m: nat)
    ensures |Below(m)| == m && forall x :: x in Below(m) <==> 0 <= x < m
  {
    if m > 0 { BelowCount(m - 1); }
  }

  ghost function Image(f: nat -> nat, n: nat): set<nat> { if n == 0 then {} else Image(f, n - 1) + {f(n - 1)} }

  lemma {:induction false} ImageMembers(f: nat -> nat, n: nat, x: nat)
    requires x in Image(f, n)
    ensures exists i :: 0 <= i < n && f(i) == x
  {
    if x != f(n - 1) { ImageMembers(f, n - 1, x); }
  }

  lemma ImageNew(f: nat -> nat, n: nat)
    requires forall i :: 0 <= i < n ==> f(i) != f(n)
    ensures f(n) !in Image(f, n)
  {
    hide Image;
    if f(n) in Image(f, n) { ImageMembers(f, n, f(n)); }
  }

  lemma {:induction false} ImageCount(f: nat -> nat, n: nat)
    requires forall i, j :: 0 <= i < j < n ==> f(i) != f(j)
    ensures |Image(f, n)| == n
  {
    if n > 0 {
      ImageCount(f, n - 1);
      ImageNew(f, n - 1);
      assert Image(f, n) == Image(f, n - 1) + {f(n - 1)};
      hide Image;
    }
  }

  /** n different values below m need m to be at least n. */
  lemma Pigeonhole(f: nat -> nat, n: nat, m: nat)
    requires forall i :: 0 <= i < n ==> f(i) < m
    requires forall i, j :: 0 <= i < j < n ==> f(i) != f(j)
    ensures n <= m
  {
    ImageCount(f, n);
    BelowCount(m);
    forall x | x in Image(f, n) ensures x in Below(m) { ImageMembers(f, n, x); }
    SubsetCount(Image(f, n), Below(m));
  }

  lemma SubsetCount(s: set<nat>, t: set<nat>)
    requires s <= t
    ensures |s| <= |t|
  {
    assert t == s + (t - s);
  }

  ghost function Residues(b: int, m: int): nat -> nat requires m > 0 { (i: nat) => IntPow(b, i) % m }

  lemma ResidueAt(b: int, m: int, i: nat)
    requires m > 0
    ensures Residues(b, m)(i) == IntPow(b, i) % m < m
  { }

  /** A modulus with such a witness is at least 2^(e+1). */
  lemma WitnessBound(m: int, b: int, e: nat)
    requires m >= 3 && m % 2 == 1 && Congruent(m, IntPow(b, Pow2(e)), -1)
    ensures Pow2(e + 1) <= m
  {
    hide IntPow, Pow2, Congruent, Residues;
    var f, n := Residues(b, m), Pow2(e + 1);
    forall i, j | 0 <= i < j < n ensures f(i) != f(j) { ResidueAt(b, m, i); ResidueAt(b, m, j); PowersDiffer(m, b, e, i, j); }
    forall i | 0 <= i < n ensures f(i) < m { ResidueAt(b, m, i); }
    Pigeonhole(f, n, m);
  }

  // ----- the certificate

  const WITNESS: int := 1753635133440165772

  /** x is the witness to the power 2^i, modulo the number. */
  ghost predicate Reaches(i: nat, x: int) { Congruent(GOLDILOCKS, IntPow(WITNESS, Pow2(i)), x) }

  lemma Squared(i: nat, x: int, y: int)
    requires Reaches(i, x) && (x * x - y) % GOLDILOCKS == 0
    ensures Reaches(i + 1, y)
  {
    hide IntPow, Pow2;
    Pow2Step(i);
    PowAdd(WITNESS, Pow2(i), Pow2(i));
    CongruentMul(GOLDILOCKS, IntPow(WITNESS, Pow2(i)), x, IntPow(WITNESS, Pow2(i)), x);
    CongruentTrans(GOLDILOCKS, IntPow(WITNESS, Pow2(i + 1)), x * x, y);
  }

  lemma ReachesStart()
    ensures Reaches(0, WITNESS)
  {
    assert IntPow(WITNESS, 1) == WITNESS * IntPow(WITNESS, 0);
    CongruentSame(GOLDILOCKS, WITNESS);
  }

  lemma WitnessSquares()
    ensures Reaches(31, 18446744069414584320)
  {
    hide IntPow, Pow2, Congruent, Reaches;
    ReachesStart();
    Squared(0, 1753635133440165772, 4614640910117430873);
    Squared(1, 4614640910117430873, 9123114210336311365);
    Squared(2, 9123114210336311365, 16116352524544190054);
    Squared(3, 16116352524544190054, 6414415596519834757);
    Squared(4, 6414415596519834757, 1213594585890690845);
    Squared(5, 1213594585890690845, 17096174751763063430);
    Squared(6, 17096174751763063430, 5456943929260765144);
    Squared(7, 5456943929260765144, 9713644485405565297);
    Squared(8, 9713644485405565297, 16905767614792059275);
    Squared(9, 16905767614792059275, 5416168637041100469);
    Squared(10, 5416168637041100469, 17654865857378133588);
    Squared(11, 17654865857378133588, 3511170319078647661);
    Squared(12, 3511170319078647661, 18146160046829613826);
    Squared(13, 18146160046829613826, 9306717745644682924);
    Squared(14, 9306717745644682924, 12380578893860276750);
    Squared(15, 12380578893860276750, 6115771955107415310);
    Squared(16, 6115771955107415310, 17776499369601055404);
    Squared(17, 17776499369601055404, 16207902636198568418);
    Squared(18, 16207902636198568418, 1532612707718625687);
    Squared(19, 1532612707718625687, 17492915097719143606);
    Squared(20, 17492915097719143606, 455906449640507599);
    Squared(21, 455906449640507599, 11353340290879379826);
    Squared(22, 11353340290879379826, 1803076106186727246);
    Squared(23, 1803076106186727246, 13797081185216407910);
    Squared(24, 13797081185216407910, 17870292113338400769);
    Squared(25, 17870292113338400769, 549755813888);
    Squared(26, 549755813888, 70368744161280);
    Squared(27, 70368744161280, 17293822564807737345);
    Squared(28, 17293822564807737345, 18446744069397807105);
    Squared(29, 18446744069397807105, 281474976710656);
    Squared(30, 281474976710656, 18446744069414584320);
  }

  /** Every divisor above one is at least 2^32. */
  lemma LargeDivisors(m: int)
    requires m >= 2 && Divides(m, GOLDILOCKS)
    ensures m >= 0x1_0000_0000
  {
    hide IntPow, Pow2;
    if m % 2 == 0 { DividesTransitive(2, m, GOLDILOCKS); }
    WitnessSquares();
    MinusOne(m);
    WitnessBound(m, WITNESS, 31);
    Pow2Of32();
  }

  lemma Pow2Of32()
    ensures Pow2(32) == 0x1_0000_0000
  {
    hide Pow2;
    Pow2Step(0); Pow2Step(1);
    Pow2Add(2, 2); Pow2Add(4, 4); Pow2Add(8, 8); Pow2Add(16, 16);
  }

  lemma MinusOne(m: int)
    requires Reaches(31, GOLDILOCKS - 1) && Divides(m, GOLDILOCKS)
    ensures Congruent(m, IntPow(WITNESS, Pow2(31)), -1)
  {
    hide IntPow, Pow2;
    var x := IntPow(WITNESS, Pow2(31));
    DividesTransitive(m, GOLDILOCKS, x - (GOLDILOCKS - 1));
    DividesCombination(m, x - (GOLDILOCKS - 1), -1, GOLDILOCKS);
  }

  lemma GoldilocksIsPrime()
    ensures IsPrime(GOLDILOCKS)
  {
    forall m | 2 <= m < GOLDILOCKS ensures !Divides(m, GOLDILOCKS) {
      CofactorToo(m, GOLDILOCKS / m);
    }
  }

  /** A proper divisor and its cofactor cannot both be at least 2^32. */
  lemma CofactorToo(m: int, c: int)
    requires 2 <= m < GOLDILOCKS && c == GOLDILOCKS / m
    ensures !Divides(m, GOLDILOCKS)
  {
    if Divides(m, GOLDILOCKS) {
      DividesMeans(m, GOLDILOCKS);
      LargeDivisors(m);
      if c <= 1 { MulMono(c, 1, m); }
      DividesMultiple(c, m);
      hide *;
      TooLarge(m, c);
    }
  }

  lemma TooLarge(m: int, c: int)
    requires m >= 0x1_0000_0000 && c >= 2 && Divides(c, GOLDILOCKS)
    ensures m * c != GOLDILOCKS
  {
    LargeDivisors(c);
    MulMono(0x1_0000_0000, m, c);
  }
}
