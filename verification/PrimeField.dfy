/** The integers modulo a prime obey the laws of `Field.Laws`. */
module PrimeField {
  import opened Arith
  import opened NumberTheory
  import opened Field

  /** The inverse of a modulo a prime, by p = k a + r: a (-k / r) = r / r. */
  function InverseMod(p: int, a: int): int
    requires p >= 2
    decreases a
  {
    if a <= 1 then 1
    else if p % a == 0 then 0
    else (-((p / a) * InverseMod(p, p % a))) % p
  }

  function PrimeOps(p: int): FieldOps
    requires p >= 2
  {
    FieldOps(x => 0 <= x < p, 0, 1, (a, b) => (a + b) % p, a => (-a) % p, (a, b) => (a * b) % p, a => InverseMod(p, a))
  }

  /** Residues are unchanged by multiples of p. */
  lemma ModShift(x: int, k: int, p: int)
    requires p > 0
    ensures (x + k * p) % p == x % p
  {
    DivModUnique(x + k * p, p, x / p + k, x % p);
  }

  lemma ModIs(x: int, p: int)
    requires p > 0
    ensures x % p == x + (-(x / p)) * p && 0 <= x % p < p
  { }

  lemma ModAdd(x: int, y: int, p: int)
    requires p > 0
    ensures (x % p + y) % p == (x + y) % p && (x + y % p) % p == (x + y) % p
  {
    ModIs(x, p); ModIs(y, p);
    ModShift(x + y, -(x / p), p); ModShift(x + y, -(y / p), p);
  }

  lemma ModMul(x: int, y: int, p: int)
    requires p > 0
    ensures (x % p * y) % p == (x * y) % p && (y * (x % p)) % p == (x * y) % p
  {
    ModIs(x, p);
    var k := -(x / p);
    assert (x + k * p) * y == x * y + (k * y) * p;
    ModShift(x * y, k * y, p);
    assert y * (x % p) == x % p * y;
  }

  lemma SmallMod(x: int, p: int)
    requires 0 <= x < p
    ensures x % p == x
  { }

  lemma {:induction false} InverseWorks(p: int, a: int)
    requires IsPrime(p) && 0 < a < p
    ensures 0 <= InverseMod(p, a) < p && (a * InverseMod(p, a)) % p == 1
    decreases a
  {
    if a == 1 {
      SmallMod(1, p);
    } else {
      PrimeRemainder(p, a);
      hide *;
      InverseIs(p, a);
      InverseWorks(p, p % a);
      InverseStep(p, a, p / a, p % a, InverseMod(p, p % a));
      ModIs(-((p / a) * InverseMod(p, p % a)), p);
    }
  }

  lemma PrimeRemainder(p: int, a: int)
    requires IsPrime(p) && 2 <= a < p
    ensures 0 < p % a < a && p == (p / a) * a + p % a
  {
    assert !Divides(a, p);
  }

  lemma InverseIs(p: int, a: int)
    requires p >= 2 && a >= 2 && p % a != 0
    ensures InverseMod(p, a) == (-((p / a) * InverseMod(p, p % a))) % p
  { }

  lemma InverseStep(p: int, a: int, k: int, r: int, i: int)
    requires p >= 2 && p == k * a + r && (r * i) % p == 1
    ensures (a * ((-(k * i)) % p)) % p == 1
  {
    ModMul(-(k * i), a, p);
    assert -(k * i) * a == r * i + (-i) * p;
    ModShift(r * i, -i, p);
  }

  lemma UnaryLaws(p: int, a: int)
    requires IsPrime(p) && 0 <= a < p
    ensures
      var k := PrimeOps(p);
      && k.carrier(k.neg(a)) && k.carrier(k.inv(a)) && k.add(k.zero, a) == a && k.add(a, k.neg(a)) == k.zero
      && k.mul(k.one, a) == a && (a != k.zero ==> k.mul(a, k.inv(a)) == k.one)
  {
    SmallMod(a, p);
    ModIs(-a, p);
    ModAdd(-a, a, p);
    assert (a + (-a) % p) % p == 0 by { assert a + (-a) % p == (-a) % p + a; SmallMod(0, p); }
    if a > 0 { InverseWorks(p, a); }
  }

  lemma TernaryLaws(p: int, a: int, b: int, c: int)
    requires p >= 2
    ensures
      var k := PrimeOps(p);
      && k.add(k.add(a, b), c) == k.add(a, k.add(b, c))
      && k.mul(k.mul(a, b), c) == k.mul(a, k.mul(b, c))
      && k.mul(a, k.add(b, c)) == k.add(k.mul(a, b), k.mul(a, c))
  {
    ModAdd(a + b, c, p); ModAdd(a, b + c, p);
    ModMul(a * b, c, p); ModMul(b * c, a, p);
    Associate(a, b, c);
    ModMul(b + c, a, p); ModAdd(a * b, a * c % p, p); ModAdd(a * b, a * c, p);
  }

  lemma Associate(a: int, b: int, c: int)
    ensures a * b * c == b * c * a && (b + c) * a == a * b + a * c
  { }

  /** Every prime gives a field: the structure `K` ranges over all of them. */
  lemma PrimeFieldLaws(p: int)
    requires IsPrime(p)
    ensures Laws(PrimeOps(p))
  {
    var k := PrimeOps(p);
    hide IsPrime;
    forall a {:trigger Law1(a)} | Law1(a) && k.carrier(a)
      ensures k.carrier(k.neg(a)) && k.carrier(k.inv(a)) && k.add(k.zero, a) == a && k.add(a, k.neg(a)) == k.zero
      ensures k.mul(k.one, a) == a && (a != k.zero ==> k.mul(a, k.inv(a)) == k.one)
    {
      UnaryLaws(p, a);
    }
    forall a, b {:trigger Law2(a, b)} | Law2(a, b) && k.carrier(a) && k.carrier(b)
      ensures k.carrier(k.add(a, b)) && k.carrier(k.mul(a, b)) && k.add(a, b) == k.add(b, a) && k.mul(a, b) == k.mul(b, a)
    {
      assert a * b == b * a;
    }
    forall a, b, c {:trigger Law3(a, b, c)} | Law3(a, b, c) && k.carrier(a) && k.carrier(b) && k.carrier(c)
      ensures k.add(k.add(a, b), c) == k.add(a, k.add(b, c)) && k.mul(k.mul(a, b), c) == k.mul(a, k.mul(b, c))
      ensures k.mul(a, k.add(b, c)) == k.add(k.mul(a, b), k.mul(a, c))
    {
      TernaryLaws(p, a, b, c);
    }
  }
}
