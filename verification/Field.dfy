/**
 An arbitrary field.

 The source computes in `jolt_field` prime fields and their extensions. Nothing below depends on
 which one: `K` is an arbitrary structure obeying the field laws whose elements are coded as
 integers, and `F` is its set of elements. `PrimeField.dfy` shows that the integers modulo any prime
 are one such structure.

 The laws are quantified over the markers `Law1`, `Law2` and `Law3`, which hold of everything: the
 verifier uses a law only where a lemma names its arguments.
 */
module Field {
  datatype FieldOps = FieldOps(
    carrier: int -> bool,
    zero: int,
    one: int,
    add: (int, int) -> int,
    neg: int -> int,
    mul: (int, int) -> int,
    inv: int -> int)

  predicate Law1(a: int) { true }
  predicate Law2(a: int, b: int) { true }
  predicate Law3(a: int, b: int, c: int) { true }

  ghost predicate Laws(k: FieldOps) {
    && k.carrier(k.zero) && k.carrier(k.one) && k.zero != k.one
    && (forall a {:trigger Law1(a)} :: Law1(a) && k.carrier(a) ==>
          && k.carrier(k.neg(a)) && k.carrier(k.inv(a))
          && k.add(k.zero, a) == a
          && k.add(a, k.neg(a)) == k.zero
          && k.mul(k.one, a) == a
          && (a != k.zero ==> k.mul(a, k.inv(a)) == k.one))
    && (forall a, b {:trigger Law2(a, b)} :: Law2(a, b) && k.carrier(a) && k.carrier(b) ==>
          && k.carrier(k.add(a, b)) && k.carrier(k.mul(a, b))
          && k.add(a, b) == k.add(b, a)
          && k.mul(a, b) == k.mul(b, a))
    && (forall a, b, c {:trigger Law3(a, b, c)} ::
          Law3(a, b, c) && k.carrier(a) && k.carrier(b) && k.carrier(c) ==>
          && k.add(k.add(a, b), c) == k.add(a, k.add(b, c))
          && k.mul(k.mul(a, b), c) == k.mul(a, k.mul(b, c))
          && k.mul(a, k.add(b, c)) == k.add(k.mul(a, b), k.mul(a, c)))
  }

  const GF2 := FieldOps(x => x == 0 || x == 1, 0, 1,
                        (a, b) => if a == b then 0 else 1, a => a,
                        (a, b) => if a == 1 && b == 1 then 1 else 0, a => a)

  type FieldStructure = k: FieldOps | Laws(k) witness GF2

  /** The field of the computation: an arbitrary one. */
  const K: FieldStructure

  type F = x: int | K.carrier(x) witness K.zero

  const Zero: F := K.zero
  const One: F := K.one

  function Add(a: F, b: F): F { assert Law2(a, b); K.add(a, b) }
  function Neg(a: F): F { assert Law1(a); K.neg(a) }
  function Sub(a: F, b: F): F { Add(a, Neg(b)) }
  function Mul(a: F, b: F): F { assert Law2(a, b); K.mul(a, b) }
  /** The inverse of a nonzero element; the source's `inverse` is `None` exactly at zero. */
  function Inv(a: F): F { assert Law1(a); K.inv(a) }

  lemma OneIsNotZero() ensures One != Zero { }

  lemma AddComm(a: F, b: F) ensures Add(a, b) == Add(b, a) { assert Law2(a, b); }

  lemma AddAssoc(a: F, b: F, c: F) ensures Add(Add(a, b), c) == Add(a, Add(b, c)) { assert Law3(a, b, c); }

  lemma AddZero(a: F) ensures Add(Zero, a) == a && Add(a, Zero) == a { assert Law1(a); AddComm(a, Zero); }

  lemma AddNeg(a: F) ensures Add(a, Neg(a)) == Zero && Sub(a, a) == Zero { assert Law1(a); }

  lemma MulComm(a: F, b: F) ensures Mul(a, b) == Mul(b, a) { assert Law2(a, b); }

  lemma MulAssoc(a: F, b: F, c: F) ensures Mul(Mul(a, b), c) == Mul(a, Mul(b, c)) { assert Law3(a, b, c); }

  lemma MulOne(a: F) ensures Mul(One, a) == a && Mul(a, One) == a { assert Law1(a); MulComm(a, One); }

  lemma MulInv(a: F)
    requires a != Zero
    ensures Mul(a, Inv(a)) == One && Mul(Inv(a), a) == One
  {
    assert Law1(a);
    MulComm(a, Inv(a));
  }

  lemma Distrib(a: F, b: F, c: F)
    ensures Mul(a, Add(b, c)) == Add(Mul(a, b), Mul(a, c))
    ensures Mul(Add(b, c), a) == Add(Mul(b, a), Mul(c, a))
  {
    assert Law3(a, b, c);
    MulComm(a, Add(b, c)); MulComm(a, b); MulComm(a, c);
  }

  lemma AddCancel(a: F, b: F, c: F)
    requires Add(a, b) == Add(a, c)
    ensures b == c
  {
    AddComm(a, Neg(a)); AddNeg(a);
    AddAssoc(Neg(a), a, b); AddAssoc(Neg(a), a, c);
    AddZero(b); AddZero(c);
  }

  lemma NegUnique(a: F, b: F)
    requires Add(a, b) == Zero
    ensures b == Neg(a) && a == Neg(b)
  {
    AddNeg(a); AddCancel(a, b, Neg(a));
    AddComm(a, b); AddNeg(b); AddCancel(b, a, Neg(b));
  }

  lemma NegNeg(a: F) ensures Neg(Neg(a)) == a { AddNeg(a); NegUnique(a, Neg(a)); }

  lemma NegZero() ensures Neg(Zero) == Zero { AddZero(Zero); NegUnique(Zero, Zero); }

  lemma MulZero(a: F) ensures Mul(a, Zero) == Zero && Mul(Zero, a) == Zero {
    AddZero(Zero); Distrib(a, Zero, Zero);
    AddZero(Mul(a, Zero));
    AddCancel(Mul(a, Zero), Mul(a, Zero), Zero);
    MulComm(a, Zero);
  }

  lemma MulNeg(a: F, b: F)
    ensures Mul(a, Neg(b)) == Neg(Mul(a, b)) && Mul(Neg(a), b) == Neg(Mul(a, b))
  {
    AddNeg(b); Distrib(a, b, Neg(b)); MulZero(a); NegUnique(Mul(a, b), Mul(a, Neg(b)));
    AddNeg(a); Distrib(b, a, Neg(a)); MulZero(b); NegUnique(Mul(a, b), Mul(Neg(a), b));
  }

  lemma NegAdd(a: F, b: F) ensures Neg(Add(a, b)) == Add(Neg(a), Neg(b)) {
    Add4(a, b, Neg(a), Neg(b)); AddNeg(a); AddNeg(b); AddZero(Zero);
    NegUnique(Add(a, b), Add(Neg(a), Neg(b)));
  }

  lemma DistribSub(a: F, b: F, c: F)
    ensures Mul(a, Sub(b, c)) == Sub(Mul(a, b), Mul(a, c))
    ensures Mul(Sub(b, c), a) == Sub(Mul(b, a), Mul(c, a))
  {
    Distrib(a, b, Neg(c)); MulNeg(a, c); MulNeg(c, a);
  }

  /** (a + b) + (c + d) = (a + c) + (b + d) */
  lemma Add4(a: F, b: F, c: F, d: F)
    ensures Add(Add(a, b), Add(c, d)) == Add(Add(a, c), Add(b, d))
  {
    AddAssoc(a, b, Add(c, d)); AddAssoc(b, c, d); AddComm(b, c); AddAssoc(c, b, d); AddAssoc(a, c, Add(b, d));
  }

  /** (ab)(cd) = (ac)(bd) */
  lemma Mul4(a: F, b: F, c: F, d: F)
    ensures Mul(Mul(a, b), Mul(c, d)) == Mul(Mul(a, c), Mul(b, d))
  {
    MulAssoc(a, b, Mul(c, d)); MulAssoc(b, c, d); MulComm(b, c); MulAssoc(c, b, d); MulAssoc(a, c, Mul(b, d));
  }

  /** h (c0 e0 + c1 e1) = c0 (h e0) + c1 (h e1) */
  lemma DistribInto(h: F, c0: F, c1: F, e0: F, e1: F)
    ensures Mul(h, Add(Mul(c0, e0), Mul(c1, e1))) == Add(Mul(c0, Mul(h, e0)), Mul(c1, Mul(h, e1)))
  {
    hide *;
    Distrib(h, Mul(c0, e0), Mul(c1, e1));
    MulAssoc(h, c0, e0); MulComm(h, c0); MulAssoc(c0, h, e0);
    MulAssoc(h, c1, e1); MulComm(h, c1); MulAssoc(c1, h, e1);
  }

  /** (a + b) - b = a and (a - b) + b = a */
  lemma AddSub(a: F, b: F)
    ensures Sub(Add(a, b), b) == a && Add(Sub(a, b), b) == a && Add(b, Sub(a, b)) == a
  {
    AddAssoc(a, b, Neg(b)); AddNeg(b); AddZero(a);
    AddAssoc(a, Neg(b), b); AddComm(Neg(b), b); AddComm(b, Sub(a, b));
  }

  lemma SubUnique(a: F, b: F, c: F)
    requires a == Add(b, c)
    ensures Sub(a, b) == c && Sub(a, c) == b
  {
    AddComm(b, c); AddSub(c, b); AddSub(b, c);
  }

  lemma SubZero(a: F) ensures Sub(a, Zero) == a { NegZero(); AddZero(a); }

  lemma SubIsZero(a: F, b: F)
    requires Sub(a, b) == Zero
    ensures a == b
  {
    AddSub(a, b); AddZero(b);
  }

  /** a x + b x = ... a field has no zero divisors. */
  lemma NoZeroDivisors(a: F, b: F)
    requires Mul(a, b) == Zero
    ensures a == Zero || b == Zero
  {
    if a != Zero {
      MulInv(a); MulAssoc(Inv(a), a, b); MulOne(b); MulZero(Inv(a));
    }
  }
}
