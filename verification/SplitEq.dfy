/**
 The Gruen split equality polynomial: its state over every run of binds.
 Models crates/akita-algebra/src/split_eq.rs.
 */
module SplitEq {
  import opened Arith
  import opened Field
  import opened Sums
  import opened EqPoly
  import opened Poly

  /** eq of one coordinate pair. */
  function EqOne(t: F, r: F): F { Add(Mul(t, r), Mul(Sub(One, t), Sub(One, r))) }

  /** The running scalar after binding rs: c times the product of eq(tau_i, r_i). */
  function BoundScalar(c: F, tau: seq<F>, rs: seq<F>): F
    requires |rs| <= |tau|
  {
    Mul(c, Mle(tau[..|rs|], rs))
  }

  lemma MleNil() ensures Mle([], []) == One { }

  lemma MleCons(x: seq<F>, y: seq<F>)
    requires |x| == |y| > 0
    ensures Mle(x, y) == Mul(EqOne(x[0], y[0]), Mle(x[1..], y[1..]))
  { }

  lemma {:induction false} MleSnoc(x: seq<F>, y: seq<F>, a: F, b: F)
    requires |x| == |y|
    ensures Mle(x + [a], y + [b]) == Mul(Mle(x, y), EqOne(a, b))
    decreases |x|
  {
    hide *;
    MleCons(x + [a], y + [b]);
    if |x| == 0 {
      MleNil();
      assert x == [] && y == [] && (x + [a])[1..] == [] && (y + [b])[1..] == [];
      MulOne(EqOne(a, b));
    } else {
      MleCons(x, y);
      assert (x + [a])[1..] == x[1..] + [a] && (y + [b])[1..] == y[1..] + [b];
      MleSnoc(x[1..], y[1..], a, b);
      MulAssoc(EqOne(x[0], y[0]), Mle(x[1..], y[1..]), EqOne(a, b));
    }
  }

  lemma BoundNothing(c: F, tau: seq<F>)
    ensures BoundScalar(c, tau, []) == c
  {
    assert tau[..0] == [];
    MleNil(); MulOne(c);
  }

  lemma BoundNext(c: F, tau: seq<F>, rs: seq<F>, r: F)
    requires |rs| < |tau|
    ensures BoundScalar(c, tau, rs + [r]) == Mul(BoundScalar(c, tau, rs), EqOne(tau[|rs|], r))
  {
    hide Mle, EqOne;
    assert tau[..|rs| + 1] == tau[..|rs|] + [tau[|rs|]];
    MleSnoc(tau[..|rs|], rs, tau[|rs|], r);
    MulAssoc(c, Mle(tau[..|rs|], rs), EqOne(tau[|rs|], r));
  }

  // ----- the cached halves

  function FirstHalf(tau: seq<F>): seq<F> requires |tau| > 0 { tau[1..1 + (|tau| - 1) / 2] }

  function SecondHalf(tau: seq<F>): seq<F> requires |tau| > 0 { tau[1 + (|tau| - 1) / 2..] }

  /** Layers 0 to `levels` of a half's suffix tables. */
  ghost predicate Layers(e: seq<seq<F>>, half: seq<F>, levels: nat) {
    && levels <= |half| && |e| == levels + 1
    && forall k :: 0 <= k <= levels ==> e[k] == EqTable(half[|half| - k..])
  }

  /** How many layers of each half are left after `round` binds. */
  function FirstLevels(n: nat, round: nat): nat requires n > 0 {
    var m := (n - 1) / 2;
    if round <= m then m - round else 0
  }

  function SecondLevels(n: nat, round: nat): nat requires n > 0 {
    var m := (n - 1) / 2;
    if round <= m then n - 1 - m else if round < n then n - 1 - round else 0
  }

  function SuffixOf(half: seq<F>, levels: nat): seq<F> { if levels <= |half| then half[|half| - levels..] else half }

  /** The two tables of round `round`; they do not depend on any challenge. */
  function TopTables(tau: seq<F>, round: nat): (seq<F>, seq<F>)
    requires |tau| > 0
  {
    (EqTable(SuffixOf(FirstHalf(tau), FirstLevels(|tau|, round))), EqTable(SuffixOf(SecondHalf(tau), SecondLevels(|tau|, round))))
  }

  /** Together the two suffixes are exactly the unbound variables after the current one. */
  lemma SuffixesAreUnbound(tau: seq<F>, round: nat)
    requires round < |tau|
    ensures SuffixOf(FirstHalf(tau), FirstLevels(|tau|, round)) + SuffixOf(SecondHalf(tau), SecondLevels(|tau|, round)) == tau[round + 1..]
  { }

  /** The tables factor eq over exactly the unbound, non-current variables. */
  lemma TablesFactorEq(tau: seq<F>, round: nat, j: nat)
    requires round < |tau| && j < Pow2(|tau| - 1 - round)
    ensures
      var (first, second) := TopTables(tau, round);
      && |first| > 0 && j / |first| < |second| && j / |first| >= 0
      && Mul(first[j % |first|], second[j / |first|]) == EqAt(tau[round + 1..], j)
  {
    hide *;
    TopTablesAre(tau, round);
    SuffixesAreUnbound(tau, round);
    SplitProduct(SuffixOf(FirstHalf(tau), FirstLevels(|tau|, round)), SuffixOf(SecondHalf(tau), SecondLevels(|tau|, round)), j);
  }

  lemma SplitProduct(a: seq<F>, b: seq<F>, j: nat)
    requires j < Pow2(|a + b|)
    ensures
      var first, second := EqTable(a), EqTable(b);
      && |first| > 0 && j / |first| < |second| && j / |first| >= 0
      && Mul(first[j % |first|], second[j / |first|]) == EqAt(a + b, j)
  {
    hide *;
    assert (a + b)[..|a|] == a && (a + b)[|a|..] == b;
    DivModIs(j, Pow2(|a|));
    TablesSplit(a + b, |a|, j, j / Pow2(|a|), j % Pow2(|a|));
  }

  lemma TopTablesAre(tau: seq<F>, round: nat)
    requires |tau| > 0
    ensures TopTables(tau, round) ==
      (EqTable(SuffixOf(FirstHalf(tau), FirstLevels(|tau|, round))), EqTable(SuffixOf(SecondHalf(tau), SecondLevels(|tau|, round))))
  { }

  // ----- binding is folding the full table

  /** One fold of the scaled table binds its lowest coordinate into the scale. */
  lemma FoldTable(c: F, tau: seq<F>, r: F)
    requires |tau| > 0
    ensures FoldOnce(ScaledTable(c, tau), r) == ScaledTable(Mul(c, EqOne(tau[0], r)), tau[1..])
  {
    hide *;
    var s, c' := ScaledTable(c, tau), Mul(c, EqOne(tau[0], r));
    var folded := FoldOnce(s, r);
    Pow2Step(|tau| - 1);
    forall x | 0 <= x < |folded| ensures folded[x] == Mul(c', EqAt(tau[1..], x)) { FoldEntry(c, tau, r, x); }
    ScaledIs(c', tau[1..], folded);
  }

  lemma FoldEntry(c: F, tau: seq<F>, r: F, x: nat)
    requires |tau| > 0 && x < Pow2(|tau| - 1)
    ensures FoldOne(At(ScaledTable(c, tau), 2 * x), At(ScaledTable(c, tau), 2 * x + 1), r) == Mul(Mul(c, EqOne(tau[0], r)), EqAt(tau[1..], x))
  {
    hide *;
    Pow2Step(|tau| - 1);
    AtScaled(c, tau, 2 * x); AtScaled(c, tau, 2 * x + 1);
    EqCons(tau, 2 * x); EqCons(tau, 2 * x + 1);
    FoldFactor(c, tau[0], r, EqAt(tau[1..], x));
  }

  lemma AtScaled(c: F, r: seq<F>, x: nat)
    requires x < Pow2(|r|)
    ensures At(ScaledTable(c, r), x) == Mul(c, EqAt(r, x))
  {
    hide EqAt, Mul, Pow2;
  }

  lemma ScaledAt(c: F, r: seq<F>, x: nat)
    requires x < Pow2(|r|)
    ensures ScaledTable(c, r)[x] == Mul(c, EqAt(r, x))
  { }

  lemma FoldFactor(c: F, t: F, r: F, e: F)
    ensures FoldOne(Mul(c, Mul(Factor(t, 0), e)), Mul(c, Mul(Factor(t, 1), e)), r) == Mul(Mul(c, EqOne(t, r)), e)
  {
    var f0, f1 := Factor(t, 0), Factor(t, 1);
    FoldOneIsCombine(Mul(c, Mul(f0, e)), Mul(c, Mul(f1, e)), r);
    CombineIsWeighted(true, Mul(c, Mul(f0, e)), Mul(c, Mul(f1, e)), r);
    assert EqOne(t, r) == Add(Mul(f1, r), Mul(f0, Sub(One, r)));
    hide *;
    FactorIsWeight(r, 0); FactorIsWeight(r, 1); FactorIs(r);
    Pull(c, f0, e, Sub(One, r)); Pull(c, f1, e, r);
    AddComm(Mul(f1, r), Mul(f0, Sub(One, r)));
    Distrib(c, Mul(f0, Sub(One, r)), Mul(f1, r));
    Distrib(e, Mul(c, Mul(f0, Sub(One, r))), Mul(c, Mul(f1, r)));
  }

  lemma FactorIs(r: F) ensures Factor(r, 1) == r && Factor(r, 0) == Sub(One, r) { }

  lemma Pull(c: F, f: F, e: F, w: F)
    ensures Mul(w, Mul(c, Mul(f, e))) == Mul(Mul(c, Mul(f, w)), e)
  {
    hide *;
    MulAssoc(c, f, e); MulAssoc(w, Mul(c, f), e); MulComm(w, Mul(c, f)); MulAssoc(c, f, w);
  }

  /** After any challenges, the folded full table is the scalar times eq over the unbound variables. */
  lemma {:induction false} FoldedTableIs(c: F, tau: seq<F>, rs: seq<F>)
    requires |rs| <= |tau|
    ensures FoldAll(ScaledTable(c, tau), rs) == ScaledTable(BoundScalar(c, tau, rs), tau[|rs|..])
    decreases |rs|
  {
    hide *;
    FoldAllStep(ScaledTable(c, tau), rs);
    if |rs| == 0 {
      BoundNothing(c, tau);
      assert rs == [] && tau[0..] == tau;
    } else {
      var c' := Mul(c, EqOne(tau[0], rs[0]));
      FoldTable(c, tau, rs[0]);
      FoldedTableIs(c', tau[1..], rs[1..]);
      assert tau[1..][|rs| - 1..] == tau[|rs|..];
      BoundCons(c, tau, rs);
    }
  }

  lemma BoundCons(c: F, tau: seq<F>, rs: seq<F>)
    requires 0 < |rs| <= |tau|
    ensures BoundScalar(c, tau, rs) == BoundScalar(Mul(c, EqOne(tau[0], rs[0])), tau[1..], rs[1..])
  {
    hide Mle, EqOne;
    assert tau[..|rs|][1..] == tau[1..][..|rs| - 1];
    MleCons(tau[..|rs|], rs);
    MulAssoc(c, EqOne(tau[0], rs[0]), Mle(tau[1..][..|rs| - 1], rs[1..]));
  }

  // ----- the state machine

  /** The linear factor l at X: the scalar times eq(current tau, X). */
  function LineAt(scalar: F, t: F, x: F): F { Mul(scalar, EqOne(t, x)) }

  lemma LineEnds(scalar: F, t: F)
    ensures LineAt(scalar, t, One) == Mul(scalar, t) && LineAt(scalar, t, Zero) == Sub(scalar, Mul(scalar, t))
  {
    AddNeg(One); SubZero(One);
    MulZero(t); MulOne(t); MulZero(Sub(One, t)); MulOne(Sub(One, t)); AddZero(t); AddZero(Sub(One, t));
    DistribSub(scalar, One, t); MulOne(scalar);
  }

  /**
   The whole state against the full table: entry x of the table folded by the challenges is the linear
   factor at x's low bit times the two split entries of x's other bits.
   */
  lemma StateIsFoldedTable(c: F, tau: seq<F>, rs: seq<F>, x: nat)
    requires |rs| < |tau| && x < Pow2(|tau| - |rs|)
    ensures
      var j, (first, second) := x / 2, TopTables(tau, |rs|);
      && |FoldAll(ScaledTable(c, tau), rs)| == Pow2(|tau| - |rs|)
      && |first| > 0 && 0 <= j / |first| < |second|
      && FoldAll(ScaledTable(c, tau), rs)[x] ==
           Mul(LineAt(BoundScalar(c, tau, rs), tau[|rs|], if x % 2 == 1 then One else Zero),
               Mul(first[j % |first|], second[j / |first|]))
  {
    hide *;
    var scalar, t, j := BoundScalar(c, tau, rs), tau[|rs|], x / 2;
    FoldedTableIs(c, tau, rs);
    ScaledAt(scalar, tau[|rs|..], x);
    EqSuffix(tau, |rs|, x);
    Pow2Step(|tau| - |rs| - 1);
    TablesFactorEq(tau, |rs|, j);
    LineEnds(scalar, t); FactorIs(t);
    DistribSub(scalar, One, t); MulOne(scalar);
    MulAssoc(scalar, Factor(t, x % 2), EqAt(tau[|rs| + 1..], j));
    assert x % 2 == 0 || x % 2 == 1;
  }

  /** l is the line through its two ends. */
  lemma LineIsLinear(scalar: F, t: F, x: F)
    ensures
      var at0, at1 := Sub(scalar, Mul(scalar, t)), Mul(scalar, t);
      LineAt(scalar, t, x) == Add(at0, Mul(Sub(at1, at0), x))
  {
    var at0, at1 := Sub(scalar, Mul(scalar, t)), Mul(scalar, t);
    assert at0 == Mul(scalar, Sub(One, t)) by { DistribSub(scalar, One, t); MulOne(scalar); }
    hide *;
    EqOneIs(t, x);
    var u, v := Sub(One, t), Sub(One, x);
    Distrib(scalar, Mul(t, x), Mul(u, v));
    MulAssoc(scalar, t, x); MulAssoc(scalar, u, v);
    DistribSub(at0, One, x); MulOne(at0);
    DistribSub(x, at1, at0); MulComm(x, at0);
    LineTerms(at0, Mul(at1, x), Mul(at0, x));
  }

  lemma EqOneIs(t: F, x: F) ensures EqOne(t, x) == Add(Mul(t, x), Mul(Sub(One, t), Sub(One, x))) { }

  lemma LineTerms(a: F, p: F, q: F)
    ensures Add(p, Sub(a, q)) == Add(a, Sub(p, q))
  {
    AddAssoc(p, a, Neg(q)); AddComm(p, a); AddAssoc(a, p, Neg(q));
  }

  class GruenSplitEq {
    const tau: seq<F>
    var currentRound: nat
    var currentScalar: F
    var eFirst: seq<seq<F>>
    var eSecond: seq<seq<F>>

    /** The state after binding the challenges rs from the initial scalar c. */
    ghost predicate Reached(c: F, rs: seq<F>)
      reads this
    {
      && 0 < |tau| && currentRound == |rs| <= |tau|
      && currentScalar == BoundScalar(c, tau, rs)
      && Layers(eFirst, FirstHalf(tau), FirstLevels(|tau|, currentRound))
      && Layers(eSecond, SecondHalf(tau), SecondLevels(|tau|, currentRound))
    }

    constructor (tau: seq<F>, initial: F, first: seq<seq<F>>, second: seq<seq<F>>)
      requires |tau| > 0
      requires Layers(first, FirstHalf(tau), FirstLevels(|tau|, 0)) && Layers(second, SecondHalf(tau), SecondLevels(|tau|, 0))
      ensures Reached(initial, []) && this.tau == tau
    {
      this.tau := tau;
      currentRound, currentScalar, eFirst, eSecond := 0, initial, first, second;
      BoundNothing(initial, tau);
    }

    /** `with_initial_scalar`: fails exactly on an empty point and on one whose second half is too long to tabulate. */
    static method WithInitialScalar(tau: seq<F>, initial: F) returns (res: Result<GruenSplitEq>)
      ensures res.Ok? <==> 1 <= |tau| <= 125
      ensures res.Ok? ==> fresh(res.value) && res.value.tau == tau && res.value.Reached(initial, [])
    {
      if |tau| == 0 { return Err; }
      HalfLengths(tau);
      HalfSize(tau);
      hide *;
      var first := EvalsCached(FirstHalf(tau), None);
      if first.Err? { return Err; }
      var second := EvalsCached(SecondHalf(tau), None);
      if second.Err? { return Err; }
      CachedLayers(first.value, FirstHalf(tau));
      CachedLayers(second.value, SecondHalf(tau));
      var state := new GruenSplitEq(tau, initial, first.value, second.value);
      return Ok(state);
    }

    /** `bind`: one more challenge; past the last variable the source panics. */
    method Bind(r: F, ghost c: F, ghost rs: seq<F>)
      requires Reached(c, rs) && currentRound < |tau|
      modifies this
      ensures Reached(c, rs + [r])
    {
      hide *;
      ReachedParts(c, rs);
      var t := tau[currentRound];
      BoundNext(c, tau, rs, r);
      EqOneIs(t, r);
      PoppedLayers(eFirst, eSecond, tau, currentRound);
      currentScalar := Mul(currentScalar, Add(Mul(t, r), Mul(Sub(One, t), Sub(One, r))));
      currentRound := currentRound + 1;
      if |eFirst| > 1 {
        eFirst := eFirst[..|eFirst| - 1];
      } else if |eSecond| > 1 {
        eSecond := eSecond[..|eSecond| - 1];
      }
      ReachedIntro(c, rs + [r]);
    }

    /** Any run of binds; the tables foreseen before it are the ones it ends with. */
    method BindAll(more: seq<F>, ghost c: F, ghost rs: seq<F>) returns (foreseen: Option<(seq<F>, seq<F>)>, first: seq<F>, second: seq<F>)
      requires Reached(c, rs) && |rs| + |more| <= |tau|
      modifies this
      ensures Reached(c, rs + more)
      ensures foreseen.Some? ==> foreseen.value == (first, second)
      ensures foreseen.Some? <==> more == [] || |rs| + |more| < |tau|
    {
      hide *;
      foreseen := RemainingEqTablesAfter(|more|, c, rs);
      assert rs + more[..0] == rs;
      for k := 0 to |more|
        invariant Reached(c, rs + more[..k])
      {
        ReachedParts(c, rs + more[..k]);
        Bind(more[k], c, rs + more[..k]);
        assert rs + more[..k] + [more[k]] == rs + more[..k + 1];
      }
      assert more[..|more|] == more;
      first, second := RemainingEqTables(c, rs + more);
    }

    lemma ReachedParts(c: F, rs: seq<F>)
      requires Reached(c, rs)
      ensures 0 < |tau| && currentRound == |rs| <= |tau| && currentScalar == BoundScalar(c, tau, rs)
      ensures Layers(eFirst, FirstHalf(tau), FirstLevels(|tau|, currentRound))
      ensures Layers(eSecond, SecondHalf(tau), SecondLevels(|tau|, currentRound))
    { }

    lemma ReachedIntro(c: F, rs: seq<F>)
      requires 0 < |tau| && currentRound == |rs| <= |tau| && currentScalar == BoundScalar(c, tau, rs)
      requires Layers(eFirst, FirstHalf(tau), FirstLevels(|tau|, currentRound))
      requires Layers(eSecond, SecondHalf(tau), SecondLevels(|tau|, currentRound))
      ensures Reached(c, rs)
    { }

    /** `remaining_eq_tables`. */
    method RemainingEqTables(ghost c: F, ghost rs: seq<F>) returns (first: seq<F>, second: seq<F>)
      requires Reached(c, rs)
      ensures (first, second) == TopTables(tau, |rs|)
    {
      hide *;
      ReachedParts(c, rs);
      TopTablesAre(tau, |rs|);
      LayerAt(eFirst, FirstHalf(tau), FirstLevels(|tau|, |rs|), FirstLevels(|tau|, |rs|));
      LayerAt(eSecond, SecondHalf(tau), SecondLevels(|tau|, |rs|), SecondLevels(|tau|, |rs|));
      first, second := eFirst[|eFirst| - 1], eSecond[|eSecond| - 1];
    }

    /**
     `remaining_eq_tables_after`: the tables any `binds` further binds lead to, and None exactly when fewer
     variables follow the current one.
     */
    method RemainingEqTablesAfter(binds: nat, ghost c: F, ghost rs: seq<F>) returns (tables: Option<(seq<F>, seq<F>)>)
      requires Reached(c, rs)
      ensures tables.Some? <==> binds == 0 || |rs| + binds < |tau|
      ensures tables.Some? ==> tables.value == TopTables(tau, |rs| + binds)
    {
      hide *;
      ReachedParts(c, rs);
      TopTablesAre(tau, |rs| + binds);
      LevelsAfter(|tau|, |rs|, binds);
      LayerAt(eFirst, FirstHalf(tau), FirstLevels(|tau|, |rs|), 0);
      LayerAt(eSecond, SecondHalf(tau), SecondLevels(|tau|, |rs|), SecondLevels(|tau|, |rs|));
      var firstLevels, secondLevels := |eFirst| - 1, |eSecond| - 1;
      if binds <= firstLevels {
        LayerAt(eFirst, FirstHalf(tau), firstLevels, firstLevels - binds);
        return Some((eFirst[firstLevels - binds], eSecond[secondLevels]));
      }
      if secondLevels < binds - firstLevels { return None; }
      LayerAt(eSecond, SecondHalf(tau), secondLevels, secondLevels - (binds - firstLevels));
      return Some((eFirst[0], eSecond[secondLevels - (binds - firstLevels)]));
    }

    /** `linear_factor_evals`: l(0) and l(1) of the current round. */
    method LinearFactorEvals(ghost c: F, ghost rs: seq<F>) returns (at0: F, at1: F)
      requires Reached(c, rs) && currentRound < |tau|
      ensures at0 == LineAt(BoundScalar(c, tau, rs), tau[|rs|], Zero) && at1 == LineAt(BoundScalar(c, tau, rs), tau[|rs|], One)
      ensures at1 == Mul(BoundScalar(c, tau, rs), tau[|rs|]) && at0 == Sub(BoundScalar(c, tau, rs), at1)
    {
      hide *;
      ReachedParts(c, rs);
      at1 := Mul(currentScalar, tau[currentRound]);
      at0 := Sub(currentScalar, at1);
      LineEnds(currentScalar, tau[currentRound]);
    }
  }

  lemma HalfSize(tau: seq<F>)
    requires |tau| > 0
    ensures |SecondHalf(tau)| < USIZE_BITS - 1 <==> |tau| <= 125
  { }

  lemma HalfLengths(tau: seq<F>)
    requires |tau| > 0
    ensures |FirstHalf(tau)| == FirstLevels(|tau|, 0) <= |SecondHalf(tau)| == SecondLevels(|tau|, 0)
  { }

  lemma LayerAt(e: seq<seq<F>>, half: seq<F>, levels: nat, k: nat)
    requires Layers(e, half, levels) && k <= levels
    ensures |e| == levels + 1 && e[k] == EqTable(SuffixOf(half, k))
  { }

  /** Binds first use up the first half's layers, then the second half's. */
  lemma LevelsAfter(n: nat, round: nat, binds: nat)
    requires n > 0 && round <= n
    ensures
      var a, b := FirstLevels(n, round), SecondLevels(n, round);
      && (binds == 0 || round + binds < n <==> binds <= a + b)
      && (binds <= a ==> FirstLevels(n, round + binds) == a - binds && SecondLevels(n, round + binds) == b)
      && (a < binds <= a + b ==> FirstLevels(n, round + binds) == 0 && SecondLevels(n, round + binds) == b - (binds - a))
  { }

  lemma CachedLayers(e: seq<seq<F>>, half: seq<F>)
    requires |e| == |half| + 1 && forall j :: 0 <= j <= |half| ==> e[j] == ScaledTable(One, half[|half| - j..])
    ensures Layers(e, half, |half|)
  {
    hide ScaledTable, EqTable;
    forall k | 0 <= k <= |half| ensures e[k] == EqTable(half[|half| - k..]) { ScaledByOne(half[|half| - k..]); }
  }

  /** The pop of `bind` leaves the next round's layers. */
  lemma PoppedLayers(e1: seq<seq<F>>, e2: seq<seq<F>>, tau: seq<F>, round: nat)
    requires round < |tau|
    requires Layers(e1, FirstHalf(tau), FirstLevels(|tau|, round)) && Layers(e2, SecondHalf(tau), SecondLevels(|tau|, round))
    ensures |e1| >= 1 && |e2| >= 1
    ensures
      var f1 := if |e1| > 1 then e1[..|e1| - 1] else e1;
      var f2 := if |e1| <= 1 && |e2| > 1 then e2[..|e2| - 1] else e2;
      Layers(f1, FirstHalf(tau), FirstLevels(|tau|, round + 1)) && Layers(f2, SecondHalf(tau), SecondLevels(|tau|, round + 1))
  {
    hide EqTable;
  }
}
