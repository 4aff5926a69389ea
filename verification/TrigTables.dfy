/**
 The certified cosine and sine tables of the operator-norm check.
 Models `octant_reduce`, `apply_sign`, `downscale_round` and `build_tables` of
 crates/akita-challenges/scripts/gen_op_norm_static_base.py.
 */
module TrigTables {
  import opened Arith
  import opened Intervals
  import opened TrigSeries
  import opened Machin

  // ----- rounding

  /** `downscale_round`: the midpoint at the coarser scale, and its distance from the further end. */
  function DownscaleRound(v: Interval, shift: nat): (int, int) {
    var lo, hi := v.lo / Pow2(shift), CeilDiv(v.hi, Pow2(shift));
    var entry := (lo + hi) / 2;
    (entry, Max(entry - lo, hi - entry))
  }

  /** Rounded down to scale 2^q, the error bounds the distance of the entry from every value the interval holds. */
  lemma RoundingError(v: Interval, q: nat, y: real)
    requires q <= 61 && v.lo as real <= y * Pow2(61) as real <= v.hi as real
    ensures
      var (entry, err) := DownscaleRound(v, 61 - q);
      -(err as real) <= entry as real - y * Pow2(q) as real <= err as real
  {
    hide DownscaleRound, Pow2;
    assert In(v, y) by { hide *; InMeans(v, y); }
    RoundingAt(v, q, y);
  }

  lemma RoundingAt(v: Interval, q: nat, y: real)
    requires q <= 61 && In(v, y)
    ensures
      var (entry, err) := DownscaleRound(v, 61 - q);
      -(err as real) <= entry as real - AtScale(y, q) <= err as real
  {
    var p := Pow2(61 - q);
    hide *;
    OutwardAt(v, q, y, p);
    DownscaleIs(v, 61 - q);
    Midpoint(v.lo / p, CeilDiv(v.hi, p), AtScale(y, q));
  }

  lemma OutwardAt(v: Interval, q: nat, y: real, p: int)
    requires q <= 61 && In(v, y) && p == Pow2(61 - q)
    ensures p >= 1 && (v.lo / p) as real <= AtScale(y, q) <= CeilDiv(v.hi, p) as real
  {
    hide *;
    OutwardHolds(v, p, y);
    ScaleShift(q, y);
  }

  lemma DownscaleIs(v: Interval, shift: nat)
    ensures
      var lo, hi := v.lo / Pow2(shift), CeilDiv(v.hi, Pow2(shift));
      DownscaleRound(v, shift) == ((lo + hi) / 2, Max((lo + hi) / 2 - lo, hi - (lo + hi) / 2))
  { }

  lemma OutwardHolds(v: Interval, p: int, y: real)
    requires In(v, y) && p >= 1
    ensures (v.lo / p) as real <= y * ONE / p as real <= CeilDiv(v.hi, p) as real
  {
    FloorBound(v.lo, p); CeilBound(v.hi, p);
    Outward((v.lo / p) as real, CeilDiv(v.hi, p) as real, y * ONE, p as real);
  }

  lemma Outward(lo: real, hi: real, z: real, p: real)
    requires p > 0.0 && lo * p <= z <= hi * p
    ensures lo <= z / p <= hi
  {
    var w := z / p;
    assert w * p == z;
    ScaleDown(lo, w, p); ScaleDown(w, hi, p);
  }

  lemma Midpoint(lo: int, hi: int, w: real)
    requires lo as real <= w <= hi as real
    ensures
      var entry := (lo + hi) / 2;
      var err := Max(entry - lo, hi - entry);
      -(err as real) <= entry as real - w <= err as real
  { }

  function ApplySign(v: Interval, sign: int): Interval { if sign < 0 then Interval(-v.hi, -v.lo) else v }

  lemma ApplySignEncloses(v: Interval, sign: int, y: real)
    requires In(v, y)
    ensures In(ApplySign(v, sign), if sign < 0 then -y else y)
  { }

  // ----- octants

  /** `octant_reduce`: the row of the first octant, whether cosine and sine swap, and their signs. */
  function OctantReduce(t0: nat, d: nat): (r: (nat, bool, int, int))
    requires d > 0
    ensures r.0 <= d / 4
  {
    var t := t0 % (2 * d);
    var sinSign := if t > d then -1 else 1;
    var t1 := if t > d then 2 * d - t else t;
    var cosSign := if t1 > d / 2 then -1 else 1;
    var t2 := if t1 > d / 2 then d - t1 else t1;
    var swap := t2 > d / 4;
    (if swap then d / 2 - t2 else t2, swap, cosSign, sinSign)
  }

  /**
   In half turns of d steps, the index is the first-quadrant position, its mirror at the half turn, its
   opposite, or its mirror at the full turn, as the two signs say; the position is the row, or its complement
   when swapped.
   */
  lemma OctantPosition(t: nat, d: nat)
    requires d > 0
    ensures
      var (row, swap, cosSign, sinSign) := OctantReduce(t, d);
      var position := if swap then d / 2 - row else row;
      && cosSign in {-1, 1} && sinSign in {-1, 1} && 0 <= position <= d / 2 && (swap <==> position > d / 4)
      && t % (2 * d) == if cosSign > 0 && sinSign > 0 then position else if sinSign > 0 then d - position
                        else if cosSign < 0 then d + position else 2 * d - position
  { }

  // ----- the tables

  /** The enclosure of the angle pi r / d. */
  function AngleOf(pi: Interval, r: nat, d: nat): Interval requires d > 0 { Interval(pi.lo * r / d, CeilDiv(pi.hi * r, d)) }

  lemma AngleInUnit(pi: Interval, r: nat, d: nat)
    requires d > 0 && r <= d / 4 && 0 <= pi.lo <= pi.hi <= 4 * TRIG_ONE
    ensures InUnit(AngleOf(pi, r, d))
    ensures pi.hi - pi.lo <= 1280 ==> Width(AngleOf(pi, r, d)) <= 321
  {
    if pi.hi - pi.lo <= 1280 { AngleWidth(pi, r, d); }
    MulMono(pi.lo, pi.hi, r);
    MulMono(0, pi.lo, r);
    assert pi.hi * r <= TRIG_ONE * d by { MulMono(pi.hi, 4 * TRIG_ONE, r); }
    UnitQuotients(pi.lo * r, pi.hi * r, d, TRIG_ONE);
  }

  lemma AngleWidth(pi: Interval, r: nat, d: nat)
    requires d > 0 && r <= d / 4 && pi.hi - pi.lo <= 1280
    ensures Width(AngleOf(pi, r, d)) <= 321
  {
    assert pi.hi * r == pi.lo * r + (pi.hi - pi.lo) * r;
    MulMono(pi.hi - pi.lo, 1280, r);
    QuotientWidth(pi.lo * r, pi.hi * r, d, 320);
  }

  /** The angle of every Machin partial sum lies in the enclosure of its row. */
  lemma AngleEncloses(pi: Interval, r: nat, d: nat, y: real)
    requires d > 0 && In(pi, y)
    ensures In(AngleOf(pi, r, d), y * r as real / d as real)
  {
    var a := AngleOf(pi, r, d);
    var e, q := d as real, r as real;
    var w := y * q / e;
    FloorBound(pi.lo * r, d); CeilBound(pi.hi * r, d);
    CastMul(pi.lo, r); CastMul(pi.hi, r);
    ScaledAngle(pi.lo as real, pi.hi as real, y, q);
    assert w * e == y * q;
    AngleScale(w, e, y * q);
    ScaleDown(a.lo as real, w * ONE, e); ScaleDown(w * ONE, a.hi as real, e);
  }

  lemma ScaledAngle(lo: real, hi: real, y: real, q: real)
    requires lo <= y * ONE <= hi && q >= 0.0
    ensures lo * q <= y * q * ONE <= hi * q
  {
    assert (y * ONE - lo) * q >= 0.0 && (hi - y * ONE) * q >= 0.0;
  }

  lemma AngleScale(w: real, e: real, z: real)
    requires w * e == z
    ensures w * ONE * e == z * ONE
  { }

  /** Cosine (odd = 0) or sine (odd = 1) of table index t by its octant: the signed series of the row's angle. */
  function Reduced(t: nat, d: nat, odd: nat, x: real, m: nat): real
    requires d > 0 && odd <= 1
  {
    var (r, swap, cosSign, sinSign) := OctantReduce(t, d);
    var sign := if odd == 0 then cosSign else sinSign;
    var value := TrigPartial(x, if swap then 1 - odd else odd, m);
    if sign < 0 then -value else value
  }

  lemma ReducedIs(t: nat, d: nat, odd: nat, x: real, m: nat)
    requires d > 0 && odd <= 1
    ensures
      var (r, swap, cosSign, sinSign) := OctantReduce(t, d);
      Reduced(t, d, odd, x, m) ==
        (if (if odd == 0 then cosSign else sinSign) < 0 then -1.0 else 1.0) * TrigPartial(x, if swap then 1 - odd else odd, m)
  {
    hide OctantReduce, TrigPartial;
  }

  /** Two indices of the same row, related by their swap and signs, have related values. */
  lemma ReducedRelated(t: nat, u: nat, d: nat, x: real, m: nat, swap: bool, cosFlip: bool, sinFlip: bool)
    requires d > 0
    requires
      var (a, b) := (OctantReduce(t, d), OctantReduce(u, d));
      && b.1 == (a.1 != swap) && (if swap then a.2 == a.3 == b.2 == b.3 else b.2 == (if cosFlip then -a.2 else a.2) && b.3 == (if sinFlip then -a.3 else a.3))
      && a.2 in {-1, 1} && a.3 in {-1, 1}
    ensures
      var c, s := Reduced(t, d, 0, x, m), Reduced(t, d, 1, x, m);
      if swap then Reduced(u, d, 0, x, m) == s && Reduced(u, d, 1, x, m) == c
      else Reduced(u, d, 0, x, m) == (if cosFlip then -c else c) && Reduced(u, d, 1, x, m) == (if sinFlip then -s else s)
  {
    hide OctantReduce, TrigPartial, Reduced;
    ReducedIs(t, d, 0, x, m); ReducedIs(t, d, 1, x, m); ReducedIs(u, d, 0, x, m); ReducedIs(u, d, 1, x, m);
  }

  /** Within one turn the remainder is the index itself. */
  lemma OctantInTurn(t: nat, d: nat)
    requires d > 0 && t < 2 * d
    ensures
      var t1 := if t > d then 2 * d - t else t;
      var t2 := if t1 > d / 2 then d - t1 else t1;
      OctantReduce(t, d) == (if t2 > d / 4 then d / 2 - t2 else t2, t2 > d / 4, if t1 > d / 2 then -1 else 1, if t > d then -1 else 1)
  {
    DivModUnique(t, 2 * d, 0, t);
  }

  /** The first octant is the series of its own row. */
  lemma FirstOctantIs(t: nat, d: nat, x: real, m: nat)
    requires d > 0 && t <= d / 4
    ensures OctantReduce(t, d).0 == t && Reduced(t, d, 0, x, m) == TrigPartial(x, 0, m) && Reduced(t, d, 1, x, m) == TrigPartial(x, 1, m)
  {
    hide *;
    OctantInTurn(t, d);
    ReducedIs(t, d, 0, x, m); ReducedIs(t, d, 1, x, m);
  }

  /** In the first quadrant, the complement of t swaps cosine and sine. */
  lemma ComplementSwaps(t: nat, d: nat, x: real, m: nat)
    requires d > 0 && t <= d / 4 < d / 2 - t
    ensures OctantReduce(d / 2 - t, d).0 == OctantReduce(t, d).0
    ensures Reduced(d / 2 - t, d, 0, x, m) == Reduced(t, d, 1, x, m) && Reduced(d / 2 - t, d, 1, x, m) == Reduced(t, d, 0, x, m)
  {
    hide *;
    OctantInTurn(t, d); OctantInTurn(d / 2 - t, d);
    ReducedRelated(t, d / 2 - t, d, x, m, true, false, false);
  }

  /** Past the quarter turn, the supplement of t negates cosine. */
  lemma SupplementNegates(t: nat, d: nat, x: real, m: nat)
    requires d > 0 && t <= d / 2 < d - t
    ensures OctantReduce(d - t, d).0 == OctantReduce(t, d).0
    ensures Reduced(d - t, d, 0, x, m) == -Reduced(t, d, 0, x, m) && Reduced(d - t, d, 1, x, m) == Reduced(t, d, 1, x, m)
  {
    hide *;
    OctantInTurn(t, d); OctantInTurn(d - t, d);
    ReducedRelated(t, d - t, d, x, m, false, true, false);
  }

  /** Past the half turn, the mirror of t at the full turn negates sine. */
  lemma MirrorNegates(t: nat, d: nat, x: real, m: nat)
    requires 0 < t < d
    ensures OctantReduce(2 * d - t, d).0 == OctantReduce(t, d).0
    ensures Reduced(2 * d - t, d, 0, x, m) == Reduced(t, d, 0, x, m) && Reduced(2 * d - t, d, 1, x, m) == -Reduced(t, d, 1, x, m)
  {
    hide *;
    OctantInTurn(t, d); OctantInTurn(2 * d - t, d);
    ReducedRelated(t, 2 * d - t, d, x, m, false, false, true);
  }

  // ----- the tables' contract

  /** The table entry is within err of the reduced series at scale 2^q, for every angle of the row and every long enough series. */
  ghost predicate EntryOk(pi: Interval, d: nat, q: nat, t: nat, odd: nat, entry: int, err: int)
    requires d > 0 && q <= TRIG_SCALE && odd <= 1
  {
    forall x: real, m: nat :: Angle(AngleOf(pi, OctantReduce(t, d).0, d), x) && m > NTERMS ==>
      -(err as real) <= entry as real - AtScale(Reduced(t, d, odd, x, m), q) <= err as real
  }

  ghost predicate RowOk(pi: Interval, d: nat, r: nat, row: (Interval, Interval))
    requires d > 0
  {
    && HoldsSeries(row.0, AngleOf(pi, r, d), 0) && HoldsSeries(row.1, AngleOf(pi, r, d), 1)
    && Width(row.0) <= ROW_WIDTH && Width(row.1) <= ROW_WIDTH
  }

  /** The widest enclosure of a row, in units of the fixed-point scale. */
  const ROW_WIDTH: int := 169 * 321 + 170

  /** The error bound at scale 2^q: half the rounded width. */
  function EpsBound(q: nat): int requires q <= TRIG_SCALE { (CeilDiv(ROW_WIDTH, Pow2(TRIG_SCALE - q)) + 2) / 2 }

  /** At the production scale an entry is at most four units off. */
  lemma ProductionEps()
    ensures EpsBound(48) == 4
  {
    assert Pow2(13) == 8192 by { hide Pow2; Pow2Step(0); Pow2Step(1); Pow2Add(2, 2); Pow2Add(4, 4); Pow2Add(8, 4); Pow2Step(12); }
  }

  /** A narrow interval rounds to a small error. */
  lemma RoundedWidth(v: Interval, shift: nat, w: int)
    requires Width(v) <= w
    ensures DownscaleRound(v, shift).1 <= (CeilDiv(w, Pow2(shift)) + 2) / 2
  {
    var p := Pow2(shift);
    hide Pow2;
    CeilFacts(w, p);
    QuotientWidth(v.lo, v.hi, p, CeilDiv(w, p));
    hide CeilDiv;
  }

  method FirstOctant(pi: Interval, d: nat) returns (res: Result<seq<(Interval, Interval)>>)
    requires d > 0 && 0 <= pi.lo <= pi.hi <= 4 * TRIG_ONE && pi.hi - pi.lo <= 1280
    ensures res.Ok? && |res.value| == d / 4 + 1
    ensures forall r :: 0 <= r <= d / 4 ==> RowOk(pi, d, r, res.value[r])
  {
    hide *;
    var rows: seq<(Interval, Interval)> := [];
    for r := 0 to d / 4 + 1
      invariant |rows| == r && forall k :: 0 <= k < r ==> RowOk(pi, d, k, rows[k])
    {
      var phi := AngleOf(pi, r, d);
      AngleInUnit(pi, r, d);
      var c := Taylor(phi, 0);
      var s := Taylor(phi, 1);
      RowIntro(pi, d, r, c.value, s.value);
      rows := rows + [(c.value, s.value)];
    }
    res := Ok(rows);
  }

  lemma RowIntro(pi: Interval, d: nat, r: nat, c: Interval, s: Interval)
    requires d > 0 && HoldsSeries(c, AngleOf(pi, r, d), 0) && HoldsSeries(s, AngleOf(pi, r, d), 1)
    requires Width(AngleOf(pi, r, d)) <= 321
    requires Width(c) <= 169 * Width(AngleOf(pi, r, d)) + 170 && Width(s) <= 169 * Width(AngleOf(pi, r, d)) + 170
    ensures RowOk(pi, d, r, (c, s))
  { }

  /** One entry of one table. */
  method Entry(pi: Interval, d: nat, q: nat, rows: seq<(Interval, Interval)>, t: nat, odd: nat) returns (entry: int, err: int)
    requires d > 0 && q <= TRIG_SCALE && odd <= 1 && |rows| == d / 4 + 1
    requires forall r :: 0 <= r <= d / 4 ==> RowOk(pi, d, r, rows[r])
    ensures EntryOk(pi, d, q, t, odd, entry, err) && err <= EpsBound(q)
  {
    var (r, swap, cosSign, sinSign) := OctantReduce(t, d);
    var (cosPhi, sinPhi) := rows[r];
    var v := if (odd == 0) != swap then cosPhi else sinPhi;
    var sign := if odd == 0 then cosSign else sinSign;
    var rounded := DownscaleRound(ApplySign(v, sign), TRIG_SCALE - q);
    entry, err := rounded.0, rounded.1;
    RoundedWidth(ApplySign(v, sign), TRIG_SCALE - q, ROW_WIDTH);
    EntryHolds(pi, d, q, t, odd, rows[r], v, sign);
  }

  lemma EntryHolds(pi: Interval, d: nat, q: nat, t: nat, odd: nat, row: (Interval, Interval), v: Interval, sign: int)
    requires d > 0 && q <= TRIG_SCALE && odd <= 1 && RowOk(pi, d, OctantReduce(t, d).0, row)
    requires v == (if (odd == 0) != OctantReduce(t, d).1 then row.0 else row.1)
    requires sign == if odd == 0 then OctantReduce(t, d).2 else OctantReduce(t, d).3
    ensures
      var rounded := DownscaleRound(ApplySign(v, sign), TRIG_SCALE - q);
      EntryOk(pi, d, q, t, odd, rounded.0, rounded.1)
  {
    var rounded, phi := DownscaleRound(ApplySign(v, sign), TRIG_SCALE - q), AngleOf(pi, OctantReduce(t, d).0, d);
    hide *;
    forall x: real, m: nat | Angle(phi, x) && m > NTERMS
      ensures -(rounded.1 as real) <= rounded.0 as real - AtScale(Reduced(t, d, odd, x, m), q) <= rounded.1 as real
    {
      SignedHolds(pi, d, t, odd, row, v, sign, x, m);
      RoundingAt(ApplySign(v, sign), q, Reduced(t, d, odd, x, m));
    }
    EntryIntro(pi, d, q, t, odd, rounded.0, rounded.1);
  }

  lemma SignedHolds(pi: Interval, d: nat, t: nat, odd: nat, row: (Interval, Interval), v: Interval, sign: int, x: real, m: nat)
    requires d > 0 && odd <= 1 && RowOk(pi, d, OctantReduce(t, d).0, row)
    requires v == (if (odd == 0) != OctantReduce(t, d).1 then row.0 else row.1)
    requires sign == if odd == 0 then OctantReduce(t, d).2 else OctantReduce(t, d).3
    requires Angle(AngleOf(pi, OctantReduce(t, d).0, d), x) && m > NTERMS
    ensures In(ApplySign(v, sign), Reduced(t, d, odd, x, m))
  {
    hide OctantReduce, ApplySign, AngleOf, Angle, In, TrigPartial, Pow2;
    var which := if OctantReduce(t, d).1 then 1 - odd else odd;
    assert In(v, TrigPartial(x, which, m));
    ApplySignEncloses(v, sign, TrigPartial(x, which, m));
  }

  lemma EntryIntro(pi: Interval, d: nat, q: nat, t: nat, odd: nat, entry: int, err: int)
    requires d > 0 && q <= TRIG_SCALE && odd <= 1
    requires forall x: real, m: nat :: Angle(AngleOf(pi, OctantReduce(t, d).0, d), x) && m > NTERMS ==>
      -(err as real) <= entry as real - AtScale(Reduced(t, d, odd, x, m), q) <= err as real
    ensures EntryOk(pi, d, q, t, odd, entry, err)
  {
    hide Reduced, AngleOf, OctantReduce, Angle, Pow2;
  }

  /** Every entry of a table is within eps. */
  ghost predicate TableOk(pi: Interval, d: nat, q: nat, odd: nat, table: seq<int>, eps: int)
    requires d > 0 && q <= TRIG_SCALE && odd <= 1
  {
    forall t :: 0 <= t < |table| ==> EntryOk(pi, d, q, t, odd, table[t], eps)
  }

  lemma WiderEntry(pi: Interval, d: nat, q: nat, t: nat, odd: nat, entry: int, err: int, eps: int)
    requires d > 0 && q <= TRIG_SCALE && odd <= 1 && EntryOk(pi, d, q, t, odd, entry, err) && err <= eps
    ensures EntryOk(pi, d, q, t, odd, entry, eps)
  {
    hide Reduced, AngleOf, OctantReduce, Angle, Pow2;
  }

  lemma WiderTable(pi: Interval, d: nat, q: nat, odd: nat, table: seq<int>, err: int, eps: int)
    requires d > 0 && q <= TRIG_SCALE && odd <= 1 && TableOk(pi, d, q, odd, table, err) && err <= eps
    ensures TableOk(pi, d, q, odd, table, eps)
  {
    hide EntryOk;
    forall t | 0 <= t < |table| ensures EntryOk(pi, d, q, t, odd, table[t], eps) { WiderEntry(pi, d, q, t, odd, table[t], err, eps); }
  }

  lemma TableNext(pi: Interval, d: nat, q: nat, odd: nat, table: seq<int>, eps: int, entry: int)
    requires d > 0 && q <= TRIG_SCALE && odd <= 1 && TableOk(pi, d, q, odd, table, eps)
    requires EntryOk(pi, d, q, |table|, odd, entry, eps)
    ensures TableOk(pi, d, q, odd, table + [entry], eps)
  {
    hide EntryOk;
  }

  lemma MaxIs(a: int, b: int) ensures Max(a, b) == a || Max(a, b) == b { }

  lemma EpsPositive(q: nat)
    requires q <= TRIG_SCALE
    ensures EpsBound(q) >= 0
  {
    hide Pow2;
    CeilFacts(ROW_WIDTH, Pow2(TRIG_SCALE - q));
    if CeilDiv(ROW_WIDTH, Pow2(TRIG_SCALE - q)) <= 0 { MulMono(CeilDiv(ROW_WIDTH, Pow2(TRIG_SCALE - q)), 0, Pow2(TRIG_SCALE - q)); }
  }

  lemma MaxBounds(a: int, b: int) ensures Max(a, b) >= a && Max(a, b) >= b { }

  lemma {:induction false} ZeroSeries(odd: nat, m: nat)
    requires odd <= 1 && m >= 1
    ensures TrigPartial(0.0, odd, m) == if odd == 0 then 1.0 else 0.0
  {
    hide *;
    if m > 1 {
      ZeroSeries(odd, m - 1);
      ZeroTerm(odd, m - 1);
    } else {
      NoTerms(0.0, odd);
    }
    PartialStep(0.0, odd, m - 1);
    LeadingTerms(0.0);
  }

  lemma ZeroTerm(odd: nat, n: nat)
    requires n >= 1
    ensures TrigTerm(0.0, odd, n) == 0.0
  {
    hide Factorial;
    assert RealPow(0.0, 2 * n + odd) == 0.0 * RealPow(0.0, 2 * n + odd - 1);
  }

  /** Row 0 is the angle 0. */
  lemma ZeroAngle(pi: Interval, d: nat)
    requires d > 0
    ensures Angle(AngleOf(pi, 0, d), 0.0)
  {
    DivModUnique(0, d, 0, 0);
    assert pi.lo * 0 == 0 && pi.hi * 0 == 0;
  }

  /** An entry of row 0 whose value at the angle 0 is the integer v. */
  lemma EntryOfRowZero(pi: Interval, d: nat, q: nat, t: nat, odd: nat, entry: int, eps: int, v: int)
    requires d > 0 && q <= 61 && odd <= 1 && EntryOk(pi, d, q, t, odd, entry, eps)
    requires OctantReduce(t, d).0 == 0 && Reduced(t, d, odd, 0.0, 13) == v as real
    ensures -eps <= entry - v * Pow2(q) <= eps
  {
    hide *;
    SeriesLength(); ScaleIsPower();
    ZeroAngle(pi, d);
    EntryAt(pi, d, q, t, odd, entry, eps, 0.0, 13);
    AtScaleIs(v as real, q);
    CastMul(v, Pow2(q));
  }

  /** At the start and at the half turn, cosine is 2^q and -2^q and sine is zero, up to eps. */
  lemma HalfTurns(pi: Interval, d: nat, q: nat, cos: seq<int>, sin: seq<int>, eps: int)
    requires d > 0 && q <= 61 && |cos| == |sin| == 2 * d
    requires TableOk(pi, d, q, 0, cos, eps) && TableOk(pi, d, q, 1, sin, eps)
    ensures -eps <= cos[0] - Pow2(q) <= eps && -eps <= cos[d] + Pow2(q) <= eps && -eps <= sin[0] <= eps && -eps <= sin[d] <= eps
  {
    hide *;
    ScaleIsPower();
    FirstOctantIs(0, d, 0.0, 13); SupplementNegates(0, d, 0.0, 13);
    ZeroSeries(0, 13); ZeroSeries(1, 13);
    TableEntry(pi, d, q, 0, cos, eps, 0); TableEntry(pi, d, q, 1, sin, eps, 0);
    TableEntry(pi, d, q, 0, cos, eps, d); TableEntry(pi, d, q, 1, sin, eps, d);
    EntryOfRowZero(pi, d, q, 0, 0, cos[0], eps, 1); EntryOfRowZero(pi, d, q, d, 0, cos[d], eps, -1);
    EntryOfRowZero(pi, d, q, 0, 1, sin[0], eps, 0); EntryOfRowZero(pi, d, q, d, 1, sin[d], eps, 0);
  }

  /** At the quarter turn, sine is 2^q and cosine is zero, up to eps. */
  lemma QuarterTurn(pi: Interval, d: nat, q: nat, cos: seq<int>, sin: seq<int>, eps: int)
    requires d >= 2 && q <= 61 && |cos| == |sin| == 2 * d
    requires TableOk(pi, d, q, 0, cos, eps) && TableOk(pi, d, q, 1, sin, eps)
    ensures -eps <= cos[d / 2] <= eps && -eps <= sin[d / 2] - Pow2(q) <= eps
  {
    hide *;
    ScaleIsPower();
    FirstOctantIs(0, d, 0.0, 13); ComplementSwaps(0, d, 0.0, 13);
    ZeroSeries(0, 13); ZeroSeries(1, 13);
    TableEntry(pi, d, q, 0, cos, eps, d / 2); TableEntry(pi, d, q, 1, sin, eps, d / 2);
    EntryOfRowZero(pi, d, q, d / 2, 0, cos[d / 2], eps, 0); EntryOfRowZero(pi, d, q, d / 2, 1, sin[d / 2], eps, 1);
  }

  /** The bound in units of the scale: half the widest row, 54419 units of 2^-61, and three halves for rounding. */
  lemma EpsMeans(q: nat, eps: int)
    requires q <= 61 && 0 <= eps <= EpsBound(q)
    ensures 2 * eps * Pow2(61 - q) < 54419 + 3 * Pow2(61 - q)
  {
    var p := Pow2(61 - q);
    hide Pow2;
    var c := CeilDiv(ROW_WIDTH, p);
    CeilFacts(ROW_WIDTH, p);
    assert 2 * eps <= c + 2;
    hide *;
    MulMono(2 * eps, c + 2, p);
    assert (c + 2) * p == (c - 1) * p + 3 * p;
  }

  /**
   `build_tables`: no step overflows, and every entry of both tables is within `eps_root` of the reduced series
   for every angle its row's enclosure of pi r / d holds; that enclosure holds every long Machin partial sum.
   */
  method BuildTables(d: nat, q: nat) returns (cos: seq<int>, sin: seq<int>, eps: int, ghost pi: Interval, ghost terms: nat)
    requires d > 0 && q <= TRIG_SCALE
    ensures |cos| == |sin| == 2 * d && 0 <= pi.lo <= pi.hi <= 4 * TRIG_ONE
    ensures 0 <= eps <= EpsBound(q) && 2 * eps * Pow2(61 - q) < 54419 + 3 * Pow2(61 - q)
    ensures -eps <= cos[0] - Pow2(q) <= eps && -eps <= cos[d] + Pow2(q) <= eps && -eps <= sin[0] <= eps && -eps <= sin[d] <= eps
    ensures TableOk(pi, d, q, 0, cos, eps) && TableOk(pi, d, q, 1, sin, eps)
    ensures forall m: nat, n: nat :: m >= terms && n >= terms ==> In(pi, 16.0 * ArctanPartial(5, m) - 4.0 * ArctanPartial(239, n))
  {
    hide *;
    var enclosure, count := PiEnclosure();
    pi, terms := enclosure, count;
    var octant := FirstOctant(enclosure, d);
    cos, sin, eps := [], [], 0;
    EpsPositive(q);
    EmptyTable(pi, d, q);
    for t := 0 to 2 * d
      invariant |cos| == |sin| == t && 0 <= eps <= EpsBound(q)
      invariant TableOk(pi, d, q, 0, cos, eps) && TableOk(pi, d, q, 1, sin, eps)
    {
      var c, cErr := Entry(enclosure, d, q, octant.value, t, 0);
      var s, sErr := Entry(enclosure, d, q, octant.value, t, 1);
      var next := Max(Max(eps, cErr), sErr);
      MaxIs(eps, cErr); MaxIs(Max(eps, cErr), sErr);
      MaxBounds(eps, cErr); MaxBounds(Max(eps, cErr), sErr);
      WiderTable(pi, d, q, 0, cos, eps, next); WiderTable(pi, d, q, 1, sin, eps, next);
      WiderEntry(pi, d, q, t, 0, c, cErr, next); WiderEntry(pi, d, q, t, 1, s, sErr, next);
      TableNext(pi, d, q, 0, cos, next, c); TableNext(pi, d, q, 1, sin, next, s);
      cos, sin, eps := cos + [c], sin + [s], next;
    }
    ScaleIsPower();
    HalfTurns(pi, d, q, cos, sin, eps);
    EpsMeans(q, eps);
  }

  lemma EmptyTable(pi: Interval, d: nat, q: nat)
    requires d > 0 && q <= TRIG_SCALE
    ensures TableOk(pi, d, q, 0, [], 0) && TableOk(pi, d, q, 1, [], 0)
  { }

  /** An angle r / d of any value the enclosure of pi holds is one of row r's angles. */
  lemma RowAngle(pi: Interval, r: nat, d: nat, y: real, x: real)
    requires d > 0 && x == y * r as real / d as real && r <= d / 4 && 0 <= pi.lo <= pi.hi <= 4 * TRIG_ONE && In(pi, y)
    ensures Angle(AngleOf(pi, r, d), x)
  {
    AngleInUnit(pi, r, d);
    AngleEncloses(pi, r, d, y);
    hide AngleOf;
    UnitAngle(AngleOf(pi, r, d), x);
  }

  lemma UnitAngle(i: Interval, x: real)
    requires InUnit(i) && In(i, x)
    ensures 0.0 <= x <= 1.0
  { }

  /**
   A certified entry against pi itself: at the angle r/d of any Machin partial sum the enclosure holds, and for
   any series of more than NTERMS terms, the entry is within eps of the reduced series at scale 2^q.
   */
  lemma TableAtPi(pi: Interval, d: nat, q: nat, odd: nat, table: seq<int>, eps: int, t: nat, y: real, m: nat)
    requires d > 0 && q <= TRIG_SCALE && odd <= 1 && TableOk(pi, d, q, odd, table, eps) && t < |table|
    requires 0 <= pi.lo <= pi.hi <= 4 * TRIG_ONE && In(pi, y) && m > 12
    ensures
      var x := y * OctantReduce(t, d).0 as real / d as real;
      -(eps as real) <= table[t] as real - Reduced(t, d, odd, x, m) * Pow2(q) as real <= eps as real
  {
    hide *;
    TableEntry(pi, d, q, odd, table, eps, t);
    OctantRow(t, d);
    SeriesLength();
    var x := y * OctantReduce(t, d).0 as real / d as real;
    RowAngle(pi, OctantReduce(t, d).0, d, y, x);
    EntryAt(pi, d, q, t, odd, table[t], eps, x, m);
    AtScaleIs(Reduced(t, d, odd, x, m), q);
  }

  lemma OctantRow(t: nat, d: nat) requires d > 0 ensures OctantReduce(t, d).0 <= d / 4 { }

  lemma TableEntry(pi: Interval, d: nat, q: nat, odd: nat, table: seq<int>, eps: int, t: nat)
    requires d > 0 && q <= TRIG_SCALE && odd <= 1 && TableOk(pi, d, q, odd, table, eps) && t < |table|
    ensures EntryOk(pi, d, q, t, odd, table[t], eps)
  {
    hide EntryOk;
  }

  lemma EntryAt(pi: Interval, d: nat, q: nat, t: nat, odd: nat, entry: int, err: int, x: real, m: nat)
    requires d > 0 && q <= TRIG_SCALE && odd <= 1 && EntryOk(pi, d, q, t, odd, entry, err)
    requires Angle(AngleOf(pi, OctantReduce(t, d).0, d), x) && m > NTERMS
    ensures -(err as real) <= entry as real - AtScale(Reduced(t, d, odd, x, m), q) <= err as real
  {
    hide Reduced, AngleOf, OctantReduce, Angle, Pow2;
  }
}
