/**
 Lane accumulation of products modulo 2^31 - 1 in machine words.
 Models specs/packed-accumulator-microbench.rs.
 */
module Mersenne {
  import opened Arith

  const P: nat := 0x7FFF_FFFF
  const WORD: nat := 0x1_0000_0000_0000_0000
  const WIDE: nat := 0x1_0000_0000_0000_0000_0000_0000_0000_0000
  const W: nat := 4

  // ----- reduction

  /** One fold: the low 31 bits plus the rest. */
  function FoldWord(x: nat): nat { x % 0x8000_0000 + x / 0x8000_0000 }

  lemma FoldKeepsResidue(x: nat)
    ensures FoldWord(x) % P == x % P
  {
    var q, r := x / 0x8000_0000, x % 0x8000_0000;
    assert x == q * P + (q + r);
    ModPlusMultiple(q + r, q);
  }

  lemma ModPlusMultiple(y: nat, q: nat)
    ensures (q * P + y) % P == y % P
  {
    DivModUnique(q * P + y, P, q + y / P, y % P);
  }

  /** `red`: the canonical residue of any 64-bit word. */
  function Red(x: nat): (r: nat)
    requires x < WORD
    ensures r == x % P
  {
    FoldKeepsResidue(x); FoldKeepsResidue(FoldWord(x)); FoldKeepsResidue(FoldWord(FoldWord(x)));
    var y := FoldWord(FoldWord(FoldWord(x)));
    assert y <= P;
    if y >= P then y - P else y
  }

  lemma ModAdd(x: nat, y: nat)
    ensures (x % P + y % P) % P == (x + y) % P
  {
    var s := x % P + y % P;
    assert x + y == (x / P + y / P) * P + s;
    ModPlusMultiple(s, x / P + y / P);
  }

  // ----- the sum of products

  function Dot(a: seq<nat>, b: seq<nat>, n: nat): nat
    requires n <= |a| && n <= |b|
  {
    if n == 0 then 0 else Dot(a, b, n - 1) + a[n - 1] * b[n - 1]
  }

  /** Lane l over the first j groups of W products. */
  function Lane(a: seq<nat>, b: seq<nat>, l: nat, j: nat): nat
    requires l < W && j * W <= |a| && j * W <= |b|
  {
    if j == 0 then 0 else Lane(a, b, l, j - 1) + a[(j - 1) * W + l] * b[(j - 1) * W + l]
  }

  lemma {:induction false} LanesAreDot(a: seq<nat>, b: seq<nat>, j: nat)
    requires j * W <= |a| && j * W <= |b|
    ensures Lane(a, b, 0, j) + Lane(a, b, 1, j) + Lane(a, b, 2, j) + Lane(a, b, 3, j) == Dot(a, b, j * W)
  {
    if j > 0 {
      LanesAreDot(a, b, j - 1);
      var n := (j - 1) * W;
      DotStep(a, b, n); DotStep(a, b, n + 1); DotStep(a, b, n + 2); DotStep(a, b, n + 3);
    }
  }

  lemma DotStep(a: seq<nat>, b: seq<nat>, n: nat)
    requires n < |a| && n < |b|
    ensures Dot(a, b, 0) == 0 && Dot(a, b, n + 1) == Dot(a, b, n) + a[n] * b[n]
  { }

  /** Canonical operands, in whole groups of W. */
  predicate Operands(a: seq<nat>, b: seq<nat>, t: nat) {
    && |a| == |b| == t * W
    && (forall i :: 0 <= i < |a| ==> a[i] < P) && (forall i :: 0 <= i < |b| ==> b[i] < P)
  }

  const MAX_PRODUCT: nat := (P - 1) * (P - 1)

  lemma ProductBound(x: nat, y: nat)
    requires x < P && y < P
    ensures 0 <= x * y <= MAX_PRODUCT
  {
    MulMono(x, P - 1, y); MulMono(y, P - 1, P - 1);
  }

  lemma {:induction false} LaneBound(a: seq<nat>, b: seq<nat>, t: nat, l: nat, j: nat)
    requires Operands(a, b, t) && l < W && j <= t
    ensures Lane(a, b, l, j) <= j * MAX_PRODUCT
  {
    if j > 0 {
      LaneBound(a, b, t, l, j - 1);
      ProductBound(a[(j - 1) * W + l], b[(j - 1) * W + l]);
      assert j * MAX_PRODUCT == (j - 1) * MAX_PRODUCT + MAX_PRODUCT;
    }
  }

  lemma {:induction false} LaneGrows(a: seq<nat>, b: seq<nat>, l: nat, i: nat, j: nat)
    requires l < W && i <= j && j * W <= |a| && j * W <= |b|
    ensures Lane(a, b, l, i) <= Lane(a, b, l, j)
  {
    if i < j { LaneGrows(a, b, l, i, j - 1); }
  }

  /** The product lane l takes in group j. */
  function Term(a: seq<nat>, b: seq<nat>, l: nat, j: nat): nat
    requires l < W && (j + 1) * W <= |a| && (j + 1) * W <= |b|
  {
    a[j * W + l] * b[j * W + l]
  }

  lemma LaneStep(a: seq<nat>, b: seq<nat>, t: nat, l: nat, j: nat)
    requires Operands(a, b, t) && l < W && j < t
    ensures (j + 1) * W <= |a| == |b| && Lane(a, b, l, j + 1) == Lane(a, b, l, j) + Term(a, b, l, j)
    ensures Term(a, b, l, j) <= MAX_PRODUCT && Term(a, b, l, j) == a[j * W + l] * b[j * W + l]
  {
    ProductBound(a[j * W + l], b[j * W + l]);
  }

  lemma Bounds()
    ensures P == 0x7FFF_FFFF && MAX_PRODUCT < 0x4000_0000_0000_0000 && WORD == 0x1_0000_0000_0000_0000 && W == 4
  { }

  /** The modulus 2^31 - 1 and the two word sizes; canonical operands come in groups of four. */
  lemma Parameters(a: seq<nat>, b: seq<nat>, t: nat, k: nat)
    ensures P == Pow2(31) - 1 && WORD == Pow2(64) && WIDE == Pow2(128)
    ensures Operands(a, b, t) <==> |a| == |b| == 4 * t && forall i :: 0 <= i < |a| && i < |b| ==> a[i] < Pow2(31) - 1 && b[i] < Pow2(31) - 1
    ensures ChunkOk(k) <==> k >= 1 && k * ((Pow2(31) - 2) * (Pow2(31) - 2)) < Pow2(64)
  {
    assert P == Pow2(31) - 1 && WORD == Pow2(64) && WIDE == Pow2(128) by {
      hide Pow2;
      Pow2Step(0); Pow2Step(1); Pow2Add(2, 2); Pow2Add(4, 4); Pow2Add(8, 8); Pow2Add(16, 16); Pow2Step(30); Pow2Step(31);
      Pow2Add(32, 32); Pow2Add(64, 64);
    }
    hide Pow2;
  }

  ghost function Prefix(lanes: seq<nat>, l: nat): nat
    requires l <= |lanes|
  {
    if l == 0 then 0 else Prefix(lanes, l - 1) + lanes[l - 1]
  }

  lemma PrefixStep(lanes: seq<nat>, l: nat, tot: nat, value: nat)
    requires l < |lanes| && tot == Prefix(lanes, l) % P && value == lanes[l] % P
    ensures tot + value < WORD && (tot + value) % P == Prefix(lanes, l + 1) % P
  {
    ModAdd(Prefix(lanes, l), lanes[l]);
  }

  /** Combining the lanes: the running total of the reduced lanes. */
  method Total(values: seq<nat>, ghost lanes: seq<nat>) returns (tot: nat)
    requires |values| == |lanes| == W && forall l :: 0 <= l < W ==> values[l] == lanes[l] % P
    ensures tot == (lanes[0] + lanes[1] + lanes[2] + lanes[3]) % P
  {
    assert Prefix(lanes, 1) == Prefix(lanes, 0) + lanes[0] && Prefix(lanes, 2) == Prefix(lanes, 1) + lanes[1];
    assert Prefix(lanes, 3) == Prefix(lanes, 2) + lanes[2] && Prefix(lanes, 4) == Prefix(lanes, 3) + lanes[3];
    hide Prefix, Red;
    tot := 0;
    for l := 0 to W
      invariant tot == Prefix(lanes, l) % P
    {
      PrefixStep(lanes, l, tot, values[l]);
      tot := Red(tot + values[l]);
    }
  }

  ghost function AllLanes(a: seq<nat>, b: seq<nat>, j: nat): seq<nat>
    requires j * W <= |a| && j * W <= |b|
  {
    [Lane(a, b, 0, j), Lane(a, b, 1, j), Lane(a, b, 2, j), Lane(a, b, 3, j)]
  }

  lemma AllLanesAre(a: seq<nat>, b: seq<nat>, t: nat, j: nat)
    requires Operands(a, b, t) && j <= t
    ensures j * W <= |a| == |b| && |AllLanes(a, b, j)| == W
    ensures forall l :: 0 <= l < W ==> AllLanes(a, b, j)[l] == Lane(a, b, l, j)
    ensures j == t ==> var s := AllLanes(a, b, j); s[0] + s[1] + s[2] + s[3] == Dot(a, b, |a|)
    ensures j == 0 ==> forall l :: 0 <= l < W ==> AllLanes(a, b, j)[l] == 0
  {
    if j == t { LanesAreDot(a, b, t); }
  }

  /** The next product reduced into a reduced lane. */
  lemma EagerStep(v: nat, lane: nat, x: nat)
    requires Holds(v, lane) && x <= MAX_PRODUCT
    ensures v + x % P < WORD && Holds((v + x % P) % P, lane + x)
  {
    ModAdd(lane, x);
  }

  /** v is the canonical residue of a lane's sum. */
  ghost predicate Holds(v: nat, lane: nat) { v == lane % P }

  method EagerGroup(acc: array<nat>, a: seq<nat>, b: seq<nat>, ghost t: nat, j: nat)
    requires Operands(a, b, t) && j < t && acc.Length == W && j * W <= |a| == |b|
    requires forall l {:trigger acc[l]} :: 0 <= l < W ==> Holds(acc[l], Lane(a, b, l, j))
    modifies acc
    ensures (j + 1) * W <= |a| && forall l {:trigger acc[l]} :: 0 <= l < W ==> Holds(acc[l], Lane(a, b, l, j + 1))
  {
    Bounds();
    hide Dot, Lane, Operands, MAX_PRODUCT, Term, Holds, Red;
    LaneStep(a, b, t, 0, j);
    for l := 0 to W
      invariant forall i {:trigger acc[i]} :: 0 <= i < l ==> Holds(acc[i], Lane(a, b, i, j + 1))
      invariant forall i {:trigger acc[i]} :: l <= i < W ==> Holds(acc[i], Lane(a, b, i, j))
    {
      LaneStep(a, b, t, l, j);
      var product := a[j * W + l] * b[j * W + l];
      EagerStep(acc[l], Lane(a, b, l, j), product);
      acc[l] := Red(acc[l] + Red(product));
    }
  }

  /** `eager`: every product reduced at once. */
  method Eager(a: seq<nat>, b: seq<nat>, t: nat) returns (tot: nat)
    requires Operands(a, b, t)
    ensures tot == Dot(a, b, |a|) % P
  {
    var acc := new nat[W](_ => 0);
    AllLanesAre(a, b, t, 0);
    hide Dot, Lane, Operands, AllLanes, MAX_PRODUCT, Term;
    for j := 0 to t
      invariant j * W <= |a| == |b|
      invariant forall l {:trigger acc[l]} :: 0 <= l < W ==> Holds(acc[l], Lane(a, b, l, j))
    {
      EagerGroup(acc, a, b, t, j);
    }
    AllLanesAre(a, b, t, t);
    tot := Total(acc[..], AllLanes(a, b, t));
  }

  /** The lane loop of `deferred` and `u128acc`: exact lane sums, none above the word size. */
  method RawLanes(a: seq<nat>, b: seq<nat>, t: nat, ghost word: nat) returns (lanes: seq<nat>)
    requires Operands(a, b, t) && forall l :: 0 <= l < W ==> Lane(a, b, l, t) < word
    ensures |lanes| == W && t * W <= |a| == |b| && forall l :: 0 <= l < W ==> lanes[l] == Lane(a, b, l, t)
  {
    var acc := new nat[W](_ => 0);
    hide Dot, Lane, Operands, AllLanes, MAX_PRODUCT, Term;
    AllLanesAre(a, b, t, 0);
    for j := 0 to t
      invariant j * W <= |a| == |b|
      invariant forall l {:trigger acc[l]} :: 0 <= l < W ==> acc[l] == Lane(a, b, l, j)
    {
      LaneStep(a, b, t, 0, j);
      for l := 0 to W
        invariant forall i {:trigger acc[i]} :: 0 <= i < l ==> acc[i] == Lane(a, b, i, j + 1)
        invariant forall i {:trigger acc[i]} :: l <= i < W ==> acc[i] == Lane(a, b, i, j)
      {
        LaneStep(a, b, t, l, j);
        LaneGrows(a, b, l, j + 1, t);
        var product := a[j * W + l] * b[j * W + l];
        assert acc[l] + product < word;
        acc[l] := acc[l] + product;
      }
    }
    lanes := acc[..];
  }

  /** `deferred`: one reduction at the end, when the lane sums are 64-bit words. */
  method Deferred(a: seq<nat>, b: seq<nat>, t: nat) returns (tot: nat)
    requires Operands(a, b, t) && forall l :: 0 <= l < W ==> Lane(a, b, l, t) < WORD
    ensures tot == Dot(a, b, |a|) % P
  {
    hide Dot, Lane, Operands, AllLanes;
    var acc := RawLanes(a, b, t, WORD);
    AllLanesAre(a, b, t, t);
    tot := Total([Red(acc[0]), Red(acc[1]), Red(acc[2]), Red(acc[3])], AllLanes(a, b, t));
  }

  /** `u128acc`: one wide reduction at the end; up to 2^64 groups never overflow a lane. */
  method WideAcc(a: seq<nat>, b: seq<nat>, t: nat) returns (tot: nat)
    requires Operands(a, b, t) && t < WORD
    ensures tot == Dot(a, b, |a|) % P
  {
    hide Dot, Lane, Operands, AllLanes;
    AllLanesAre(a, b, t, t);
    forall l | 0 <= l < W ensures Lane(a, b, l, t) < WIDE { WideFits(a, b, t, l, t); }
    var acc := RawLanes(a, b, t, WIDE);
    tot := Total([acc[0] % P, acc[1] % P, acc[2] % P, acc[3] % P], AllLanes(a, b, t));
  }

  lemma WideFits(a: seq<nat>, b: seq<nat>, t: nat, l: nat, j: nat)
    requires Operands(a, b, t) && l < W && j <= t < WORD
    ensures j * W <= |a| == |b| && Lane(a, b, l, j) < WIDE
  {
    LaneBound(a, b, t, l, j);
    MulMono(j, WORD, MAX_PRODUCT);
  }

  /** A chunk of at most k products fits a word. */
  ghost predicate ChunkOk(k: nat) { k >= 1 && k * MAX_PRODUCT < WORD }

  /** Lane l of a chunked accumulator: canonical, congruent to the lane's sum, and the open chunk bounded by its count. */
  ghost predicate ChunkLane(acc: nat, part: nat, lane: nat, count: nat) {
    acc < P && (acc + part) % P == lane % P && part <= count * MAX_PRODUCT
  }

  lemma ChunkAdd(acc: nat, part: nat, lane: nat, count: nat, x: nat, k: nat)
    requires ChunkLane(acc, part, lane, count) && x <= MAX_PRODUCT && count < k && ChunkOk(k)
    ensures part + x < WORD && ChunkLane(acc, part + x, lane + x, count + 1)
  {
    assert (count + 1) * MAX_PRODUCT == count * MAX_PRODUCT + MAX_PRODUCT;
    MulMono(count + 1, k, MAX_PRODUCT);
    ModAdd(acc + part, x); ModAdd(lane, x);
    assert acc + (part + x) == (acc + part) + x;
  }

  lemma ChunkReduce(acc: nat, part: nat, lane: nat, count: nat, k: nat)
    requires ChunkLane(acc, part, lane, count) && count <= k && ChunkOk(k)
    ensures part < WORD && acc + part % P < WORD && (acc + part % P) % P == lane % P
    ensures ChunkLane((acc + part % P) % P, 0, lane, 0)
  {
    MulMono(count, k, MAX_PRODUCT);
    ModAdd(acc, part);
    assert acc % P == acc;
  }

  /** The invariant over all lanes; lanes below `next` have already taken the product of group j. */
  ghost predicate Chunked(acc: seq<nat>, part: seq<nat>, a: seq<nat>, b: seq<nat>, j: nat, count: nat)
    requires j * W <= |a| && j * W <= |b|
  {
    |acc| == |part| == W && forall l :: 0 <= l < W ==> ChunkLane(acc[l], part[l], Lane(a, b, l, j), count)
  }

  method AddGroup(acc: array<nat>, part: array<nat>, a: seq<nat>, b: seq<nat>, ghost t: nat, j: nat, ghost count: nat, ghost k: nat)
    requires Operands(a, b, t) && j < t && count < k && ChunkOk(k) && acc != part && acc.Length == part.Length == W
    requires j * W <= |a| == |b| && Chunked(acc[..], part[..], a, b, j, count)
    modifies part
    ensures (j + 1) * W <= |a| && Chunked(acc[..], part[..], a, b, j + 1, count + 1)
  {
    hide Dot, Lane, Operands, MAX_PRODUCT, Term, ChunkLane, ChunkOk, P, WORD;
    LaneStep(a, b, t, 0, j);
    for l := 0 to W
      invariant forall i {:trigger part[i]} :: 0 <= i < l ==> ChunkLane(acc[i], part[i], Lane(a, b, i, j + 1), count + 1)
      invariant forall i {:trigger part[i]} :: l <= i < W ==> ChunkLane(acc[i], part[i], Lane(a, b, i, j), count)
    {
      LaneStep(a, b, t, l, j);
      var product := a[j * W + l] * b[j * W + l];
      ChunkAdd(acc[l], part[l], Lane(a, b, l, j), count, product, k);
      part[l] := part[l] + product;
    }
  }

  method ReduceChunk(acc: array<nat>, part: array<nat>, ghost a: seq<nat>, ghost b: seq<nat>, ghost j: nat, ghost count: nat, ghost k: nat)
    requires count <= k && ChunkOk(k) && acc != part && acc.Length == part.Length == W
    requires j * W <= |a| && j * W <= |b| && Chunked(acc[..], part[..], a, b, j, count)
    modifies acc, part
    ensures Chunked(acc[..], part[..], a, b, j, 0)
  {
    hide Dot, Lane, MAX_PRODUCT, ChunkLane, ChunkOk;
    for l := 0 to W
      invariant forall i {:trigger part[i]} :: 0 <= i < l ==> ChunkLane(acc[i], part[i], Lane(a, b, i, j), 0)
      invariant forall i {:trigger part[i]} :: l <= i < W ==> ChunkLane(acc[i], part[i], Lane(a, b, i, j), count)
    {
      ChunkReduce(acc[l], part[l], Lane(a, b, l, j), count, k);
      acc[l] := Red(acc[l] + Red(part[l]));
      part[l] := 0;
    }
  }

  /** `chunked`: lanes reduced every k products. */
  method ChunkedAcc(a: seq<nat>, b: seq<nat>, t: nat, k: nat) returns (tot: nat)
    requires Operands(a, b, t) && ChunkOk(k)
    ensures tot == Dot(a, b, |a|) % P
  {
    var acc := new nat[W](_ => 0);
    var part := new nat[W](_ => 0);
    var cnt := 0;
    AllLanesAre(a, b, t, 0);
    hide Dot, Lane, Operands, AllLanes, MAX_PRODUCT;
    assert Chunked(acc[..], part[..], a, b, 0, 0);
    hide Chunked;
    for j := 0 to t
      invariant 0 <= cnt < k && j * W <= |a| == |b| && Chunked(acc[..], part[..], a, b, j, cnt)
    {
      AddGroup(acc, part, a, b, t, j, cnt, k);
      cnt := cnt + 1;
      if cnt == k {
        ReduceChunk(acc, part, a, b, j + 1, cnt, k);
        cnt := 0;
      }
    }
    AllLanesAre(a, b, t, t);
    var reduced := FinalLanes(acc[..], part[..], a, b, t, cnt, k);
    tot := Total(reduced, AllLanes(a, b, t));
  }

  method FinalLanes(acc: seq<nat>, part: seq<nat>, ghost a: seq<nat>, ghost b: seq<nat>, ghost t: nat, ghost count: nat, ghost k: nat) returns (r: seq<nat>)
    requires t * W <= |a| && t * W <= |b| && Chunked(acc, part, a, b, t, count) && count <= k && ChunkOk(k)
    ensures |r| == W && forall l :: 0 <= l < W ==> r[l] == Lane(a, b, l, t) % P
  {
    hide Dot, Lane, MAX_PRODUCT, ChunkLane, ChunkOk;
    r := [];
    for l := 0 to W
      invariant |r| == l && forall i :: 0 <= i < l ==> r[i] == Lane(a, b, i, t) % P
    {
      ChunkReduce(acc[l], part[l], Lane(a, b, l, t), count, k);
      r := r + [Red(acc[l] + Red(part[l]))];
    }
  }
}
