/**
 The iterative transform on a workspace.
 Models `FftWorkspace` of crates/akita-algebra/src/fft.rs.
 */
module FftTransform {
  import opened Arith
  import opened NumberTheory
  import opened Field
  import opened Sums
  import opened Powers
  import opened FftSpec
  import opened FftKernels
  import opened FftPlan

  /** The slot of lane q, butterfly j of group g: blocks of `block` slots, r blocks to a group. */
  function Pos(s: StageData, g: nat, q: nat, j: nat): nat { Join(Join(g, s.r, q), s.block, j) }

  predicate Slot(s: StageData, groups: nat, g: int, q: int, j: int) {
    0 <= g < groups && 0 <= q < s.r && 0 <= j < s.block
  }

  lemma PosInside(s: StageData, groups: nat, g: nat, q: nat, j: nat)
    requires Slot(s, groups, g, q, j)
    ensures Pos(s, g, q, j) < (groups * s.r) * s.block
    ensures Pos(s, g, q, j) / s.block == Join(g, s.r, q) && Pos(s, g, q, j) % s.block == j
    ensures Join(g, s.r, q) / s.r == g && Join(g, s.r, q) % s.r == q
  {
    hide Join;
    JoinSplit(g, s.r, q, groups);
    JoinSplit(Join(g, s.r, q), s.block, j, groups * s.r);
  }

  lemma PosInjective(s: StageData, groups: nat, g: nat, q: nat, j: nat, g': nat, q': nat, j': nat)
    requires Slot(s, groups, g, q, j) && Slot(s, groups, g', q', j')
    requires Pos(s, g, q, j) == Pos(s, g', q', j')
    ensures g == g' && q == q' && j == j'
  {
    hide Pos, Join;
    PosInside(s, groups, g, q, j); PosInside(s, groups, g', q', j');
  }

  /** The twiddled inputs of one butterfly. */
  function Lanes(s: StageData, a: seq<F>, g: nat, j: nat): (x: seq<F>)
    requires j < |s.twiddle|
    ensures |x| == s.r
  {
    seq(s.r, (d: nat) => Mul(Pow(s.twiddle[j], d), At(a, Pos(s, g, d, j))))
  }

  ghost predicate Fits(s: StageData, groups: nat, len: nat) {
    KernelReady(s) && |s.twiddle| == s.block && len == (groups * s.r) * s.block
  }

  method Gather(buf: array<F>, s: StageData, groups: nat, g: nat, j: nat) returns (x: seq<F>)
    requires Fits(s, groups, buf.Length) && g < groups && j < s.block
    ensures |x| == s.r && forall d {:trigger x[d]} :: 0 <= d < s.r ==> x[d] == At(buf[..], Pos(s, g, d, j))
  {
    hide Pos, KernelReady;
    x := [];
    for k := 0 to s.r
      invariant |x| == k && forall d {:trigger x[d]} :: 0 <= d < k ==> x[d] == At(buf[..], Pos(s, g, d, j))
    {
      PosInside(s, groups, g, k, j);
      x := x + [buf[Pos(s, g, k, j)]];
    }
  }

  /** Lane k scaled by tw^k, with the powers shared as each radix does. */
  method TwiddlePhase(x: seq<F>, tw: F) returns (y: seq<F>)
    requires 2 <= |x| <= 8
    ensures |y| == |x| && forall k :: 0 <= k < |x| ==> y[k] == Mul(Pow(tw, k), x[k])
  {
    hide *;
    PowNil(tw); MulOne(x[0]);
    var tw2 := Mul(tw, tw);
    PowAdd(tw, 1, 1);
    match |x|
    case 2 =>
      y := [x[0], Mul(x[1], tw)];
      MulComm(x[1], tw);
    case 3 =>
      y := [x[0], Mul(x[1], tw), Mul(x[2], tw2)];
      MulComm(x[1], tw); MulComm(x[2], tw2);
    case 5 =>
      var tw3, tw4 := Mul(tw2, tw), Mul(tw2, tw2);
      PowAdd(tw, 2, 1); PowAdd(tw, 2, 2);
      y := [x[0], Mul(x[1], tw), Mul(x[2], tw2), Mul(x[3], tw3), Mul(x[4], tw4)];
      MulComm(x[1], tw); MulComm(x[2], tw2); MulComm(x[3], tw3); MulComm(x[4], tw4);
    case 7 =>
      var tw3, tw4 := Mul(tw2, tw), Mul(tw2, tw2);
      var tw5, tw6 := Mul(tw4, tw), Mul(tw3, tw3);
      PowAdd(tw, 2, 1); PowAdd(tw, 2, 2); PowAdd(tw, 4, 1); PowAdd(tw, 3, 3);
      y := [x[0], Mul(x[1], tw), Mul(x[2], tw2), Mul(x[3], tw3), Mul(x[4], tw4), Mul(x[5], tw5), Mul(x[6], tw6)];
      MulComm(x[1], tw); MulComm(x[2], tw2); MulComm(x[3], tw3); MulComm(x[4], tw4); MulComm(x[5], tw5); MulComm(x[6], tw6);
    case _ =>
      y := [x[0]];
      var twk := tw;
      for k := 1 to |x|
        invariant |y| == k && twk == Pow(tw, k)
        invariant forall i :: 0 <= i < k ==> y[i] == Mul(Pow(tw, i), x[i])
      {
        MulComm(x[k], twk);
        y := y + [Mul(x[k], twk)];
        PowStep(tw, k + 1);
        twk := Mul(twk, tw);
      }
  }

  method Scatter(buf: array<F>, s: StageData, groups: nat, g: nat, j: nat, y: seq<F>)
    requires Fits(s, groups, buf.Length) && g < groups && j < s.block && |y| == s.r
    modifies buf
    ensures forall g', q', j' {:trigger Slot(s, groups, g', q', j')} :: Slot(s, groups, g', q', j') ==>
      At(buf[..], Pos(s, g', q', j')) == if g' == g && j' == j then y[q'] else At(old(buf[..]), Pos(s, g', q', j'))
  {
    hide Pos, KernelReady, At;
    ghost var before := buf[..];
    for q := 0 to s.r
      invariant forall g', q', j' {:trigger Slot(s, groups, g', q', j')} :: Slot(s, groups, g', q', j') ==>
        At(buf[..], Pos(s, g', q', j')) == if g' == g && j' == j && q' < q then y[q'] else At(before, Pos(s, g', q', j'))
    {
      ghost var now := buf[..];
      PosInside(s, groups, g, q, j);
      var p := Pos(s, g, q, j);
      buf[p] := y[q];
      AtUpdate(now, p, y[q]);
      assert buf[..] == now[p := y[q]];
      forall g', q', j' | Slot(s, groups, g', q', j')
        ensures At(buf[..], Pos(s, g', q', j')) == if g' == g && j' == j && q' < q + 1 then y[q'] else At(before, Pos(s, g', q', j'))
      {
        if Pos(s, g', q', j') == p { PosInjective(s, groups, g, q, j, g', q', j'); }
      }
    }
  }

  lemma AtUpdate(a: seq<F>, p: nat, v: F)
    requires p < |a|
    ensures forall i {:trigger At(a[p := v], i)} :: At(a[p := v], i) == if i == p then v else At(a, i)
  { }

  method Butterfly(buf: array<F>, s: StageData, groups: nat, g: nat, j: nat)
    requires Fits(s, groups, buf.Length) && g < groups && j < s.block
    requires j == 0 ==> s.twiddle[0] == One
    modifies buf
    ensures forall g', q', j' {:trigger Slot(s, groups, g', q', j')} :: Slot(s, groups, g', q', j') ==>
      At(buf[..], Pos(s, g', q', j')) ==
        if g' == g && j' == j then Kernel(s, Lanes(s, old(buf[..]), g, j))[q'] else At(old(buf[..]), Pos(s, g', q', j'))
  {
    hide Pos, At, Kernel, Pow, Mul, Slot, Winograd;
    var x := Gather(buf, s, groups, g, j);
    ghost var lanes := Lanes(s, buf[..], g, j);
    if j > 0 {
      x := TwiddlePhase(x, s.twiddle[j]);
    } else {
      forall d | 0 <= d < s.r ensures x[d] == Mul(Pow(s.twiddle[j], d), x[d]) { PowOfOne(d); MulOne(x[d]); }
    }
    assert x == lanes;
    Scatter(buf, s, groups, g, j, Kernel(s, x));
  }

  /** One stage over the whole buffer: groups in order, butterflies in order inside each group. */
  method ButterflyStage(buf: array<F>, s: StageData, groups: nat)
    requires Fits(s, groups, buf.Length)
    requires s.block > 0 ==> s.twiddle[0] == One
    modifies buf
    ensures forall g, q, j {:trigger Slot(s, groups, g, q, j)} :: Slot(s, groups, g, q, j) ==>
      At(buf[..], Pos(s, g, q, j)) == Kernel(s, Lanes(s, old(buf[..]), g, j))[q]
  {
    hide Pos, At, Kernel, Pow, Mul, Winograd, Lanes;
    ghost var before := buf[..];
    for group := 0 to groups
      invariant forall g, q, j {:trigger Slot(s, groups, g, q, j)} :: Slot(s, groups, g, q, j) ==>
        At(buf[..], Pos(s, g, q, j)) ==
          if g < group then Kernel(s, Lanes(s, before, g, j))[q] else At(before, Pos(s, g, q, j))
    {
      for lane := 0 to s.block
        invariant forall g, q, j {:trigger Slot(s, groups, g, q, j)} :: Slot(s, groups, g, q, j) ==>
          At(buf[..], Pos(s, g, q, j)) ==
            if g < group || (g == group && j < lane) then Kernel(s, Lanes(s, before, g, j))[q]
            else At(before, Pos(s, g, q, j))
      {
        SameLanes(s, groups, before, buf[..], group, lane);
        Butterfly(buf, s, groups, group, lane);
      }
    }
  }

  /** A butterfly reads only its own slots. */
  lemma SameLanes(s: StageData, groups: nat, a: seq<F>, b: seq<F>, g: nat, j: nat)
    requires g < groups && j < s.block == |s.twiddle|
    requires forall q {:trigger Slot(s, groups, g, q, j)} :: Slot(s, groups, g, q, j) ==> At(a, Pos(s, g, q, j)) == At(b, Pos(s, g, q, j))
    ensures Lanes(s, a, g, j) == Lanes(s, b, g, j)
  {
    hide Pos, At, Pow, Mul;
    forall d | 0 <= d < s.r ensures Lanes(s, a, g, j)[d] == Lanes(s, b, g, j)[d] { assert Slot(s, groups, g, d, j); }
  }

  // ----- what the buffer holds between stages

  /**
   Between stages, with fs the factors still to be combined and b the block size, block m of the buffer
   holds the size-b transform of every (product of fs)-th input entry from the digit reversal of m on.
   */
  ghost predicate BlocksHold(a: seq<F>, x: seq<F>, w: F, fs: seq<nat>, b: nat) {
    && Positive(fs)
    && forall m: nat, j: nat {:trigger Join(m, b, j)} :: m < Product(fs) && j < b ==>
         At(a, Join(m, b, j)) == Part(x, w, Product(fs), b, Unrev(fs, m), j)
  }

  /** The stage's tables are powers of the root u = w^n it needs. */
  ghost predicate StageTables(s: StageData, u: F) {
    && StageRoot(s, Pow(u, s.block))
    && |s.twiddle| == s.block && forall j :: 0 <= j < s.block ==> s.twiddle[j] == Pow(u, j)
  }

  /** The lanes of a butterfly are the twiddled outputs of the blocks it combines. */
  lemma LanesAreParts(s: StageData, a: seq<F>, x: seq<F>, w: F, fs: seq<nat>, g: nat, j: nat, d: nat)
    requires |fs| > 0 && BlocksHold(a, x, w, fs, s.block) && s.r == fs[|fs| - 1]
    requires g < Product(fs[..|fs| - 1]) && j < s.block == |s.twiddle| && d < s.r
    ensures Positive(fs[..|fs| - 1])
    ensures
      var init := fs[..|fs| - 1];
      var n := Product(init);
      && Times(n, s.r) >= 0
      && Lanes(s, a, g, j)[d] ==
           Mul(Pow(s.twiddle[j], d), Part(x, w, Times(n, s.r), s.block, Unrev(init, g) + Times(n, d), j))
  {
    PositivePrefix(fs);
    var init, n := fs[..|fs| - 1], Product(fs[..|fs| - 1]);
    var m := Join(g, s.r, d);
    assert Lanes(s, a, g, j)[d] == Mul(Pow(s.twiddle[j], d), At(a, Join(m, s.block, j)));
    hide *;
    TimesIs(n, s.r);
    JoinIs(g, s.r, d);
    TimesBound(m, s.r, g, d, n);
    UnrevAt(fs, g, d);
    JoinIs(d, n, Unrev(init, g)); TimesComm(d, n);
    BlockAt(a, x, w, fs, s.block, m, j);
  }

  lemma BlockAt(a: seq<F>, x: seq<F>, w: F, fs: seq<nat>, b: nat, m: nat, j: nat)
    requires BlocksHold(a, x, w, fs, b) && m < Product(fs) && j < b
    ensures Positive(fs) && At(a, Join(m, b, j)) == Part(x, w, Product(fs), b, Unrev(fs, m), j)
  {
    hide At, Join, Part, Product, Unrev;
  }

  /** The butterflies of a stage take the buffer from blocks of size b to blocks of size b r. */
  lemma StageAdvances(s: StageData, a: seq<F>, a': seq<F>, x: seq<F>, w: F, fs: seq<nat>)
    requires |fs| > 0 && BlocksHold(a, x, w, fs, s.block) && s.r == fs[|fs| - 1]
    requires StageTables(s, Pow(w, Product(fs[..|fs| - 1])))
    requires Times(s.r, s.block) >= 0 && Pow(Pow(w, Product(fs[..|fs| - 1])), Times(s.r, s.block)) == One
    requires
      var groups := Product(fs[..|fs| - 1]);
      forall g, q, j {:trigger Slot(s, groups, g, q, j)} :: Slot(s, groups, g, q, j) ==>
        At(a', Pos(s, g, q, j)) == Kernel(s, Lanes(s, a, g, j))[q]
    ensures Times(s.block, s.r) >= 0
    ensures BlocksHold(a', x, w, fs[..|fs| - 1], Times(s.block, s.r))
  {
    hide *;
    BlocksPositive(a, x, w, fs, s.block);
    PositivePrefix(fs);
    StageBlockSize(s);
    var init, n := fs[..|fs| - 1], Product(fs[..|fs| - 1]);
    var size := Times(s.block, s.r);
    forall g: nat, t: nat | g < n && t < size
      ensures At(a', Join(g, size, t)) == Part(x, w, n, size, Unrev(init, g), t)
    {
      SlotOf(s, n, g, t);
      SlotAdvances(s, a, a', x, w, fs, g, t / s.block, t % s.block);
    }
    BlocksIntro(a', x, w, init, size);
  }

  lemma StageBlockSize(s: StageData) ensures Times(s.block, s.r) >= 0 { }

  lemma BlocksPositive(a: seq<F>, x: seq<F>, w: F, fs: seq<nat>, b: nat)
    requires BlocksHold(a, x, w, fs, b)
    ensures Positive(fs)
  { }

  lemma BlocksIntro(a: seq<F>, x: seq<F>, w: F, fs: seq<nat>, b: nat)
    requires Positive(fs)
    requires forall m: nat, j: nat {:trigger Join(m, b, j)} :: m < Product(fs) && j < b ==>
      At(a, Join(m, b, j)) == Part(x, w, Product(fs), b, Unrev(fs, m), j)
    ensures BlocksHold(a, x, w, fs, b)
  { }

  /** Slot t of a block of size b r is lane t / b of butterfly t mod b. */
  lemma SlotOf(s: StageData, groups: nat, g: nat, t: nat)
    requires g < groups && t < Times(s.block, s.r)
    ensures s.block > 0 && s.r > 0
    ensures Slot(s, groups, g, t / s.block, t % s.block)
    ensures Pos(s, g, t / s.block, t % s.block) == Join(g, Times(s.block, s.r), t)
    ensures Times(t / s.block, s.block) + t % s.block == t
  {
    TimesZero(s.r); TimesZero(s.block);
    var b, r := s.block, s.r;
    var q, j := t / b, t % b;
    QuotientBound(t, b, r);
    assert (g * r + q) * b + j == g * (b * r) + t by { assert t == q * b + j; }
  }

  lemma SlotAdvances(s: StageData, a: seq<F>, a': seq<F>, x: seq<F>, w: F, fs: seq<nat>, g: nat, q: nat, j: nat)
    requires |fs| > 0 && BlocksHold(a, x, w, fs, s.block) && s.r == fs[|fs| - 1]
    requires Positive(fs[..|fs| - 1]) && Times(s.block, s.r) >= 0
    requires StageTables(s, Pow(w, Product(fs[..|fs| - 1])))
    requires Pow(Pow(w, Product(fs[..|fs| - 1])), Times(s.r, s.block)) == One
    requires Slot(s, Product(fs[..|fs| - 1]), g, q, j)
    requires At(a', Pos(s, g, q, j)) == Kernel(s, Lanes(s, a, g, j))[q]
    ensures
      var n := Product(fs[..|fs| - 1]);
      At(a', Pos(s, g, q, j)) == Part(x, w, n, Times(s.block, s.r), Unrev(fs[..|fs| - 1], g), Times(q, s.block) + j)
  {
    hide Pow, Mul, Part, Unrev, At, Product, Kernel, Pos, Lanes, BlocksHold, StageRoot, Times, Dft;
    var init, n := fs[..|fs| - 1], Product(fs[..|fs| - 1]);
    var lanes := Lanes(s, a, g, j);
    forall d | 0 <= d < s.r
      ensures Times(n, s.r) >= 0
      ensures lanes[d] == Mul(Pow(Pow(Pow(w, n), j), d), Part(x, w, Times(n, s.r), s.block, Unrev(init, g) + Times(n, d), j))
    {
      LanesAreParts(s, a, x, w, fs, g, j, d);
    }
    TimesNat(n, s.r);
    KernelIsDft(s, lanes, Pow(Pow(w, n), s.block), q);
    Decimation(x, w, n, s.r, s.block, Unrev(init, g), q, j, lanes);
  }

  // ----- the whole transform

  /** Everything a transform reads: radices, digit reversal and stage tables for the root w of order n. */
  ghost predicate Plan(stages: seq<StageData>, digitRev: seq<nat>, w: F, fs: seq<nat>, n: nat) {
    && Positive(fs) && Product(fs) == n && HasOrder(w, n)
    && (forall i :: 0 <= i < |fs| ==> 2 <= fs[i] <= 8)
    && (5 in fs || 7 in fs ==> Add(One, One) != Zero)
    && StagesFor(stages, w, fs)
    && |digitRev| == n && forall k :: 0 <= k < n ==> digitRev[k] == Rev(fs, k)
  }

  /** y is the naive transform of x. */
  ghost predicate IsDft(y: seq<F>, x: seq<F>, w: F) {
    |y| == |x| && forall k :: 0 <= k < |x| ==> y[k] == Dft(x, w, k)
  }

  /** Each stage's tables hold the powers of the root that its step needs. */
  lemma StageTablesReady(s: StageData, w: F, fs: seq<nat>, i: nat, n: nat)
    requires Positive(fs) && Product(fs) == n && HasOrder(w, n) && i < |fs| && 2 <= fs[i] <= 8
    requires 5 in fs || 7 in fs ==> Add(One, One) != Zero
    requires StageFor(s, w, fs, i)
    ensures StageTables(s, Pow(w, Product(fs[..i])))
    ensures s.block > 0 && s.twiddle[0] == One
    ensures Times(s.r, s.block) >= 0 && Pow(Pow(w, Product(fs[..i])), Times(s.r, s.block)) == One
    ensures n == (Product(fs[..i]) * s.r) * s.block
  {
    hide *;
    StageForParts(s, w, fs, i);
    SuffixProduct(fs, i);
    PositiveParts(fs, i);
    StageSizes(n, Product(fs[..i]), s.r, s.block);
    StageRoots(w, n, Product(fs[..i]), s.r, s.block);
    PowNil(Pow(w, Product(fs[..i])));
    StageTablesIntro(s, w, fs, i);
  }

  lemma PositiveParts(fs: seq<nat>, i: nat)
    requires Positive(fs) && i < |fs|
    ensures Product(fs[..i]) > 0 && Product(fs[i + 1..]) > 0 && fs[i] > 0
  {
    ProductPositive(fs[..i]); ProductPositive(fs[i + 1..]);
  }

  lemma StageForParts(s: StageData, w: F, fs: seq<nat>, i: nat)
    requires i < |fs| && StageFor(s, w, fs, i)
    ensures s.r == fs[i] && s.block == Product(fs[i + 1..]) && |s.twiddle| == s.block
    ensures s.block > 0 ==> s.twiddle[0] == Pow(Pow(w, Product(fs[..i])), 0)
  { }

  lemma StageTablesIntro(s: StageData, w: F, fs: seq<nat>, i: nat)
    requires i < |fs| && StageFor(s, w, fs, i) && 2 <= s.r <= 8
    requires 5 in fs || 7 in fs ==> Add(One, One) != Zero
    requires var o := Pow(Pow(w, Product(fs[..i])), s.block); Pow(o, s.r) == One && o != One
    ensures StageTables(s, Pow(w, Product(fs[..i])))
  {
    hide Pow, Product, Winograd, Add;
    assert s.r in fs;
  }

  lemma StageSizes(n: nat, a: nat, r: nat, b: nat)
    requires n == a * (r * b) && a > 0 && r >= 2 && b > 0
    ensures n == (a * r) * b && Times(r, b) > 0 && Times(a, Times(r, b)) == n
    ensures 0 < Times(a, b) < n && Times(r, b) == Times(b, r)
  {
    var ab := a * b;
    assert ab > 0;
    assert r * ab == n;
    MulMono(2, r, ab);
  }

  lemma PowTimes(b: F, m: nat, n: nat)
    ensures Times(m, n) >= 0 && Pow(Pow(b, m), n) == Pow(b, Times(m, n))
  {
    hide Pow;
    PowMul(b, m, n);
  }

  /** With n = a r b and w of order n, u = w^a has order r b and u^b has order dividing r but not one. */
  lemma StageRoots(w: F, n: nat, a: nat, r: nat, b: nat)
    requires HasOrder(w, n) && Times(r, b) > 0 && Times(a, Times(r, b)) == n
    requires 0 < Times(a, b) < n && Times(r, b) == Times(b, r)
    ensures
      var u := Pow(w, a);
      Pow(u, Times(r, b)) == One && Pow(Pow(u, b), r) == One && Pow(u, b) != One
  {
    hide Pow, Times;
    var u := Pow(w, a);
    PowTimes(w, a, Times(r, b)); PowTimes(w, a, b); PowTimes(u, b, r);
  }

  class FftWorkspace {
    const n: nat
    const bufA: array<F>
    const bufB: array<F>

    ghost predicate Valid() { bufA.Length == n && bufB.Length == n && bufA != bufB }

    constructor (n: nat)
      ensures Valid() && this.n == n && fresh(bufA) && fresh(bufB)
    {
      this.n := n;
      bufA := new F[n](_ => Zero);
      bufB := new F[n](_ => Zero);
    }

    /**
     The bottom-up sweep, from a digit-reversed input to its transform.
     */
    method ButterflyStages(stages: seq<StageData>, ghost x: seq<F>, ghost w: F, ghost fs: seq<nat>, ghost digitRev: seq<nat>)
      requires Valid() && Plan(stages, digitRev, w, fs, n) && |x| == n
      requires BlocksHold(bufA[..], x, w, fs, 1)
      modifies bufA
      ensures IsDft(bufA[..], x, w)
    {
      hide *;
      PlanParts(stages, digitRev, w, fs, n);
      ValidParts();
      ghost var block: nat := 1;
      assert fs[..|fs|] == fs && fs[|fs|..] == [];
      ProductNil();
      for t := 0 to |stages|
        invariant block == Product(fs[|fs| - t..])
        invariant BlocksHold(bufA[..], x, w, fs[..|fs| - t], block)
      {
        var s := stages[t];
        ghost var i := |fs| - 1 - t;
        PlanStage(stages, digitRev, w, fs, n, t);
        ghost var groups := Product(fs[..i]);
        assert fs[..i + 1][..i] == fs[..i];
        ghost var before := bufA[..];
        StageFits(s, w, fs, i, n);
        var g := n / (s.r * s.block);
        GroupCount(groups, s.r, s.block, n);
        ButterflyStage(bufA, s, g);
        StageAdvances(s, before, bufA[..], x, w, fs[..i + 1]);
        SuffixProduct(fs, i);
        TimesIs(s.block, s.r);
        block := Times(s.block, s.r);
      }
      LastBlock(bufA[..], x, w, block, fs);
    }

    lemma ValidParts()
      requires Valid()
      ensures bufA.Length == n
    { }

    /** `execute`: digit-reverse the input into `bufA`, then sweep. Nothing is assumed of the buffers' contents. */
    method Execute(input: seq<F>, stages: seq<StageData>, digitRev: seq<nat>, ghost w: F, ghost fs: seq<nat>) returns (out: seq<F>)
      requires Valid() && |input| == n && Plan(stages, digitRev, w, fs, n)
      modifies bufA
      ensures out == bufA[..] && IsDft(out, input, w)
    {
      hide *;
      PlanParts(stages, digitRev, w, fs, n);
      ValidParts();
      for i := 0 to n
        invariant forall k {:trigger Rev(fs, k)} :: 0 <= k < i ==> At(bufA[..], Rev(fs, k)) == At(input, k)
      {
        RevUnrev(fs, i);
        ghost var now := bufA[..];
        bufA[digitRev[i]] := input[i];
        assert bufA[..] == now[digitRev[i] := input[i]];
        AtUpdate(now, digitRev[i], input[i]);
        AtInside(input);
        forall k | 0 <= k < i ensures Rev(fs, k) != Rev(fs, i) { RevUnrev(fs, k); }
      }
      ReversedBlocks(bufA[..], input, w, fs);
      ButterflyStages(stages, input, w, fs, digitRev);
      out := bufA[..];
    }

    /** `execute_from_b`: the same from the contents of `bufB`. */
    method ExecuteFromB(stages: seq<StageData>, digitRev: seq<nat>, ghost w: F, ghost fs: seq<nat>) returns (out: seq<F>)
      requires Valid() && Plan(stages, digitRev, w, fs, n)
      modifies bufA
      ensures out == bufA[..] && IsDft(out, old(bufB[..]), w)
    {
      out := Execute(bufB[..], stages, digitRev, w, fs);
    }
  }

  lemma PlanParts(stages: seq<StageData>, digitRev: seq<nat>, w: F, fs: seq<nat>, n: nat)
    requires Plan(stages, digitRev, w, fs, n)
    ensures Positive(fs) && Product(fs) == n && |stages| == |fs|
    ensures |digitRev| == n && forall k :: 0 <= k < n ==> digitRev[k] == Rev(fs, k)
  { }

  lemma PlanStage(stages: seq<StageData>, digitRev: seq<nat>, w: F, fs: seq<nat>, n: nat, t: nat)
    requires Plan(stages, digitRev, w, fs, n) && t < |stages|
    ensures
      var s, i := stages[t], |fs| - 1 - t;
      && i >= 0 && s.r == fs[i] && s.block == Product(fs[i + 1..])
      && StageFor(s, w, fs, i) && 2 <= fs[i] <= 8 && HasOrder(w, n)
      && (5 in fs || 7 in fs ==> Add(One, One) != Zero)
  { }

  lemma StageFits(s: StageData, w: F, fs: seq<nat>, i: nat, n: nat)
    requires Positive(fs) && Product(fs) == n && HasOrder(w, n) && i < |fs| && 2 <= fs[i] <= 8
    requires 5 in fs || 7 in fs ==> Add(One, One) != Zero
    requires StageFor(s, w, fs, i)
    ensures StageTables(s, Pow(w, Product(fs[..i])))
    ensures s.block > 0 && |s.twiddle| == s.block && s.twiddle[0] == One
    ensures Times(s.r, s.block) >= 0 && Pow(Pow(w, Product(fs[..i])), Times(s.r, s.block)) == One
    ensures n == (Product(fs[..i]) * s.r) * s.block && s.r > 0
    ensures Fits(s, Product(fs[..i]), n)
  {
    hide Pow, Product, Winograd;
    StageTablesReady(s, w, fs, i, n);
  }

  lemma GroupCount(groups: nat, r: nat, block: nat, n: nat)
    requires n == (groups * r) * block && r > 0 && block > 0
    ensures r * block > 0 && n / (r * block) == groups
  {
    assert n == groups * (r * block);
    DivModUnique(n, r * block, groups, 0);
  }

  /** One block of size n is the transform. */
  lemma LastBlock(a: seq<F>, x: seq<F>, w: F, block: nat, fs: seq<nat>)
    requires BlocksHold(a, x, w, fs[..0], block) && block == Product(fs[0..]) == |x| == |a|
    ensures IsDft(a, x, w)
  {
    hide Part, Dft, Product;
    assert fs[..0] == [];
    ProductNil();
    forall k: nat | k < |x| ensures a[k] == Dft(x, w, k) {
      assert Join(0, block, k) == k;
      assert At(a, Join(0, block, k)) == Part(x, w, 1, block, Unrev([], 0), k);
      PartWhole(x, w, k);
    }
  }

  /** Blocks of size one hold the digit-reversed entries. */
  lemma ReversedBlocks(a: seq<F>, x: seq<F>, w: F, fs: seq<nat>)
    requires Positive(fs) && |x| == Product(fs)
    requires forall k {:trigger Rev(fs, k)} :: 0 <= k < |x| ==> At(a, Rev(fs, k)) == At(x, k)
    ensures BlocksHold(a, x, w, fs, 1)
  {
    hide Part, Product, Unrev, Rev, At;
    forall m: nat, j: nat | m < Product(fs) && j < 1
      ensures At(a, Join(m, 1, j)) == Part(x, w, Product(fs), 1, Unrev(fs, m), j)
    {
      RevUnrev(fs, m);
      PartSingle(x, w, Product(fs), Unrev(fs, m));
      assert At(a, Rev(fs, Unrev(fs, m))) == At(x, Unrev(fs, m));
    }
  }
}
