/**
 Batches of sparse challenges, lazily embedded into larger rings.
 Models crates/akita-challenges/src/challenges.rs.
 */
module Challenges {
  import opened Arith
  import opened Field
  import opened Sums
  import opened Powers
  import opened NumberTheory
  import opened Sparse

  const U32_MAX: nat := 0xFFFF_FFFF

  /** The sampled family: its ring dimension, and whether it has coefficients of magnitude two. */
  datatype Family = Family(dim: nat, twos: bool)

  datatype Batch = Batch(base: seq<SparseChallenge>, blocks: nat, claims: nat, family: Option<Family>, stride: nat)

  /** `from_sparse`. */
  function FromSparse(challenges: seq<SparseChallenge>, blocks: nat, claims: nat): Result<Batch> {
    if blocks * claims > USIZE_MAX || |challenges| != blocks * claims then Err
    else Ok(Batch(challenges, blocks, claims, None, 1))
  }

  /** Positions multiplied by s, narrowed to 32 bits as the materialized form does. */
  function Scale(c: SparseChallenge, s: nat): SparseChallenge {
    SparseChallenge(seq(|c.positions|, i requires 0 <= i < |c.positions| => Narrow(Times(c.positions[i], s))), c.coeffs)
  }

  function Narrow(p: int): nat { if p < 0 then 0 else p % (U32_MAX + 1) }

  /** `as_slice`. */
  function AsSlice(b: Batch): (s: seq<SparseChallenge>)
    ensures |s| == |b.base|
  {
    if b.stride == 1 then b.base else seq(|b.base|, i requires 0 <= i < |b.base| => Scale(b.base[i], b.stride))
  }

  /** A batch sampled in dimension d and embedded since then by the stride. */
  ghost predicate SampledIn(b: Batch, d: nat) {
    && b.stride >= 1 && b.family.Some? && b.family.value.dim == Times(d, b.stride)
    && (b.stride == 1 || b.family.value.dim <= U32_MAX + 1)
    && forall i :: 0 <= i < |b.base| ==> SampledChallenge(b.base[i], d, b.family.value.twos)
  }

  /** The sampler's guarantee: well formed with 32-bit positions, coefficients of magnitude one, or two where the family has them. */
  ghost predicate SampledChallenge(c: SparseChallenge, d: nat, twos: bool) {
    WellFormed(c, d) && Narrowed(c) && forall i :: 0 <= i < |c.coeffs| ==> c.coeffs[i] in {-1, 1} || (twos && c.coeffs[i] in {-2, 2})
  }

  ghost predicate Narrowed(c: SparseChallenge) { forall i :: 0 <= i < |c.positions| ==> c.positions[i] <= U32_MAX }

  lemma SampledAt(b: Batch, d: nat, i: nat)
    requires SampledIn(b, d) && i < |b.base|
    ensures b.stride >= 1 && b.family.Some? && b.family.value.dim == Times(d, b.stride)
    ensures b.stride == 1 || b.family.value.dim <= U32_MAX + 1
    ensures SampledChallenge(b.base[i], d, b.family.value.twos)
  { }

  // ----- materialized challenges are valid

  /** Every scaled position is a 32-bit one. */
  ghost predicate FitsScaled(c: SparseChallenge, s: nat) {
    forall i :: 0 <= i < |c.positions| ==> Times(c.positions[i], s) <= U32_MAX
  }

  /** Dimensions within 32 bits leave no position behind. */
  lemma FitsWithin(c: SparseChallenge, d: nat, s: nat)
    requires WellFormed(c, d) && Times(d, s) <= U32_MAX + 1
    ensures FitsScaled(c, s)
  {
    forall i | 0 <= i < |c.positions| ensures Times(c.positions[i], s) <= U32_MAX {
      if s >= 1 { MulMono(c.positions[i] + 1, d, s); } else { TimesZero(c.positions[i]); }
    }
  }

  lemma ScaledPosition(p: nat, d: nat, s: nat)
    requires p < d && s >= 1 && Times(p, s) <= U32_MAX
    ensures 0 <= Times(p, s) < Times(d, s) && Narrow(Times(p, s)) == Times(p, s)
  {
    MulMono(p + 1, d, s);
  }

  /** Scaled positions that fit are exact. */
  lemma ScaleExact(c: SparseChallenge, s: nat)
    requires FitsScaled(c, s)
    ensures |Scale(c, s).positions| == |c.positions| && Scale(c, s).coeffs == c.coeffs && Narrowed(Scale(c, s))
    ensures forall i :: 0 <= i < |c.positions| ==> Scale(c, s).positions[i] == Times(c.positions[i], s)
  {
    hide Times;
    forall i | 0 <= i < |c.positions| ensures Scale(c, s).positions[i] == Times(c.positions[i], s) { TimesNat(c.positions[i], s); }
  }

  /** Embedding keeps a challenge well formed, exactly. */
  lemma ScaleWellFormed(c: SparseChallenge, d: nat, s: nat)
    requires WellFormed(c, d) && s >= 1 && FitsScaled(c, s)
    ensures Times(d, s) >= 0 && WellFormed(Scale(c, s), Times(d, s)) && Narrowed(Scale(c, s))
    ensures forall i :: 0 <= i < |c.positions| ==> Scale(c, s).positions[i] == Times(c.positions[i], s)
  {
    TimesNat(d, s);
    ScaleExact(c, s);
    hide Times, Narrow, Scale;
    var e := Scale(c, s);
    forall i | 0 <= i < |c.positions| ensures e.positions[i] < Times(d, s) { ScaledPosition(c.positions[i], d, s); }
    forall i, j | 0 <= i < j < |c.positions| ensures e.positions[i] != e.positions[j] {
      if e.positions[i] == e.positions[j] { ScaleIsInjective(c.positions[i], c.positions[j], s); }
    }
  }

  /** Every challenge of a sampled batch passes the validator for the family's dimension, after any embeddings. */
  lemma MaterializedValid(b: Batch, d: nat, i: nat)
    requires SampledIn(b, d) && i < |b.base|
    ensures b.family.Some? && SampledChallenge(AsSlice(b)[i], b.family.value.dim, b.family.value.twos)
  {
    hide WellFormed, Scale;
    SampledAt(b, d, i);
    TimesOne(d);
    if b.stride != 1 {
      FitsWithin(b.base[i], d, b.stride);
      ScaleWellFormed(b.base[i], d, b.stride);
      ScaleExact(b.base[i], b.stride);
    }
  }

  // ----- embedding twice is embedding by the product

  lemma TimesAssoc(a: int, b: int, c: int) ensures Times(Times(a, b), c) == Times(a, Times(b, c)) { }

  /** Scaling by s and then t fits exactly when scaling by s t does. */
  lemma FitsTwice(c: SparseChallenge, s: nat, t: nat)
    requires FitsScaled(c, s) && Times(s, t) >= 0
    ensures FitsScaled(Scale(c, s), t) <==> FitsScaled(c, Times(s, t))
  {
    ScaleExact(c, s);
    hide Times, Scale;
    var e := Scale(c, s);
    forall i | 0 <= i < |c.positions| ensures Times(e.positions[i], t) == Times(c.positions[i], Times(s, t)) { TimesAssoc(c.positions[i], s, t); }
    if FitsScaled(e, t) {
      forall i | 0 <= i < |c.positions| ensures Times(c.positions[i], Times(s, t)) <= U32_MAX { assert Times(e.positions[i], t) <= U32_MAX; }
    }
  }

  lemma ScaleTwice(c: SparseChallenge, s: nat, t: nat)
    requires FitsScaled(c, s) && Times(s, t) >= 0 && FitsScaled(c, Times(s, t))
    ensures Scale(Scale(c, s), t) == Scale(c, Times(s, t))
  {
    FitsTwice(c, s, t);
    ScaleExact(c, s); ScaleExact(Scale(c, s), t); ScaleExact(c, Times(s, t));
    hide Times, Scale, FitsScaled;
    forall i | 0 <= i < |c.positions| ensures Scale(Scale(c, s), t).positions[i] == Scale(c, Times(s, t)).positions[i] {
      TimesAssoc(c.positions[i], s, t);
    }
  }

  // ----- the embedding

  /** One challenge of the eager path; None when a position leaves the ambient ring or 32 bits. */
  function EmbedOne(c: SparseChallenge, s: nat, ambient: nat): Option<SparseChallenge> {
    if forall i :: 0 <= i < |c.positions| ==> PositionFits(c.positions[i], s, ambient) then Some(Scale(c, s)) else None
  }

  predicate PositionFits(p: nat, s: nat, ambient: nat) { Times(p, s) < ambient && Times(p, s) <= U32_MAX }

  /** Consistent dimensions. */
  predicate Dimensions(sub: nat, s: nat, ambient: nat) { sub > 0 && s > 0 && Times(sub, s) == ambient <= USIZE_MAX }

  predicate InFamily(b: Batch, sub: nat) { b.family.Some? && b.family.value.dim == sub }

  /** When the embedding succeeds: consistent dimensions, valid challenges unless sampled here, positions that fit. */
  ghost predicate Embeddable(b: Batch, sub: nat, s: nat, ambient: nat) {
    && Dimensions(sub, s, ambient)
    && (InFamily(b, sub) || forall i :: 0 <= i < |b.base| ==> WellFormed(AsSlice(b)[i], sub))
    && (s == 1 || LazyPath(b, sub, ambient) || forall i :: 0 <= i < |b.base| ==> EmbedOne(AsSlice(b)[i], s, ambient).Some?)
    && (s == 1 || !LazyPath(b, sub, ambient) || Times(b.stride, s) <= USIZE_MAX)
    && (s == 1 || LazyPath(b, sub, ambient) || (b.blocks * b.claims <= USIZE_MAX && |b.base| == b.blocks * b.claims))
  }

  predicate LazyPath(b: Batch, sub: nat, ambient: nat) { InFamily(b, sub) && ambient <= U32_MAX + 1 }

  /** What it returns: the batch unchanged, with a longer stride, or embedded challenge by challenge. */
  ghost predicate Embedded(b: Batch, sub: nat, s: nat, ambient: nat, r: Batch) {
    && r.blocks == b.blocks && r.claims == b.claims && |r.base| == |b.base|
    && if s == 1 then r == b
      else if LazyPath(b, sub, ambient) then
        Times(b.stride, s) >= 0 && r == b.(family := Some(b.family.value.(dim := ambient)), stride := Times(b.stride, s))
      else
        && r.stride == 1 && r.family == (if InFamily(b, sub) then Some(b.family.value.(dim := ambient)) else None)
        && forall i :: 0 <= i < |b.base| ==> r.base[i] == Scale(AsSlice(b)[i], s)
  }

  /** `embed_subring_positions`: unchanged, lazily, or challenge by challenge. */
  method Embed(b: Batch, sub: nat, s: nat, ambient: nat) returns (res: Result<Batch>)
    ensures res.Ok? <==> Embeddable(b, sub, s, ambient)
    ensures res.Ok? ==> Embedded(b, sub, s, ambient, res.value)
    ensures res.Ok? && !(b.family.Some? && b.family.value.dim == sub) ==> forall i :: 0 <= i < |b.base| ==>
      WellFormed(AsSlice(b)[i], sub) && WellFormed(AsSlice(res.value)[i], ambient) && IsScaled(AsSlice(b)[i], s, AsSlice(res.value)[i])
  {
    hide WellFormed, Scale, Times, AsSlice, IsScaled;
    if !Dimensions(sub, s, ambient) { return Err; }
    var sampled := InFamily(b, sub);
    var source := AsSlice(b);
    if s == 1 {
      if !sampled {
        var valid := ValidateAll(source, sub);
        if !valid { return Err; }
        TimesOne(sub);
      }
      forall i | 0 <= i < |source| ensures IsScaled(source[i], 1, source[i]) { ScaledByOne(source[i]); }
      return Ok(b);
    }
    if sampled && ambient - 1 <= U32_MAX {
      TimesNat(b.stride, s);
      var stride := Times(b.stride, s);
      if stride > USIZE_MAX { return Err; }
      return Ok(Batch(b.base, b.blocks, b.claims, Some(b.family.value.(dim := ambient)), stride));
    }
    if !sampled {
      var valid := ValidateAll(source, sub);
      if !valid { return Err; }
    }
    var embedded: seq<SparseChallenge> := [];
    for i := 0 to |source|
      invariant |embedded| == i && forall k :: 0 <= k < i ==> EmbedOne(source[k], s, ambient) == Some(embedded[k])
    {
      var one := EmbedOne(source[i], s, ambient);
      if one.None? { return Err; }
      embedded := embedded + [one.value];
    }
    var result := FromSparse(embedded, b.blocks, b.claims);
    if result.Err? { return Err; }
    if !sampled {
      Unstrided(result.value);
      forall i | 0 <= i < |source| ensures WellFormed(embedded[i], ambient) && IsScaled(source[i], s, embedded[i]) {
        EagerUnsampled(source[i], sub, s, ambient);
      }
    }
    res := Ok(if sampled then result.value.(family := Some(b.family.value.(dim := ambient))) else result.value);
  }

  /** e has the coefficients of c at s times the positions of c. */
  ghost predicate IsScaled(c: SparseChallenge, s: nat, e: SparseChallenge) {
    e.coeffs == c.coeffs && |e.positions| == |c.positions| && forall k :: 0 <= k < |c.positions| ==> e.positions[k] == c.positions[k] * s
  }

  lemma ScaledByOne(c: SparseChallenge) ensures IsScaled(c, 1, c) { }

  lemma Unstrided(b: Batch) requires b.stride == 1 ensures AsSlice(b) == b.base { }

  lemma EagerUnsampled(c: SparseChallenge, sub: nat, s: nat, ambient: nat)
    requires WellFormed(c, sub) && Dimensions(sub, s, ambient) && EmbedOne(c, s, ambient).Some?
    ensures WellFormed(EmbedOne(c, s, ambient).value, ambient) && IsScaled(c, s, EmbedOne(c, s, ambient).value)
  {
    hide WellFormed, Scale, Times;
    ScaleWellFormed(c, sub, s);
    ScaleExact(c, s);
    ScaledPositions(c, s, Scale(c, s));
  }

  lemma ScaledPositions(c: SparseChallenge, s: nat, e: SparseChallenge)
    requires e.coeffs == c.coeffs && |e.positions| == |c.positions|
    requires forall k :: 0 <= k < |c.positions| ==> e.positions[k] == Times(c.positions[k], s)
    ensures IsScaled(c, s, e)
  { }

  /** When an embedding succeeds, in the arguments' own terms. */
  lemma EmbeddableMeans(b: Batch, sub: nat, s: nat, ambient: nat)
    ensures Embeddable(b, sub, s, ambient) <==>
      var sampled := b.family.Some? && b.family.value.dim == sub;
      && sub > 0 && s > 0 && sub * s == ambient <= 0xFFFF_FFFF_FFFF_FFFF
      && (sampled || forall i :: 0 <= i < |b.base| ==> WellFormed(AsSlice(b)[i], sub))
      && (s == 1 ||
          if sampled && ambient <= 0x1_0000_0000 then b.stride * s <= 0xFFFF_FFFF_FFFF_FFFF
          else
            && |b.base| == b.blocks * b.claims <= 0xFFFF_FFFF_FFFF_FFFF
            && forall i, k :: 0 <= i < |b.base| && 0 <= k < |AsSlice(b)[i].positions| ==>
                AsSlice(b)[i].positions[k] * s < ambient && AsSlice(b)[i].positions[k] * s <= 0xFFFF_FFFF)
  {
    hide WellFormed, AsSlice, Scale;
    forall i | 0 <= i < |b.base|
      ensures EmbedOne(AsSlice(b)[i], s, ambient).Some? <==>
        forall k :: 0 <= k < |AsSlice(b)[i].positions| ==> AsSlice(b)[i].positions[k] * s < ambient && AsSlice(b)[i].positions[k] * s <= 0xFFFF_FFFF
    {
      EmbedOneMeans(AsSlice(b)[i], s, ambient);
    }
  }

  lemma EmbedOneMeans(c: SparseChallenge, s: nat, ambient: nat)
    ensures EmbedOne(c, s, ambient).Some? <==> forall k :: 0 <= k < |c.positions| ==> c.positions[k] * s < ambient && c.positions[k] * s <= 0xFFFF_FFFF
  {
    hide Scale;
    if EmbedOne(c, s, ambient).Some? {
      forall k | 0 <= k < |c.positions| ensures c.positions[k] * s < ambient && c.positions[k] * s <= 0xFFFF_FFFF {
        assert PositionFits(c.positions[k], s, ambient);
      }
    }
  }

  method ValidateAll(s: seq<SparseChallenge>, d: nat) returns (ok: bool)
    ensures ok <==> forall i :: 0 <= i < |s| ==> WellFormed(s[i], d)
  {
    hide WellFormed;
    for i := 0 to |s|
      invariant forall k :: 0 <= k < i ==> WellFormed(s[k], d)
    {
      var valid := ValidateDyn(s[i], d);
      if !valid { return false; }
    }
    ok := true;
  }

  // ----- chains of embeddings

  lemma NarrowIsIdentity(c: SparseChallenge)
    requires Narrowed(c)
    ensures Scale(c, 1) == c
  {
    hide Times;
    forall i | 0 <= i < |c.positions| ensures Scale(c, 1).positions[i] == c.positions[i] { TimesOne(c.positions[i]); }
  }

  /** What a sampled batch materializes, whatever its stride. */
  lemma AsSliceIsScale(b: Batch, d: nat, i: nat)
    requires SampledIn(b, d) && i < |b.base|
    ensures AsSlice(b)[i] == Scale(b.base[i], b.stride)
  {
    hide Times, Scale, WellFormed;
    SampledAt(b, d, i);
    if b.stride == 1 { NarrowIsIdentity(b.base[i]); }
  }

  /** On all three paths, what a sampled batch materializes is scaled by s. */
  lemma EmbedScales(b: Batch, d: nat, sub: nat, s: nat, ambient: nat, r: Batch, i: nat)
    requires SampledIn(b, d) && Embeddable(b, sub, s, ambient) && Embedded(b, sub, s, ambient, r) && i < |b.base|
    ensures AsSlice(r)[i] == Scale(AsSlice(b)[i], s)
  {
    hide WellFormed, Scale, Times, SampledIn;
    SampledAt(b, d, i);
    MaterializedValid(b, d, i);
    if s == 1 {
      NarrowIsIdentity(AsSlice(b)[i]);
    } else if LazyPath(b, sub, ambient) {
      TimesAssoc(d, b.stride, s);
      StrideGrows(b.stride, s);
      if b.stride == 1 { TimesOne(s); } else {
        FitsWithin(b.base[i], d, b.stride);
        FitsWithin(b.base[i], d, Times(b.stride, s));
        ScaleTwice(b.base[i], b.stride, s);
      }
    }
  }

  lemma StrideGrows(stride: nat, s: nat)
    requires stride >= 1 && s >= 2
    ensures Times(stride, s) >= 2
  {
    MulMono(1, stride, s);
  }

  /** Embedding from the family's own dimension keeps a batch sampled, on all three paths. */
  lemma EmbedKeepsSampled(b: Batch, d: nat, sub: nat, s: nat, ambient: nat, r: Batch)
    requires SampledIn(b, d) && InFamily(b, sub) && Embeddable(b, sub, s, ambient) && Embedded(b, sub, s, ambient, r)
    ensures SampledIn(r, if s == 1 || LazyPath(b, sub, ambient) then d else ambient)
    ensures r.family == Some(b.family.value.(dim := ambient))
  {
    TimesOne(b.family.value.dim);
    hide WellFormed, Scale, Times, SampledChallenge;
    if s != 1 {
      if LazyPath(b, sub, ambient) {
        TimesAssoc(d, b.stride, s);
        StrideGrows(b.stride, s);
      } else {
        TimesOne(ambient);
        forall i | 0 <= i < |r.base| ensures SampledChallenge(r.base[i], ambient, r.family.value.twos) { EagerOne(b, d, sub, s, ambient, i); }
      }
    }
  }

  lemma EagerOne(b: Batch, d: nat, sub: nat, s: nat, ambient: nat, i: nat)
    requires SampledIn(b, d) && InFamily(b, sub) && Dimensions(sub, s, ambient) && i < |b.base|
    requires EmbedOne(AsSlice(b)[i], s, ambient).Some?
    ensures SampledChallenge(Scale(AsSlice(b)[i], s), ambient, b.family.value.twos)
  {
    hide WellFormed, Scale, Times, AsSlice, SampledIn;
    MaterializedValid(b, d, i);
    ScaleWellFormed(AsSlice(b)[i], sub, s);
    ScaleExact(AsSlice(b)[i], s);
  }

  /** A batch's layout, as `from_sparse` checked it. */
  ghost predicate Layout(b: Batch) { b.blocks * b.claims <= USIZE_MAX && |b.base| == b.blocks * b.claims }

  /** When a sampled batch embeds by s from its own dimension: the dimension fits `usize` and every position 32 bits. */
  ghost predicate StepOk(b: Batch, s: nat)
    requires b.family.Some?
  {
    && b.family.value.dim > 0 && s > 0 && Times(b.family.value.dim, s) <= USIZE_MAX
    && forall i :: 0 <= i < |b.base| ==> FitsScaled(AsSlice(b)[i], s)
  }

  lemma StepEmbeds(b: Batch, d: nat, s: nat)
    requires SampledIn(b, d) && Layout(b)
    ensures Times(b.family.value.dim, s) >= 0
    ensures Embeddable(b, b.family.value.dim, s, Times(b.family.value.dim, s)) <==> StepOk(b, s)
  {
    TimesNat(b.family.value.dim, s);
    var dim, ambient := b.family.value.dim, Times(b.family.value.dim, s);
    if dim > 0 && s > 0 && ambient <= U32_MAX + 1 { SampledStride(d, b.stride, s); }
    hide WellFormed, Scale, Times, SampledIn, AsSlice;
    forall i | 0 <= i < |b.base|
      ensures s == 1 ==> FitsScaled(AsSlice(b)[i], s)
      ensures ambient <= U32_MAX + 1 ==> FitsScaled(AsSlice(b)[i], s)
      ensures s >= 1 ==> (EmbedOne(AsSlice(b)[i], s, ambient).Some? <==> FitsScaled(AsSlice(b)[i], s))
    {
      MaterializedValid(b, d, i);
      OneFits(AsSlice(b)[i], dim, s);
    }
  }

  /** For a valid challenge the eager path's test is the 32-bit one. */
  lemma OneFits(c: SparseChallenge, d: nat, s: nat)
    requires WellFormed(c, d) && Narrowed(c) && Times(d, s) >= 0
    ensures s == 1 ==> FitsScaled(c, s)
    ensures Times(d, s) <= U32_MAX + 1 ==> FitsScaled(c, s)
    ensures s >= 1 ==> (EmbedOne(c, s, Times(d, s)).Some? <==> FitsScaled(c, s))
  {
    if Times(d, s) <= U32_MAX + 1 { FitsWithin(c, d, s); }
    forall i | 0 <= i < |c.positions| ensures s >= 1 ==> Times(c.positions[i], s) < Times(d, s) {
      if s >= 1 { MulMono(c.positions[i] + 1, d, s); }
    }
    hide Times, Scale;
    if s == 1 { forall i | 0 <= i < |c.positions| ensures Times(c.positions[i], s) <= U32_MAX { TimesOne(c.positions[i]); } }
  }

  lemma SampledStride(d: nat, stride: nat, s: nat)
    requires Times(d, stride) > 0 && Times(Times(d, stride), s) <= U32_MAX + 1
    ensures Times(stride, s) <= USIZE_MAX
  {
    TimesAssoc(d, stride, s);
    if d == 0 { TimesZero(stride); } else { MulMono(1, d, stride * s); }
  }

  /** The batch reached from b by embeddings whose strides multiply to s. */
  ghost predicate ReachedBy(b: Batch, s: nat, r: Batch) {
    && r.blocks == b.blocks && r.claims == b.claims && |r.base| == |b.base|
    && b.family.Some? && Times(b.family.value.dim, s) >= 0 && r.family == Some(b.family.value.(dim := Times(b.family.value.dim, s)))
    && forall i :: 0 <= i < |b.base| ==> FitsScaled(AsSlice(b)[i], s) && AsSlice(r)[i] == Scale(AsSlice(b)[i], s)
  }

  /** One more embedding from the reached batch goes through exactly when it does from the start. */
  lemma StepFromReached(b: Batch, s: nat, r: Batch, t: nat)
    requires ReachedBy(b, s, r) && s >= 1 && Times(s, t) >= 0 && b.family.value.dim > 0
    ensures r.family.Some? && (StepOk(r, t) <==> t > 0 && StepOk(b, Times(s, t)))
  {
    TimesAssoc(b.family.value.dim, s, t);
    assert Times(b.family.value.dim, s) > 0 by { MulMono(1, s, b.family.value.dim); }
    assert t > 0 ==> Times(s, t) > 0 by { if t > 0 { MulMono(1, s, t); } }
    hide Times, Scale, AsSlice, FitsScaled;
    forall i | 0 <= i < |b.base| ensures FitsScaled(AsSlice(r)[i], t) <==> FitsScaled(AsSlice(b)[i], Times(s, t)) {
      FitsTwice(AsSlice(b)[i], s, t);
    }
  }

  lemma ReachedNext(b: Batch, s: nat, r: Batch, d: nat, t: nat, next: Batch)
    requires ReachedBy(b, s, r) && SampledIn(r, d) && s >= 1 && t >= 1 && Times(s, t) >= 0 && StepOk(b, Times(s, t))
    requires Times(r.family.value.dim, t) >= 0
    requires Embeddable(r, r.family.value.dim, t, Times(r.family.value.dim, t))
    requires Embedded(r, r.family.value.dim, t, Times(r.family.value.dim, t), next)
    ensures ReachedBy(b, Times(s, t), next)
  {
    TimesAssoc(b.family.value.dim, s, t);
    EmbedKeepsSampled(r, d, r.family.value.dim, t, Times(r.family.value.dim, t), next);
    hide Times, Scale, AsSlice, FitsScaled, SampledIn, Embeddable;
    forall i | 0 <= i < |b.base| ensures AsSlice(next)[i] == Scale(AsSlice(b)[i], Times(s, t)) {
      EmbedScales(r, d, r.family.value.dim, t, Times(r.family.value.dim, t), next, i);
      ScaleTwice(AsSlice(b)[i], s, t);
    }
  }

  lemma ReachedStart(b: Batch, d: nat)
    requires SampledIn(b, d)
    ensures ReachedBy(b, 1, b)
  {
    TimesOne(b.family.value.dim);
    hide Times, Scale, SampledIn;
    forall i | 0 <= i < |b.base| ensures FitsScaled(AsSlice(b)[i], 1) && AsSlice(b)[i] == Scale(AsSlice(b)[i], 1) {
      MaterializedValid(b, d, i);
      NarrowIsIdentity(AsSlice(b)[i]);
      TimesNat(b.family.value.dim, 1);
      OneFits(AsSlice(b)[i], b.family.value.dim, 1);
    }
  }

  /** If the whole product goes through, so does every partial product. */
  lemma StepOkBelow(b: Batch, s: nat, t: nat)
    requires b.family.Some? && 0 < s && Times(s, t) >= 0 && StepOk(b, Times(s, t))
    ensures StepOk(b, s) && t > 0
  {
    if t == 0 { TimesZero(s); }
    MulMono(1, t, s);
    MulMono(s, Times(s, t), b.family.value.dim);
    TimesComm(s, b.family.value.dim); TimesComm(Times(s, t), b.family.value.dim);
    forall i, k | 0 <= i < |b.base| && 0 <= k < |AsSlice(b)[i].positions| ensures Times(AsSlice(b)[i].positions[k], s) <= U32_MAX {
      assert Times(AsSlice(b)[i].positions[k], Times(s, t)) <= U32_MAX;
      MulMono(s, Times(s, t), AsSlice(b)[i].positions[k]);
    }
  }

  /**
   A whole chain of `Embed` calls on a sampled batch, each from the dimension the last one reached. It goes
   through exactly when the single embedding by the product of the strides does, and then the batch is still
   sampled, every challenge it materializes is the original scaled by the product, and passes the validator.
   */
  method EmbedChain(b: Batch, ghost d: nat, steps: seq<nat>) returns (res: Result<Batch>, ghost d': nat)
    requires SampledIn(b, d) && Layout(b) && |steps| > 0
    ensures Times(b.family.value.dim, Product(steps)) >= 0
    ensures res.Ok? <==> Embeddable(b, b.family.value.dim, Product(steps), Times(b.family.value.dim, Product(steps)))
    ensures res.Ok? ==> SampledIn(res.value, d') && ReachedBy(b, Product(steps), res.value)
    ensures res.Ok? ==> forall i :: 0 <= i < |b.base| ==> WellFormed(AsSlice(res.value)[i], res.value.family.value.dim)
  {
    hide *;
    SampledFamily(b, d);
    StepEmbeds(b, d, Product(steps));
    var r := b;
    d' := d;
    ReachedStart(b, d);
    EmptyProduct(steps);
    for k := 0 to |steps|
      invariant ReachedBy(b, Product(steps[..k]), r) && SampledIn(r, d') && Layout(r) && Product(steps[..k]) >= 1
      invariant k > 0 ==> b.family.value.dim > 0 && StepOk(b, Product(steps[..k]))
    {
      var s := steps[k];
      ghost var before, rest := Product(steps[..k]), Product(steps[k + 1..]);
      SampledFamily(r, d');
      SplitProduct(steps, k);
      StepEmbeds(r, d', s);
      ChainStep(b, before, r, s, rest, Product(steps));
      var next := Embed(r, r.family.value.dim, s, Times(r.family.value.dim, s));
      if next.Err? { return Err, d'; }
      OwnFamily(r);
      EmbedKeepsSampled(r, d', r.family.value.dim, s, Times(r.family.value.dim, s), next.value);
      ReachedNext(b, before, r, d', s, next.value);
      LayoutKept(r, s, next.value);
      d' := if s == 1 || LazyPath(r, r.family.value.dim, Times(r.family.value.dim, s)) then d' else Times(r.family.value.dim, s);
      r := next.value;
    }
    assert steps[..|steps|] == steps;
    ReachedLength(b, Product(steps), r);
    forall i | 0 <= i < |b.base| ensures WellFormed(AsSlice(r)[i], r.family.value.dim) {
      SampledFamily(r, d');
      MaterializedValid(r, d', i);
      SampledIsWellFormed(AsSlice(r)[i], r.family.value);
    }
    res := Ok(r);
  }

  lemma SampledFamily(b: Batch, d: nat) requires SampledIn(b, d) ensures b.family.Some? && b.stride >= 1 { }

  lemma ReachedLength(b: Batch, s: nat, r: Batch) requires ReachedBy(b, s, r) ensures |r.base| == |b.base| && r.family.Some? { }

  lemma OwnFamily(b: Batch) requires b.family.Some? ensures InFamily(b, b.family.value.dim) { }

  lemma EmptyProduct(steps: seq<nat>)
    ensures Product(steps[..0]) == 1
  {
    assert steps[..0] == [];
  }

  lemma SplitProduct(steps: seq<nat>, k: nat)
    requires k < |steps|
    ensures Product(steps[..k + 1]) == Times(Product(steps[..k]), steps[k])
    ensures Product(steps) == Times(Product(steps[..k + 1]), Product(steps[k + 1..]))
  {
    assert steps[..k + 1] == steps[..k] + [steps[k]];
    ProductSnoc(steps[..k], steps[k]);
    assert steps == steps[..k + 1] + steps[k + 1..];
    ProductConcat(steps[..k + 1], steps[k + 1..]);
  }

  /** A failing step is a failing product; a step that goes through is a partial product that does. */
  lemma ChainStep(b: Batch, before: nat, r: Batch, s: nat, rest: nat, all: nat)
    requires ReachedBy(b, before, r) && before >= 1 && all == Times(Times(before, s), rest)
    ensures b.family.Some? && r.family.Some? && Times(before, s) >= 0
    ensures !StepOk(r, s) ==> !StepOk(b, all)
    ensures StepOk(r, s) ==> b.family.value.dim > 0 && s >= 1 && StepOk(b, Times(before, s)) && Times(before, s) >= 1
  {
    TimesNat(before, s);
    assert b.family.value.dim == 0 ==> Times(b.family.value.dim, before) == 0 by { TimesZero(before); }
    assert s >= 1 ==> Times(before, s) >= 1 by { if s >= 1 { MulMono(1, before, s); } }
    assert s == 0 ==> all == 0 by { TimesZero(before); TimesZero(rest); }
    if b.family.value.dim > 0 { StepFromReached(b, before, r, s); }
    hide FitsScaled, AsSlice, Times, Scale;
    if s >= 1 && StepOk(b, all) { StepOkBelow(b, Times(before, s), rest); }
  }

  lemma LayoutKept(r: Batch, s: nat, next: Batch)
    requires Layout(r) && r.family.Some? && Times(r.family.value.dim, s) >= 0
    requires Embedded(r, r.family.value.dim, s, Times(r.family.value.dim, s), next)
    ensures Layout(next)
  {
    hide Scale, AsSlice, Times;
  }

  /** The chain and the single embedding by the product succeed together and materialize the same challenges. */
  method ChainIsOneEmbed(b: Batch, ghost d: nat, steps: seq<nat>) returns (chain: Result<Batch>, once: Result<Batch>)
    requires SampledIn(b, d) && Layout(b) && |steps| > 0
    ensures chain.Ok? <==> once.Ok?
    ensures chain.Ok? ==> AsSlice(chain.value) == AsSlice(once.value) && chain.value.family == once.value.family
    ensures chain.Ok? ==> chain.value.blocks == once.value.blocks && chain.value.claims == once.value.claims
  {
    hide *;
    SampledFamily(b, d);
    ghost var d';
    chain, d' := EmbedChain(b, d, steps);
    var product := Product(steps);
    TimesNat(b.family.value.dim, product);
    once := Embed(b, b.family.value.dim, product, Times(b.family.value.dim, product));
    if once.Ok? { SameBatch(b, d, product, chain.value, once.value); }
  }

  lemma SameBatch(b: Batch, d: nat, s: nat, chain: Batch, once: Batch)
    requires SampledIn(b, d) && Times(b.family.value.dim, s) >= 0 && ReachedBy(b, s, chain)
    requires Embeddable(b, b.family.value.dim, s, Times(b.family.value.dim, s))
    requires Embedded(b, b.family.value.dim, s, Times(b.family.value.dim, s), once)
    ensures AsSlice(chain) == AsSlice(once) && chain.family == once.family && chain.blocks == once.blocks && chain.claims == once.claims
  {
    EmbedKeepsSampled(b, d, b.family.value.dim, s, Times(b.family.value.dim, s), once);
    hide Scale, AsSlice, Times, SampledIn, Embeddable;
    forall i | 0 <= i < |b.base| ensures AsSlice(chain)[i] == AsSlice(once)[i] {
      EmbedScales(b, d, b.family.value.dim, s, Times(b.family.value.dim, s), once, i);
    }
  }

  lemma SampledIsWellFormed(c: SparseChallenge, f: Family)
    requires SampledChallenge(c, f.dim, f.twos)
    ensures WellFormed(c, f.dim)
  { }

  // ----- evaluation

  /** The strided sum over the stored positions is the sum over the materialized ones. */
  lemma StridedEvaluation(c: SparseChallenge, d: nat, pows: seq<F>, s: nat)
    requires WellFormed(c, d) && s >= 1 && Times(d, s) <= U32_MAX + 1 && Times(d, s) >= 0
    ensures Evaluation(c, pows, s) == Evaluation(Scale(c, s), pows, 1)
  {
    FitsWithin(c, d, s);
    ScaleExact(c, s);
    hide Times, Scale, Sum, FromInt, Mul, At;
    forall i | 0 <= i < |c.positions| ensures SparseTerms(c, pows, s)(i) == SparseTerms(Scale(c, s), pows, 1)(i) {
      TimesOne(Scale(c, s).positions[i]);
    }
    SumExt(SparseTerms(c, pows, s), SparseTerms(Scale(c, s), pows, 1), |c.positions|);
  }

  /** The sampled path's evaluation of one challenge: powers or doubled powers, added or subtracted, at strided positions. */
  method LazyEval(c: SparseChallenge, ghost d: nat, ghost twos: bool, stride: nat, pows: seq<F>, doubles: seq<F>) returns (acc: F)
    requires SampledChallenge(c, d, twos) && stride >= 1 && |pows| == Times(d, stride)
    requires twos ==> |doubles| == |pows| && forall i :: 0 <= i < |pows| ==> doubles[i] == Add(pows[i], pows[i])
    ensures acc == Evaluation(c, pows, stride)
  {
    ghost var terms := SparseTerms(c, pows, stride);
    acc := Zero;
    SumNil(terms);
    hide Sum, FromInt, Mul, SparseTerms, Times;
    for i := 0 to |c.positions|
      invariant acc == Sum(terms, i)
    {
      var coefficient := c.coeffs[i];
      PositionInside(c.positions[i], d, stride);
      var at := Times(c.positions[i], stride);
      var power := if coefficient == 2 || coefficient == -2 then doubles[at] else pows[at];
      StridedTermAt(c, pows, stride, i);
      SmallInts(pows[at]);
      SumSnoc(terms, i + 1);
      acc := if coefficient < 0 then Sub(acc, power) else Add(acc, power);
    }
  }

  lemma PositionInside(p: nat, d: nat, s: nat)
    requires p < d && s >= 1
    ensures 0 <= Times(p, s) < Times(d, s)
  {
    MulMono(p + 1, d, s);
  }

  lemma StridedTermAt(c: SparseChallenge, pows: seq<F>, s: nat, i: nat)
    requires i < |c.positions| == |c.coeffs| && 0 <= Times(c.positions[i], s) < |pows|
    ensures SparseTerms(c, pows, s)(i) == Mul(FromInt(c.coeffs[i]), pows[Times(c.positions[i], s)])
  { }

  method Doubles(pows: seq<F>) returns (doubles: seq<F>)
    ensures |doubles| == |pows| && forall i :: 0 <= i < |pows| ==> doubles[i] == Add(pows[i], pows[i])
  {
    hide *;
    doubles := [];
    for i := 0 to |pows|
      invariant |doubles| == i && forall k :: 0 <= k < i ==> doubles[k] == Add(pows[k], pows[k])
    {
      doubles := doubles + [Add(pows[i], pows[i])];
    }
  }

  /**
   `evals_at_pows`: on a sampled batch of this dimension the lazy strided sums, otherwise each materialized
   challenge; either way the evaluation of what the batch materializes.
   */
  method EvalsAtPows(b: Batch, ghost d: nat, pows: seq<F>) returns (res: Result<seq<F>>)
    requires b.family.Some? ==> SampledIn(b, d)
    ensures res.Ok? <==> InFamily(b, |pows|) || forall i :: 0 <= i < |b.base| ==> Evaluable(AsSlice(b)[i], |pows|)
    ensures res.Ok? ==> |res.value| == |b.base|
    ensures res.Ok? ==> forall i {:trigger res.value[i]} :: 0 <= i < |b.base| ==> res.value[i] == Evaluation(AsSlice(b)[i], pows, 1)
  {
    var values: seq<F> := [];
    if InFamily(b, |pows|) {
      var doubles: seq<F> := [];
      if b.family.value.twos { doubles := Doubles(pows); }
      hide Evaluation, SampledIn, SampledChallenge, Evaluable, AsSlice, Scale, Times;
      for i := 0 to |b.base|
        invariant |values| == i && forall k :: 0 <= k < i ==> values[k] == Evaluation(AsSlice(b)[k], pows, 1)
      {
        SampledAt(b, d, i);
        AsSliceIsScale(b, d, i);
        StridedIsMaterialized(b.base[i], d, b.family.value.twos, pows, b.stride);
        var value := LazyEval(b.base[i], d, b.family.value.twos, b.stride, pows, doubles);
        values := values + [value];
      }
      return Ok(values);
    }
    var source := AsSlice(b);
    hide Evaluation, SampledIn, Evaluable, AsSlice;
    for i := 0 to |source|
      invariant |values| == i && forall k :: 0 <= k < i ==> Evaluable(source[k], |pows|) && values[k] == Evaluation(source[k], pows, 1)
    {
      var one := EvalAtPows(source[i], pows);
      if one.Err? { return Err; }
      values := values + [one.value];
    }
    res := Ok(values);
  }

  lemma StridedIsMaterialized(c: SparseChallenge, d: nat, twos: bool, pows: seq<F>, s: nat)
    requires SampledChallenge(c, d, twos) && s >= 1 && (s == 1 || Times(d, s) <= U32_MAX + 1)
    ensures Evaluation(c, pows, s) == Evaluation(Scale(c, s), pows, 1)
  {
    TimesNat(d, s);
    hide Evaluation, Scale, Times, WellFormed;
    if s == 1 { NarrowIsIdentity(c); } else { StridedEvaluation(c, d, pows, s); }
  }

  /**
   A sampled batch at the powers of a: challenge i evaluates to any dense polynomial that has its stored
   coefficients at stride times the stored positions and zero elsewhere.
   */
  lemma BatchIsPoly(b: Batch, d: nat, i: nat, pows: seq<F>, a: F, dense: seq<F>)
    requires SampledIn(b, d) && i < |b.base| && |pows| == |dense| && forall k :: 0 <= k < |pows| ==> pows[k] == Pow(a, k)
    requires forall k :: 0 <= k < |b.base[i].positions| && k < |b.base[i].coeffs| ==>
      Times(b.base[i].positions[k], b.stride) < |dense| && At(dense, Times(b.base[i].positions[k], b.stride)) == FromInt(b.base[i].coeffs[k])
    requires forall x :: 0 <= x < |dense| && (forall k :: 0 <= k < |b.base[i].positions| ==> Times(b.base[i].positions[k], b.stride) != x) ==> dense[x] == Zero
    ensures Evaluation(AsSlice(b)[i], pows, 1) == EvalPoly(dense, a)
  {
    SampledAt(b, d, i);
    var c := b.base[i];
    assert WellFormed(c, d);
    WellFormedShape(c, d);
    hide *;
    AsSliceIsScale(b, d, i);
    StridedIsMaterialized(c, d, b.family.value.twos, pows, b.stride);
    EvaluationIsPoly(c, d, pows, b.stride, a, dense);
  }

  /** What a batch materializes: stored challenges, or positions times the stride in 32 bits. */
  lemma AsSliceMeans(b: Batch, i: nat, k: nat)
    requires i < |b.base| && k < |b.base[i].positions|
    ensures
      var e, c := AsSlice(b)[i], b.base[i];
      && e.coeffs == c.coeffs && |e.positions| == |c.positions|
      && e.positions[k] == if b.stride == 1 then c.positions[k] else c.positions[k] * b.stride % 0x1_0000_0000
  {
    TimesNat(b.base[i].positions[k], b.stride);
  }

  // ----- selecting claims

  /** `select_claims`: whole claims in the requested order; an index past the batch fails. */
  method SelectClaims(b: Batch, claims: seq<nat>) returns (res: Result<Batch>)
    ensures res.Ok? <==> Times(|claims|, b.blocks) <= USIZE_MAX && forall j :: 0 <= j < |claims| ==> Times(claims[j] + 1, b.blocks) <= |b.base|
    ensures res.Ok? ==> res.value.blocks == b.blocks && res.value.claims == |claims| && res.value.stride == 1 && res.value.family.None?
    ensures res.Ok? ==> |res.value.base| == Times(|claims|, b.blocks)
    ensures res.Ok? ==> forall j, k {:trigger Join(j, b.blocks, k)} :: 0 <= j < |claims| && 0 <= k < b.blocks ==>
      At2(res.value.base, Join(j, b.blocks, k)) == At2(AsSlice(b), Join(claims[j], b.blocks, k))
  {
    var source := AsSlice(b);
    var selected: seq<SparseChallenge> := [];
    hide AsSlice, Times, Join, At2;
    if Times(|claims|, b.blocks) > USIZE_MAX { return Err; }
    TimesZero(b.blocks);
    for j := 0 to |claims|
      invariant |selected| == Times(j, b.blocks)
      invariant forall i :: 0 <= i < j ==> Times(claims[i] + 1, b.blocks) <= |b.base|
      invariant forall i, k {:trigger Join(i, b.blocks, k)} :: 0 <= i < j && 0 <= k < b.blocks ==>
        At2(selected, Join(i, b.blocks, k)) == At2(source, Join(claims[i], b.blocks, k))
    {
      TimesStep(claims[j], b.blocks); TimesNat(claims[j], b.blocks);
      var start := Times(claims[j], b.blocks);
      var end := start + b.blocks;
      if end > |source| { return Err; }
      ClaimAppended(selected, source, claims, j, b.blocks);
      selected := selected + source[start..end];
      TimesStep(j, b.blocks);
    }
    SelectedCount(|claims|, b.blocks);
    res := FromSparse(selected, b.blocks, |claims|);
  }

  function At2(s: seq<SparseChallenge>, i: int): Option<SparseChallenge> { if 0 <= i < |s| then Some(s[i]) else None }

  lemma SelectedCount(n: nat, m: nat) ensures Times(n, m) == m * n == n * m { }

  lemma ClaimAppended(selected: seq<SparseChallenge>, source: seq<SparseChallenge>, claims: seq<nat>, j: nat, blocks: nat)
    requires j < |claims| && |selected| == Times(j, blocks) && 0 <= Times(claims[j], blocks) && Times(claims[j], blocks) + blocks <= |source|
    requires forall i, k {:trigger Join(i, blocks, k)} :: 0 <= i < j && 0 <= k < blocks ==>
      At2(selected, Join(i, blocks, k)) == At2(source, Join(claims[i], blocks, k))
    ensures forall i, k {:trigger Join(i, blocks, k)} :: 0 <= i < j + 1 && 0 <= k < blocks ==>
      At2(selected + source[Times(claims[j], blocks)..Times(claims[j], blocks) + blocks], Join(i, blocks, k)) == At2(source, Join(claims[i], blocks, k))
  {
    hide Times, Join;
    var start := Times(claims[j], blocks);
    var next := selected + source[start..start + blocks];
    forall i, k {:trigger Join(i, blocks, k)} | 0 <= i < j + 1 && 0 <= k < blocks
      ensures At2(next, Join(i, blocks, k)) == At2(source, Join(claims[i], blocks, k))
    {
      JoinIs(i, blocks, k); JoinIs(claims[i], blocks, k);
      if i < j {
        TimesStep(i, blocks); TimesMono(i + 1, j, blocks);
      }
    }
  }
}
