/** Ken Perlin's improved noise (2002): a doubled permutation table, the
    fade curve, linear interpolation, gradient selection from a hash, the
    lattice hashing of noise and the octave sum of fractional Brownian
    motion. Doubles are exact reals; the shuffle's random choices are an
    oracle argument. */
module Perlin {
  import opened Wrappers

  const TABLE_SIZE: int := 256

  /** The identity table 0, 1, ..., n-1 that the shuffle starts from. */
  function Iota(n: nat): (s: seq<int>)
    ensures |s| == n && forall i :: 0 <= i < n ==> s[i] == i
  {
    seq(n, i => i)
  }

  /** s is a permutation of 0..n-1. */
  ghost predicate IsPermutation(s: seq<int>, n: nat) {
    multiset(s) == multiset(Iota(n))
  }

  /** A permutation of 0..n-1 holds only values of that range, and holds
      every value of it. */
  lemma PermutationRange(s: seq<int>, n: nat)
    requires IsPermutation(s, n)
    ensures forall i :: 0 <= i < |s| ==> 0 <= s[i] < n
    ensures forall v :: 0 <= v < n ==> v in s
  {
    forall i | 0 <= i < |s|
      ensures 0 <= s[i] < n
    {
      assert s[i] in multiset(s);
      assert s[i] in multiset(Iota(n));
      assert s[i] in Iota(n);
    }
    forall v | 0 <= v < n
      ensures v in s
    {
      assert Iota(n)[v] == v;
      assert v in multiset(Iota(n));
      assert v in multiset(s);
    }
  }

  /** Exchanging two entries keeps the multiset of a sequence. */
  lemma SwapKeepsMultiset(s: seq<int>, i: int, j: int)
    requires 0 <= i < |s| && 0 <= j < |s|
    ensures multiset(s[i := s[j]][j := s[i]]) == multiset(s)
  {
  }

  // ---------------------------------------------------------------------------
  // Curves and gradients
  // ---------------------------------------------------------------------------

  /** The quintic fade curve 6t^5 - 15t^4 + 10t^3: it fixes 0 and 1 and
      maps the unit interval into itself. */
  function Fade(t: real): (r: real)
    ensures t == 0.0 ==> r == 0.0
    ensures t == 1.0 ==> r == 1.0
    ensures 0.0 <= t <= 1.0 ==> 0.0 <= r <= 1.0
  {
    FadeInUnit(t);
    t * t * t * (t * (t * 6.0 - 15.0) + 10.0)
  }

  /** On [0, 1] the quintic is t^3 times a positive quadratic, and one minus
      it is (1 - t)^3 times another. */
  lemma FadeInUnit(t: real)
    ensures 0.0 <= t <= 1.0 ==> 0.0 <= t * t * t * (t * (t * 6.0 - 15.0) + 10.0) <= 1.0
  {
    if 0.0 <= t <= 1.0 {
      var q := t * (t * 6.0 - 15.0) + 10.0;
      var s := 1.0 - t;
      assert q == 6.0 * (t - 1.25) * (t - 1.25) + 0.625;
      MulNonNegative(t, t);
      MulNonNegative(t * t, t);
      MulNonNegative(s, s);
      MulNonNegative(s * s, s);
      assert 1.0 - t * t * t * q == s * s * s * (6.0 * t * t + 3.0 * t + 1.0);
      MulNonNegative(t * t * t, q);
      MulNonNegative(s * s * s, 6.0 * t * t + 3.0 * t + 1.0);
    }
  }

  lemma MulNonNegative(a: real, b: real)
    requires a >= 0.0 && b >= 0.0
    ensures a * b >= 0.0
  {
  }

  /** Linear interpolation from a (at 0) to b (at 1); for t in [0, 1] the
      result lies between the two ends. */
  function Lerp(t: real, a: real, b: real): (r: real)
    ensures t == 0.0 ==> r == a
    ensures t == 1.0 ==> r == b
    ensures 0.0 <= t <= 1.0 ==> (a <= r <= b || b <= r <= a)
  {
    if 0.0 <= t <= 1.0 && a <= b then MulNonNegative(t, b - a); MulNonNegative(1.0 - t, b - a);
      a + t * (b - a)
    else if 0.0 <= t <= 1.0 then MulNonNegative(t, a - b); MulNonNegative(1.0 - t, a - b);
      a + t * (b - a)
    else a + t * (b - a)
  }

  /** The fade curve fixes both ends of the unit interval and is symmetric
      about its midpoint. */
  lemma FadeEndpoints()
    ensures Fade(0.0) == 0.0 && Fade(1.0) == 1.0 && Fade(0.5) == 0.5
  {
  }

  /** Interpolation returns its end values at 0 and 1, and a constant when
      both ends agree. */
  lemma LerpEndpoints(a: real, b: real, t: real)
    ensures Lerp(0.0, a, b) == a && Lerp(1.0, a, b) == b && Lerp(t, a, a) == a
  {
  }

  /** The gradient dot product for a hash: the low four bits select one of
      twelve cube-edge directions (four of them twice). */
  function Grad(hash: int, x: real, y: real, z: real): (r: real)
    ensures -1.0 <= x <= 1.0 && -1.0 <= y <= 1.0 && -1.0 <= z <= 1.0 ==> -2.0 <= r <= 2.0
  {
    // & 15 on a two's-complement integer is the Euclidean remainder by 16.
    var h := hash % 16;
    var u := if h < 8 then x else y;
    var v := if h < 4 then y else if h == 12 || h == 14 then x else z;
    (if h % 2 == 0 then u else -u) + (if (h / 2) % 2 == 0 then v else -v)
  }

  datatype IVec = IVec(x: int, y: int, z: int)

  /** The gradient directions of the improved-noise paper, indexed by the
      low four bits of the hash: the twelve edge midpoints of the cube, then
      the four padding directions (1,1,0), (0,-1,1), (-1,1,0), (0,-1,-1)
      repeated from them so that sixteen bit patterns map onto twelve edges. */
  const GradTable: seq<IVec> := [
    IVec(1, 1, 0), IVec(-1, 1, 0), IVec(1, -1, 0), IVec(-1, -1, 0),
    IVec(1, 0, 1), IVec(-1, 0, 1), IVec(1, 0, -1), IVec(-1, 0, -1),
    IVec(0, 1, 1), IVec(0, -1, 1), IVec(0, 1, -1), IVec(0, -1, -1),
    IVec(1, 1, 0), IVec(0, -1, 1), IVec(-1, 1, 0), IVec(0, -1, -1)]

  /** A cube-edge direction: two components are +1 or -1 and one is 0. */
  predicate IsEdgeDirection(g: IVec) {
    var nz := (if g.x != 0 then 1 else 0) + (if g.y != 0 then 1 else 0) + (if g.z != 0 then 1 else 0);
    nz == 2 && -1 <= g.x <= 1 && -1 <= g.y <= 1 && -1 <= g.z <= 1
  }

  /** Grad is the dot product of (x, y, z) with the table's gradient for the
      hash's low four bits, and every gradient is a cube-edge direction. */
  lemma GradMatchesTable(hash: int, x: real, y: real, z: real)
    ensures var g := GradTable[hash % 16];
      Grad(hash, x, y, z) == g.x as real * x + g.y as real * y + g.z as real * z && IsEdgeDirection(g)
  {
    var h := hash % 16;
    assert 0 <= h < 16;
    if h == 0 {} else if h == 1 {} else if h == 2 {} else if h == 3 {}
    else if h == 4 {} else if h == 5 {} else if h == 6 {} else if h == 7 {}
    else if h == 8 {} else if h == 9 {} else if h == 10 {} else if h == 11 {}
    else if h == 12 {} else if h == 13 {} else if h == 14 {} else { assert h == 15; }
  }

  /** Every twelve cube edges occurs in the table. */
  lemma GradTableCoversEdges(g: IVec)
    requires IsEdgeDirection(g)
    ensures g in GradTable[..12]
  {
    var e := GradTable[..12];
    if g.x == 0 {
      assert g == e[8] || g == e[9] || g == e[10] || g == e[11];
    } else if g.y == 0 {
      assert g == e[4] || g == e[5] || g == e[6] || g == e[7];
    } else {
      assert g == e[0] || g == e[1] || g == e[2] || g == e[3];
    }
  }

  /** The gradient term vanishes at the corner itself. */
  lemma GradAtCorner(hash: int)
    ensures Grad(hash, 0.0, 0.0, 0.0) == 0.0
  {
  }

  // ---------------------------------------------------------------------------
  // Sums for fractional Brownian motion
  // ---------------------------------------------------------------------------

  function Pow(b: real, n: nat): real {
    if n == 0 then 1.0 else Pow(b, n - 1) * b
  }

  /** The sum of the first n amplitudes 1, p, p^2, ... */
  function AmplitudeSum(persistence: real, n: nat): real {
    if n == 0 then 0.0 else AmplitudeSum(persistence, n - 1) + Pow(persistence, n - 1)
  }

  lemma {:induction false} PowPositive(b: real, n: nat)
    requires b > 0.0
    ensures Pow(b, n) > 0.0
  {
    if n > 0 {
      PowPositive(b, n - 1);
    }
  }

  /** With at least one octave and a positive persistence the normaliser
      is positive. */
  lemma {:induction false} AmplitudeSumPositive(persistence: real, n: nat)
    requires persistence > 0.0 && n >= 1
    ensures AmplitudeSum(persistence, n) >= 1.0
  {
    if n > 1 {
      AmplitudeSumPositive(persistence, n - 1);
      PowPositive(persistence, n - 1);
    }
  }

  /** The octave sum: sample i weighted by persistence^i. */
  function WeightedSum(s: seq<real>, persistence: real): real {
    if |s| == 0 then 0.0
    else WeightedSum(s[..|s| - 1], persistence) + s[|s| - 1] * Pow(persistence, |s| - 1)
  }

  /** With positive persistence and every sample in [-1, 1] the octave sum
      is bounded by the amplitude sum. */
  lemma {:induction false} WeightedSumBound(s: seq<real>, persistence: real)
    requires persistence > 0.0
    requires forall i :: 0 <= i < |s| ==> -1.0 <= s[i] <= 1.0
    ensures -AmplitudeSum(persistence, |s|) <= WeightedSum(s, persistence) <= AmplitudeSum(persistence, |s|)
  {
    if |s| > 0 {
      var n := |s| - 1;
      WeightedSumBound(s[..n], persistence);
      PowPositive(persistence, n);
      OctaveBound(WeightedSum(s[..n], persistence), AmplitudeSum(persistence, n), s[n], Pow(persistence, n));
    }
  }

  /** A sample in [-1, 1] scaled by a positive amplitude a lies in [-a, a],
      so adding it to a sum bounded by m gives a sum bounded by m + a. */
  lemma OctaveBound(w: real, m: real, v: real, a: real)
    requires -m <= w <= m && -1.0 <= v <= 1.0 && a > 0.0
    ensures -(m + a) <= w + v * a <= m + a
  {
    ScaledSampleBound(v, a);
  }

  lemma ScaledSampleBound(v: real, a: real)
    requires -1.0 <= v <= 1.0 && a > 0.0
    ensures -a <= v * a <= a
  {
    assert (1.0 - v) * a >= 0.0;
    assert (1.0 + v) * a >= 0.0;
  }

  /** The fbm normalisation: with at least one octave, positive
      persistence and samples in [-1, 1], the normaliser is at least 1 and
      the normalised sum lies in [-1, 1]. */
  lemma NormalisedSumBound(s: seq<real>, persistence: real)
    requires persistence > 0.0 && |s| >= 1
    requires forall i :: 0 <= i < |s| ==> -1.0 <= s[i] <= 1.0
    ensures var m := AmplitudeSum(persistence, |s|);
      m >= 1.0 && -1.0 <= WeightedSum(s, persistence) / m <= 1.0
  {
    WeightedSumBound(s, persistence);
    AmplitudeSumPositive(persistence, |s|);
    var m := AmplitudeSum(persistence, |s|);
    var t := WeightedSum(s, persistence);
    assert -m <= t <= m;
    assert t / m * m == t;
  }

  /** The doubled table the noise functions index: 512 entries in 0..255,
      the second 256 a copy of the first (this is what keeps p[A + 1] and
      p[AA + 1] inside the table without a modulo). */
  predicate IsNoiseTable(t: seq<int>) {
    && |t| == 2 * TABLE_SIZE
    && t[TABLE_SIZE..] == t[..TABLE_SIZE]
    && (forall i :: 0 <= i < |t| ==> 0 <= t[i] < TABLE_SIZE)
  }

  /** The gradient terms at the eight corners of a unit cube; cXYZ is the
      corner offset by X, Y, Z in {0, 1}. */
  datatype Corners = Corners(c000: real, c100: real, c010: real, c110: real,
                             c001: real, c101: real, c011: real, c111: real)

  /** Trilinear interpolation of the corner values: along x by u, then y
      by v, then z by w. */
  function Blend(u: real, v: real, w: real, c: Corners): real {
    Lerp(w, Lerp(v, Lerp(u, c.c000, c.c100), Lerp(u, c.c010, c.c110)),
            Lerp(v, Lerp(u, c.c001, c.c101), Lerp(u, c.c011, c.c111)))
  }

  /** At each corner of the unit cube the blend is that corner's value. */
  lemma BlendAtCorners(c: Corners)
    ensures Blend(0.0, 0.0, 0.0, c) == c.c000 && Blend(1.0, 0.0, 0.0, c) == c.c100
    ensures Blend(0.0, 1.0, 0.0, c) == c.c010 && Blend(1.0, 1.0, 0.0, c) == c.c110
    ensures Blend(0.0, 0.0, 1.0, c) == c.c001 && Blend(1.0, 0.0, 1.0, c) == c.c101
    ensures Blend(0.0, 1.0, 1.0, c) == c.c011 && Blend(1.0, 1.0, 1.0, c) == c.c111
  {
  }

  /** The eight hash indices of the unit cube at lattice cell (X, Y, Z). */
  datatype CubeHash = CubeHash(aa: int, ab: int, ba: int, bb: int)

  /** Entries 0..255 of q take the values 0..255. */
  method FillIdentity(q: array<int>)
    requires q.Length == 2 * TABLE_SIZE
    modifies q
    ensures IsPermutation(q[..TABLE_SIZE], TABLE_SIZE)
  {
    var i := 0;
    while i < TABLE_SIZE
      invariant 0 <= i <= TABLE_SIZE
      invariant forall k :: 0 <= k < i ==> q[k] == k
    {
      q[i] := i;
      i := i + 1;
    }
    assert q[..TABLE_SIZE] == Iota(TABLE_SIZE);
  }

  /** The Fisher-Yates pass: for i from 255 down to 1, entry i is exchanged
      with entry choices[i] mod (i + 1). Swaps keep the lower half a
      permutation of 0..255. */
  method Shuffle(q: array<int>, choices: seq<nat>)
    requires q.Length == 2 * TABLE_SIZE && |choices| == TABLE_SIZE
    requires IsPermutation(q[..TABLE_SIZE], TABLE_SIZE)
    modifies q
    ensures IsPermutation(q[..TABLE_SIZE], TABLE_SIZE)
  {
    var i := TABLE_SIZE - 1;
    while i > 0
      invariant 0 <= i < TABLE_SIZE
      invariant IsPermutation(q[..TABLE_SIZE], TABLE_SIZE)
    {
      var j := choices[i] % (i + 1);
      ghost var before := q[..TABLE_SIZE];
      q[i], q[j] := q[j], q[i];
      assert q[..TABLE_SIZE] == before[i := before[j]][j := before[i]];
      SwapKeepsMultiset(before, i, j);
      i := i - 1;
    }
  }

  /** Entries 256..511 of q copy entries 0..255, which makes q a noise
      table whose lower half is still the permutation it was. */
  method CopyUpper(q: array<int>)
    requires q.Length == 2 * TABLE_SIZE && IsPermutation(q[..TABLE_SIZE], TABLE_SIZE)
    modifies q
    ensures IsNoiseTable(q[..]) && IsPermutation(q[..TABLE_SIZE], TABLE_SIZE)
  {
    PermutationRange(q[..TABLE_SIZE], TABLE_SIZE);
    var i := 0;
    while i < TABLE_SIZE
      invariant 0 <= i <= TABLE_SIZE
      invariant forall k :: 0 <= k < TABLE_SIZE ==> 0 <= q[k] < TABLE_SIZE
      invariant IsPermutation(q[..TABLE_SIZE], TABLE_SIZE)
      invariant forall k :: 0 <= k < i ==> q[TABLE_SIZE + k] == q[k]
    {
      ghost var low := q[..TABLE_SIZE];
      q[TABLE_SIZE + i] := q[i];
      assert q[..TABLE_SIZE] == low;
      i := i + 1;
    }
    assert forall k :: 0 <= k < 2 * TABLE_SIZE ==> 0 <= q[k] < TABLE_SIZE by {
      forall k | TABLE_SIZE <= k < 2 * TABLE_SIZE
        ensures 0 <= q[k] < TABLE_SIZE
      {
        assert q[k] == q[k - TABLE_SIZE];
      }
    }
    var table := q[..];
    assert table[..TABLE_SIZE] == q[..TABLE_SIZE];
    assert table[TABLE_SIZE..] == table[..TABLE_SIZE];
  }

  class PerlinNoise {
    /** The table; it is filled once by the constructor and only read
        afterwards, so it is kept as an immutable sequence. */
    const p: seq<int>

    ghost predicate Valid() {
      IsNoiseTable(p)
    }

    /** Builds the table: 0..255, shuffled by the Fisher-Yates swaps the
        oracle picks (entry i exchanged with entry choices[i] mod (i + 1),
        for i from 255 down to 1), then copied into the upper half. */
    constructor (choices: seq<nat>)
      requires |choices| == TABLE_SIZE
      ensures Valid() && IsPermutation(p[..TABLE_SIZE], TABLE_SIZE)
    {
      var q := new int[2 * TABLE_SIZE](_ => 0);
      FillIdentity(q);
      Shuffle(q, choices);
      CopyUpper(q);
      p := q[..];
    }

    /** Fractional Brownian motion over this table's noise. */
    method Fbm(x: real, y: real, z: real, octaves: int, persistence: real, lacunarity: real) returns (r: Option<real>)
      requires Valid()
      ensures var n := if octaves < 0 then 0 else octaves;
        r == if AmplitudeSum(persistence, n) == 0.0 then None
             else Some(WeightedSum(Samples(NoiseField(p), x, y, z, lacunarity, n), persistence) / AmplitudeSum(persistence, n))
      ensures octaves <= 0 ==> r == None
    {
      r := FbmOf(NoiseField(p), x, y, z, octaves, persistence, lacunarity);
    }
  }

  /** The hash indices of the cube whose lower corner has lattice
      coordinates X, Y, Z in 0..255. Every index stays in the table: the
      first-level indices A and B are at most 510, and the corner indices
      and their successors at most 511. */
  function Hashes(t: seq<int>, X: int, Y: int, Z: int): (h: CubeHash)
    requires IsNoiseTable(t) && 0 <= X < TABLE_SIZE && 0 <= Y < TABLE_SIZE && 0 <= Z < TABLE_SIZE
    ensures 0 <= t[X] + Y <= 510 && 0 <= t[X + 1] + Y <= 510
    ensures 0 <= h.aa && h.aa + 1 <= 511 && 0 <= h.ab && h.ab + 1 <= 511
    ensures 0 <= h.ba && h.ba + 1 <= 511 && 0 <= h.bb && h.bb + 1 <= 511
  {
    var a := t[X] + Y;
    var b := t[X + 1] + Y;
    CubeHash(t[a] + Z, t[a + 1] + Z, t[b] + Z, t[b + 1] + Z)
  }

  /** The gradient terms of the eight corners of the lattice cube
      (X, Y, Z), for the offsets fx, fy, fz of the point inside it. */
  function CornerGrads(t: seq<int>, X: int, Y: int, Z: int, fx: real, fy: real, fz: real): Corners
    requires IsNoiseTable(t) && 0 <= X < TABLE_SIZE && 0 <= Y < TABLE_SIZE && 0 <= Z < TABLE_SIZE
  {
    var h := Hashes(t, X, Y, Z);
    Corners(Grad(t[h.aa], fx, fy, fz), Grad(t[h.ba], fx - 1.0, fy, fz),
            Grad(t[h.ab], fx, fy - 1.0, fz), Grad(t[h.bb], fx - 1.0, fy - 1.0, fz),
            Grad(t[h.aa + 1], fx, fy, fz - 1.0), Grad(t[h.ba + 1], fx - 1.0, fy, fz - 1.0),
            Grad(t[h.ab + 1], fx, fy - 1.0, fz - 1.0), Grad(t[h.bb + 1], fx - 1.0, fy - 1.0, fz - 1.0))
  }

  /** Noise at (x, y, z) over table t: the lattice cell is the floor of each
      coordinate wrapped into 0..255 (the & 255 of the two's-complement
      value), the fractional offsets are faded, and the eight corner
      gradients are blended by trilinear interpolation. */
  function Noise(t: seq<int>, x: real, y: real, z: real): (r: real)
    requires IsNoiseTable(t)
    ensures -2.0 <= r <= 2.0
  {
    var fx, fy, fz := x - x.Floor as real, y - y.Floor as real, z - z.Floor as real;
    Blend(Fade(fx), Fade(fy), Fade(fz),
          CornerGrads(t, x.Floor % TABLE_SIZE, y.Floor % TABLE_SIZE, z.Floor % TABLE_SIZE, fx, fy, fz))
  }

  /** Noise is zero at every lattice point: there the offsets are zero,
      the fade is zero, the blend returns the first corner, and that
      corner's gradient term vanishes. */
  lemma NoiseVanishesAtLattice(t: seq<int>, i: int, j: int, k: int)
    requires IsNoiseTable(t)
    ensures Noise(t, i as real, j as real, k as real) == 0.0
  {
    var x, y, z := i as real, j as real, k as real;
    assert x.Floor == i && y.Floor == j && z.Floor == k;
    assert x - x.Floor as real == 0.0 && y - y.Floor as real == 0.0 && z - z.Floor as real == 0.0;
    FadeEndpoints();
    var c := CornerGrads(t, i % TABLE_SIZE, j % TABLE_SIZE, k % TABLE_SIZE, 0.0, 0.0, 0.0);
    BlendAtCorners(c);
    GradAtCorner(t[Hashes(t, i % TABLE_SIZE, j % TABLE_SIZE, k % TABLE_SIZE).aa]);
    assert c.c000 == 0.0;
  }

  /** A noise function of three coordinates, as the octave sum sees it. */
  type Field = (real, real, real) -> real

  /** The noise function of table t (zero everywhere for a table that is
      not a noise table, which the class invariant rules out). */
  function NoiseField(t: seq<int>): Field {
    (a: real, b: real, c: real) => if IsNoiseTable(t) then Noise(t, a, b, c) else 0.0
  }

  /** The field sampled at the coordinates scaled by the frequency f. */
  function SampleAt(noise: Field, x: real, y: real, z: real, f: real): real {
    noise(x * f, y * f, z * f)
  }

  /** The samples of the first n octaves in octave order: octave k samples
      at frequency lacunarity^k. */
  function Samples(noise: Field, x: real, y: real, z: real, lacunarity: real, n: nat): (s: seq<real>)
    ensures |s| == n
  {
    if n == 0 then []
    else Samples(noise, x, y, z, lacunarity, n - 1) + [SampleAt(noise, x, y, z, Pow(lacunarity, n - 1))]
  }

  /** Fractional Brownian motion of a noise field: the octaves' samples,
      octave i at frequency lacunarity^i and weighted by persistence^i,
      summed and divided by the sum of the weights. A zero normaliser (no
      octaves, or weights that cancel) makes the division produce no
      number, which is None here. */
  method FbmOf(noise: Field, x: real, y: real, z: real, octaves: int, persistence: real, lacunarity: real)
    returns (r: Option<real>)
    ensures var n := if octaves < 0 then 0 else octaves;
      r == if AmplitudeSum(persistence, n) == 0.0 then None
           else Some(WeightedSum(Samples(noise, x, y, z, lacunarity, n), persistence) / AmplitudeSum(persistence, n))
    ensures octaves <= 0 ==> r == None
  {
    var total := 0.0;
    var frequency := 1.0;
    var amplitude := 1.0;
    var maxValue := 0.0;
    var i := 0;
    while i < octaves
      invariant 0 <= i && (octaves >= 0 ==> i <= octaves) && (octaves < 0 ==> i == 0)
      invariant frequency == Pow(lacunarity, i) && amplitude == Pow(persistence, i)
      invariant total == WeightedSum(Samples(noise, x, y, z, lacunarity, i), persistence)
      invariant maxValue == AmplitudeSum(persistence, i)
    {
      var v := SampleAt(noise, x, y, z, frequency);
      OctaveStep(noise, x, y, z, persistence, lacunarity, i, amplitude, frequency, v);
      WeightsStep(persistence, lacunarity, i, amplitude, frequency);
      total := total + v * amplitude;
      maxValue := maxValue + amplitude;
      amplitude := amplitude * persistence;
      frequency := frequency * lacunarity;
      i := i + 1;
    }
    assert i == if octaves < 0 then 0 else octaves;
    if maxValue == 0.0 {
      return None;
    }
    return Some(total / maxValue);
  }

  /** One pass of the octave loop adds octave i's sample, taken at the
      loop's frequency and weighted by its amplitude. */
  lemma OctaveStep(noise: Field, x: real, y: real, z: real, persistence: real, lacunarity: real, i: nat,
                   amplitude: real, frequency: real, v: real)
    requires amplitude == Pow(persistence, i) && frequency == Pow(lacunarity, i)
    requires v == SampleAt(noise, x, y, z, frequency)
    ensures WeightedSum(Samples(noise, x, y, z, lacunarity, i + 1), persistence) ==
      WeightedSum(Samples(noise, x, y, z, lacunarity, i), persistence) + v * amplitude
  {
    SamplesStep(noise, x, y, z, persistence, lacunarity, i);
  }

  /** The loop's amplitude, frequency and normaliser move on one octave. */
  lemma WeightsStep(persistence: real, lacunarity: real, i: nat, amplitude: real, frequency: real)
    requires amplitude == Pow(persistence, i) && frequency == Pow(lacunarity, i)
    ensures AmplitudeSum(persistence, i + 1) == AmplitudeSum(persistence, i) + amplitude
    ensures amplitude * persistence == Pow(persistence, i + 1)
    ensures frequency * lacunarity == Pow(lacunarity, i + 1)
  {
  }

  /** Appending a sample adds it with the next octave's weight. */
  lemma WeightedSumSnoc(s: seq<real>, v: real, persistence: real)
    ensures WeightedSum(s + [v], persistence) == WeightedSum(s, persistence) + v * Pow(persistence, |s|)
  {
    assert (s + [v])[..|s|] == s;
  }

  /** The octave sum gains the next octave's sample times its weight. */
  lemma SamplesStep(noise: Field, x: real, y: real, z: real, persistence: real, lacunarity: real, i: nat)
    ensures WeightedSum(Samples(noise, x, y, z, lacunarity, i + 1), persistence) ==
      WeightedSum(Samples(noise, x, y, z, lacunarity, i), persistence) + SampleAt(noise, x, y, z, Pow(lacunarity, i)) * Pow(persistence, i)
  {
    var s := Samples(noise, x, y, z, lacunarity, i);
    var v := SampleAt(noise, x, y, z, Pow(lacunarity, i));
    var w := Pow(persistence, i);
    assert Samples(noise, x, y, z, lacunarity, i + 1) == s + [v];
    WeightedSumSnoc(s, v, persistence);
    assert WeightedSum(s + [v], persistence) == WeightedSum(s, persistence) + v * w;
  }

  /** A field bounded by 1 in magnitude gives samples bounded by 1. */
  lemma {:induction false} SamplesInRange(noise: Field, x: real, y: real, z: real, lacunarity: real, n: nat)
    requires forall a, b, c :: -1.0 <= noise(a, b, c) <= 1.0
    ensures forall k :: 0 <= k < n ==> -1.0 <= Samples(noise, x, y, z, lacunarity, n)[k] <= 1.0
  {
    if n > 0 {
      SamplesInRange(noise, x, y, z, lacunarity, n - 1);
      var s := Samples(noise, x, y, z, lacunarity, n - 1);
      var v := SampleAt(noise, x, y, z, Pow(lacunarity, n - 1));
      assert Samples(noise, x, y, z, lacunarity, n) == s + [v];
    }
  }

  /** The fbm result stays in [-1, 1] when the noise does: with at least
      one octave and a positive persistence the normaliser is at least 1
      and the normalised octave sum lies in [-1, 1]. */
  lemma FbmInRange(noise: Field, x: real, y: real, z: real, octaves: nat, persistence: real, lacunarity: real)
    requires forall a, b, c :: -1.0 <= noise(a, b, c) <= 1.0
    requires octaves >= 1 && persistence > 0.0
    ensures var m := AmplitudeSum(persistence, octaves);
      m >= 1.0 && -1.0 <= WeightedSum(Samples(noise, x, y, z, lacunarity, octaves), persistence) / m <= 1.0
  {
    SamplesInRange(noise, x, y, z, lacunarity, octaves);
    NormalisedSumBound(Samples(noise, x, y, z, lacunarity, octaves), persistence);
  }
}
