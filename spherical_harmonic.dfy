/**
 * The coefficient engine: the (l, m) layout of a coefficient vector, its order,
 * encoding by numeric integration, decoding as a weighted sum of basis values,
 * and the dot product of two coefficient vectors.
 */
module SphericalHarmonic {
  import opened Ints
  import opened PixelFormat
  import opened ShMath
  import opened Sampling

  /** A function on the sphere, taking (phi, tetta). */
  type PolarFunction = (real, real) -> RGB

  /** A basis function y(l, m, phi, tetta); the engine uses ShBasis, the model of shmath's y. */
  type Basis = (int, int, real, real) -> real

  function ShBasis(lib: MathLib): Basis {
    (l: int, m: int, phi: real, tetta: real) => Y(l, m, phi, tetta, lib)
  }

  // ------------------------------------------------------------- layout

  /** The integer square root: the largest r with r * r <= n. */
  function ISqrt(n: nat): nat {
    if n == 0 then 0
    else
      var s := ISqrt(n - 1);
      if (s + 1) * (s + 1) <= n then s + 1 else s
  }

  lemma {:induction false} ISqrtBounds(n: nat)
    ensures ISqrt(n) * ISqrt(n) <= n < (ISqrt(n) + 1) * (ISqrt(n) + 1)
  {
    if n > 0 {
      ISqrtBounds(n - 1);
    }
  }

  lemma SquareMonotone(a: nat, b: nat)
    requires a <= b
    ensures a * a <= b * b
  {
    assert a * a <= a * b <= b * b;
  }

  lemma RootBelow(a: nat, b: nat)
    requires a * a < b * b
    ensures a < b
  {
    if a >= b {
      SquareMonotone(b, a);
    }
  }

  /** The integer square root is the only r with r * r <= n < (r + 1) * (r + 1). */
  lemma ISqrtUnique(n: nat, r: nat)
    requires r * r <= n < (r + 1) * (r + 1)
    ensures ISqrt(n) == r
  {
    var s := ISqrt(n);
    ISqrtBounds(n);
    if s < r {
      SquareMonotone(s + 1, r);
    } else if r < s {
      SquareMonotone(r + 1, s);
    }
  }

  /** Where coefficient (l, m) sits in the vector. */
  function Index(l: int, m: int): int {
    l * (l + 1) + m
  }

  /** The band of slot k. */
  function LOf(k: nat): nat {
    ISqrt(k)
  }

  /** The index inside its band of slot k. */
  function MOf(k: nat): int {
    k - LOf(k) * (LOf(k) + 1)
  }

  /** (l, m) with -l <= m <= l lands on a slot from which l and m are recovered. */
  lemma IndexOfBand(l: nat, m: int)
    requires -(l as int) <= m <= l
    ensures l * l <= Index(l, m) < (l + 1) * (l + 1)
    ensures LOf(Index(l, m)) == l && MOf(Index(l, m)) == m
  {
    ISqrtUnique(Index(l, m), l);
  }

  /** Every slot is the index of exactly the (l, m) read back from it. */
  lemma BandOfIndex(k: nat)
    ensures -(LOf(k) as int) <= MOf(k) <= LOf(k)
    ensures Index(LOf(k), MOf(k)) == k
  {
    ISqrtBounds(k);
  }

  /** The slots of the bands 0..n are exactly 0 .. (n+1)^2 - 1. */
  lemma IndexRange(k: nat, n: nat)
    ensures k < (n + 1) * (n + 1) <==> LOf(k) <= n
  {
    var l := LOf(k);
    ISqrtBounds(k);
    if l <= n {
      SquareMonotone(l + 1, n + 1);
    } else {
      SquareMonotone(n + 1, l);
    }
  }

  /** Band l starts at slot l^2. */
  lemma IndexBandStart(l: int)
    ensures Index(l, -l) == l * l
  {
  }

  /** The last slot of band l is followed by the first slot of band l + 1. */
  lemma IndexNextBand(l: int)
    ensures Index(l, l + 1) == Index(l + 1, -(l + 1)) == (l + 1) * (l + 1)
  {
  }

  /**
   * order(c): the square root of the length, minus one, as uint16. A length of
   * (n + 1)^2 gives n; any other length gives the order of the largest square below it.
   */
  function Order<F>(coefficients: seq<F>): (n: nat)
    requires 1 <= |coefficients| < 0x1_0001 * 0x1_0001
    ensures n < 0x1_0000
  {
    var r := ISqrt(|coefficients|);
    ISqrtBounds(|coefficients|);
    RootBelow(r, 0x1_0001);
    r - 1
  }

  /** (order(c) + 1)^2 <= |c| < (order(c) + 2)^2. */
  lemma OrderBounds<F>(coefficients: seq<F>)
    requires 1 <= |coefficients| < 0x1_0001 * 0x1_0001
    ensures var n := Order(coefficients); (n + 1) * (n + 1) <= |coefficients| < (n + 2) * (n + 2)
  {
    ISqrtBounds(|coefficients|);
  }

  lemma OrderOfSquare<F>(coefficients: seq<F>, n: nat)
    requires n < 0x1_0000 && |coefficients| == (n + 1) * (n + 1)
    ensures |coefficients| < 0x1_0001 * 0x1_0001 && Order(coefficients) == n
  {
    SquareMonotone(n + 1, 0x1_0000);
    ISqrtUnique(|coefficients|, n + 1);
  }

  // --------------------------------------------------------- estimators

  /** The i-th Monte Carlo direction (phi, tetta): the i-th Hammersley point mapped onto the sphere. */
  function SamplePoint(i: uint16, samples: uint16, lib: MathLib): Vec2
    requires i < samples
  {
    var e := Hammersley2d(i, samples);
    SampleSphere(e.x, e.y, lib)
  }

  /** All directions estimateMonteCarlo visits, in loop order. */
  function SamplePoints(samples: uint16, lib: MathLib): (points: seq<Vec2>)
    ensures |points| == samples as nat
  {
    seq(samples as nat, k requires 0 <= k < samples as nat => SamplePoint(k as uint16, samples, lib))
  }

  /** The sum of f y over the first n of the given directions, in the order the loop adds them. */
  function MonteCarloSum(f: PolarFunction, y: Basis, l: int, m: int, points: seq<Vec2>, n: nat): RGB
    requires n <= |points|
  {
    if n == 0 then Zero
    else
      var angles := points[n - 1];
      Add(MonteCarloSum(f, y, l, m, points, n - 1), Scale(f(angles.x, angles.y), y(l, m, angles.x, angles.y)))
  }

  /** What estimateMonteCarlo returns: f y summed over all sample directions, times 4 PI / samples. */
  function MonteCarloEstimate(f: PolarFunction, y: Basis, l: int, m: int, samples: uint16, lib: MathLib): RGB
    requires samples > 0
  {
    Scale(MonteCarloSum(f, y, l, m, SamplePoints(samples, lib), samples as nat), PI4 / (samples as real))
  }

  /** estimateMonteCarlo: one pass over the Hammersley points i = 0 .. samples - 1. */
  method EstimateMonteCarlo(f: PolarFunction, y: Basis, l: int, m: int, samples: uint16, lib: MathLib)
    returns (estimation: RGB)
    requires samples > 0
    ensures estimation == MonteCarloEstimate(f, y, l, m, samples, lib)
  {
    ghost var points := SamplePoints(samples, lib);
    var factor := PI4 / (samples as real);
    estimation := Zero;
    var i: uint16 := 0;
    while i < samples
      invariant i <= samples
      invariant estimation == MonteCarloSum(f, y, l, m, points, i as nat)
    {
      var e := Hammersley2d(i, samples);
      var angles := SampleSphere(e.x, e.y, lib);
      assert angles == points[i];
      var yValue := y(l, m, angles.x, angles.y);
      estimation := Add(estimation, Scale(f(angles.x, angles.y), yValue));
      i := i + 1;
    }
    estimation := Scale(estimation, factor);
  }

  /** The grid step 2 PI / divisions of estimateSpherical, used for both phi and tetta. */
  function Step(divisions: uint16): real {
    if divisions == 0 then 0.0 else PI2 / (divisions as real)
  }

  /** f(phi, tetta) y(l, m, phi, tetta) sin(tetta) dPhi dTetta, with dPhi = dTetta = d. */
  function SphericalTermAt(f: PolarFunction, y: Basis, l: int, m: int, phi: real, tetta: real, d: real, lib: MathLib): RGB {
    Scale(Scale(Scale(Scale(f(phi, tetta), y(l, m, phi, tetta)), lib.sin(tetta)), d), d)
  }

  /** The value of phi or tetta after n steps of "+= d" from 0. */
  function Accumulated(n: nat, d: real): real {
    if n == 0 then 0.0 else Accumulated(n - 1, d) + d
  }

  lemma {:induction false} AccumulatedIsProduct(n: nat, d: real)
    ensures Accumulated(n, d) == (n as real) * d
  {
    if n > 0 {
      AccumulatedIsProduct(n - 1, d);
    }
  }

  /** The term at grid point (i, j): phi and tetta after i and j steps. */
  function SphericalTerm(f: PolarFunction, y: Basis, l: int, m: int, divisions: uint16, i: nat, j: nat, lib: MathLib): RGB {
    var d := Step(divisions);
    SphericalTermAt(f, y, l, m, Accumulated(i, d), Accumulated(j, d), d, lib)
  }

  /** The first n terms of row i (fixed phi), in the order the inner loop adds them. */
  function SphericalRow(f: PolarFunction, y: Basis, l: int, m: int, divisions: uint16, i: nat, n: nat, lib: MathLib): RGB {
    if n == 0 then Zero
    else Add(SphericalRow(f, y, l, m, divisions, i, n - 1, lib), SphericalTerm(f, y, l, m, divisions, i, n - 1, lib))
  }

  /** The first n complete rows, each of divisions / 2 terms. */
  function SphericalSum(f: PolarFunction, y: Basis, l: int, m: int, divisions: uint16, n: nat, lib: MathLib): RGB {
    if n == 0 then Zero
    else Add(SphericalSum(f, y, l, m, divisions, n - 1, lib),
             SphericalRow(f, y, l, m, divisions, n - 1, (divisions as nat) / 2, lib))
  }

  /** What estimateSpherical returns: the divisions x (divisions / 2) grid summed. */
  function SphericalEstimate(f: PolarFunction, y: Basis, l: int, m: int, divisions: uint16, lib: MathLib): RGB {
    SphericalSum(f, y, l, m, divisions, divisions as nat, lib)
  }

  /** estimateSpherical: phi and tetta advance by the same step 2 PI / divisions. */
  method EstimateSpherical(f: PolarFunction, y: Basis, l: int, m: int, divisions: uint16, lib: MathLib)
    returns (estimation: RGB)
    ensures estimation == SphericalEstimate(f, y, l, m, divisions, lib)
  {
    var dPhi, dTetta := Step(divisions), Step(divisions);
    var phi := 0.0;
    estimation := Zero;
    var i := 0;
    while i < divisions as nat
      invariant i <= divisions as nat
      invariant phi == Accumulated(i, dPhi)
      invariant estimation == SphericalSum(f, y, l, m, divisions, i, lib)
    {
      var tetta := 0.0;
      var j := 0;
      ghost var done := estimation;
      while j < (divisions as nat) / 2
        invariant j <= (divisions as nat) / 2
        invariant tetta == Accumulated(j, dTetta)
        invariant estimation == Add(done, SphericalRow(f, y, l, m, divisions, i, j, lib))
      {
        var yValue := y(l, m, phi, tetta);
        AddAssociates(done, SphericalRow(f, y, l, m, divisions, i, j, lib), SphericalTerm(f, y, l, m, divisions, i, j, lib));
        estimation := Add(estimation, Scale(Scale(Scale(Scale(f(phi, tetta), yValue), lib.sin(tetta)), dPhi), dTetta));
        tetta := tetta + dTetta;
        j := j + 1;
      }
      phi := phi + dPhi;
      i := i + 1;
    }
  }

  /** The grid stays inside the parameter domain: phi in [0, 2 PI) and tetta in [0, PI). */
  lemma SphericalGridInDomain(divisions: uint16, i: nat, j: nat)
    requires i < divisions as nat && j < (divisions as nat) / 2
    ensures 0.0 <= Accumulated(i, Step(divisions)) < PI2
    ensures 0.0 <= Accumulated(j, Step(divisions)) < PI
  {
    var d := divisions as real;
    AccumulatedIsProduct(i, Step(divisions));
    AccumulatedIsProduct(j, Step(divisions));
    assert Step(divisions) == PI2 / d;
    assert 2.0 * (j as real) < d;
    BelowByQuotient(i as real, d, PI2);
    BelowByQuotient(2.0 * (j as real), d, PI);
    assert (j as real) * (PI2 / d) == (2.0 * (j as real)) * (PI / d);
  }

  lemma BelowByQuotient(a: real, d: real, c: real)
    requires 0.0 <= a < d && c > 0.0
    ensures 0.0 <= a * (c / d) < c
  {
    assert a * (c / d) == (a / d) * c;
    assert a / d < 1.0;
  }

  /** A zero function integrates to zero under both estimators. */
  lemma {:induction false} MonteCarloSumZero(f: PolarFunction, y: Basis, l: int, m: int, points: seq<Vec2>, n: nat)
    requires n <= |points|
    requires forall phi: real, tetta: real :: f(phi, tetta) == Zero
    ensures MonteCarloSum(f, y, l, m, points, n) == Zero
  {
    if n > 0 {
      MonteCarloSumZero(f, y, l, m, points, n - 1);
    }
  }

  lemma MonteCarloZero(f: PolarFunction, y: Basis, l: int, m: int, samples: uint16, lib: MathLib)
    requires samples > 0
    requires forall phi: real, tetta: real :: f(phi, tetta) == Zero
    ensures MonteCarloEstimate(f, y, l, m, samples, lib) == Zero
  {
    MonteCarloSumZero(f, y, l, m, SamplePoints(samples, lib), samples as nat);
  }

  /** Integration is additive in the integrand. */
  lemma {:induction false} MonteCarloSumAdditive(f: PolarFunction, g: PolarFunction, h: PolarFunction, y: Basis,
                                                 l: int, m: int, points: seq<Vec2>, n: nat)
    requires n <= |points|
    requires forall phi: real, tetta: real :: h(phi, tetta) == Add(f(phi, tetta), g(phi, tetta))
    ensures MonteCarloSum(h, y, l, m, points, n)
         == Add(MonteCarloSum(f, y, l, m, points, n), MonteCarloSum(g, y, l, m, points, n))
  {
    if n > 0 {
      MonteCarloSumAdditive(f, g, h, y, l, m, points, n - 1);
      var angles := points[n - 1];
      var w := y(l, m, angles.x, angles.y);
      ScaleDistributes(f(angles.x, angles.y), g(angles.x, angles.y), w);
      AddInterchange(MonteCarloSum(f, y, l, m, points, n - 1), MonteCarloSum(g, y, l, m, points, n - 1),
                     Scale(f(angles.x, angles.y), w), Scale(g(angles.x, angles.y), w));
    }
  }

  lemma MonteCarloAdditive(f: PolarFunction, g: PolarFunction, h: PolarFunction, y: Basis,
                           l: int, m: int, samples: uint16, lib: MathLib)
    requires samples > 0
    requires forall phi: real, tetta: real :: h(phi, tetta) == Add(f(phi, tetta), g(phi, tetta))
    ensures MonteCarloEstimate(h, y, l, m, samples, lib)
         == Add(MonteCarloEstimate(f, y, l, m, samples, lib), MonteCarloEstimate(g, y, l, m, samples, lib))
  {
    var points := SamplePoints(samples, lib);
    MonteCarloSumAdditive(f, g, h, y, l, m, points, samples as nat);
    ScaleDistributes(MonteCarloSum(f, y, l, m, points, samples as nat), MonteCarloSum(g, y, l, m, points, samples as nat),
                     PI4 / (samples as real));
  }

  lemma {:induction false} SphericalRowZero(f: PolarFunction, y: Basis, l: int, m: int, divisions: uint16, i: nat, n: nat, lib: MathLib)
    requires forall phi: real, tetta: real :: f(phi, tetta) == Zero
    ensures SphericalRow(f, y, l, m, divisions, i, n, lib) == Zero
  {
    if n > 0 {
      SphericalRowZero(f, y, l, m, divisions, i, n - 1, lib);
    }
  }

  lemma {:induction false} SphericalSumZero(f: PolarFunction, y: Basis, l: int, m: int, divisions: uint16, n: nat, lib: MathLib)
    requires forall phi: real, tetta: real :: f(phi, tetta) == Zero
    ensures SphericalSum(f, y, l, m, divisions, n, lib) == Zero
  {
    if n > 0 {
      SphericalSumZero(f, y, l, m, divisions, n - 1, lib);
      SphericalRowZero(f, y, l, m, divisions, n - 1, (divisions as nat) / 2, lib);
    }
  }

  lemma SphericalZero(f: PolarFunction, y: Basis, l: int, m: int, divisions: uint16, lib: MathLib)
    requires forall phi: real, tetta: real :: f(phi, tetta) == Zero
    ensures SphericalEstimate(f, y, l, m, divisions, lib) == Zero
  {
    SphericalSumZero(f, y, l, m, divisions, divisions as nat, lib);
  }

  /** With fewer than two divisions the inner loop never runs and the estimate is zero. */
  lemma SphericalFewDivisions(f: PolarFunction, y: Basis, l: int, m: int, divisions: uint16, lib: MathLib)
    requires divisions < 2
    ensures SphericalEstimate(f, y, l, m, divisions, lib) == Zero
  {
    if divisions == 1 {
      assert (divisions as nat) / 2 == 0;
      assert SphericalRow(f, y, l, m, divisions, 0, 0, lib) == Zero;
      assert SphericalSum(f, y, l, m, divisions, 0, lib) == Zero;
      AddZero(Zero);
    }
  }

  // -------------------------------------------------------------- encode

  /** divisions = (uint16) sqrtf(2 samples), the grid size of the non-Monte-Carlo path. */
  function Divisions(samples: uint16): (d: uint16) {
    var r := ISqrt(2 * samples);
    ISqrtBounds(2 * samples);
    RootBelow(r, 363);
    r
  }

  /** divisions is the largest d with d^2 <= 2 samples. */
  lemma DivisionsIsFloorSqrt(samples: uint16)
    ensures var d := Divisions(samples); d * d <= 2 * samples < (d + 1) * (d + 1)
  {
    ISqrtBounds(2 * samples);
  }

  /** The value encode stores for band l and index m. */
  function Estimate(sampling: SamplingMethod, f: PolarFunction, y: Basis, l: int, m: int, samples: uint16, lib: MathLib): RGB
    requires sampling.MonteCarlo? ==> samples > 0
  {
    if sampling.MonteCarlo? then MonteCarloEstimate(f, y, l, m, samples, lib)
    else SphericalEstimate(f, y, l, m, Divisions(samples), lib)
  }

  /**
   * encode: a vector of (order + 1)^2 coefficients in which slot k holds the
   * estimate for the band and index that k encodes. The source's basis is y = ShBasis(lib).
   */
  method Encode(order: uint16, f: PolarFunction, sampling: SamplingMethod, samples: uint16, y: Basis, lib: MathLib)
    returns (coefficients: seq<RGB>)
    requires order <= 46339
    requires sampling.MonteCarlo? ==> samples > 0
    ensures |coefficients| == (order + 1) * (order + 1)
    ensures |coefficients| < 0x1_0001 * 0x1_0001 && Order(coefficients) == order
    ensures forall k :: 0 <= k < |coefficients| ==>
      coefficients[k] == Estimate(sampling, f, y, LOf(k), MOf(k), samples, lib)
  {
    var a := new RGB[(order + 1) * (order + 1)](_ => Zero);
    var divisions := Divisions(samples);
    var l := 0;
    while l <= order
      invariant 0 <= l <= order + 1
      invariant l * l <= a.Length
      invariant forall k :: 0 <= k < l * l ==> a[k] == Estimate(sampling, f, y, LOf(k), MOf(k), samples, lib)
    {
      var m: int := -l;
      IndexBandStart(l);
      SquareMonotone(l + 1, order + 1);
      while m <= l
        invariant -l <= m <= l + 1
        invariant 0 <= Index(l, m) <= (l + 1) * (l + 1)
        invariant forall k :: 0 <= k < Index(l, m) ==> a[k] == Estimate(sampling, f, y, LOf(k), MOf(k), samples, lib)
      {
        var index := Index(l, m);
        assert index < a.Length by {
          IndexOfBand(l, m);
        }
        if sampling.MonteCarlo? {
          a[index] := EstimateMonteCarlo(f, y, l, m, samples, lib);
        } else {
          a[index] := EstimateSpherical(f, y, l, m, divisions, lib);
        }
        assert a[index] == Estimate(sampling, f, y, LOf(index), MOf(index), samples, lib) by {
          IndexOfBand(l, m);
        }
        assert Index(l, m + 1) == index + 1;
        m := m + 1;
      }
      IndexNextBand(l);
      l := l + 1;
    }
    coefficients := a[..];
    OrderOfSquare(coefficients, order);
  }

  // -------------------------------------------------------------- decode

  /** The first n terms c[k] y(l(k), m(k), phi, tetta) of decode, slot by slot. */
  function DecodeSum(c: seq<RGB>, y: Basis, phi: real, tetta: real, n: nat): RGB
    requires n <= |c|
  {
    if n == 0 then Zero
    else Add(DecodeSum(c, y, phi, tetta, n - 1), Scale(c[n - 1], y(LOf(n - 1), MOf(n - 1), phi, tetta)))
  }

  /**
   * decode, reading coefficients[index] where the source writes F c = c[index]:
   * every coefficient of the bands 0..order(c) weighted by its basis value, each once.
   * The source's basis is y = ShBasis(lib).
   */
  method Decode(coefficients: seq<RGB>, y: Basis, phi: real, tetta: real) returns (decoded: RGB)
    requires 1 <= |coefficients| < 0x1_0001 * 0x1_0001
    ensures var n := Order(coefficients);
      (n + 1) * (n + 1) <= |coefficients| && decoded == DecodeSum(coefficients, y, phi, tetta, (n + 1) * (n + 1))
  {
    var n := Order(coefficients);
    OrderBounds(coefficients);
    decoded := Zero;
    var l := 0;
    while l <= n
      invariant 0 <= l <= n + 1
      invariant l * l <= (n + 1) * (n + 1)
      invariant decoded == DecodeSum(coefficients, y, phi, tetta, l * l)
    {
      var m: int := -l;
      IndexBandStart(l);
      SquareMonotone(l + 1, n + 1);
      while m <= l
        invariant -l <= m <= l + 1
        invariant 0 <= Index(l, m) <= (l + 1) * (l + 1)
        invariant decoded == DecodeSum(coefficients, y, phi, tetta, Index(l, m))
      {
        IndexOfBand(l, m);
        var index := Index(l, m);
        var c := coefficients[index];
        decoded := Add(decoded, Scale(c, y(l, m, phi, tetta)));
        m := m + 1;
      }
      IndexNextBand(l);
      l := l + 1;
    }
  }

  /** Slot-wise sum and scaling of coefficient vectors. */
  function AddAll(a: seq<RGB>, b: seq<RGB>): (s: seq<RGB>)
    requires |a| == |b|
    ensures |s| == |a| && forall k :: 0 <= k < |s| ==> s[k] == Add(a[k], b[k])
  {
    seq(|a|, k requires 0 <= k < |a| => Add(a[k], b[k]))
  }

  function ScaleAll(a: seq<RGB>, w: real): (s: seq<RGB>)
    ensures |s| == |a| && forall k :: 0 <= k < |s| ==> s[k] == Scale(a[k], w)
  {
    seq(|a|, k requires 0 <= k < |a| => Scale(a[k], w))
  }

  lemma ScaleCommutes(p: RGB, w: real, v: real)
    ensures Scale(Scale(p, w), v) == Scale(Scale(p, v), w)
  {
  }

  /** decode is linear in the coefficients. */
  lemma {:induction false} DecodeAdditive(a: seq<RGB>, b: seq<RGB>, y: Basis, phi: real, tetta: real, n: nat)
    requires |a| == |b| && n <= |a|
    ensures DecodeSum(AddAll(a, b), y, phi, tetta, n) == Add(DecodeSum(a, y, phi, tetta, n), DecodeSum(b, y, phi, tetta, n))
  {
    if n > 0 {
      DecodeAdditive(a, b, y, phi, tetta, n - 1);
      var w := y(LOf(n - 1), MOf(n - 1), phi, tetta);
      ScaleDistributes(a[n - 1], b[n - 1], w);
      AddInterchange(DecodeSum(a, y, phi, tetta, n - 1), DecodeSum(b, y, phi, tetta, n - 1),
                     Scale(a[n - 1], w), Scale(b[n - 1], w));
    }
  }

  lemma {:induction false} DecodeHomogeneous(a: seq<RGB>, w: real, y: Basis, phi: real, tetta: real, n: nat)
    requires n <= |a|
    ensures DecodeSum(ScaleAll(a, w), y, phi, tetta, n) == Scale(DecodeSum(a, y, phi, tetta, n), w)
  {
    if n > 0 {
      DecodeHomogeneous(a, w, y, phi, tetta, n - 1);
      var v := y(LOf(n - 1), MOf(n - 1), phi, tetta);
      ScaleCommutes(a[n - 1], w, v);
      ScaleDistributes(DecodeSum(a, y, phi, tetta, n - 1), Scale(a[n - 1], v), w);
    }
  }

  /** An all-zero coefficient vector decodes to zero in every direction. */
  lemma {:induction false} DecodeZero(a: seq<RGB>, y: Basis, phi: real, tetta: real, n: nat)
    requires n <= |a|
    requires forall k :: 0 <= k < |a| ==> a[k] == Zero
    ensures DecodeSum(a, y, phi, tetta, n) == Zero
  {
    if n > 0 {
      DecodeZero(a, y, phi, tetta, n - 1);
    }
  }

  /** An order-0 vector decodes to the same value c[0] y(0, 0) in every direction. */
  lemma DecodeOrderZero(c: seq<RGB>, phi1: real, tetta1: real, phi2: real, tetta2: real, lib: MathLib)
    requires 1 <= |c| < 4
    requires LawfulSqrt(lib)
    ensures Order(c) == 0
    ensures DecodeSum(c, ShBasis(lib), phi1, tetta1, 1) == DecodeSum(c, ShBasis(lib), phi2, tetta2, 1)
  {
    ISqrtUnique(|c|, 1);
    assert LOf(0) == 0 && MOf(0) == 0;
    YDcConstant(phi1, tetta1, phi2, tetta2, lib);
    var y := ShBasis(lib);
    assert y(0, 0, phi1, tetta1) == y(0, 0, phi2, tetta2);
  }

  // ------------------------------------------------------------- product

  /** The first n terms a[i] * b[i] of the dot product. */
  function Dot(a: seq<RGB>, b: seq<RGB>, n: nat): RGB
    requires n <= |a| && n <= |b|
  {
    if n == 0 then Zero else Add(Dot(a, b, n - 1), Mul(a[n - 1], b[n - 1]))
  }

  /** product: the channel-wise dot product over the length of a. */
  method Product(a: seq<RGB>, b: seq<RGB>) returns (dot: RGB)
    requires |a| <= |b|
    ensures dot == Dot(a, b, |a|)
  {
    dot := Zero;
    var i := 0;
    while i < |a|
      invariant i <= |a|
      invariant dot == Dot(a, b, i)
    {
      dot := Add(dot, Mul(a[i], b[i]));
      i := i + 1;
    }
  }

  lemma {:induction false} DotSymmetric(a: seq<RGB>, b: seq<RGB>, n: nat)
    requires n <= |a| && n <= |b|
    ensures Dot(a, b, n) == Dot(b, a, n)
  {
    if n > 0 {
      DotSymmetric(a, b, n - 1);
      MulCommutes(a[n - 1], b[n - 1]);
    }
  }

  lemma {:induction false} DotSelfNonNegative(a: seq<RGB>, n: nat)
    requires n <= |a|
    ensures Dot(a, a, n).r >= 0.0 && Dot(a, a, n).g >= 0.0 && Dot(a, a, n).b >= 0.0
  {
    if n > 0 {
      DotSelfNonNegative(a, n - 1);
      var p := a[n - 1];
      assert p.r * p.r >= 0.0 && p.g * p.g >= 0.0 && p.b * p.b >= 0.0;
    }
  }
}
