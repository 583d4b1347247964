/**
 * src/sampling.h: texture filtering (linear, nearest), bitmap sampling with
 * texel-corner clamping, and cube-map sampling by face selection, projection
 * onto the face and a per-face uv mapping. Channels are exact reals; the
 * functions are modelled at T = RGB.
 */
module Sampling {
  import opened Ints
  import opened Wrappers
  import opened PixelFormat
  import opened PixelArrays
  import opened CubeMaps
  import opened ShMath

  /** How encode integrates: Sphere and Cubemap both take the regular-grid path. */
  datatype SamplingMethod = Sphere | MonteCarlo | Cubemap

  datatype InterpolationMethod = Nearest | Bilinear

  /** Texel<T>: a pixel value and the texel coordinates it was read from. */
  datatype Texel = Texel(value: RGB, x: real, y: real)

  function Abs(a: real): (r: real)
    ensures r >= 0.0 && (r == a || r == -a)
  {
    if a < 0.0 then -a else a
  }

  // ------------------------------------------------------------- linear

  /**
   * linear: bilinear interpolation over the rectangle spanned by q11 = (x1, y1),
   * q12 = (x1, y2), q21 = (x2, y1) and q22 = (x2, y2), where x1, y1 are q11's
   * coordinates, x2 is q21's and y2 is q12's. The source divides by x2 - x1 and
   * y2 - y1, so the rectangle must not be degenerate.
   */
  function Linear(q11: Texel, q12: Texel, q21: Texel, q22: Texel, x: real, y: real): RGB
    requires q21.x != q11.x && q12.y != q11.y
  {
    var x1 := q11.x;
    var x2 := q21.x;
    var y1 := q11.y;
    var y2 := q12.y;
    var a1 := Add(Scale(q11.value, y2 - y), Scale(q12.value, y - y1));
    var a2 := Add(Scale(q21.value, y2 - y), Scale(q22.value, y - y1));
    var dot := Add(Scale(a1, x2 - x), Scale(a2, x - x1));
    DivScalar(DivScalar(dot, x2 - x1), y2 - y1)
  }

  /** a ta + b tb: the weighted pair linear forms twice along y and once along x. */
  function Mix(a: real, ta: real, b: real, tb: real): real {
    a * ta + b * tb
  }

  /** The numerator of one channel of linear, before the two divisions. */
  function Numerator(v11: real, v12: real, v21: real, v22: real, x1: real, x2: real, y1: real, y2: real, x: real, y: real): real {
    Mix(Mix(v11, y2 - y, v12, y - y1), x2 - x, Mix(v21, y2 - y, v22, y - y1), x - x1)
  }

  /** One channel of linear. */
  function Bilerp(v11: real, v12: real, v21: real, v22: real, x1: real, x2: real, y1: real, y2: real, x: real, y: real): real
    requires x2 != x1 && y2 != y1
  {
    Numerator(v11, v12, v21, v22, x1, x2, y1, y2, x, y) / (x2 - x1) / (y2 - y1)
  }

  /** Adding two scaled pixels mixes each channel. */
  lemma MixChannels(p: RGB, ta: real, q: RGB, tb: real)
    ensures Add(Scale(p, ta), Scale(q, tb)) == RGB(Mix(p.r, ta, q.r, tb), Mix(p.g, ta, q.g, tb), Mix(p.b, ta, q.b, tb))
  {
  }

  lemma LinearChannels(q11: Texel, q12: Texel, q21: Texel, q22: Texel, x: real, y: real)
    requires q21.x != q11.x && q12.y != q11.y
    ensures Linear(q11, q12, q21, q22, x, y).r == Bilerp(q11.value.r, q12.value.r, q21.value.r, q22.value.r, q11.x, q21.x, q11.y, q12.y, x, y)
    ensures Linear(q11, q12, q21, q22, x, y).g == Bilerp(q11.value.g, q12.value.g, q21.value.g, q22.value.g, q11.x, q21.x, q11.y, q12.y, x, y)
    ensures Linear(q11, q12, q21, q22, x, y).b == Bilerp(q11.value.b, q12.value.b, q21.value.b, q22.value.b, q11.x, q21.x, q11.y, q12.y, x, y)
  {
    var x1, x2, y1, y2 := q11.x, q21.x, q11.y, q12.y;
    MixChannels(q11.value, y2 - y, q12.value, y - y1);
    MixChannels(q21.value, y2 - y, q22.value, y - y1);
    var a1 := Add(Scale(q11.value, y2 - y), Scale(q12.value, y - y1));
    var a2 := Add(Scale(q21.value, y2 - y), Scale(q22.value, y - y1));
    MixChannels(a1, x2 - x, a2, x - x1);
  }

  /** A weight of zero on the right leaves the left term. */
  lemma MixLeft(a: real, ta: real, b: real, tb: real)
    requires tb == 0.0
    ensures Mix(a, ta, b, tb) == a * ta
  {
  }

  /** A weight of zero on the left leaves the right term. */
  lemma MixRight(a: real, ta: real, b: real, tb: real)
    requires ta == 0.0
    ensures Mix(a, ta, b, tb) == b * tb
  {
  }

  /** Equal values mix to the value times the total weight. */
  lemma MixSame(v: real, ta: real, tb: real, s: real)
    requires s == ta + tb
    ensures Mix(v, ta, v, tb) == v * s
  {
  }

  /** n = (v b) a, divided by a and then by b, is v. */
  lemma CancelPair(n: real, w: real, v: real, a: real, b: real)
    requires a != 0.0 && b != 0.0
    requires n == w * a && w == v * b
    ensures n / a / b == v
  {
    assert n / a == w;
  }

  /** At each corner of the rectangle the interpolation is that corner's value. */
  lemma BilerpAtCorners(v11: real, v12: real, v21: real, v22: real, x1: real, x2: real, y1: real, y2: real)
    requires x2 != x1 && y2 != y1
    ensures Bilerp(v11, v12, v21, v22, x1, x2, y1, y2, x1, y1) == v11
    ensures Bilerp(v11, v12, v21, v22, x1, x2, y1, y2, x1, y2) == v12
    ensures Bilerp(v11, v12, v21, v22, x1, x2, y1, y2, x2, y1) == v21
    ensures Bilerp(v11, v12, v21, v22, x1, x2, y1, y2, x2, y2) == v22
  {
    var dx, dy := x2 - x1, y2 - y1;
    // (x1, y1): only v11's weights are non-zero
    MixLeft(v11, y2 - y1, v12, y1 - y1);
    MixLeft(Mix(v11, y2 - y1, v12, y1 - y1), x2 - x1, Mix(v21, y2 - y1, v22, y1 - y1), x1 - x1);
    CancelPair(Numerator(v11, v12, v21, v22, x1, x2, y1, y2, x1, y1), Mix(v11, y2 - y1, v12, y1 - y1), v11, dx, dy);
    // (x1, y2)
    MixRight(v11, y2 - y2, v12, y2 - y1);
    MixLeft(Mix(v11, y2 - y2, v12, y2 - y1), x2 - x1, Mix(v21, y2 - y2, v22, y2 - y1), x1 - x1);
    CancelPair(Numerator(v11, v12, v21, v22, x1, x2, y1, y2, x1, y2), Mix(v11, y2 - y2, v12, y2 - y1), v12, dx, dy);
    // (x2, y1)
    MixLeft(v21, y2 - y1, v22, y1 - y1);
    MixRight(Mix(v11, y2 - y1, v12, y1 - y1), x2 - x2, Mix(v21, y2 - y1, v22, y1 - y1), x2 - x1);
    CancelPair(Numerator(v11, v12, v21, v22, x1, x2, y1, y2, x2, y1), Mix(v21, y2 - y1, v22, y1 - y1), v21, dx, dy);
    // (x2, y2)
    MixRight(v21, y2 - y2, v22, y2 - y1);
    MixRight(Mix(v11, y2 - y2, v12, y2 - y1), x2 - x2, Mix(v21, y2 - y2, v22, y2 - y1), x2 - x1);
    CancelPair(Numerator(v11, v12, v21, v22, x1, x2, y1, y2, x2, y2), Mix(v21, y2 - y2, v22, y2 - y1), v22, dx, dy);
  }

  /** Interpolating four equal values gives that value everywhere. */
  lemma BilerpConstant(v: real, x1: real, x2: real, y1: real, y2: real, x: real, y: real)
    requires x2 != x1 && y2 != y1
    ensures Bilerp(v, v, v, v, x1, x2, y1, y2, x, y) == v
  {
    var dx, dy := x2 - x1, y2 - y1;
    var w := Mix(v, y2 - y, v, y - y1);
    MixSame(v, y2 - y, y - y1, dy);
    MixSame(w, x2 - x, x - x1, dx);
    CancelPair(Numerator(v, v, v, v, x1, x2, y1, y2, x, y), w, v, dx, dy);
  }

  /** a ta + b tb lies between lo (ta + tb) and hi (ta + tb) for non-negative weights. */
  lemma WeightedBetween(a: real, b: real, ta: real, tb: real, s: real, lo: real, hi: real)
    requires ta >= 0.0 && tb >= 0.0 && s == ta + tb && lo <= a <= hi && lo <= b <= hi
    ensures lo * s <= Mix(a, ta, b, tb) <= hi * s
  {
    assert (a - lo) * ta >= 0.0;
    assert (b - lo) * tb >= 0.0;
    assert (hi - a) * ta >= 0.0;
    assert (hi - b) * tb >= 0.0;
  }

  lemma DivideBounds(dot: real, lo: real, hi: real, d: real, e: real)
    requires d > 0.0 && e > 0.0 && lo * d * e <= dot <= hi * d * e
    ensures lo <= dot / e / d <= hi
  {
    var q := dot / e;
    assert q * e == dot;
    assert lo * d <= q <= hi * d;
    var t := q / d;
    assert t * d == q;
  }

  /** (x, y) lies in the closed rectangle [x1, x2] x [y1, y2] of positive area. */
  predicate Inside(x1: real, x2: real, y1: real, y2: real, x: real, y: real) {
    x1 < x2 && y1 < y2 && x1 <= x <= x2 && y1 <= y <= y2
  }

  /** The four corner values lie in [lo, hi]. */
  predicate CornersWithin(v11: real, v12: real, v21: real, v22: real, lo: real, hi: real) {
    lo <= v11 <= hi && lo <= v12 <= hi && lo <= v21 <= hi && lo <= v22 <= hi
  }

  /** Inside the rectangle the interpolation never leaves the range of the corner values. */
  lemma BilerpWithin(v11: real, v12: real, v21: real, v22: real, x1: real, x2: real, y1: real, y2: real, x: real, y: real, lo: real, hi: real)
    requires Inside(x1, x2, y1, y2, x, y) && CornersWithin(v11, v12, v21, v22, lo, hi)
    ensures lo <= Bilerp(v11, v12, v21, v22, x1, x2, y1, y2, x, y) <= hi
  {
    NumeratorWithin(v11, v12, v21, v22, x1, x2, y1, y2, x, y, lo, hi);
    BilerpBounds(v11, v12, v21, v22, x1, x2, y1, y2, x, y, lo, hi);
  }

  /** Bounds on the numerator, scaled by the area, carry over to the interpolation. */
  lemma BilerpBounds(v11: real, v12: real, v21: real, v22: real, x1: real, x2: real, y1: real, y2: real, x: real, y: real, lo: real, hi: real)
    requires x1 < x2 && y1 < y2
    requires lo * (y2 - y1) * (x2 - x1) <= Numerator(v11, v12, v21, v22, x1, x2, y1, y2, x, y)
    requires Numerator(v11, v12, v21, v22, x1, x2, y1, y2, x, y) <= hi * (y2 - y1) * (x2 - x1)
    ensures lo <= Bilerp(v11, v12, v21, v22, x1, x2, y1, y2, x, y) <= hi
  {
    DivideBounds(Numerator(v11, v12, v21, v22, x1, x2, y1, y2, x, y), lo, hi, y2 - y1, x2 - x1);
  }

  /** The numerator of linear is bounded by lo and hi times the rectangle's area. */
  lemma NumeratorWithin(v11: real, v12: real, v21: real, v22: real, x1: real, x2: real, y1: real, y2: real, x: real, y: real, lo: real, hi: real)
    requires Inside(x1, x2, y1, y2, x, y) && CornersWithin(v11, v12, v21, v22, lo, hi)
    ensures lo * (y2 - y1) * (x2 - x1) <= Numerator(v11, v12, v21, v22, x1, x2, y1, y2, x, y)
    ensures Numerator(v11, v12, v21, v22, x1, x2, y1, y2, x, y) <= hi * (y2 - y1) * (x2 - x1)
  {
    RowWithin(v11, v12, y1, y2, y, lo, hi);
    RowWithin(v21, v22, y1, y2, y, lo, hi);
    ColumnWithin(Mix(v11, y2 - y, v12, y - y1), Mix(v21, y2 - y, v22, y - y1), x1, x2, x, y1, y2, lo, hi);
  }

  /** Along y, the mix of two values in [lo, hi] lies within lo and hi times the height. */
  lemma RowWithin(a: real, b: real, y1: real, y2: real, y: real, lo: real, hi: real)
    requires y1 <= y <= y2 && lo <= a <= hi && lo <= b <= hi
    ensures lo * (y2 - y1) <= Mix(a, y2 - y, b, y - y1) <= hi * (y2 - y1)
  {
    WeightedBetween(a, b, y2 - y, y - y1, y2 - y1, lo, hi);
  }

  /** Along x, the mix of two row values within lo and hi times the height lies within lo and hi times the area. */
  lemma ColumnWithin(a: real, b: real, x1: real, x2: real, x: real, y1: real, y2: real, lo: real, hi: real)
    requires x1 <= x <= x2
    requires lo * (y2 - y1) <= a <= hi * (y2 - y1) && lo * (y2 - y1) <= b <= hi * (y2 - y1)
    ensures lo * (y2 - y1) * (x2 - x1) <= Mix(a, x2 - x, b, x - x1) <= hi * (y2 - y1) * (x2 - x1)
  {
    WeightedBetween(a, b, x2 - x, x - x1, x2 - x1, lo * (y2 - y1), hi * (y2 - y1));
  }

  /** linear returns each corner's value at that corner: q11 at (x1, y1), q12 at (x1, y2), q21 at (x2, y1), q22 at (x2, y2). */
  lemma LinearAtCorners(q11: Texel, q12: Texel, q21: Texel, q22: Texel)
    requires q21.x != q11.x && q12.y != q11.y
    ensures Linear(q11, q12, q21, q22, q11.x, q11.y) == q11.value
    ensures Linear(q11, q12, q21, q22, q11.x, q12.y) == q12.value
    ensures Linear(q11, q12, q21, q22, q21.x, q11.y) == q21.value
    ensures Linear(q11, q12, q21, q22, q21.x, q12.y) == q22.value
  {
    var x1, x2, y1, y2 := q11.x, q21.x, q11.y, q12.y;
    LinearChannels(q11, q12, q21, q22, x1, y1);
    LinearChannels(q11, q12, q21, q22, x1, y2);
    LinearChannels(q11, q12, q21, q22, x2, y1);
    LinearChannels(q11, q12, q21, q22, x2, y2);
    BilerpAtCorners(q11.value.r, q12.value.r, q21.value.r, q22.value.r, x1, x2, y1, y2);
    BilerpAtCorners(q11.value.g, q12.value.g, q21.value.g, q22.value.g, x1, x2, y1, y2);
    BilerpAtCorners(q11.value.b, q12.value.b, q21.value.b, q22.value.b, x1, x2, y1, y2);
  }

  /** Four texels of one value v interpolate to v at every point. */
  lemma LinearConstant(q11: Texel, q12: Texel, q21: Texel, q22: Texel, x: real, y: real)
    requires q21.x != q11.x && q12.y != q11.y
    requires q12.value == q11.value && q21.value == q11.value && q22.value == q11.value
    ensures Linear(q11, q12, q21, q22, x, y) == q11.value
  {
    var v := q11.value;
    LinearChannels(q11, q12, q21, q22, x, y);
    BilerpConstant(v.r, q11.x, q21.x, q11.y, q12.y, x, y);
    BilerpConstant(v.g, q11.x, q21.x, q11.y, q12.y, x, y);
    BilerpConstant(v.b, q11.x, q21.x, q11.y, q12.y, x, y);
  }

  /** Every channel of p lies in [lo, hi]. */
  predicate ChannelsWithin(p: RGB, lo: real, hi: real) {
    lo <= p.r <= hi && lo <= p.g <= hi && lo <= p.b <= hi
  }

  /** Inside the rectangle linear stays within any channel range that holds all four corner values. */
  lemma LinearWithin(q11: Texel, q12: Texel, q21: Texel, q22: Texel, x: real, y: real, lo: real, hi: real)
    requires q11.x < q21.x && q11.y < q12.y && q11.x <= x <= q21.x && q11.y <= y <= q12.y
    requires ChannelsWithin(q11.value, lo, hi) && ChannelsWithin(q12.value, lo, hi)
    requires ChannelsWithin(q21.value, lo, hi) && ChannelsWithin(q22.value, lo, hi)
    ensures ChannelsWithin(Linear(q11, q12, q21, q22, x, y), lo, hi)
  {
    var x1, x2, y1, y2 := q11.x, q21.x, q11.y, q12.y;
    LinearChannels(q11, q12, q21, q22, x, y);
    BilerpWithin(q11.value.r, q12.value.r, q21.value.r, q22.value.r, x1, x2, y1, y2, x, y, lo, hi);
    BilerpWithin(q11.value.g, q12.value.g, q21.value.g, q22.value.g, x1, x2, y1, y2, x, y, lo, hi);
    BilerpWithin(q11.value.b, q12.value.b, q21.value.b, q22.value.b, x1, x2, y1, y2, x, y, lo, hi);
  }

  // ------------------------------------------------------------ nearest

  /**
   * nearest: compares the areas |(y - yi)(x - xj)| spanned with three of the
   * corners against a quarter of the rectangle's area, in the order q11, q12,
   * q21, and falls back to q22.
   */
  function NearestTexel(q11: Texel, q12: Texel, q21: Texel, q22: Texel, x: real, y: real): (v: RGB)
    ensures v == q11.value || v == q12.value || v == q21.value || v == q22.value
  {
    var x1 := q11.x;
    var x2 := q21.x;
    var y1 := q11.y;
    var y2 := q12.y;
    var ds := Span(y2, y1, x2, x1) * 0.25;
    var s11 := Span(y, y1, x, x1);
    var s12 := Span(y, y2, x, x1);
    var s21 := Span(y, y1, x, x2);
    FirstBelow(ds, s11, s12, s21, q11.value, q12.value, q21.value, q22.value)
  }

  /** The area |(u - ui)(v - vj)| of the rectangle between (v, u) and (vj, ui). */
  function Span(u: real, ui: real, v: real, vj: real): real {
    Abs((u - ui) * (v - vj))
  }

  /** nearest's if-chain: the value of the first area below ds, in the order s11, s12, s21, else v22. */
  function FirstBelow(ds: real, s11: real, s12: real, s21: real, v11: RGB, v12: RGB, v21: RGB, v22: RGB): RGB {
    if s11 < ds then v11
    else if s12 < ds then v12
    else if s21 < ds then v21
    else v22
  }

  /**
   * On a rectangle of positive area, nearest returns q11 at q11's own corner and
   * at the corners of q12 and q21 (s11 vanishes on the lines x = x1 and y = y1),
   * and q12 at q22's corner (s12 vanishes on the line y = y2).
   */
  lemma NearestAtCorners(q11: Texel, q12: Texel, q21: Texel, q22: Texel)
    requires q21.x != q11.x && q12.y != q11.y
    ensures NearestTexel(q11, q12, q21, q22, q11.x, q11.y) == q11.value
    ensures NearestTexel(q11, q12, q21, q22, q11.x, q12.y) == q11.value
    ensures NearestTexel(q11, q12, q21, q22, q21.x, q11.y) == q11.value
    ensures NearestTexel(q11, q12, q21, q22, q21.x, q12.y) == q12.value
  {
    QuarterArea(q12.y, q11.y, q21.x, q11.x);
    NearestAt11(q11, q12, q21, q22);
    NearestAt12(q11, q12, q21, q22);
    NearestAt21(q11, q12, q21, q22);
    NearestAt22(q11, q12, q21, q22);
  }

  /** A quarter of a non-zero area is positive and smaller than the area. */
  lemma QuarterArea(u: real, ui: real, v: real, vj: real)
    requires u != ui && v != vj
    ensures 0.0 < Span(u, ui, v, vj) * 0.25 < Span(u, ui, v, vj)
  {
    if u - ui > 0.0 {
      if v - vj > 0.0 { assert (u - ui) * (v - vj) > 0.0; } else { assert (u - ui) * (v - vj) < 0.0; }
    } else {
      if v - vj > 0.0 { assert (u - ui) * (v - vj) < 0.0; } else { assert (u - ui) * (v - vj) > 0.0; }
    }
  }

  lemma ZeroFactor(a: real, b: real)
    requires a == 0.0 || b == 0.0
    ensures a * b == 0.0
  {
  }

  /** At q11's corner s11 vanishes. */
  lemma NearestAt11(q11: Texel, q12: Texel, q21: Texel, q22: Texel)
    requires 0.0 < Span(q12.y, q11.y, q21.x, q11.x) * 0.25
    ensures NearestTexel(q11, q12, q21, q22, q11.x, q11.y) == q11.value
  {
    ZeroFactor(q11.y - q11.y, q11.x - q11.x);
  }

  /** At q12's corner s11 vanishes (x = x1). */
  lemma NearestAt12(q11: Texel, q12: Texel, q21: Texel, q22: Texel)
    requires 0.0 < Span(q12.y, q11.y, q21.x, q11.x) * 0.25
    ensures NearestTexel(q11, q12, q21, q22, q11.x, q12.y) == q11.value
  {
    ZeroFactor(q12.y - q11.y, q11.x - q11.x);
  }

  /** At q21's corner s11 vanishes (y = y1). */
  lemma NearestAt21(q11: Texel, q12: Texel, q21: Texel, q22: Texel)
    requires 0.0 < Span(q12.y, q11.y, q21.x, q11.x) * 0.25
    ensures NearestTexel(q11, q12, q21, q22, q21.x, q11.y) == q11.value
  {
    ZeroFactor(q11.y - q11.y, q21.x - q11.x);
  }

  /** At q22's corner s11 is the whole area, which is not below a quarter of it, and s12 vanishes (y = y2). */
  lemma NearestAt22(q11: Texel, q12: Texel, q21: Texel, q22: Texel)
    requires 0.0 < Span(q12.y, q11.y, q21.x, q11.x) * 0.25 < Span(q12.y, q11.y, q21.x, q11.x)
    ensures NearestTexel(q11, q12, q21, q22, q21.x, q12.y) == q12.value
  {
    var area := Span(q12.y, q11.y, q21.x, q11.x);
    ZeroFactor(q12.y - q12.y, q21.x - q11.x);
    assert Span(q12.y, q12.y, q21.x, q11.x) == 0.0;
    FirstBelowSecond(area * 0.25, area, Span(q12.y, q12.y, q21.x, q11.x), Span(q12.y, q11.y, q21.x, q21.x),
                     q11.value, q12.value, q21.value, q22.value);
  }

  /** The second area is picked when the first is not below ds and the second is. */
  lemma FirstBelowSecond(ds: real, s11: real, s12: real, s21: real, v11: RGB, v12: RGB, v21: RGB, v22: RGB)
    requires !(s11 < ds) && s12 < ds
    ensures FirstBelow(ds, s11, s12, s21, v11, v12, v21, v22) == v12
  {
  }

  /**
   * nearest does not pick the closest corner: on the unit square, at (0.9, 1.0)
   * the closest corner is q22 = (1, 1), but s12 = 0 selects q12 = (0, 1).
   */
  lemma NearestNotClosestCorner(a: RGB, b: RGB, c: RGB, d: RGB)
    ensures NearestTexel(Texel(a, 0.0, 0.0), Texel(b, 0.0, 1.0), Texel(c, 1.0, 0.0), Texel(d, 1.0, 1.0), 0.9, 1.0) == b
  {
  }

  // --------------------------------------------------------- sampleBitmap

  function Min(a: int, b: int): int {
    if a < b then a else b
  }

  function Max(a: int, b: int): int {
    if a < b then b else a
  }

  /** The four texel columns and rows sampleBitmap reads, and the point it filters at. */
  datatype Corners = Corners(x1: int, x2: int, y1: int, y2: int, x: real, y: real)

  /**
   * The clamped corner computation of sampleBitmap: w = max(0, width - 1),
   * x = u w, x1 = min(w - 1, floor x), x2 = min(w, x1 + 1), and likewise for
   * the rows. The second corner is always one step past the first.
   */
  function TexelCorners(width: uint16, height: uint16, uv: Vec2): (c: Corners)
    ensures c.x2 == c.x1 + 1 && c.y2 == c.y1 + 1
  {
    var w := Max(0, width as int - 1);
    var h := Max(0, height as int - 1);
    var x := TexelCoordinate(uv.x, w);
    var y := TexelCoordinate(uv.y, h);
    var x1 := Min(w - 1, x.Floor);
    var y1 := Min(h - 1, y.Floor);
    var x2 := Min(w, x1 + 1);
    var y2 := Min(h, y1 + 1);
    Corners(x1, x2, y1, y2, x, y)
  }

  /** The texel-space coordinate u w of a uv coordinate u. */
  function TexelCoordinate(u: real, w: int): real {
    u * w as real
  }

  lemma UnitScaleBounds(u: real, w: nat)
    requires 0.0 <= u <= 1.0
    ensures 0.0 <= TexelCoordinate(u, w) <= w as real
  {
    MulNonNegative(u, w as real);
    MulNonNegative(1.0 - u, w as real);
  }

  /** The floor of a value in [0, w] lies in [0, w] and is within one below it. */
  lemma FloorWithin(x: real, w: int)
    requires 0.0 <= x <= w as real
    ensures 0 <= x.Floor <= w
    ensures x.Floor as real <= x < x.Floor as real + 1.0
  {
    assert x.Floor as real <= x < x.Floor as real + 1.0;
    assert x.Floor as real <= w as real;
  }

  /** One axis of TexelCorners for a dimension of at least 2 and a coordinate in [0, 1]. */
  lemma AxisInRange(dim: uint16, u: real)
    requires dim >= 2 && 0.0 <= u <= 1.0
    ensures var w := dim as int - 1;
            var x := TexelCoordinate(u, w);
            var x1 := Min(w - 1, x.Floor);
            0 <= x1 <= dim - 2 && x1 + 1 <= dim - 1 && x1 as real <= x <= (x1 + 1) as real
  {
    var w := dim as int - 1;
    var x := TexelCoordinate(u, w);
    UnitScaleBounds(u, w);
    assert x <= w as real;
    FloorWithin(x, w);
    if x.Floor <= w - 1 {
      assert Min(w - 1, x.Floor) == x.Floor;
    } else {
      assert Min(w - 1, x.Floor) == w - 1;
    }
  }

  /** For width, height >= 2 and uv in [0, 1]^2 every corner is a cell of the bitmap and (x, y) lies in their rectangle. */
  lemma TexelCornersInRange(width: uint16, height: uint16, uv: Vec2)
    requires width >= 2 && height >= 2
    requires 0.0 <= uv.x <= 1.0 && 0.0 <= uv.y <= 1.0
    ensures var c := TexelCorners(width, height, uv);
            0 <= c.x1 && c.x2 <= width - 1 && 0 <= c.y1 && c.y2 <= height - 1 &&
            c.x1 as real <= c.x <= c.x2 as real && c.y1 as real <= c.y <= c.y2 as real
  {
    assert Max(0, width as int - 1) == width as int - 1;
    assert Max(0, height as int - 1) == height as int - 1;
    AxisInRange(width, uv.x);
    AxisInRange(height, uv.y);
  }

  /** A bitmap one texel wide (or high) puts the first corner's column (or row) at -1. */
  lemma TexelCornersNarrow(width: uint16, height: uint16, uv: Vec2)
    ensures width <= 1 ==> TexelCorners(width, height, uv).x1 == -1
    ensures height <= 1 ==> TexelCorners(width, height, uv).y1 == -1
  {
  }

  /** The filter sampleBitmap applies to its four texels. */
  function Interpolate(filtering: InterpolationMethod, q11: Texel, q12: Texel, q21: Texel, q22: Texel, x: real, y: real): RGB
    requires q21.x != q11.x && q12.y != q11.y
  {
    if filtering == Nearest then NearestTexel(q11, q12, q21, q22, x, y)
    else Linear(q11, q12, q21, q22, x, y)
  }

  /**
   * sampleBitmap: reads the texels (x1, y1), (x1, y2), (x2, y1), (x2, y2) in
   * that order, each through bitmap[row][col], so the first read outside the
   * buffer raises its error; otherwise filters them at (x, y).
   */
  function SampleBitmap(bitmap: PixelArray<RGB>, uv: Vec2, filtering: InterpolationMethod): (r: Result<RGB, RangeError>)
    requires bitmap.Valid()
    reads bitmap, bitmap.data
  {
    var c := TexelCorners(bitmap.width, bitmap.height, uv);
    var r11 := bitmap.At(c.y1, c.x1);
    if r11.Failure? then Failure(r11.error) else
    var r12 := bitmap.At(c.y2, c.x1);
    if r12.Failure? then Failure(r12.error) else
    var r21 := bitmap.At(c.y1, c.x2);
    if r21.Failure? then Failure(r21.error) else
    var r22 := bitmap.At(c.y2, c.x2);
    if r22.Failure? then Failure(r22.error) else
    Success(Interpolate(filtering,
      Texel(r11.value, c.x1 as real, c.y1 as real), Texel(r12.value, c.x1 as real, c.y2 as real),
      Texel(r21.value, c.x2 as real, c.y1 as real), Texel(r22.value, c.x2 as real, c.y2 as real), c.x, c.y))
  }

  /** The texel at column col and row row of the bitmap. */
  function TexelAt(bitmap: PixelArray<RGB>, col: int, row: int): Texel
    requires bitmap.Valid() && 0 <= row < bitmap.height && 0 <= col < bitmap.width
    reads bitmap, bitmap.data
  {
    CellIndexInRange(bitmap.width, bitmap.height, row, col);
    Texel(bitmap.data[CellIndex(bitmap.width, row, col)], col as real, row as real)
  }

  /**
   * For width, height >= 2 and uv in [0, 1]^2 sampling succeeds and filters the
   * four buffer cells around (x, y).
   */
  lemma SampleBitmapInRange(bitmap: PixelArray<RGB>, uv: Vec2, filtering: InterpolationMethod)
    requires bitmap.Valid() && bitmap.width >= 2 && bitmap.height >= 2
    requires 0.0 <= uv.x <= 1.0 && 0.0 <= uv.y <= 1.0
    ensures var c := TexelCorners(bitmap.width, bitmap.height, uv);
            0 <= c.x1 && c.x2 < bitmap.width && 0 <= c.y1 && c.y2 < bitmap.height &&
            SampleBitmap(bitmap, uv, filtering) ==
              Success(Interpolate(filtering,
                TexelAt(bitmap, c.x1, c.y1), TexelAt(bitmap, c.x1, c.y2),
                TexelAt(bitmap, c.x2, c.y1), TexelAt(bitmap, c.x2, c.y2), c.x, c.y))
  {
    TexelCornersInRange(bitmap.width, bitmap.height, uv);
  }

  /**
   * A bitmap of height 1 fails on the first row read; one of width 1 (and
   * height >= 2, v in [0, 1]) fails on the first column read: the corner index
   * is -1 in both cases.
   */
  lemma SampleBitmapNarrowFails(bitmap: PixelArray<RGB>, uv: Vec2, filtering: InterpolationMethod)
    requires bitmap.Valid()
    ensures bitmap.height <= 1 ==> SampleBitmap(bitmap, uv, filtering) == Failure(RowOutOfRange(-1))
    ensures bitmap.width <= 1 && bitmap.height >= 2 && 0.0 <= uv.y <= 1.0 ==>
              SampleBitmap(bitmap, uv, filtering) == Failure(IndexOutOfRange(-1))
  {
    TexelCornersNarrow(bitmap.width, bitmap.height, uv);
    if bitmap.height >= 2 && 0.0 <= uv.y <= 1.0 {
      AxisInRange(bitmap.height, uv.y);
    }
  }

  // -------------------------------------------------------- sampleCubemap

  datatype Vec3 = Vec3(x: real, y: real, z: real)

  /** The largest absolute component, the divisor sampleCubemap uses. */
  function MaxAbs(r: Vec3): (m: real)
    ensures m >= Abs(r.x) && m >= Abs(r.y) && m >= Abs(r.z)
    ensures m == Abs(r.x) || m == Abs(r.y) || m == Abs(r.z)
  {
    var mxy := if Abs(r.x) < Abs(r.y) then Abs(r.y) else Abs(r.x);
    if mxy < Abs(r.z) then Abs(r.z) else mxy
  }

  /** The face if-chain on the components divided by the maximum. */
  function SelectFace(xx: real, yy: real, zz: real): CubeMapFace {
    if xx == 1.0 then PositiveX
    else if xx == -1.0 then NegativeX
    else if yy == 1.0 then PositiveY
    else if yy == -1.0 then NegativeY
    else if zz == 1.0 then PositiveZ
    else NegativeZ
  }

  /** xx, yy, zz: the direction divided by its largest absolute component. */
  function Normalized(r: Vec3): Vec3
    requires MaxAbs(r) > 0.0
  {
    var m := MaxAbs(r);
    Vec3(r.x / m, r.y / m, r.z / m)
  }

  function FaceOf(r: Vec3): CubeMapFace
    requires MaxAbs(r) > 0.0
  {
    var n := Normalized(r);
    SelectFace(n.x, n.y, n.z)
  }

  lemma UnitRatio(a: real, m: real)
    requires m > 0.0
    ensures a / m == 1.0 <==> a == m
    ensures a / m == -1.0 <==> a == -m
  {
    assert (a / m) * m == a;
  }

  /**
   * Face selection for a non-zero direction: a face is selected exactly when
   * its axis component equals the maximum absolute component with the face's
   * sign and no earlier axis does, so ties go to X before Y before Z.
   */
  lemma FaceSelection(r: Vec3)
    requires MaxAbs(r) > 0.0
    ensures var m := MaxAbs(r);
            var face := FaceOf(r);
            (face == PositiveX <==> r.x == m) &&
            (face == NegativeX <==> r.x == -m) &&
            (face == PositiveY <==> Abs(r.x) < m && r.y == m) &&
            (face == NegativeY <==> Abs(r.x) < m && r.y == -m) &&
            (face == PositiveZ <==> Abs(r.x) < m && Abs(r.y) < m && r.z == m) &&
            (face == NegativeZ <==> Abs(r.x) < m && Abs(r.y) < m && r.z == -m)
  {
    var m := MaxAbs(r);
    UnitRatio(r.x, m);
    UnitRatio(r.y, m);
    UnitRatio(r.z, m);
  }

  /** The component along the face's axis, and the sign the face gives it. */
  function AxisComponent(face: CubeMapFace, r: Vec3): real {
    match face
    case PositiveX => r.x
    case NegativeX => -r.x
    case PositiveY => r.y
    case NegativeY => -r.y
    case PositiveZ => r.z
    case NegativeZ => -r.z
  }

  /** The selected face's axis component is the maximum, with the face's sign. */
  lemma FaceAxisIsMaximum(r: Vec3)
    requires MaxAbs(r) > 0.0
    ensures AxisComponent(FaceOf(r), r) == MaxAbs(r)
  {
    FaceSelection(r);
  }

  /**
   * The projection step shared by the faces: with xx = a / m the dominant
   * component's ratio, the projection is xx * 0.5 on that axis and
   * (xx * 0.5) / a times the component on the other two.
   */
  function AxisProjection(xx: real, a: real, b: real, c: real): (real, real, real)
    requires a != 0.0
  {
    var p := xx * 0.5;
    (p, p / a * b, p / a * c)
  }

  /** The projection onto the cube of half-edge 0.5, by the face's axis. */
  function Projection(r: Vec3): Vec3
    requires MaxAbs(r) > 0.0
  {
    var n := Normalized(r);
    var face := FaceOf(r);
    FaceSelection(r);
    if face == PositiveX || face == NegativeX then
      var t := AxisProjection(n.x, r.x, r.y, r.z);
      Vec3(t.0, t.1, t.2)
    else if face == PositiveY || face == NegativeY then
      var t := AxisProjection(n.y, r.y, r.x, r.z);
      Vec3(t.1, t.0, t.2)
    else
      var t := AxisProjection(n.z, r.z, r.x, r.y);
      Vec3(t.1, t.2, t.0)
  }

  /** The uv mapping of each face, offset by 0.5. */
  function FaceUv(face: CubeMapFace, p: Vec3): Vec2 {
    match face
    case PositiveX => Vec2(-p.z + 0.5, p.y + 0.5)
    case NegativeX => Vec2(p.z + 0.5, p.y + 0.5)
    case PositiveY => Vec2(p.x + 0.5, -p.z + 0.5)
    case NegativeY => Vec2(p.x + 0.5, p.z + 0.5)
    case PositiveZ => Vec2(p.x + 0.5, p.y + 0.5)
    case NegativeZ => Vec2(-p.x + 0.5, p.y + 0.5)
  }

  function CubemapUv(r: Vec3): Vec2
    requires MaxAbs(r) > 0.0
  {
    FaceUv(FaceOf(r), Projection(r))
  }

  /**
   * One face's projection: with a = +-m dominant, the dominant component is 0.5
   * with a's sign, and components of magnitude at most m land in [-0.5, 0.5].
   */
  lemma AxisProjectionBounds(a: real, m: real, b: real, c: real)
    requires m > 0.0 && (a == m || a == -m) && -m <= b <= m && -m <= c <= m
    ensures var t := AxisProjection(a / m, a, b, c);
            (a == m ==> t.0 == 0.5) && (a == -m ==> t.0 == -0.5) &&
            -0.5 <= t.1 <= 0.5 && -0.5 <= t.2 <= 0.5
  {
    assert a / m * 0.5 / a == 0.5 / m;
    assert 0.5 / m * m == 0.5;
  }

  /**
   * The dominant component of the projection is 0.5 with the face's sign and
   * every component lies in [-0.5, 0.5].
   */
  lemma ProjectionBounds(r: Vec3)
    requires MaxAbs(r) > 0.0
    ensures var p := Projection(r);
            AxisComponent(FaceOf(r), p) == 0.5 &&
            -0.5 <= p.x <= 0.5 && -0.5 <= p.y <= 0.5 && -0.5 <= p.z <= 0.5
  {
    var m := MaxAbs(r);
    FaceSelection(r);
    var face := FaceOf(r);
    if face == PositiveX || face == NegativeX {
      AxisProjectionBounds(r.x, m, r.y, r.z);
    } else if face == PositiveY || face == NegativeY {
      AxisProjectionBounds(r.y, m, r.x, r.z);
    } else {
      AxisProjectionBounds(r.z, m, r.x, r.y);
    }
  }

  /** Every face maps the projection into [0, 1]^2. */
  lemma CubemapUvInUnitSquare(r: Vec3)
    requires MaxAbs(r) > 0.0
    ensures var uv := CubemapUv(r);
            0.0 <= uv.x <= 1.0 && 0.0 <= uv.y <= 1.0
  {
    ProjectionBounds(r);
  }

  /** The unit direction through the centre of each face. */
  function FaceCentre(face: CubeMapFace): Vec3 {
    match face
    case PositiveX => Vec3(1.0, 0.0, 0.0)
    case NegativeX => Vec3(-1.0, 0.0, 0.0)
    case PositiveY => Vec3(0.0, 1.0, 0.0)
    case NegativeY => Vec3(0.0, -1.0, 0.0)
    case PositiveZ => Vec3(0.0, 0.0, 1.0)
    case NegativeZ => Vec3(0.0, 0.0, -1.0)
  }

  /** Each face-centre direction selects its own face and maps to the centre (0.5, 0.5) of its texture. */
  lemma FaceCentres(face: CubeMapFace)
    ensures MaxAbs(FaceCentre(face)) == 1.0
    ensures FaceOf(FaceCentre(face)) == face
    ensures CubemapUv(FaceCentre(face)) == Vec2(0.5, 0.5)
  {
    var d := FaceCentre(face);
    assert MaxAbs(d) == 1.0;
    FaceSelection(d);
    assert Normalized(d) == d;
    match face
    case PositiveX =>
      assert Projection(d) == Vec3(0.5, 0.0, 0.0);
    case NegativeX =>
      assert Projection(d) == Vec3(-0.5, 0.0, 0.0);
    case PositiveY =>
      assert Projection(d) == Vec3(0.0, 0.5, 0.0);
    case NegativeY =>
      assert Projection(d) == Vec3(0.0, -0.5, 0.0);
    case PositiveZ =>
      assert Projection(d) == Vec3(0.0, 0.0, 0.5);
    case NegativeZ =>
      assert Projection(d) == Vec3(0.0, 0.0, -0.5);
  }

  /**
   * sampleCubemap: selects the face, projects, maps to uv and samples that
   * face's bitmap through cubemap[face]; with all six faces present the lookup
   * leaves the face map as it was.
   */
  method SampleCubemap(cubemap: CubeMap<RGB>, dir: Vec3, filtering: InterpolationMethod) returns (r: Result<RGB, RangeError>)
    requires MaxAbs(dir) > 0.0
    requires cubemap.Valid()
    requires forall f: CubeMapFace :: cubemap.faces[f] != null && cubemap.faces[f].Valid()
    modifies cubemap
    ensures cubemap.faces == old(cubemap.faces)
    ensures r == SampleBitmap(cubemap.faces[FaceOf(dir)], CubemapUv(dir), filtering)
  {
    var face := FaceOf(dir);
    var uv := CubemapUv(dir);
    var bitmap := cubemap.Get(face);
    r := SampleBitmap(bitmap, uv, filtering);
  }
}
