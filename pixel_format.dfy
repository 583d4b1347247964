/**
 * Pixel values (src/pixel_format.h): three- and four-channel tuples of real
 * channels with componentwise arithmetic. IEEE rounding is not modelled: the
 * channels are exact reals.
 */
module PixelFormat {

  /** RGBStruct<real>. */
  datatype RGB = RGB(r: real, g: real, b: real)

  /** RGBAStruct<real>. */
  datatype RGBA = RGBA(r: real, g: real, b: real, a: real)

  // ---------------------------------------------------------------- RGB

  /** The scalar constructor RGBStruct(T v): every channel is v. */
  function Broadcast(v: real): (p: RGB)
    ensures forall q: RGB :: Mul(p, q) == Scale(q, v)
  {
    RGB(v, v, v)
  }

  const Zero: RGB := RGB(0.0, 0.0, 0.0)

  function Add(p: RGB, q: RGB): RGB {
    RGB(p.r + q.r, p.g + q.g, p.b + q.b)
  }

  /** Subtraction undoes addition. */
  function Sub(p: RGB, q: RGB): (d: RGB)
    ensures Add(d, q) == p
  {
    RGB(p.r - q.r, p.g - q.g, p.b - q.b)
  }

  function Mul(p: RGB, q: RGB): RGB {
    RGB(p.r * q.r, p.g * q.g, p.b * q.b)
  }

  /** Componentwise division undoes componentwise multiplication. */
  function Div(p: RGB, q: RGB): (d: RGB)
    requires q.r != 0.0 && q.g != 0.0 && q.b != 0.0
    ensures Mul(d, q) == p
  {
    RGB(p.r / q.r, p.g / q.g, p.b / q.b)
  }

  /** operator*(T m): scales every channel by m. */
  function Scale(p: RGB, m: real): RGB {
    RGB(p.r * m, p.g * m, p.b * m)
  }

  /** operator/(T m): division by a scalar undoes scaling by it. */
  function DivScalar(p: RGB, m: real): (d: RGB)
    requires m != 0.0
    ensures Scale(d, m) == p
  {
    RGB(p.r / m, p.g / m, p.b / m)
  }

  /**
   * operator+=: the receiver's channels are updated one at a time and a copy
   * of the updated receiver is returned.
   */
  method AddAssign(self: RGB, v: RGB) returns (updated: RGB, returned: RGB)
    ensures updated == Add(self, v)
    ensures returned == updated
  {
    updated := self;
    updated := updated.(r := updated.r + v.r);
    updated := updated.(g := updated.g + v.g);
    updated := updated.(b := updated.b + v.b);
    returned := updated;
  }

  lemma AddCommutes(p: RGB, q: RGB)
    ensures Add(p, q) == Add(q, p)
  {
  }

  lemma AddAssociates(p: RGB, q: RGB, s: RGB)
    ensures Add(Add(p, q), s) == Add(p, Add(q, s))
  {
  }

  lemma AddZero(p: RGB)
    ensures Add(p, Zero) == p && Add(Zero, p) == p
  {
  }

  /** The property the symmetry of the coefficient dot product rests on. */
  lemma MulCommutes(p: RGB, q: RGB)
    ensures Mul(p, q) == Mul(q, p)
  {
  }

  lemma ScaleDistributes(p: RGB, q: RGB, m: real)
    ensures Scale(Add(p, q), m) == Add(Scale(p, m), Scale(q, m))
  {
  }

  /** Scaling by m is multiplication by the broadcast pixel of m. */
  lemma ScaleIsMulBroadcast(p: RGB, m: real)
    ensures Scale(p, m) == Mul(p, Broadcast(m))
  {
  }

  /** (a + b) + (c + d) = (a + c) + (b + d). */
  lemma AddInterchange(a: RGB, b: RGB, c: RGB, d: RGB)
    ensures Add(Add(a, b), Add(c, d)) == Add(Add(a, c), Add(b, d))
  {
  }

  lemma ScaleZero(m: real)
    ensures Scale(Zero, m) == Zero
  {
  }

  lemma ScaleScale(p: RGB, m: real, n: real)
    ensures Scale(Scale(p, m), n) == Scale(p, m * n)
  {
  }

  // --------------------------------------------------------------- RGBA

  /** The scalar constructor RGBAStruct(T v): every channel is v. */
  function BroadcastA(v: real): (p: RGBA)
    ensures forall q: RGBA :: MulA(p, q) == ScaleA(q, v)
  {
    RGBA(v, v, v, v)
  }

  const ZeroA: RGBA := RGBA(0.0, 0.0, 0.0, 0.0)

  function AddA(p: RGBA, q: RGBA): RGBA {
    RGBA(p.r + q.r, p.g + q.g, p.b + q.b, p.a + q.a)
  }

  function SubA(p: RGBA, q: RGBA): (d: RGBA)
    ensures AddA(d, q) == p
  {
    RGBA(p.r - q.r, p.g - q.g, p.b - q.b, p.a - q.a)
  }

  function MulA(p: RGBA, q: RGBA): RGBA {
    RGBA(p.r * q.r, p.g * q.g, p.b * q.b, p.a * q.a)
  }

  function DivA(p: RGBA, q: RGBA): (d: RGBA)
    requires q.r != 0.0 && q.g != 0.0 && q.b != 0.0 && q.a != 0.0
    ensures MulA(d, q) == p
  {
    RGBA(p.r / q.r, p.g / q.g, p.b / q.b, p.a / q.a)
  }

  function ScaleA(p: RGBA, m: real): (s: RGBA)
    ensures s == MulA(p, RGBA(m, m, m, m))
  {
    RGBA(p.r * m, p.g * m, p.b * m, p.a * m)
  }

  function DivScalarA(p: RGBA, m: real): (d: RGBA)
    requires m != 0.0
    ensures ScaleA(d, m) == p
  {
    RGBA(p.r / m, p.g / m, p.b / m, p.a / m)
  }

  method AddAssignA(self: RGBA, v: RGBA) returns (updated: RGBA, returned: RGBA)
    ensures updated == AddA(self, v)
    ensures returned == updated
  {
    updated := self;
    updated := updated.(r := updated.r + v.r);
    updated := updated.(g := updated.g + v.g);
    updated := updated.(b := updated.b + v.b);
    updated := updated.(a := updated.a + v.a);
    returned := updated;
  }

  lemma MulACommutes(p: RGBA, q: RGBA)
    ensures MulA(p, q) == MulA(q, p)
  {
  }

  lemma AddACommutes(p: RGBA, q: RGBA)
    ensures AddA(p, q) == AddA(q, p)
  {
  }
}
