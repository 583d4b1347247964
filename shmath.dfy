/**
 * Math kernels of src/shmath.h: factorial, the associated Legendre
 * recurrence, the SH normalisation constant, the real SH basis function y
 * with its NaN guard, and the Hammersley low-discrepancy sequence.
 *
 * Exact reals stand for the source's float/double. sin, cos, acos and sqrt
 * are not modelled: they are the fields of a MathLib value the caller passes
 * in. IEEE NaN is modelled by the Float datatype; in this model the only way
 * to produce it is a square root of a negative number.
 */
module ShMath {
  import opened Ints

  const PI: real := 3.14159265358979
  const SQRT2: real := 1.41421356237309
  const PI4: real := 4.0 * PI
  const PI2: real := 2.0 * PI

  /** The transcendental functions of <cmath> the kernels call; left abstract. */
  datatype MathLib = MathLib(sin: real -> real, cos: real -> real, acos: real -> real, sqrt: real -> real)

  /** A square root that really is one on the non-negative reals. */
  ghost predicate LawfulSqrt(lib: MathLib) {
    forall v: real :: v >= 0.0 ==> lib.sqrt(v) >= 0.0 && lib.sqrt(v) * lib.sqrt(v) == v
  }

  /** A floating-point value: a finite number or NaN. */
  datatype Float = Finite(value: real) | NaN

  /** IEEE multiplication: NaN is absorbing. */
  function FMul(a: Float, b: Float): Float {
    if a.NaN? || b.NaN? then NaN else Finite(a.value * b.value)
  }

  /** std::sqrt: NaN for a negative argument. */
  function SqrtF(lib: MathLib, v: real): Float {
    if v < 0.0 then NaN else Finite(lib.sqrt(v))
  }

  datatype Vec2 = Vec2(x: real, y: real)

  // ------------------------------------------------------------ factorial

  /** The mathematical factorial on naturals; the reference for Fact. */
  function Factorial(n: nat): (r: nat)
    ensures r >= 1
  {
    if n == 0 then 1 else n * Factorial(n - 1)
  }

  /** fact(real a): 1 for a <= 1, otherwise a * fact(a - 1); always at least 1. */
  function Fact(a: real): (r: real)
    ensures r >= 1.0
    ensures a <= 1.0 ==> r == 1.0
    decreases a.Floor
  {
    if a <= 1.0 then 1.0
    else
      var rest := Fact(a - 1.0);
      assert a * rest >= 1.0 * rest;
      a * rest
  }

  /** On a natural argument fact computes n!. */
  lemma {:induction false} FactIsFactorial(n: nat)
    ensures Fact(n as real) == Factorial(n) as real
  {
    if n > 1 {
      FactIsFactorial(n - 1);
      assert (n - 1) as real == n as real - 1.0;
    }
  }

  // ------------------------------------------------ associated Legendre P

  /** The value pmm holds after i rounds of the first loop of P. */
  function Pmm(i: nat, somx2: real): real {
    if i == 0 then 1.0 else Pmm(i - 1, somx2) * (-(2.0 * (i as real) - 1.0) * somx2)
  }

  /** pmm on entry to the second phase of P: 1 unless m > 0. */
  function PmmStart(m: int, somx2: real): real {
    if m > 0 then Pmm(m, somx2) else 1.0
  }

  /** One step of the three-term recurrence, from P(l-1, m) and P(l-2, m) to P(l, m). */
  function RecurrenceStep(l: int, m: int, x: real, p1: real, p2: real): real
    requires l > m
  {
    (((2 * l - 1) as real) * x * p1 - ((l + m - 1) as real) * p2) / ((l - m) as real)
  }

  /**
   * The value P(l, m, x) returns, for a given somx2 = sqrt((1-x)(1+x)):
   * defined band by band exactly as the source steps through it.
   */
  function Legendre(l: int, m: int, x: real, somx2: real): real
    decreases l - m
  {
    if l == m then PmmStart(m, somx2)
    else if l == m + 1 then x * ((2 * m + 1) as real) * PmmStart(m, somx2)
    else if l < m then 0.0
    else RecurrenceStep(l, m, x, Legendre(l - 1, m, x, somx2), Legendre(l - 2, m, x, somx2))
  }

  /** The three-term recurrence, for l >= m + 2. */
  lemma LegendreRecurrence(l: int, m: int, x: real, somx2: real)
    requires l >= m + 2
    ensures Legendre(l, m, x, somx2)
         == RecurrenceStep(l, m, x, Legendre(l - 1, m, x, somx2), Legendre(l - 2, m, x, somx2))
  {
  }

  lemma StepIsFormula(l: int, m: int, x: real, p1: real, p2: real)
    requires l > m
    ensures (((2 * l - 1) as real) * x * p1 - ((l + m - 1) as real) * p2) / ((l - m) as real)
         == RecurrenceStep(l, m, x, p1, p2)
  {
  }

  /** One round of P's second loop computes the next band. */
  lemma LegendreAdvance(ll: int, m: int, x: real, somx2: real, pmm: real, pmmp1: real)
    requires ll >= m + 2
    requires pmm == Legendre(ll - 2, m, x, somx2) && pmmp1 == Legendre(ll - 1, m, x, somx2)
    ensures (((2 * ll - 1) as real) * x * pmmp1 - ((ll + m - 1) as real) * pmm) / ((ll - m) as real)
         == Legendre(ll, m, x, somx2)
  {
    StepIsFormula(ll, m, x, pmmp1, pmm);
    LegendreRecurrence(ll, m, x, somx2);
  }

  /** The first loop of P: pmm = (-1)^m (2m-1)!! somx2^m, built one factor at a time. */
  method StartingValue(m: int, somx2: real) returns (pmm: real)
    ensures pmm == PmmStart(m, somx2)
  {
    pmm := 1.0;
    if m > 0 {
      var fact := 1.0;
      var i := 1;
      while i <= m
        invariant 1 <= i <= m + 1
        invariant pmm == Pmm(i - 1, somx2)
        invariant fact == 2.0 * (i as real) - 1.0
      {
        assert Pmm(i, somx2) == Pmm(i - 1, somx2) * ((-fact) * somx2);
        pmm := pmm * ((-fact) * somx2);
        fact := fact + 2.0;
        i := i + 1;
      }
    }
  }

  /** The second loop of P: from P(m, m) and P(m + 1, m), the bands m + 2 .. l in turn. */
  method Recurrence(l: int, m: int, x: real, somx2: real, pmm0: real, pmmp10: real) returns (pll: real)
    requires l >= m + 2
    requires pmm0 == Legendre(m, m, x, somx2) && pmmp10 == Legendre(m + 1, m, x, somx2)
    ensures pll == Legendre(l, m, x, somx2)
  {
    var pmm, pmmp1 := pmm0, pmmp10;
    pll := 0.0;
    var ll := m + 2;
    while ll <= l
      invariant m + 2 <= ll <= l + 1
      invariant pmm == Legendre(ll - 2, m, x, somx2)
      invariant pmmp1 == Legendre(ll - 1, m, x, somx2)
      invariant ll > m + 2 ==> pll == pmmp1
    {
      LegendreAdvance(ll, m, x, somx2, pmm, pmmp1);
      pll := (((2 * ll - 1) as real) * x * pmmp1 - ((ll + m - 1) as real) * pmm) / ((ll - m) as real);
      pmm := pmmp1;
      pmmp1 := pll;
      ll := ll + 1;
    }
  }

  /** P(l, m, x) of the source, with the square root passed in as somx2. */
  method LegendreP(l: int, m: int, x: real, somx2: real) returns (p: real)
    ensures p == Legendre(l, m, x, somx2)
  {
    var pmm := StartingValue(m, somx2);
    if l == m {
      return pmm;
    }
    var pmmp1 := x * ((2 * m + 1) as real) * pmm;
    if l == m + 1 {
      return pmmp1;
    }
    if l < m {
      // The second loop does not run: pll keeps its initial value.
      return 0.0;
    }
    p := Recurrence(l, m, x, somx2, pmm, pmmp1);
  }

  function Pow(s: real, n: nat): real {
    if n == 0 then 1.0 else s * Pow(s, n - 1)
  }

  function MinusOnePow(n: nat): real {
    if n == 0 then 1.0 else -MinusOnePow(n - 1)
  }

  /** (2m-1)!! = 1 * 3 * ... * (2m-1), with (-1)!! = 1. */
  function OddDoubleFactorial(m: nat): real {
    if m == 0 then 1.0 else (2.0 * (m as real) - 1.0) * OddDoubleFactorial(m - 1)
  }

  /** From q = q0 (-c s) and q0 = a d p: q = (-a)(c d)(s p), with the three factors named. */
  lemma Rearrange(q: real, q0: real, a: real, d: real, p: real, c: real, s: real, a': real, d': real, p': real)
    requires q == q0 * (-c * s) && q0 == a * d * p
    requires a' == -a && d' == c * d && p' == s * p
    ensures q == a' * d' * p'
  {
  }

  /** The closed form of the starting value: P(m, m, x) = (-1)^m (2m-1)!! somx2^m. */
  lemma {:induction false} PmmClosedForm(m: nat, somx2: real)
    ensures Pmm(m, somx2) == MinusOnePow(m) * OddDoubleFactorial(m) * Pow(somx2, m)
  {
    if m > 0 {
      PmmClosedForm(m - 1, somx2);
      Rearrange(Pmm(m, somx2), Pmm(m - 1, somx2), MinusOnePow(m - 1), OddDoubleFactorial(m - 1), Pow(somx2, m - 1),
                2.0 * (m as real) - 1.0, somx2,
                MinusOnePow(m), OddDoubleFactorial(m), Pow(somx2, m));
    }
  }

  lemma LegendreBase(x: real, somx2: real)
    ensures Legendre(0, 0, x, somx2) == 1.0
    ensures Legendre(1, 0, x, somx2) == x
  {
  }

  /** The second starting value: P(m+1, m, x) = x (2m+1) P(m, m, x). */
  lemma LegendreSecond(m: int, x: real, somx2: real)
    ensures Legendre(m + 1, m, x, somx2) == x * ((2 * m + 1) as real) * Legendre(m, m, x, somx2)
  {
  }

  /** Legendre polynomials are 1 at x = 1 in every band. */
  lemma {:induction false} LegendreAtOne(l: nat, somx2: real)
    ensures Legendre(l, 0, 1.0, somx2) == 1.0
  {
    if l >= 2 {
      LegendreAtOne(l - 1, somx2);
      LegendreAtOne(l - 2, somx2);
      assert ((2 * l - 1) as real) * 1.0 * 1.0 - ((l - 1) as real) * 1.0 == l as real;
    }
  }

  /** The radicand of somx2 in P: (1 - x)(1 + x). */
  function SomxSquared(x: real): real {
    (1.0 - x) * (1.0 + x)
  }

  /** P(l, m, x) with somx2 taken as the library's square root of its radicand. */
  function LegendreReal(l: int, m: int, x: real, lib: MathLib): real {
    Legendre(l, m, x, lib.sqrt(SomxSquared(x)))
  }

  /**
   * What P returns once its own square root is taken into account: NaN as
   * soon as somx2 is NaN and the result depends on it.
   */
  function LegendreF(l: int, m: int, x: real, lib: MathLib): (r: Float)
    ensures m > 0 && -1.0 <= x <= 1.0 ==> r == Finite(LegendreReal(l, m, x, lib))
    ensures 0 < m <= l && (x > 1.0 || x < -1.0) ==> r.NaN?
  {
    SomxSign(x);
    if m > 0 then
      match SqrtF(lib, SomxSquared(x))
      case NaN => if l < m then Finite(0.0) else NaN
      case Finite(_) => Finite(LegendreReal(l, m, x, lib))
    else Finite(Legendre(l, m, x, 0.0))
  }

  // ----------------------------------------------- normalisation constant

  /** (2l+1) fact(l-m) / (4 PI fact(l+m)), given n = 2l+1 and the two factorials. */
  function KRatio(n: real, lo: real, hi: real): (r: real)
    requires hi >= 1.0
    ensures n > 0.0 && lo > 0.0 ==> r > 0.0
  {
    (n * lo) / (PI4 * hi)
  }

  /** The ratio times its denominator is its numerator. */
  lemma KRatioTimesDenominator(n: real, lo: real, hi: real)
    requires hi >= 1.0
    ensures KRatio(n, lo, hi) * (PI4 * hi) == n * lo
  {
  }

  /** The square of K(l, m): (2l+1) fact(l-m) / (4 PI fact(l+m)); positive for l >= 0. */
  function K2(l: int, m: int): (r: real)
    ensures l >= 0 ==> r > 0.0
  {
    KRatio((2 * l + 1) as real, Fact((l - m) as real), Fact((l + m) as real))
  }

  /** On integer arguments fact is the factorial, so K2 is the textbook (2l+1)(l-m)! / (4 PI (l+m)!). */
  lemma K2Factorials(l: nat, m: nat)
    requires m <= l
    ensures K2(l, m) == KRatio((2 * l + 1) as real, Factorial(l - m) as real, Factorial(l + m) as real)
  {
    FactIsFactorial(l - m);
    FactIsFactorial(l + m);
  }

  /** K(l, m) = sqrt(K2(l, m)); for l >= 0 its radicand is positive, so K is never NaN. */
  function K(l: int, m: int, lib: MathLib): (r: Float)
    ensures l >= 0 ==> r == Finite(lib.sqrt(K2(l, m)))
  {
    SqrtF(lib, K2(l, m))
  }

  // -------------------------------------------------------- basis function

  /** The argument m phi of the trigonometric factor of y. */
  function Angle(m: int, phi: real): real {
    (m as real) * phi
  }

  /** The value y computes before its NaN guard ("result" in the source). */
  function YRaw(l: int, m: int, phi: real, tetta: real, lib: MathLib): Float {
    var x := lib.cos(tetta);
    if m == 0 then
      FMul(K(l, 0, lib), LegendreF(l, m, x, lib))
    else if m > 0 then
      FMul(FMul(FMul(Finite(SQRT2), K(l, m, lib)), Finite(lib.cos(Angle(m, phi)))), LegendreF(l, m, x, lib))
    else
      FMul(FMul(FMul(Finite(SQRT2), K(l, -m, lib)), Finite(lib.sin(Angle(-m, phi)))), LegendreF(l, -m, x, lib))
  }

  /**
   * y(l, m, phi, tetta): the real SH basis value, with NaN replaced by 0.
   * For l >= 0 it is K(l, 0) P(l, 0, cos tetta) when m = 0, and, when cos tetta
   * lies in [-1, 1], SQRT2 K(l, |m|) P(l, |m|, cos tetta) times cos(m phi) for
   * m > 0 or sin(-m phi) for m < 0. For m != 0 inside the band and cos tetta
   * outside [-1, 1], the square root in P is NaN and y is 0.
   */
  function Y(l: int, m: int, phi: real, tetta: real, lib: MathLib): (r: real)
    ensures l >= 0 && m == 0 ==> r == lib.sqrt(K2(l, 0)) * Legendre(l, 0, lib.cos(tetta), 0.0)
    ensures l >= 0 && m > 0 && -1.0 <= lib.cos(tetta) <= 1.0 ==>
      r == SQRT2 * lib.sqrt(K2(l, m)) * lib.cos(Angle(m, phi)) * LegendreReal(l, m, lib.cos(tetta), lib)
    ensures l >= 0 && m < 0 && -1.0 <= lib.cos(tetta) <= 1.0 ==>
      r == SQRT2 * lib.sqrt(K2(l, -m)) * lib.sin(Angle(-m, phi)) * LegendreReal(l, -m, lib.cos(tetta), lib)
    ensures m != 0 && -l <= m <= l && (lib.cos(tetta) > 1.0 || lib.cos(tetta) < -1.0) ==> r == 0.0
  {
    YRawZonal(l, phi, tetta, lib);
    YRawPositive(l, m, phi, tetta, lib);
    YRawNegative(l, m, phi, tetta, lib);
    YRawGuarded(l, m, phi, tetta, lib);
    var result := YRaw(l, m, phi, tetta, lib);
    if result.NaN? then 0.0 else result.value
  }

  /** m = 0: the raw value is K(l, 0) P(l, 0, cos tetta); no square root of (1-x)(1+x) is taken. */
  lemma {:induction false} YRawZonal(l: int, phi: real, tetta: real, lib: MathLib)
    ensures l >= 0 ==>
      YRaw(l, 0, phi, tetta, lib) == Finite(lib.sqrt(K2(l, 0)) * Legendre(l, 0, lib.cos(tetta), 0.0))
  {
  }

  lemma MulNonNegative(a: real, b: real)
    requires a >= 0.0 && b >= 0.0
    ensures a * b >= 0.0
  {
  }

  /** The radicand of somx2 is non-negative on [-1, 1] and negative outside. */
  lemma SomxSign(x: real)
    ensures -1.0 <= x <= 1.0 ==> SomxSquared(x) >= 0.0
    ensures x > 1.0 || x < -1.0 ==> SomxSquared(x) < 0.0
  {
    if -1.0 <= x <= 1.0 {
      MulNonNegative(1.0 - x, 1.0 + x);
    } else if x > 1.0 {
      assert (1.0 - x) * (1.0 + x) < 0.0;
    } else {
      assert (1.0 - x) * (1.0 + x) < 0.0;
    }
  }

  /** m > 0 with cos tetta in [-1, 1]: the raw value is SQRT2 K(l, m) cos(m phi) P(l, m, cos tetta). */
  lemma {:induction false} YRawPositive(l: int, m: int, phi: real, tetta: real, lib: MathLib)
    ensures l >= 0 && m > 0 && -1.0 <= lib.cos(tetta) <= 1.0 ==>
      YRaw(l, m, phi, tetta, lib)
        == Finite(SQRT2 * lib.sqrt(K2(l, m)) * lib.cos(Angle(m, phi)) * LegendreReal(l, m, lib.cos(tetta), lib))
  {
  }

  /** m < 0 with cos tetta in [-1, 1]: the raw value uses K(l, -m), sin(-m phi) and P(l, -m, cos tetta). */
  lemma {:induction false} YRawNegative(l: int, m: int, phi: real, tetta: real, lib: MathLib)
    ensures l >= 0 && m < 0 && -1.0 <= lib.cos(tetta) <= 1.0 ==>
      YRaw(l, m, phi, tetta, lib)
        == Finite(SQRT2 * lib.sqrt(K2(l, -m)) * lib.sin(Angle(-m, phi)) * LegendreReal(l, -m, lib.cos(tetta), lib))
  {
  }

  /** The guard: for m != 0 in the band and cos tetta outside [-1, 1], the square root in P is NaN and so is the raw value. */
  lemma {:induction false} YRawGuarded(l: int, m: int, phi: real, tetta: real, lib: MathLib)
    ensures m != 0 && -l <= m <= l && (lib.cos(tetta) > 1.0 || lib.cos(tetta) < -1.0) ==> YRaw(l, m, phi, tetta, lib).NaN?
  {
  }

  /** The DC basis function is the same in every direction and squares to 1 / (4 PI). */
  lemma {:induction false} YDcConstant(phi1: real, tetta1: real, phi2: real, tetta2: real, lib: MathLib)
    requires LawfulSqrt(lib)
    ensures Y(0, 0, phi1, tetta1, lib) == Y(0, 0, phi2, tetta2, lib)
    ensures Y(0, 0, phi1, tetta1, lib) * Y(0, 0, phi1, tetta1, lib) == 1.0 / PI4
  {
    assert K2(0, 0) == 1.0 / PI4;
    assert lib.sqrt(K2(0, 0)) * lib.sqrt(K2(0, 0)) == K2(0, 0);
  }

  // --------------------------------------------------- Hammersley sequence

  function Bit(b: bv32, i: bv32): bool
    requires i < 32
  {
    (b >> i) & 1 == 1
  }

  /** The five swap steps of radicalInverse_VdC: they reverse the 32 bits. */
  function BitReverse(bits: bv32): (r: bv32)
    ensures forall i: bv32 :: i < 32 ==> Bit(r, i) == Bit(bits, 31 - i)
  {
    var b1 := (bits << 16) | (bits >> 16);
    var b2 := ((b1 & 0x5555_5555) << 1) | ((b1 & 0xAAAA_AAAA) >> 1);
    var b3 := ((b2 & 0x3333_3333) << 2) | ((b2 & 0xCCCC_CCCC) >> 2);
    var b4 := ((b3 & 0x0F0F_0F0F) << 4) | ((b3 & 0xF0F0_F0F0) >> 4);
    ((b4 & 0x00FF_00FF) << 8) | ((b4 & 0xFF00_FF00) >> 8)
  }

  lemma BitReverseInvolutive(bits: bv32)
    ensures BitReverse(BitReverse(bits)) == bits
  {
  }

  /** radicalInverse_VdC: the reversed bits read as a binary fraction, in [0, 1). */
  function RadicalInverseVdC(bits: bv32): (r: real)
    ensures 0.0 <= r < 1.0
  {
    (BitReverse(bits) as int) as real / 4294967296.0
  }

  lemma RadicalInverseFirstValues()
    ensures RadicalInverseVdC(0) == 0.0
    ensures RadicalInverseVdC(1) == 0.5
  {
    assert BitReverse(0) == 0;
    assert BitReverse(1) == 0x8000_0000;
  }

  /** hammersley2d(i, N) = (i / N, radicalInverse(i)); both coordinates in [0, 1) for i < N. */
  function Hammersley2d(i: uint16, n: uint16): (e: Vec2)
    requires n > 0
    ensures i < n ==> 0.0 <= e.x < 1.0
    ensures 0.0 <= e.y < 1.0
  {
    if i < n then
      DivBelowOne(i as real, n as real);
      Vec2((i as real) / (n as real), RadicalInverseVdC(i as bv32))
    else
      Vec2((i as real) / (n as real), RadicalInverseVdC(i as bv32))
  }

  lemma DivBelowOne(a: real, b: real)
    requires 0.0 <= a < b
    ensures 0.0 <= a / b < 1.0
  {
  }

  /** sampleSphere(ex, ey) = (2 PI ey, 2 acos(sqrt(1 - ex))); the azimuth lies in [0, 2 PI) for ey in [0, 1). */
  function SampleSphere(ex: real, ey: real, lib: MathLib): (angles: Vec2)
    ensures 0.0 <= ey < 1.0 ==> 0.0 <= angles.x < PI2
  {
    Vec2(PI2 * ey, 2.0 * lib.acos(lib.sqrt(1.0 - ex)))
  }
}
