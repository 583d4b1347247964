# Spherical-harmonic encoder: a Dafny model of its core

The repository projects functions on the sphere onto real spherical harmonics. It
covers environment maps given as cube maps, and coefficient files with three or
four colour channels. It ships two tools, `encode` and `decode`. This project
models the header library under `src/`:

- **`PixelFormat`** (`pixel_format.dfy`): the RGB and RGBA pixel values and
  their channel-wise arithmetic.
- **`PixelArrays`** (`pixel_array.dfy`): the row-major pixel buffer
  `PixelArray`, and the row view `PixelArrayRow` through which a cell is read
  or written in place.
- **`CubeMaps`** (`cube_map.dfy`): the six-face container `CubeMap`. Its face
  map is a field keyed by `CubeMapFace`.
- **`ShMath`** (`shmath.dfy`): the math kernels:
  - `fact`, and the associated Legendre recurrence `P`;
  - the normalisation constant `K`, through its square;
  - the real basis function `y`, with its sign dispatch and NaN guard;
  - the 32-bit bit reversal of `radicalInverse_VdC`;
  - `hammersley2d` and `sampleSphere`.
- **`Sampling`** (`sampling.dfy`): bilinear and "nearest" filtering, bitmap
  sampling with clamped texel corners, and cube-map sampling. Cube-map
  sampling has three steps: face selection, projection onto the face, and the
  per-face uv mapping.
- **`SphericalHarmonic`** (`spherical_harmonic.dfy`): the coefficient engine:
  - the `l (l + 1) + m` layout of a coefficient vector, and `order`;
  - `encode` with both integrators (Monte Carlo over Hammersley points, and
    the regular spherical grid);
  - `decode` as a weighted sum of basis values;
  - `product` as a dot product.
- **`CoefficientIO`** (`coefficient_io.dfy`), from `src/utils.h`:
  - the assembly of a coefficient vector from per-channel value lists
    (`readRgb`, `readRgba`);
  - the JSON-like text layout the two coefficient `operator<<` write.
- **`CliInputs`** (`cli_input.dfy`): the `CliInput` class with
  `addArgument`, `brief`, `summary`, and the resolution loop of `parse`.
- `Ints` and `Wrappers`: `uint16` and a `Result` type.

Modelling conventions:

- Exact `real` stands for the source's `float`/`double`.
- `sin`, `cos`, `acos` and `sqrt` are the fields of a `MathLib` value the
  caller supplies. They are abstract functions: nothing is assumed about them
  except where a lemma says so, for example `LawfulSqrt` (the square root of
  a non-negative number is its non-negative root).
- NaN is modelled by the `Float` datatype. In this model the only source of
  NaN is a square root of a negative number.
- A thrown `std::runtime_error` or `std::string` becomes the `Failure` case of
  a `Result`.
- The encode and decode loops take the basis function as a parameter `y`.
  `ShBasis(lib)` is the source's `math::y`.
- The polar function to be encoded is a parameter of type
  `(real, real) -> RGB`.

Deviations from the source, and choices where the source is undefined:

- `decode` reads `coefficients[index]`. The source writes `F c = c[index];`
  (`src/spherical_harmonic.h:59`), where `c` names the new local of type `F`.
  For `F` = `RGB` or `RGBA` the expression `c[index]` is ill-formed, since those
  structs have no `operator[]`, so `decode` does not compile as written. The
  model follows the evident intent.
- `estimateSpherical` is modelled as written, with `dTetta = 2π/divisions`
  and `divisions / 2` steps in tetta. The grid therefore covers tetta in
  `[0, π)` (`SphericalGridInDomain`).
- `estimateMonteCarlo` requires `samples > 0`. With 0 samples the source
  multiplies an empty sum by `4π/0`.
- `encode` requires `samples > 0` when it uses Monte Carlo.
- `order` requires `1 <= |c| < 65537²`. For an empty vector the source casts
  `sqrt(0) - 1` to `uint16_t`, which is undefined. Below that bound the result
  fits in `uint16_t`.
- `encode` requires `order <= 46339`, so that `l (l + 1) + m` fits in the
  source's `int` index.
- `encode` is written as one `l`/`m` loop nest. The Monte Carlo or grid
  dispatch sits inside the nest; the source has one nest per branch. The
  grid's divisions are computed once, as in the source.
- `linear` requires a non-degenerate rectangle (`x2 != x1`, `y2 != y1`),
  since the source divides by both side lengths.
- `product` requires `|a| <= |b|`, since the source reads `b[i]` for every
  `i < |a|`.
- `readRgb`/`readRgba` see the `std::map` that `_read` returns as a sequence
  of `(name, values)` entries. The entries are in key order with distinct
  names (`KeyOrdered`); `StringLess` is the byte-wise order `std::string`
  uses. `readRgb` requires that no list is longer than the first one
  (`FitsFirst`). A longer list would write past the end of the resized
  vector.
- The coefficient writer takes the number formatter `stream << float` as a
  parameter `number: real -> string`. `order(h)` is printed in decimal. The
  writer requires `|h| >= 1`, because it calls `order(h)`.
- `CliInput::summary` requires at least one argument, because it
  dereferences `max_element` of the argument list. `brief` requires
  `perLine != 0`, because it computes `c % perLine`.
- In `brief`, the `setw(padding)` that follows a line break pads the next
  piece written, right-aligned. A pending width after the last item is never
  consumed, because `endl` writes unformatted.

## Model

| member | source | states |
|---|---|---|
| PixelFormat.Broadcast | src/pixel_format.h:21 | the scalar constructor: multiplying any pixel by the broadcast pixel is scaling it by v |
| PixelFormat.Sub | src/pixel_format.h:39-41 | pixel difference is the inverse of addition: (p - q) + q == p |
| PixelFormat.Div | src/pixel_format.h:51-53 | for non-zero channels, division is the inverse of channel-wise multiplication |
| PixelFormat.DivScalar | src/pixel_format.h:55-57 | for m != 0, dividing by m is the inverse of scaling by m |
| PixelFormat.AddAssign | src/pixel_format.h:32-37 | += sets the receiver to receiver + v and returns that value |
| PixelFormat.AddCommutes | src/pixel_format.h:28-30 | pixel addition is commutative |
| PixelFormat.AddAssociates | src/pixel_format.h:28-30 | pixel addition is associative |
| PixelFormat.AddZero | src/pixel_format.h:28-30 | the zero pixel is the neutral element of addition |
| PixelFormat.MulCommutes | src/pixel_format.h:43-45 | channel-wise multiplication is commutative, which product's symmetry depends on |
| PixelFormat.ScaleDistributes | src/pixel_format.h:47-49 | scaling distributes over pixel addition |
| PixelFormat.ScaleIsMulBroadcast | src/pixel_format.h:47-49 | scaling by m equals multiplying by the broadcast pixel of m |
| PixelFormat.ScaleScale | src/pixel_format.h:47-49 | scaling by m and then n is scaling by m n |
| PixelFormat.ScaleZero | src/pixel_format.h:47-49 | scaling the zero pixel gives the zero pixel |
| PixelFormat.AddInterchange | src/pixel_format.h:28-30 | (a + b) + (c + d) == (a + c) + (b + d) |
| PixelFormat.BroadcastA | src/pixel_format.h:79 | the RGBA scalar constructor: multiplying by the broadcast pixel is scaling by v |
| PixelFormat.SubA | src/pixel_format.h:95-97 | RGBA difference is the inverse of addition |
| PixelFormat.DivA | src/pixel_format.h:107-109 | for non-zero channels, RGBA division is the inverse of channel-wise multiplication |
| PixelFormat.ScaleA | src/pixel_format.h:103-105 | RGBA scaling by m is multiplication by the pixel (m, m, m, m) |
| PixelFormat.DivScalarA | src/pixel_format.h:111-113 | for m != 0, RGBA division by m is the inverse of scaling by m |
| PixelFormat.AddAssignA | src/pixel_format.h:87-93 | RGBA += sets the receiver to receiver + v, alpha included, and returns it |
| PixelFormat.MulACommutes | src/pixel_format.h:99-101 | RGBA channel-wise multiplication is commutative |
| PixelFormat.AddACommutes | src/pixel_format.h:83-85 | RGBA addition is commutative |
| PixelArrays.PixelArrayRow.constructor | src/PixelArray.h:16 | the view keeps buffer, offset and length, and lies inside the buffer |
| PixelArrays.PixelArrayRow.Get | src/PixelArray.h:29-34 | succeeds iff 0 <= index < length, with the cell at offset + index; otherwise the row error carrying index |
| PixelArrays.PixelArrayRow.Write | src/PixelArray.h:22-27 | a write through the returned reference changes exactly cell offset + index of the shared buffer; out of range it fails and changes nothing |
| PixelArrays.PixelArray.constructor | src/PixelArray.h:45 | the buffer keeps the given data, width and height; width and height are constant fields that getWidth and getHeight return |
| PixelArrays.PixelArray.At | src/PixelArray.h:65-70 | bitmap[row][col]: the row error for a row outside [0, height), else the index error for a column outside [0, width), else the cell row * width + col |
| PixelArrays.PixelArray.Row | src/PixelArray.h:65-70 | fails iff row is outside [0, height); otherwise returns a fresh view of length width at offset row * width, whose reads agree with At |
| PixelArrays.CellIndexInRange | src/PixelArray.h:69 | a valid (row, col) has flat index inside [0, width * height) |
| PixelArrays.CellIndexInjective | src/PixelArray.h:26 | distinct cells have distinct flat indices, so a write to one leaves every other cell unchanged |
| CubeMaps.Ordinal | src/CubeMap.h:16-23 | the value of each face enumerator is below 6 |
| CubeMaps.OrdinalInjective | src/CubeMap.h:16-23 | distinct faces have distinct values, so the map's key order is total |
| CubeMaps.FirstFace | src/CubeMap.h:57 | faces.begin(): the present key with the smallest enum value |
| CubeMaps.CubeMap.constructor | src/CubeMap.h:33-47 | each of the six faces maps to its constructor argument |
| CubeMaps.CubeMap.Get | src/CubeMap.h:52-54 | returns the stored pointer for the face; it inserts a null entry only for a missing key, so with all six keys present the map is unchanged |
| CubeMaps.CubeMap.Width | src/CubeMap.h:56-58 | the width of the first face in key order (faces.begin()); once all six faces are present it is PositiveX's width |
| CubeMaps.CubeMap.Height | src/CubeMap.h:60-62 | the height of the first face in key order (faces.begin()); once all six faces are present it is PositiveX's height |
| ShMath.Factorial | src/shmath.h:30-35 | the reference factorial n! is at least 1 |
| ShMath.Fact | src/shmath.h:30-35 | fact(a) is 1 for a <= 1 and at least 1 everywhere |
| ShMath.FactIsFactorial | src/shmath.h:30-35 | on natural numbers fact(n) equals n! |
| ShMath.StartingValue | src/shmath.h:66-74 | the first loop of P leaves pmm = P(m, m, x), the product of the factors -(2i - 1) somx2 for i = 1 .. m |
| ShMath.Recurrence | src/shmath.h:78-84 | for l >= m + 2, the second loop started from P(m, m) and P(m + 1, m) returns P(l, m, x) |
| ShMath.Legendre | src/shmath.h:64-85 | definition only: the recursive reference for P, with 0 for l < m; its properties are stated by LegendreP, LegendreRecurrence, PmmClosedForm, LegendreBase, LegendreSecond and LegendreAtOne |
| ShMath.LegendreP | src/shmath.h:64-85 | the loops of P compute the recursive definition Legendre(l, m, x, somx2) |
| ShMath.LegendreRecurrence | src/shmath.h:79-83 | for l >= m + 2, P(l) = ((2l - 1) x P(l - 1) - (l + m - 1) P(l - 2)) / (l - m) |
| ShMath.LegendreAdvance | src/shmath.h:80 | one pass of the ll loop turns P(ll - 2) and P(ll - 1) into P(ll) |
| ShMath.PmmClosedForm | src/shmath.h:66-74 | P(m, m, x) = (-1)^m (2m - 1)!! somx2^m |
| ShMath.LegendreBase | src/shmath.h:66-77 | P(0, 0, x) = 1 and P(1, 0, x) = x |
| ShMath.LegendreSecond | src/shmath.h:76-77 | P(m + 1, m, x) = x (2m + 1) P(m, m, x) |
| ShMath.LegendreAtOne | src/shmath.h:64-85 | P(l, 0, 1) = 1 for every band l |
| ShMath.KRatio | src/shmath.h:95 | (2l + 1) fact(l - m) / (4 PI fact(l + m)) is positive when the numerator factors are |
| ShMath.KRatioTimesDenominator | src/shmath.h:95 | the ratio times its denominator 4 PI fact(l + m) is its numerator (2l + 1) fact(l - m) |
| ShMath.K | src/shmath.h:94-97 | for l >= 0 the radicand is positive, so K is never NaN: it is the library square root of K2(l, m) |
| ShMath.K2 | src/shmath.h:94-97 | the square of K(l, m) is positive for l >= 0 |
| ShMath.K2Factorials | src/shmath.h:94-97 | for 0 <= m <= l, the square of K is (2l + 1)(l - m)! / (4 PI (l + m)!) |
| ShMath.YRaw | src/shmath.h:112-120 | definition only: the value y computes before its NaN test, the source's sign dispatch on m; its values are stated by the YRaw lemmas below and by ShMath.Y |
| ShMath.Y | src/shmath.h:112-125 | for l >= 0: K(l, 0) P(l, 0, cos tetta) when m = 0; with cos tetta in [-1, 1], SQRT2 K(l, m) cos(m phi) P(l, m, cos tetta) for m > 0 and SQRT2 K(l, -m) sin(-m phi) P(l, -m, cos tetta) for m < 0; and 0, the NaN guard, when m != 0 lies in the band and cos tetta lies outside [-1, 1] |
| ShMath.YRawZonal | src/shmath.h:114-115 | helper for Y: for m = 0 and l >= 0 the raw value is finite, K(l, 0) P(l, 0, cos tetta) |
| ShMath.YRawPositive | src/shmath.h:116-117 | helper for Y: for m > 0, l >= 0 and cos tetta in [-1, 1] the raw value is finite, SQRT2 K(l, m) cos(m phi) P(l, m, cos tetta) |
| ShMath.YRawNegative | src/shmath.h:118-119 | helper for Y: for m < 0, l >= 0 and cos tetta in [-1, 1] the raw value is finite, SQRT2 K(l, -m) sin(-m phi) P(l, -m, cos tetta) |
| ShMath.YRawGuarded | src/shmath.h:121-123 | helper for Y: for m != 0 in the band and cos tetta outside [-1, 1] the raw value is NaN |
| ShMath.LegendreF | src/shmath.h:64-85 | P with its own square root: for m > 0 and x in [-1, 1] the square root is real and P is the finite Legendre value; for 0 < m <= l and x outside [-1, 1] it is NaN |
| ShMath.YDcConstant | src/shmath.h:112-125 | y(0, 0) has the same value in every direction, and its square is 1 / (4 PI) |
| ShMath.BitReverse | src/shmath.h:128-132 | after the five swap steps, bit i of the result is bit 31 - i of the input |
| ShMath.BitReverseInvolutive | src/shmath.h:128-132 | applying the swap steps twice gives back the input |
| ShMath.RadicalInverseVdC | src/shmath.h:127-134 | the result lies in [0, 1) |
| ShMath.RadicalInverseFirstValues | src/shmath.h:127-134 | radicalInverse(0) = 0 and radicalInverse(1) = 0.5 |
| ShMath.Hammersley2d | src/shmath.h:136-138 | both coordinates lie in [0, 1) for i < N |
| ShMath.SampleSphere | src/shmath.h:140-142 | the azimuth 2 PI ey lies in [0, 2 PI) for ey in [0, 1) |
| Sampling.Linear | src/sampling.h:41-51 | definition only: the bilinear filter; its properties are stated by LinearAtCorners, LinearConstant, LinearWithin and LinearChannels |
| Sampling.LinearAtCorners | src/sampling.h:41-51 | linear returns q11, q12, q21 and q22 at their own corners |
| Sampling.LinearConstant | src/sampling.h:41-51 | four texels of one value interpolate to that value everywhere |
| Sampling.LinearWithin | src/sampling.h:41-51 | inside the rectangle, linear stays within any channel range holding all four corner values |
| Sampling.LinearChannels | src/sampling.h:41-51 | each channel of linear is the scalar bilinear formula of that channel |
| Sampling.BilerpAtCorners | src/sampling.h:41-51 | the scalar interpolation takes each corner's value at that corner |
| Sampling.BilerpConstant | src/sampling.h:41-51 | the scalar interpolation of four equal values is that value |
| Sampling.BilerpWithin | src/sampling.h:41-51 | inside the rectangle, the scalar interpolation lies between the corner values' bounds |
| Sampling.NearestTexel | src/sampling.h:53-70 | nearest returns one of the four texel values |
| Sampling.NearestAtCorners | src/sampling.h:53-70 | on a rectangle of positive area, nearest returns q11 at the corners of q11, q12 and q21, and q12 at the corner of q22 |
| Sampling.NearestNotClosestCorner | src/sampling.h:61-69 | nearest is not a closest-corner test: at (0.9, 1) on the unit square it returns q12, not q22 |
| Sampling.TexelCorners | src/sampling.h:82-85 | the second corner is one step past the first in each axis |
| Sampling.TexelCornersInRange | src/sampling.h:82-105 | for width, height >= 2 and uv in [0, 1]^2, all four corners are cells of the bitmap and (x, y) lies in their rectangle |
| Sampling.AxisInRange | src/sampling.h:82-85 | for one axis with dim >= 2, x1 is in [0, dim - 2], x2 <= dim - 1 and x1 <= x <= x1 + 1 |
| Sampling.TexelCornersNarrow | src/sampling.h:82-84 | a bitmap one texel wide (or high) puts the first corner's column (or row) at -1 |
| Sampling.SampleBitmap | src/sampling.h:80-112 | definition only: sampleBitmap with the source's read order and errors; its properties are stated by SampleBitmapInRange and SampleBitmapNarrowFails |
| Sampling.SampleBitmapInRange | src/sampling.h:80-112 | for width, height >= 2 and uv in [0, 1]^2, sampleBitmap succeeds and filters the four buffer cells around (x, y) |
| Sampling.SampleBitmapNarrowFails | src/sampling.h:80-112 | height 1 fails with the row error at -1; width 1 (height >= 2, v in [0, 1]) fails with the index error at -1 |
| Sampling.MaxAbs | src/sampling.h:131 | the divisor is the largest absolute component, and it is one of them |
| Sampling.SelectFace | src/sampling.h:130-150 | definition only: the chain of face tests on the normalised components; its properties are stated by FaceSelection and FaceAxisIsMaximum |
| Sampling.FaceOf | src/sampling.h:130-150 | definition only: SelectFace on the direction divided by its largest absolute component; see FaceSelection and FaceCentres |
| Sampling.FaceSelection | src/sampling.h:130-150 | a face is selected iff its component equals the maximum with the face's sign and no earlier axis qualifies; ties go X before Y before Z, NegativeZ last |
| Sampling.FaceAxisIsMaximum | src/sampling.h:130-150 | the selected face's signed axis component is the maximum absolute component |
| Sampling.Projection | src/sampling.h:153-166 | definition only: the direction projected onto the selected face; its properties are stated by ProjectionBounds |
| Sampling.ProjectionBounds | src/sampling.h:153-166 | the projection's component on the face axis is 0.5 with the face's sign, and every component lies in [-0.5, 0.5] |
| Sampling.FaceUv | src/sampling.h:169-182 | definition only: the per-face uv mapping of the projection |
| Sampling.CubemapUv | src/sampling.h:169-182 | definition only: FaceUv of the selected face and the projection; its properties are stated by CubemapUvInUnitSquare and FaceCentres |
| Sampling.CubemapUvInUnitSquare | src/sampling.h:169-182 | every face maps the projection into [0, 1]^2 |
| Sampling.FaceCentres | src/sampling.h:130-182 | each face-centre direction selects its own face and maps to uv (0.5, 0.5) |
| Sampling.SampleCubemap | src/sampling.h:121-186 | samples the selected face's bitmap at the face's uv, and leaves the face map unchanged |
| SphericalHarmonic.ISqrtBounds | src/spherical_harmonic.h:24 | the integer square root r satisfies r^2 <= n < (r + 1)^2 |
| SphericalHarmonic.ISqrtUnique | src/spherical_harmonic.h:24 | any r with r^2 <= n < (r + 1)^2 is the integer square root |
| SphericalHarmonic.IndexOfBand | src/spherical_harmonic.h:35 | for -l <= m <= l, index l (l + 1) + m lies in band l's slots [l^2, (l + 1)^2) and decodes back to (l, m) |
| SphericalHarmonic.BandOfIndex | src/spherical_harmonic.h:35 | every slot k decodes to a valid (l, m) whose index is k, so the layout is a bijection |
| SphericalHarmonic.IndexRange | src/spherical_harmonic.h:31-35 | slot k lies in a vector of order n iff its band is at most n |
| SphericalHarmonic.IndexBandStart | src/spherical_harmonic.h:34-35 | the first index of band l is l^2 |
| SphericalHarmonic.IndexNextBand | src/spherical_harmonic.h:34-35 | the index one past band l is the first index of band l + 1, (l + 1)^2 |
| SphericalHarmonic.Order | src/spherical_harmonic.h:22-25 | the order fits in uint16_t |
| SphericalHarmonic.OrderBounds | src/spherical_harmonic.h:22-25 | n = order(c) satisfies (n + 1)^2 <= \|c\| < (n + 2)^2 |
| SphericalHarmonic.OrderOfSquare | src/spherical_harmonic.h:22-25 | a vector of length (n + 1)^2 has order n |
| SphericalHarmonic.SamplePoints | src/spherical_harmonic.h:97-99 | there is one Monte Carlo direction per sample |
| SphericalHarmonic.EstimateMonteCarlo | src/spherical_harmonic.h:93-104 | the sum of f y over the Hammersley directions i = 0 .. samples - 1, times 4 PI / samples |
| SphericalHarmonic.MonteCarloZero | src/spherical_harmonic.h:93-104 | the Monte Carlo estimate of the zero function is 0 |
| SphericalHarmonic.MonteCarloAdditive | src/spherical_harmonic.h:93-104 | the Monte Carlo estimate of f + g is the sum of the two estimates |
| SphericalHarmonic.EstimateSpherical | src/spherical_harmonic.h:76-91 | the sum of f y sin(tetta) dPhi dTetta over the divisions x (divisions / 2) grid, with phi and tetta advancing by 2 PI / divisions |
| SphericalHarmonic.AccumulatedIsProduct | src/spherical_harmonic.h:86-88 | after n steps of += d, phi (or tetta) equals n d |
| SphericalHarmonic.SphericalGridInDomain | src/spherical_harmonic.h:81-88 | every grid point has phi in [0, 2 PI) and tetta in [0, PI) |
| SphericalHarmonic.SphericalZero | src/spherical_harmonic.h:76-91 | the grid estimate of the zero function is 0 |
| SphericalHarmonic.SphericalFewDivisions | src/spherical_harmonic.h:81-83 | fewer than 2 divisions yield an empty grid and the estimate 0 |
| SphericalHarmonic.Divisions | src/spherical_harmonic.h:40 | definition only: the grid's divisions as the integer square root of 2 samples, which fits in uint16_t; its property is stated by DivisionsIsFloorSqrt |
| SphericalHarmonic.DivisionsIsFloorSqrt | src/spherical_harmonic.h:40 | divisions is the largest d with d^2 <= 2 samples |
| SphericalHarmonic.Estimate | src/spherical_harmonic.h:32-47 | definition only: the integrator the sampling method selects, Monte Carlo with the given samples or the grid with Divisions(samples); Encode states which slot holds it |
| SphericalHarmonic.Encode | src/spherical_harmonic.h:27-49 | (order + 1)^2 coefficients whose order is the requested one; slot k holds the selected integrator's estimate for the (l, m) that k encodes |
| SphericalHarmonic.Decode | src/spherical_harmonic.h:52-64 | the sum of c[k] y(l(k), m(k)) over all (order + 1)^2 slots of the bands up to order(c) |
| SphericalHarmonic.AddAll | src/spherical_harmonic.h:52-64 | specification helper for decode's linearity: the slot-wise sum of two coefficient vectors |
| SphericalHarmonic.ScaleAll | src/spherical_harmonic.h:52-64 | specification helper for decode's linearity: the slot-wise scaling of a coefficient vector |
| SphericalHarmonic.DecodeAdditive | src/spherical_harmonic.h:52-64 | decoding a sum of coefficient vectors gives the sum of their decodings |
| SphericalHarmonic.DecodeHomogeneous | src/spherical_harmonic.h:52-64 | decoding a scaled vector gives the scaled decoding |
| SphericalHarmonic.DecodeZero | src/spherical_harmonic.h:52-64 | an all-zero vector decodes to 0 |
| SphericalHarmonic.DecodeOrderZero | src/spherical_harmonic.h:52-64 | a vector of order 0 decodes to the same value in every direction |
| SphericalHarmonic.Product | src/spherical_harmonic.h:67-74 | the channel-wise dot product of a and b over the length of a |
| SphericalHarmonic.DotSymmetric | src/spherical_harmonic.h:67-74 | the dot product is symmetric |
| SphericalHarmonic.DotSelfNonNegative | src/spherical_harmonic.h:67-74 | product(a, a) is non-negative in every channel |
| CoefficientIO.StringLessIrreflexive | src/utils.h:356 | the key order of the channel map is irreflexive |
| CoefficientIO.KeyOrderedDistinct | src/utils.h:356 | the entries of a key-ordered channel map have distinct names |
| CoefficientIO.ChannelNameOrder | src/utils.h:356 | the channel names are ordered alpha < blue < green < red, so blue's list sets the size when present |
| CoefficientIO.FieldSnoc | src/utils.h:359-373 | a later channel entry overrides the value it writes and leaves every other field as it was |
| CoefficientIO.FieldAbsent | src/utils.h:350-357 | a channel absent from the map leaves its component 0 |
| CoefficientIO.FieldLookup | src/utils.h:359-373 | in a key-ordered map, the field of a named channel is that channel's i-th value, or 0 past its end |
| CoefficientIO.ReadRgb | src/utils.h:346-376 | the vector has the length of the first list (0 for an empty map), and entry i holds red, green and blue i; other names are ignored |
| CoefficientIO.RgbAtOfMap | src/utils.h:364-369 | in a key-ordered map, the i-th value of "red", "green" or "blue" lands in .r, .g or .b of entry i |
| CoefficientIO.Component | src/utils.h:99-104 | the list of one component has one value per coefficient, in order |
| CoefficientIO.SplitRgbIsMap | src/utils.h:98-121 | splitting h into red, green and blue lists yields a key-ordered map whose lists all have \|h\| entries |
| CoefficientIO.ReadSplitRgb | src/utils.h:346-376 | assembling the split lists the way readRgb does returns h |
| CoefficientIO.ReadRgba | src/utils.h:378-409 | as ReadRgb, with "alpha" routed into .a |
| CoefficientIO.SplitRgbaIsMap | src/utils.h:132-163 | splitting h into red, green, blue and alpha lists yields a key-ordered map of \|h\| entries per list |
| CoefficientIO.ReadSplitRgba | src/utils.h:378-409 | assembling the four split lists the way readRgba does returns h |
| CoefficientIO.RgbIgnoresAlpha | src/utils.h:364-370 | readRgb is readRgba without the alpha channel |
| CoefficientIO.JoinSnoc | src/utils.h:99-104 | appending an item to a non-empty list adds ", " and the item |
| CoefficientIO.JoinCons | src/utils.h:99-104 | a list of two or more items is its first item, ", ", then the rest |
| CoefficientIO.AppendStep | src/utils.h:99-104 | one pass of the writer loop extends the joined text of the first i items by the separator (when i > 0) and item i |
| CoefficientIO.AppendList | src/utils.h:99-104 | one writer loop appends the formatted components separated by ", ", with no leading or trailing separator |
| CoefficientIO.Decimal | src/utils.h:96 | order(h) is printed in decimal: non-empty, digits only, no leading zero |
| CoefficientIO.DecimalRoundTrip | src/utils.h:96 | reading the printed order back gives the order |
| CoefficientIO.WriteRgb | src/utils.h:93-125 | the RGB document: the order line, then the red, green and blue lists in that order |
| CoefficientIO.WriteRgba | src/utils.h:127-167 | the RGBA document: the order line, then the red, green, blue and alpha lists in that order |
| CoefficientIO.FirstComma | src/utils.h:99-104 | the position of the first comma, or the length when there is none |
| CoefficientIO.FieldsOfJoin | src/utils.h:99-104 | splitting a comma-free list's ", "-joined text at its commas gives back the items |
| CoefficientIO.WrittenListReadsBack | src/utils.h:99-104 | when the formatter never prints a comma, a written channel list splits back into the formatted values |
| CliInputs.SuppliedText | src/CliInput.h:173 | the supplied text when the name is present, else the declared default |
| CliInputs.Resolve | src/CliInput.h:174-184 | the value carries the declared type; a Boolean is true iff its text is exactly "true"; the other types carry the resolved text |
| CliInputs.ResolveArgument | src/CliInput.h:173-184 | one pass of the resolution loop computes Resolve |
| CliInputs.ResolvedMapKeys | src/CliInput.h:168-187 | the map built by the loop has exactly one key per declared name |
| CliInputs.ResolvedMapLast | src/CliInput.h:185 | a name's entry holds the resolved value of its last declaration: a later same-name store overwrites an earlier one |
| CliInputs.CliInput.constructor | src/CliInput.h:56 | a new CliInput has no declared arguments |
| CliInputs.CliInput.AddArgument | src/CliInput.h:190-192 | the declaration goes at the end of the list |
| CliInputs.CliInput.Parse | src/CliInput.h:168-187 | fails iff some required argument is missing, with the message naming the first missing one; otherwise one entry per declared name, holding the last declaration's resolved value |
| CliInputs.Token | src/CliInput.h:64-75 | an optional argument is [--name...], a required one --name...; String gets "=<string>", Integer and Float "=<number>", Boolean nothing |
| CliInputs.ItemUnpadded | src/CliInput.h:63-75 | an item with no pending width is its token |
| CliInputs.ItemHasNoNewline | src/CliInput.h:63-75 | an item whose name has no line break has none |
| CliInputs.BriefLineBreaksStep | src/CliInput.h:76-82 | the n-th item adds no line break and its separator adds one exactly when n is a multiple of perLine, so the count goes from (n - 1) / perLine to n / perLine |
| CliInputs.WriteItem | src/CliInput.h:63-75 | the item part of one pass of brief's loop appends the argument's item, its first piece padded when a width is pending |
| CliInputs.BriefLineBreaks | src/CliInput.h:76-81 | n items contain exactly n / perLine line breaks |
| CliInputs.BriefLinesPrefix | src/CliInput.h:190-192 | declaring more arguments leaves the brief of the earlier ones unchanged |
| CliInputs.CliInput.Brief | src/CliInput.h:58-86 | the items in declaration order, each followed by a line break at every perLine-th position and by a space otherwise, then a final line break |
| CliInputs.Widest | src/CliInput.h:92-95 | the longest name's length: no name is longer, and some name has it |
| CliInputs.Padding | src/CliInput.h:97-101 | a multiple of 4 strictly greater than the length, by at most 4 |
| CliInputs.PaddingSmallest | src/CliInput.h:97-101 | no multiple of 4 strictly greater than the length is below the padding, so the padding is the least one |
| CliInputs.NameColumn | src/CliInput.h:105 | a name shorter than the column is padded to it with spaces, and the description starts at the column |
| CliInputs.SummaryNameColumn | src/CliInput.h:97-105 | every name fits summary's column, so every description starts in the same column |
| CliInputs.WriteBlock | src/CliInput.h:105-127 | one pass of summary's loop appends the argument's block |
| CliInputs.WriteBlocks | src/CliInput.h:104-128 | summary's loop writes the blocks of all declared arguments, one after another |
| CliInputs.CliInput.Summary | src/CliInput.h:88-131 | the blocks of all arguments in declaration order, with the column width Padding(Widest) |
| CliInputs.Quotient | src/CliInput.h:76 | the line-break count rises by one exactly at the multiples of perLine |
| CliInputs.PadRight | src/CliInput.h:103-105 | std::left with setw: the padded text has the column width, or the text's own length when that is longer |
| CliInputs.PadLeft | src/CliInput.h:78 | right-aligned setw: the padded text has the width, or the text's own length when that is longer |

## Left out

- Image I/O: loading and writing bitmaps with stb_image, `hdr2ldr`, and
  writing cube-map files with path prefixes (`src/utils.h:36-91`,
  `src/utils.h:177-304`). These are foreign library and file-system calls.
- `_read` (`src/utils.h:307-344`), which parses JSON from a file. The model
  starts from the channel map it returns.
- Number formatting by `stream << float` is an abstract parameter. No claim
  is made about how floats print, except that a comma-free formatter lets a
  list be split back.
- `CliInput::parse` tokenising with `std::regex` (`src/CliInput.h:135-165`).
  `Parse` receives the name-to-text map that the tokeniser builds.
- `stoi`/`stof` (`src/CliInput.h:177-179`): numeric arguments keep their text.
  A text that does not convert throws in the source; this outcome is not
  modelled.
- The fixed 1024-byte `strcpy` buffer of a String argument
  (`src/CliInput.h:47`, `src/CliInput.h:183`). A longer text overflows it in
  the source.
- Transcendental functions: `sin`, `cos`, `acos` and `sqrt` are abstract.
  `sphericalToCartesian` and `cartesianToSpherical` (`src/shmath.h:43-55`)
  are not part of this model.
- IEEE rounding and accuracy: all arithmetic is on exact reals. The float
  `bits * 2^-32` of `radicalInverse_VdC` can round up to 1; the model's
  bound holds on exact reals only. No claim about integration accuracy is
  made.
- Sampling.SampleCubemap: the direction is not normalised before face
  selection (`src/sampling.h:130`). Face selection, projection and uv depend
  only on ratios of components, so scaling does not change them; the model
  uses the direction as given and does not prove that invariance.
- Sampling: `linear`, `nearest`, `sampleBitmap` and `sampleCubemap` are
  modelled at pixel type RGB only.
- SphericalHarmonic.Decode: reads `coefficients[index]`. The source's
  `c[index]` (`src/spherical_harmonic.h:59`) indexes the new local `c`,
  which does not compile for the pixel types.
- SphericalHarmonic.EstimateMonteCarlo: requires `samples > 0`. With 0
  samples the source multiplies by `4π/0`.
- The encode, decode, product and estimator procedures are modelled for RGB
  coefficient vectors only. The RGBA arithmetic is modelled in
  `PixelFormat`.
- The grid's `(uint16_t) sqrtf(2.0f * samples)` is modelled as the exact
  integer square root.
- The float `phi`/`tetta` accumulations are modelled as exact sums.
- `encode/main.cpp` and `decode/main.cpp` are entry-point wiring. The
  cube-map encode and decode they call are not part of this model.
- `src/CubeMapPolarFunction.h` wraps `sampleCubemap` with a trigonometric
  coordinate conversion and is not part of this model.
- `src/real.h` is a type alias only.
- The root-level copies of the headers are superseded drafts of `src/` and
  are not part of this model.
- `PixelArray::getData` and the destructor are not modelled: memory
  management is out of scope.
