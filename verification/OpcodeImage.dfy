/** What each opcode does to an image: the pixel formulas, over the reals, and the
    image each opcode makes of its source. */
module OpcodeImage {
  import opened Bytes
  import opened OpcodeList3

  /** A half-float, as its bit pattern. */
  type Half = x: int | 0 <= x < 65536

  /** The conversions and the square root, which are not modelled further. */
  datatype Arithmetic = Arithmetic(toReal: Half -> real, toHalf: real -> Half, valueOf: Double -> real,
                                   sqrt: real -> real)

  const CHANNELS: nat := 4
  const EPSILON: real := 0.0000000000000002220446049250313

  // ---------------------------------------------------------------- addressing

  function Offset(width: nat, x: nat, y: nat, c: nat): nat
  {
    (y * width + x) * CHANNELS + c
  }

  function X(width: nat, k: nat): nat
    requires width > 0
  {
    k / 4 % width
  }

  function Y(width: nat, k: nat): nat
    requires width > 0
  {
    k / 4 / width
  }

  function C(k: nat): nat { k % 4 }

  ghost predicate Sized<T>(image: seq<T>, width: nat, height: nat)
  {
    |image| == 4 * (width * height)
  }

  lemma DivisionIsUnique(width: nat, q: int, r: nat, q': int, r': nat)
    requires r < width && r' < width && q * width + r == q' * width + r'
    ensures q == q' && r == r'
  {
    var d := q - q';
    assert d * width == r' - r;
    assert d >= 1 ==> (d - 1) * width >= 0;
    assert d <= -1 ==> (-d - 1) * width >= 0;
  }

  lemma QuotientRemainder(width: nat, x: nat, y: nat)
    requires x < width
    ensures (y * width + x) / width == y && (y * width + x) % width == x
  {
    var p := y * width + x;
    DivisionIsUnique(width, p / width, p % width, y, x);
  }

  lemma InsideRows(width: nat, height: nat, x: nat, y: nat)
    requires x < width && y < height
    ensures y * width + x + 1 <= width * height
  {
    assert (height - 1 - y) * width >= 0;
    assert width * height == (height - 1 - y) * width + y * width + width;
  }

  /** An address decodes to its coordinates, and lies in the image. */
  lemma OffsetDecodes(width: nat, height: nat, x: nat, y: nat, c: nat)
    requires x < width && y < height && c < 4
    ensures X(width, Offset(width, x, y, c)) == x && Y(width, Offset(width, x, y, c)) == y &&
      C(Offset(width, x, y, c)) == c
    ensures Offset(width, x, y, c) < 4 * (width * height)
  {
    QuotientRemainder(width, x, y);
    InsideRows(width, height, x, y);
  }

  /** Coordinates encode back to the address, so no two addresses share them. */
  lemma DecodeEncodes(width: nat, height: nat, k: nat)
    requires width > 0 && k < 4 * (width * height)
    ensures X(width, k) < width && Y(width, k) < height && Offset(width, X(width, k), Y(width, k), C(k)) == k
  {
    var p := k / 4;
    var q := p / width;
    assert p == q * width + p % width;
    if q >= height {
      assert (q - height) * width >= 0;
    }
  }

  // ---------------------------------------------------------------- sampling

  function Clamp(v: int, lo: int, hi: int): int
  {
    if v < lo then lo else if v > hi then hi else v
  }

  function Sample(a: Arithmetic, image: seq<Half>, width: nat, height: nat, x: int, y: int, c: nat): real
    requires width > 0 && height > 0 && c < 4 && Sized(image, width, height)
  {
    var cx, cy := Clamp(x, 0, width - 1), Clamp(y, 0, height - 1);
    OffsetDecodes(width, height, cx, cy, c);
    a.toReal(image[Offset(width, cx, cy, c)])
  }

  function Cubic(p0: real, p1: real, p2: real, p3: real, t: real): real
  {
    var a0 := -0.5 * p0 + 1.5 * p1 - 1.5 * p2 + 0.5 * p3;
    var a1 := p0 - 2.5 * p1 + 2.0 * p2 - 0.5 * p3;
    var a2 := -0.5 * p0 + 0.5 * p2;
    ((a0 * t + a1) * t + a2) * t + p1
  }

  function ClampReal(v: real, lo: real, hi: real): real
  {
    if v < lo then lo else if v > hi then hi else v
  }

  function CubicRow(a: Arithmetic, image: seq<Half>, width: nat, height: nat, ix: int, sy: int, c: nat, t: real): real
    requires width > 0 && height > 0 && c < 4 && Sized(image, width, height)
  {
    Cubic(Sample(a, image, width, height, ix - 1, sy, c), Sample(a, image, width, height, ix, sy, c),
          Sample(a, image, width, height, ix + 1, sy, c), Sample(a, image, width, height, ix + 2, sy, c), t)
  }

  function SampleBicubic(a: Arithmetic, image: seq<Half>, width: nat, height: nat, x: real, y: real, c: nat): real
    requires width > 0 && height > 0 && c < 4 && Sized(image, width, height)
  {
    var cx, cy := ClampReal(x, 0.0, (width - 1) as real), ClampReal(y, 0.0, (height - 1) as real);
    BicubicIn(a, image, width, height, cx.Floor, cy.Floor, cx - cx.Floor as real, cy - cy.Floor as real, c)
  }

  function BicubicIn(a: Arithmetic, image: seq<Half>, width: nat, height: nat, ix: int, iy: int, tx: real, ty: real,
                     c: nat): real
    requires width > 0 && height > 0 && c < 4 && Sized(image, width, height)
  {
    Cubic(CubicRow(a, image, width, height, ix, iy - 1, c, tx), CubicRow(a, image, width, height, ix, iy, c, tx),
          CubicRow(a, image, width, height, ix, iy + 1, c, tx), CubicRow(a, image, width, height, ix, iy + 2, c, tx),
          ty)
  }

  function Larger(p: real, q: real): real { if p < q then q else p }

  function MaxCornerDistance(a: Arithmetic, cx: real, cy: real, width: nat, height: nat): real
  {
    var x1, y1 := width as real - 1.0, height as real - 1.0;
    var d00 := cx * cx + cy * cy;
    var d10 := (x1 - cx) * (x1 - cx) + cy * cy;
    var d01 := cx * cx + (y1 - cy) * (y1 - cy);
    var d11 := (x1 - cx) * (x1 - cx) + (y1 - cy) * (y1 - cy);
    a.sqrt(Larger(Larger(d00, d10), Larger(d01, d11)))
  }

  // ---------------------------------------------------------------- what an opcode means

  /** The effect of one opcode on an image. */
  datatype Effect =
    | Keep
    | Distort(planes: seq<Coefficient>, wx: Double, wy: Double)
    | Brighten(k: seq<Double>, vx: Double, vy: Double)
    | PatchValue(constant: U32)
    | PatchListed(points: seq<Point>, rects: seq<Rect>)
    | Crop(bounds: Rect)

  ghost predicate Sensible(e: Effect)
  {
    (e.Brighten? ==> |e.k| == 5) && (e.Distort? ==> |e.planes| <= 4)
  }

  function Centre(a: Arithmetic, e: Effect, width: nat, height: nat): (real, real, real)
    requires e.Distort? || e.Brighten?
  {
    var hx, hy := if e.Distort? then e.wx else e.vx, if e.Distort? then e.wy else e.vy;
    var cx, cy := a.valueOf(hx) * (width as real - 1.0), a.valueOf(hy) * (height as real - 1.0);
    (cx, cy, MaxCornerDistance(a, cx, cy, width, height))
  }

  /** Whether a warp or vignette leaves the image alone: a line or a point, a centre
      that coincides with every corner, or no plane to warp. */
  predicate Degenerate(a: Arithmetic, e: Effect, width: nat, height: nat)
    requires e.Distort? || e.Brighten?
  {
    (e.Distort? && |e.planes| == 0) || width <= 1 || height <= 1 || Centre(a, e, width, height).2 <= EPSILON
  }

  function Distorted(a: Arithmetic, e: Effect, image: seq<Half>, width: nat, height: nat, x: nat, y: nat, c: nat): Half
    requires e.Distort? && width > 0 && height > 0 && c < 4 && Sized(image, width, height) &&
      !Degenerate(a, e, width, height)
  {
    var (cx, cy, m) := Centre(a, e, width, height);
    WarpPixel(a, e.planes[if c < |e.planes| then c else |e.planes| - 1], cx, cy, m, image, width, height, x, y, c)
  }

  function WarpPixel(a: Arithmetic, plane: Coefficient, cx: real, cy: real, m: real, image: seq<Half>, width: nat,
                     height: nat, x: nat, y: nat, c: nat): Half
    requires m != 0.0 && width > 0 && height > 0 && c < 4 && Sized(image, width, height)
  {
    ReadAt(a, image, width, height, WarpPosition(a, plane, cx, cy, m, (x as real - cx) / m, (y as real - cy) / m), c)
  }

  function ReadAt(a: Arithmetic, image: seq<Half>, width: nat, height: nat, position: (real, real), c: nat): Half
    requires width > 0 && height > 0 && c < 4 && Sized(image, width, height)
  {
    a.toHalf(SampleBicubic(a, image, width, height, position.0, position.1, c))
  }

  /** The position a warped pixel is read from; the pixel is (dx, dy) units of m away from the centre. */
  function WarpPosition(a: Arithmetic, plane: Coefficient, cx: real, cy: real, m: real, dx: real,
                        dy: real): (real, real)
  {
    var (sx, sy) := WarpSource(a, plane, dx, dy);
    (Placed(cx, m, sx), Placed(cy, m, sy))
  }

  /** The coordinate so many units away from the centre. */
  function Placed(centre: real, m: real, units: real): real { centre + m * units }

  function Radial(kr0: real, kr1: real, kr2: real, kr3: real, r2: real): real
  {
    var r4 := r2 * r2;
    var r6 := r4 * r2;
    kr0 + kr1 * r2 + kr2 * r4 + kr3 * r6
  }

  function TangentialX(kt0: real, kt1: real, dx: real, dy: real, r2: real): real
  {
    2.0 * kt0 * dx * dy + kt1 * (r2 + 2.0 * dx * dx)
  }

  function TangentialY(kt0: real, kt1: real, dx: real, dy: real, r2: real): real
  {
    kt0 * (r2 + 2.0 * dy * dy) + 2.0 * kt1 * dx * dy
  }

  /** Where a warped pixel comes from, in coordinates relative to the centre. */
  function WarpSource(a: Arithmetic, plane: Coefficient, dx: real, dy: real): (real, real)
  {
    var r2 := dx * dx + dy * dy;
    var kt0, kt1 := a.valueOf(plane.kt0), a.valueOf(plane.kt1);
    var f := Radial(a.valueOf(plane.kr0), a.valueOf(plane.kr1), a.valueOf(plane.kr2), a.valueOf(plane.kr3), r2);
    (Scaled(f, dx) + TangentialX(kt0, kt1, dx, dy, r2), Scaled(f, dy) + TangentialY(kt0, kt1, dx, dy, r2))
  }

  function Scaled(f: real, d: real): real { f * d }

  function Gain(a: Arithmetic, e: Effect, width: nat, height: nat, x: nat, y: nat): real
    requires e.Brighten? && |e.k| == 5 && !Degenerate(a, e, width, height)
  {
    var (cx, cy, m) := Centre(a, e, width, height);
    var dx, dy := (x as real - cx) / m, (y as real - cy) / m;
    var r2 := dx * dx + dy * dy;
    var r4 := r2 * r2;
    var r6, r8 := r4 * r2, r4 * r4;
    var r10 := r8 * r2;
    1.0 + a.valueOf(e.k[0]) * r2 + a.valueOf(e.k[1]) * r4 + a.valueOf(e.k[2]) * r6 + a.valueOf(e.k[3]) * r8 +
      a.valueOf(e.k[4]) * r10
  }

  function Brightened(a: Arithmetic, value: Half, gain: real): Half { a.toHalf(a.toReal(value) * gain) }

  // ---------------------------------------------------------------- patching

  const DX: seq<int> := [-1, 1, 0, 0]
  const DY: seq<int> := [0, 0, -1, 1]

  predicate Inside(width: nat, height: nat, x: int, y: int)
  {
    0 <= x < width && 0 <= y < height
  }

  /** The sum and the number of the first i neighbours that exist. */
  function Neighbours(a: Arithmetic, image: seq<Half>, width: nat, height: nat, x: int, y: int, c: nat,
                      i: nat): (r: (real, nat))
    requires width > 0 && height > 0 && c < 4 && Sized(image, width, height) && i <= 4
  {
    if i == 0 then (0.0, 0)
    else
      var (sum, count) := Neighbours(a, image, width, height, x, y, c, i - 1);
      var nx, ny := x + DX[i - 1], y + DY[i - 1];
      if Inside(width, height, nx, ny) then (sum + Sample(a, image, width, height, nx, ny, c), count + 1)
        else (sum, count)
  }

  function PatchedChannel(a: Arithmetic, image: seq<Half>, width: nat, height: nat, x: int, y: int, c: nat): real
    requires width > 0 && height > 0 && c < 4 && Sized(image, width, height)
  {
    var (sum, count) := Neighbours(a, image, width, height, x, y, c, 4);
    if count == 0 then Sample(a, image, width, height, x, y, c) else sum / count as real
  }

  /** Some colour channel of the pixel is the constant that marks bad pixels. */
  predicate Marked(a: Arithmetic, image: seq<Half>, width: nat, height: nat, x: int, y: int, constant: U32)
    requires width > 0 && height > 0 && Sized(image, width, height)
  {
    exists c: nat :: c < 3 && IsConstant(a, image, width, height, x, y, c, constant)
  }

  predicate IsConstant(a: Arithmetic, image: seq<Half>, width: nat, height: nat, x: int, y: int, c: nat, constant: U32)
    requires width > 0 && height > 0 && c < 4 && Sized(image, width, height)
  {
    AbsReal(Sample(a, image, width, height, x, y, c) - constant as int as real) <= 0.0001
  }

  function AbsReal(v: real): real { if v < 0.0 then -v else v }

  /** A 32-bit unsigned value read as a signed int. */
  function AsInt(v: U32): int { if v < 0x8000_0000 then v else v as int - LIMIT32 }

  function Min(a: int, b: int): int { if a < b then a else b }

  function AtLeast0(v: int): int { if v < 0 then 0 else v }

  /** The pixels the kernel visits for a rect, and for a point: coordinates pass through a signed int. */
  predicate RectVisits(r: Rect, width: nat, height: nat, x: int, y: int)
  {
    && AtLeast0(Min(AsInt(r.top), height)) <= y < AtLeast0(Min(AsInt(r.bottom), height))
    && AtLeast0(Min(AsInt(r.left), width)) <= x < AtLeast0(Min(AsInt(r.right), width))
  }

  predicate PointVisits(p: Point, x: int, y: int)
  {
    AsInt(p.column) == x && AsInt(p.row) == y
  }

  ghost predicate Visited(points: seq<Point>, rects: seq<Rect>, width: nat, height: nat, x: int, y: int)
  {
    || (exists i :: 0 <= i < |points| && PointVisits(points[i], x, y))
    || (exists i :: 0 <= i < |rects| && RectVisits(rects[i], width, height, x, y))
  }

  /** The pixels the list names: the union of its points and half-open rects. */
  ghost predicate Named(points: seq<Point>, rects: seq<Rect>, x: int, y: int)
  {
    || (exists i :: 0 <= i < |points| && points[i].column == x && points[i].row == y)
    || (exists i :: 0 <= i < |rects| && Covers(rects[i], x, y))
  }

  predicate Covers(r: Rect, x: int, y: int)
  {
    r.top <= y < r.bottom && r.left <= x < r.right
  }

  // ---------------------------------------------------------------- the image an effect makes

  /** The value at one address after an effect. */
  ghost function After(a: Arithmetic, e: Effect, image: seq<Half>, width: nat, height: nat, k: nat): Half
    requires width > 0 && height > 0 && Sized(image, width, height) && k < |image| && Sensible(e)
  {
    var x, y, c := X(width, k), Y(width, k), C(k);
    match e
    case Keep => image[k]
    case Distort(_, _, _) => if Degenerate(a, e, width, height) then image[k]
      else Distorted(a, e, image, width, height, x, y, c)
    case Brighten(_, _, _) =>
      if Degenerate(a, e, width, height) || c == 3 then image[k]
      else Brightened(a, image[k], Gain(a, e, width, height, x, y))
    case PatchValue(constant) =>
      if c < 3 && Marked(a, image, width, height, x, y, constant)
        then a.toHalf(PatchedChannel(a, image, width, height, x, y, c))
      else image[k]
    case PatchListed(points, rects) =>
      if c < 3 && Visited(points, rects, width, height, x, y)
        then a.toHalf(PatchedChannel(a, image, width, height, x, y, c))
      else image[k]
    case Crop(bounds) => if Covers(bounds, x, y) then image[k] else a.toHalf(0.0)
  }

  ghost function Apply(a: Arithmetic, e: Effect, image: seq<Half>, width: nat, height: nat): (out: seq<Half>)
    requires width > 0 && height > 0 && Sized(image, width, height) && Sensible(e)
    ensures Sized(out, width, height)
  {
    seq(|image|, k requires 0 <= k < |image| => After(a, e, image, width, height, k))
  }

  /** A list of effects, one after another. */
  ghost function ApplyAll(a: Arithmetic, effects: seq<Effect>, image: seq<Half>, width: nat,
                          height: nat): (out: seq<Half>)
    requires width > 0 && height > 0 && Sized(image, width, height) && forall i :: 0 <= i < |effects| ==>
      Sensible(effects[i])
    ensures Sized(out, width, height)
  {
    if effects == [] then image
    else Apply(a, effects[|effects| - 1], ApplyAll(a, effects[..|effects| - 1], image, width, height), width, height)
  }

  // ---------------------------------------------------------------- what the formulas mean

  /** Storing what was read from the first channels of the image changes none of it. */
  ghost predicate Exact(a: Arithmetic, image: seq<Half>, channels: nat)
  {
    forall k: nat :: k < |image| && C(k) < channels ==> a.toHalf(a.toReal(image[k])) == image[k]
  }

  lemma ScaleBack(v: real, c: real, m: real)
    requires m != 0.0
    ensures c + m * ((v - c) / m) == v
  {
    assert m * ((v - c) / m) == v - c;
  }

  /** A bicubic sample at a pixel is the pixel. */
  lemma BicubicAtPixel(a: Arithmetic, image: seq<Half>, width: nat, height: nat, x: nat, y: nat, c: nat)
    requires x < width && y < height && c < 4 && Sized(image, width, height)
    ensures SampleBicubic(a, image, width, height, x as real, y as real, c) == Sample(a, image, width, height, x, y, c)
  {
    assert (x as real).Floor == x && (y as real).Floor == y;
    RowAtPixel(a, image, width, height, x, y, c);
    CubicAtZero(CubicRow(a, image, width, height, x, y - 1, c, 0.0), CubicRow(a, image, width, height, x, y, c, 0.0),
                CubicRow(a, image, width, height, x, y + 1, c, 0.0),
                CubicRow(a, image, width, height, x, y + 2, c, 0.0));
  }

  lemma RowAtPixel(a: Arithmetic, image: seq<Half>, width: nat, height: nat, x: nat, y: nat, c: nat)
    requires x < width && y < height && c < 4 && Sized(image, width, height)
    ensures CubicRow(a, image, width, height, x, y, c, 0.0) == Sample(a, image, width, height, x, y, c)
  {
    CubicAtZero(Sample(a, image, width, height, x - 1, y, c), Sample(a, image, width, height, x, y, c),
                Sample(a, image, width, height, x + 1, y, c), Sample(a, image, width, height, x + 2, y, c));
  }

  lemma CubicAtZero(p0: real, p1: real, p2: real, p3: real)
    ensures Cubic(p0, p1, p2, p3, 0.0) == p1
  {
  }

  /** A plane whose only coefficient is a leading one: no distortion. */
  ghost predicate Undistorting(a: Arithmetic, p: Coefficient)
  {
    && a.valueOf(p.kr0) == 1.0 && a.valueOf(p.kr1) == 0.0 && a.valueOf(p.kr2) == 0.0 && a.valueOf(p.kr3) == 0.0
    && a.valueOf(p.kt0) == 0.0 && a.valueOf(p.kt1) == 0.0
  }

  lemma UndistortedPixel(a: Arithmetic, plane: Coefficient, cx: real, cy: real, m: real, image: seq<Half>, width: nat,
                         height: nat, x: nat, y: nat, c: nat)
    requires m != 0.0 && x < width && y < height && c < 4 && Sized(image, width, height) && Undistorting(a, plane)
    ensures WarpPixel(a, plane, cx, cy, m, image, width, height, x, y, c) ==
      a.toHalf(Sample(a, image, width, height, x, y, c))
  {
    PositionIsPixel(a, plane, cx, cy, m, x, y);
    ReadAtPixel(a, image, width, height, x, y, c);
  }

  lemma ReadAtPixel(a: Arithmetic, image: seq<Half>, width: nat, height: nat, x: nat, y: nat, c: nat)
    requires x < width && y < height && c < 4 && Sized(image, width, height)
    ensures ReadAt(a, image, width, height, (x as real, y as real), c) ==
      a.toHalf(Sample(a, image, width, height, x, y, c))
  {
    BicubicAtPixel(a, image, width, height, x, y, c);
  }

  lemma PositionIsPixel(a: Arithmetic, plane: Coefficient, cx: real, cy: real, m: real, x: nat, y: nat)
    requires m != 0.0 && Undistorting(a, plane)
    ensures WarpPosition(a, plane, cx, cy, m, (x as real - cx) / m, (y as real - cy) / m) == (x as real, y as real)
  {
    var dx, dy := (x as real - cx) / m, (y as real - cy) / m;
    SourceIsSame(a, plane, dx, dy);
    ScaleBack(x as real, cx, m);
    ScaleBack(y as real, cy, m);
    var p := WarpPosition(a, plane, cx, cy, m, dx, dy);
    assert p.0 == cx + m * dx == x as real && p.1 == cy + m * dy == y as real;
    assert p == (p.0, p.1);
  }

  lemma SourceIsSame(a: Arithmetic, plane: Coefficient, dx: real, dy: real)
    requires Undistorting(a, plane)
    ensures WarpSource(a, plane, dx, dy) == (dx, dy)
  {
  }

  /** A warp without distortion keeps an image exactly when it leaves it alone or every
      value survives being read and stored. */
  lemma UndistortedImage(a: Arithmetic, e: Effect, image: seq<Half>, width: nat, height: nat)
    requires e.Distort? && Sensible(e) && width > 0 && height > 0 && Sized(image, width, height)
    requires forall i :: 0 <= i < |e.planes| ==> Undistorting(a, e.planes[i])
    ensures Apply(a, e, image, width, height) == image <==> Degenerate(a, e, width, height) || Exact(a, image, CHANNELS)
  {
    forall k: nat | k < |image|
      ensures Apply(a, e, image, width, height)[k]
           == if Degenerate(a, e, width, height) then image[k] else a.toHalf(a.toReal(image[k]))
    {
      UndistortedAt(a, e, image, width, height, k);
    }
    SameImage(image, Apply(a, e, image, width, height));
  }

  lemma SameImage(p: seq<Half>, q: seq<Half>)
    requires |p| == |q|
    ensures p == q <==> forall k: nat :: k < |p| ==> q[k] == p[k]
  {
  }

  lemma UndistortedAt(a: Arithmetic, e: Effect, image: seq<Half>, width: nat, height: nat, k: nat)
    requires e.Distort? && Sensible(e) && width > 0 && height > 0 && Sized(image, width, height) && k < |image|
    requires forall i :: 0 <= i < |e.planes| ==> Undistorting(a, e.planes[i])
    ensures After(a, e, image, width, height, k)
         == if Degenerate(a, e, width, height) then image[k] else a.toHalf(a.toReal(image[k]))
  {
    DecodeEncodes(width, height, k);
    if !Degenerate(a, e, width, height) {
      DistortedIsSample(a, e, image, width, height, X(width, k), Y(width, k), C(k));
      SampleInside(a, image, width, height, X(width, k), Y(width, k), C(k), k);
    }
  }

  lemma DistortedIsSample(a: Arithmetic, e: Effect, image: seq<Half>, width: nat, height: nat, x: nat, y: nat, c: nat)
    requires e.Distort? && Sensible(e) && x < width && y < height && c < 4 && Sized(image, width, height)
    requires !Degenerate(a, e, width, height)
    requires forall i :: 0 <= i < |e.planes| ==> Undistorting(a, e.planes[i])
    ensures Distorted(a, e, image, width, height, x, y, c) == a.toHalf(Sample(a, image, width, height, x, y, c))
  {
    var (cx, cy, m) := Centre(a, e, width, height);
    UndistortedPixel(a, e.planes[if c < |e.planes| then c else |e.planes| - 1], cx, cy, m, image, width, height, x, y,
                     c);
  }

  lemma SampleInside(a: Arithmetic, image: seq<Half>, width: nat, height: nat, x: nat, y: nat, c: nat, k: nat)
    requires x < width && y < height && c < 4 && Sized(image, width, height) && k < |image| &&
      k == Offset(width, x, y, c)
    ensures Sample(a, image, width, height, x, y, c) == a.toReal(image[k])
  {
  }

  /** A vignette with only zero coefficients keeps an image exactly when it leaves it alone
      or every colour value survives being read and stored. */
  lemma FlatVignette(a: Arithmetic, e: Effect, image: seq<Half>, width: nat, height: nat)
    requires e.Brighten? && Sensible(e) && width > 0 && height > 0 && Sized(image, width, height)
    requires forall i :: 0 <= i < 5 ==> a.valueOf(e.k[i]) == 0.0
    ensures Apply(a, e, image, width, height) == image <==> Degenerate(a, e, width, height) || Exact(a, image, 3)
  {
    forall k: nat | k < |image|
      ensures Apply(a, e, image, width, height)[k]
           == if Degenerate(a, e, width, height) || C(k) == 3 then image[k] else a.toHalf(a.toReal(image[k]))
    {
      if !Degenerate(a, e, width, height) {
        UnitGain(a, e, width, height, X(width, k), Y(width, k));
      }
    }
    SameImage(image, Apply(a, e, image, width, height));
  }

  lemma UnitGain(a: Arithmetic, e: Effect, width: nat, height: nat, x: nat, y: nat)
    requires e.Brighten? && |e.k| == 5 && !Degenerate(a, e, width, height)
    requires forall i :: 0 <= i < 5 ==> a.valueOf(e.k[i]) == 0.0
    ensures Gain(a, e, width, height, x, y) == 1.0
  {
  }

  /** A sum of so many values, each between the bounds. */
  ghost predicate SumWithin(r: (real, nat), lo: real, hi: real)
  {
    r.1 as real * lo <= r.0 <= r.1 as real * hi
  }

  lemma OneMoreValue(sum: real, count: nat, v: real, lo: real, hi: real)
    requires SumWithin((sum, count), lo, hi) && lo <= v <= hi
    ensures SumWithin((sum + v, count + 1), lo, hi)
  {
    assert (count + 1) as real == count as real + 1.0;
  }

  lemma MeanWithin(sum: real, count: nat, lo: real, hi: real)
    requires count > 0 && SumWithin((sum, count), lo, hi)
    ensures lo <= sum / count as real <= hi
  {
    var n, q := count as real, sum / count as real;
    assert n * q == sum;
    assert q < lo ==> n * (lo - q) > 0.0;
    assert q > hi ==> n * (q - hi) > 0.0;
  }

  /** Every neighbour that exists lies between the bounds. */
  ghost predicate NeighbourWithin(a: Arithmetic, image: seq<Half>, width: nat, height: nat, x: int, y: int, c: nat,
                                  lo: real, hi: real, i: nat)
    requires width > 0 && height > 0 && c < 4 && Sized(image, width, height) && i < 4
  {
    Inside(width, height, x + DX[i], y + DY[i]) ==> lo <= Sample(a, image, width, height, x + DX[i], y + DY[i], c) <= hi
  }

  lemma NextNeighbour(a: Arithmetic, image: seq<Half>, width: nat, height: nat, x: int, y: int, c: nat, lo: real,
                      hi: real, n: nat)
    requires width > 0 && height > 0 && c < 4 && Sized(image, width, height) && n < 4
    requires NeighbourWithin(a, image, width, height, x, y, c, lo, hi, n)
    requires SumWithin(Neighbours(a, image, width, height, x, y, c, n), lo, hi)
    ensures SumWithin(Neighbours(a, image, width, height, x, y, c, n + 1), lo, hi)
  {
    var (sum, count) := Neighbours(a, image, width, height, x, y, c, n);
    if Inside(width, height, x + DX[n], y + DY[n]) {
      OneMoreValue(sum, count, Sample(a, image, width, height, x + DX[n], y + DY[n], c), lo, hi);
    }
  }

  /** A pixel of an image of more than one pixel has a neighbour; a lone pixel has none. */
  lemma HasNeighbour(a: Arithmetic, image: seq<Half>, width: nat, height: nat, x: int, y: int, c: nat)
    requires c < 4 && Sized(image, width, height) && Inside(width, height, x, y)
    ensures Neighbours(a, image, width, height, x, y, c, 4).1 > 0 <==> width > 1 || height > 1
  {
    NeighbourCounts(a, image, width, height, x, y, c, 1);
    NeighbourCounts(a, image, width, height, x, y, c, 2);
    NeighbourCounts(a, image, width, height, x, y, c, 3);
    NeighbourCounts(a, image, width, height, x, y, c, 4);
  }

  lemma NeighbourCounts(a: Arithmetic, image: seq<Half>, width: nat, height: nat, x: int, y: int, c: nat, i: nat)
    requires width > 0 && height > 0 && c < 4 && Sized(image, width, height) && 0 < i <= 4
    ensures Neighbours(a, image, width, height, x, y, c, i).1 ==
            Neighbours(a, image, width, height, x, y, c, i - 1).1 +
            if Inside(width, height, x + DX[i - 1], y + DY[i - 1]) then 1 else 0
  {
  }

  /** A patched value lies between the smallest and the largest neighbour it was made from;
      only a lone pixel has none, and keeps its value. */
  lemma PatchWithin(a: Arithmetic, image: seq<Half>, width: nat, height: nat, x: int, y: int, c: nat, lo: real,
                    hi: real)
    requires c < 4 && Sized(image, width, height) && Inside(width, height, x, y)
    requires forall i: nat :: i < 4 ==> NeighbourWithin(a, image, width, height, x, y, c, lo, hi, i)
    ensures if width > 1 || height > 1 then lo <= PatchedChannel(a, image, width, height, x, y, c) <= hi
            else PatchedChannel(a, image, width, height, x, y, c) == Sample(a, image, width, height, x, y, c)
  {
    HasNeighbour(a, image, width, height, x, y, c);
    NextNeighbour(a, image, width, height, x, y, c, lo, hi, 0);
    NextNeighbour(a, image, width, height, x, y, c, lo, hi, 1);
    NextNeighbour(a, image, width, height, x, y, c, lo, hi, 2);
    NextNeighbour(a, image, width, height, x, y, c, lo, hi, 3);
    var (sum, count) := Neighbours(a, image, width, height, x, y, c, 4);
    if count > 0 {
      MeanWithin(sum, count, lo, hi);
    }
  }

  // ---------------------------------------------------------------- bad-pixel lists

  /** Exactly when a rect's visited pixels are the ones it names. It fails when a corner
      of 2^31 or more is read as negative: a huge bottom or right empties a rect that
      names pixels, and a huge top or left starts the visit at zero. */
  ghost predicate SignSafe(r: Rect, width: nat, height: nat)
  {
    var bottom, right := AtLeast0(Min(AsInt(r.bottom), height)), AtLeast0(Min(AsInt(r.right), width));
    && !(r.top < Min(r.bottom, height) && r.left < Min(r.right, width) &&
         (r.bottom >= 0x8000_0000 || r.right >= 0x8000_0000))
    && !(AtLeast0(Min(AsInt(r.top), height)) < bottom && AtLeast0(Min(AsInt(r.left), width)) < right &&
         (r.top >= 0x8000_0000 || r.left >= 0x8000_0000))
  }

  lemma RectVisitsItsPixels(r: Rect, width: nat, height: nat)
    requires 0 < width < 0x8000_0000 && 0 < height < 0x8000_0000
    ensures SignSafe(r, width, height) <==>
            forall x, y :: Inside(width, height, x, y) ==> (RectVisits(r, width, height, x, y) <==> Covers(r, x, y))
  {
    if r.top < Min(r.bottom, height) && r.left < Min(r.right, width) &&
      (r.bottom >= 0x8000_0000 || r.right >= 0x8000_0000) {
      assert Inside(width, height, r.left, r.top) && Covers(r, r.left, r.top) &&
        !RectVisits(r, width, height, r.left, r.top);
    }
    var x0, y0 := AtLeast0(Min(AsInt(r.left), width)), AtLeast0(Min(AsInt(r.top), height));
    var bottom, right := AtLeast0(Min(AsInt(r.bottom), height)), AtLeast0(Min(AsInt(r.right), width));
    if y0 < bottom && x0 < right && (r.top >= 0x8000_0000 || r.left >= 0x8000_0000) {
      assert Inside(width, height, x0, y0) && RectVisits(r, width, height, x0, y0) && !Covers(r, x0, y0);
    }
  }

  lemma BelowSignBitIsSafe(r: Rect, width: nat, height: nat)
    requires r.top < 0x8000_0000 && r.left < 0x8000_0000 && r.bottom < 0x8000_0000 && r.right < 0x8000_0000
    ensures SignSafe(r, width, height)
  {
  }

  /** A rect that names every pixel of an image and visits none. */
  lemma HugeRectVisitsNothing(width: nat, height: nat)
    requires 0 < width < 0x8000_0000 && 0 < height < 0x8000_0000
    ensures var r := Rect(0, 0, 0x8000_0000, 0x8000_0000);
      forall x, y :: Inside(width, height, x, y) ==> Covers(r, x, y) && !RectVisits(r, width, height, x, y)
  {
  }

  lemma VisitedIsNamed(points: seq<Point>, rects: seq<Rect>, width: nat, height: nat, x: int, y: int)
    requires 0 < width < 0x8000_0000 && 0 < height < 0x8000_0000 && Inside(width, height, x, y)
    requires forall i :: 0 <= i < |rects| ==> SignSafe(rects[i], width, height)
    ensures Visited(points, rects, width, height, x, y) <==> Named(points, rects, x, y)
  {
    forall i | 0 <= i < |points| ensures PointVisits(points[i], x, y) <==> points[i].column == x && points[i].row == y {
    }
    forall i | 0 <= i < |rects| ensures RectVisits(rects[i], width, height, x, y) <==> Covers(rects[i], x, y) {
      RectVisitsItsPixels(rects[i], width, height);
    }
  }

  /** Set semantics of a bad-pixel list: a pixel is patched from the source image exactly
      when some point or rect names it, whatever the order or repeats; alpha never changes. */
  lemma BadListHasSetSemantics(a: Arithmetic, points: seq<Point>, rects: seq<Rect>, image: seq<Half>, width: nat,
                               height: nat, x: nat, y: nat, c: nat)
    requires 0 < width < 0x8000_0000 && 0 < height < 0x8000_0000 && Sized(image, width, height)
    requires x < width && y < height && c < 4
    requires forall i :: 0 <= i < |rects| ==> SignSafe(rects[i], width, height)
    ensures var k := Offset(width, x, y, c);
      && k < |image|
      && Apply(a, PatchListed(points, rects), image, width, height)[k]
         == if c < 3 && Named(points, rects, x, y) then a.toHalf(PatchedChannel(a, image, width, height, x, y, c))
           else image[k]
  {
    OffsetDecodes(width, height, x, y, c);
    VisitedIsNamed(points, rects, width, height, x, y);
  }

  /** Lists with the same points and the same rects, in any order and with any repeats, make the same image. */
  lemma BadListIgnoresOrder(a: Arithmetic, points: seq<Point>, rects: seq<Rect>, points': seq<Point>, rects': seq<Rect>,
                            image: seq<Half>, width: nat, height: nat)
    requires width > 0 && height > 0 && Sized(image, width, height)
    requires (forall p :: p in points <==> p in points') && (forall r :: r in rects <==> r in rects')
    ensures Apply(a, PatchListed(points, rects), image, width, height) ==
      Apply(a, PatchListed(points', rects'), image, width, height)
  {
    forall x, y ensures Visited(points, rects, width, height, x, y) <==> Visited(points', rects', width, height, x, y) {
      SameVisits(points, rects, points', rects', width, height, x, y);
      SameVisits(points', rects', points, rects, width, height, x, y);
    }
  }

  lemma SameVisits(points: seq<Point>, rects: seq<Rect>, points': seq<Point>, rects': seq<Rect>, width: nat,
                   height: nat, x: int, y: int)
    requires (forall p :: p in points ==> p in points') && (forall r :: r in rects ==> r in rects')
    ensures Visited(points, rects, width, height, x, y) ==> Visited(points', rects', width, height, x, y)
  {
    if i :| 0 <= i < |points| && PointVisits(points[i], x, y) {
      assert points[i] in points';
    }
    if i :| 0 <= i < |rects| && RectVisits(rects[i], width, height, x, y) {
      assert rects[i] in rects';
    }
  }
}
