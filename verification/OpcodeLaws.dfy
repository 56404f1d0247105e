/** Laws of the pixel formulas of the opcodes: what the position a warped pixel is read from, the gain of a
    vignette, a bicubic sample and a patched value are, said without the formulas themselves. */
module OpcodeLaws {
  import opened Bytes
  import opened OpcodeList3
  import opened OpcodeImage

  // ---------------------------------------------------------------- warp

  /** The coefficients of R are the sums of those of P and Q. */
  ghost predicate Sums(a: Arithmetic, p: Coefficient, q: Coefficient, r: Coefficient)
  {
    && a.valueOf(r.kr0) == a.valueOf(p.kr0) + a.valueOf(q.kr0)
    && a.valueOf(r.kr1) == a.valueOf(p.kr1) + a.valueOf(q.kr1)
    && a.valueOf(r.kr2) == a.valueOf(p.kr2) + a.valueOf(q.kr2)
    && a.valueOf(r.kr3) == a.valueOf(p.kr3) + a.valueOf(q.kr3)
    && a.valueOf(r.kt0) == a.valueOf(p.kt0) + a.valueOf(q.kt0)
    && a.valueOf(r.kt1) == a.valueOf(p.kt1) + a.valueOf(q.kt1)
  }

  ghost predicate NoRadial(a: Arithmetic, p: Coefficient)
  {
    a.valueOf(p.kr0) == 0.0 && a.valueOf(p.kr1) == 0.0 && a.valueOf(p.kr2) == 0.0 && a.valueOf(p.kr3) == 0.0
  }

  ghost predicate NoTangential(a: Arithmetic, p: Coefficient)
  {
    a.valueOf(p.kt0) == 0.0 && a.valueOf(p.kt1) == 0.0
  }

  function Square(v: real): real { v * v }

  function Squared(dx: real, dy: real): real { Square(dx) + Square(dy) }

  lemma PositionFrom(a: Arithmetic, p: Coefficient, cx: real, cy: real, m: real, dx: real, dy: real, sx: real, sy: real)
    requires WarpSource(a, p, dx, dy).0 == sx && WarpSource(a, p, dx, dy).1 == sy
    ensures WarpPosition(a, p, cx, cy, m, dx, dy).0 == Placed(cx, m, sx)
    ensures WarpPosition(a, p, cx, cy, m, dx, dy).1 == Placed(cy, m, sy)
  {
  }

  /** The distance of the position from the centre is additive in the six coefficients. */
  lemma WarpIsAdditive(a: Arithmetic, p: Coefficient, q: Coefficient, r: Coefficient, cx: real, cy: real, m: real,
                       dx: real, dy: real)
    returns (px: real, py: real, qx: real, qy: real)
    requires Sums(a, p, q, r)
    ensures WarpPosition(a, p, cx, cy, m, dx, dy).0 == Placed(cx, m, px)
    ensures WarpPosition(a, p, cx, cy, m, dx, dy).1 == Placed(cy, m, py)
    ensures WarpPosition(a, q, cx, cy, m, dx, dy).0 == Placed(cx, m, qx)
    ensures WarpPosition(a, q, cx, cy, m, dx, dy).1 == Placed(cy, m, qy)
    ensures WarpPosition(a, r, cx, cy, m, dx, dy).0 == Placed(cx, m, px + qx)
    ensures WarpPosition(a, r, cx, cy, m, dx, dy).1 == Placed(cy, m, py + qy)
  {
    px, py := WarpSource(a, p, dx, dy).0, WarpSource(a, p, dx, dy).1;
    qx, qy := WarpSource(a, q, dx, dy).0, WarpSource(a, q, dx, dy).1;
    SourceSums(a, p, q, r, dx, dy);
    PositionFrom(a, p, cx, cy, m, dx, dy, px, py);
    PositionFrom(a, q, cx, cy, m, dx, dy, qx, qy);
    PositionFrom(a, r, cx, cy, m, dx, dy, px + qx, py + qy);
  }

  lemma Distributes(m: real, s: real, t: real, u: real)
    requires u == s + t
    ensures m * u == m * s + m * t && u * m == s * m + t * m
  {
  }

  lemma ScaledSums(s: real, t: real, d: real)
    ensures Scaled(s + t, d) == Scaled(s, d) + Scaled(t, d)
  {
  }

  lemma SourceSums(a: Arithmetic, p: Coefficient, q: Coefficient, r: Coefficient, dx: real, dy: real)
    requires Sums(a, p, q, r)
    ensures var s, t, u := WarpSource(a, p, dx, dy), WarpSource(a, q, dx, dy), WarpSource(a, r, dx, dy);
      u.0 == s.0 + t.0 && u.1 == s.1 + t.1
  {
    var r2 := Squared(dx, dy);
    var fp := Radial(a.valueOf(p.kr0), a.valueOf(p.kr1), a.valueOf(p.kr2), a.valueOf(p.kr3), r2);
    var fq := Radial(a.valueOf(q.kr0), a.valueOf(q.kr1), a.valueOf(q.kr2), a.valueOf(q.kr3), r2);
    RadialSums(a, p, q, r, r2);
    ScaledSums(fp, fq, dx);
    ScaledSums(fp, fq, dy);
    TangentialSums(a.valueOf(p.kt0), a.valueOf(p.kt1), a.valueOf(q.kt0), a.valueOf(q.kt1), dx, dy, r2);
  }

  lemma RadialSums(a: Arithmetic, p: Coefficient, q: Coefficient, r: Coefficient, r2: real)
    requires Sums(a, p, q, r)
    ensures Radial(a.valueOf(r.kr0), a.valueOf(r.kr1), a.valueOf(r.kr2), a.valueOf(r.kr3), r2) ==
            Radial(a.valueOf(p.kr0), a.valueOf(p.kr1), a.valueOf(p.kr2), a.valueOf(p.kr3), r2) +
            Radial(a.valueOf(q.kr0), a.valueOf(q.kr1), a.valueOf(q.kr2), a.valueOf(q.kr3), r2)
  {
    Distributes(r2, a.valueOf(p.kr1), a.valueOf(q.kr1), a.valueOf(r.kr1));
    Distributes(r2 * r2, a.valueOf(p.kr2), a.valueOf(q.kr2), a.valueOf(r.kr2));
    Distributes(r2 * r2 * r2, a.valueOf(p.kr3), a.valueOf(q.kr3), a.valueOf(r.kr3));
  }

  lemma TangentialSums(p0: real, p1: real, q0: real, q1: real, dx: real, dy: real, r2: real)
    ensures TangentialX(p0 + q0, p1 + q1, dx, dy, r2) ==
            TangentialX(p0, p1, dx, dy, r2) + TangentialX(q0, q1, dx, dy, r2)
    ensures TangentialY(p0 + q0, p1 + q1, dx, dy, r2) ==
            TangentialY(p0, p1, dx, dy, r2) + TangentialY(q0, q1, dx, dy, r2)
  {
    Distributes(2.0 * (dx * dy), p0, q0, p0 + q0);
    Distributes(2.0 * (dx * dy), p1, q1, p1 + q1);
    Distributes(r2 + 2.0 * dx * dx, p1, q1, p1 + q1);
    Distributes(r2 + 2.0 * dy * dy, p0, q0, p0 + q0);
    CrossTerm(p0, dx, dy);
    CrossTerm(q0, dx, dy);
    CrossTerm(p0 + q0, dx, dy);
    CrossTerm(p1, dx, dy);
    CrossTerm(q1, dx, dy);
    CrossTerm(p1 + q1, dx, dy);
  }

  lemma CrossTerm(k: real, dx: real, dy: real)
    ensures 2.0 * k * dx * dy == 2.0 * (dx * dy) * k
  {
  }

  /** kr0 + kr1 r^2 + kr2 r^4 + kr3 r^6. */
  function Stretch(a: Arithmetic, p: Coefficient, r2: real): real
  {
    a.valueOf(p.kr0) + r2 * (a.valueOf(p.kr1) + r2 * (a.valueOf(p.kr2) + r2 * a.valueOf(p.kr3)))
  }

  /** Without tangential coefficients the position lies on the ray through the pixel, at that many times its distance
      from the centre. */
  lemma RadialWarp(a: Arithmetic, p: Coefficient, cx: real, cy: real, m: real, dx: real, dy: real)
    requires NoTangential(a, p)
    ensures var f := Stretch(a, p, Squared(dx, dy));
      var s := WarpPosition(a, p, cx, cy, m, dx, dy);
      s.0 - cx == f * (m * dx) && s.1 - cy == f * (m * dy)
  {
    var f := Stretch(a, p, Squared(dx, dy));
    RadialSource(a, p, dx, dy);
    PositionFrom(a, p, cx, cy, m, dx, dy, f * dx, f * dy);
    Swap(m, f, dx);
    Swap(m, f, dy);
  }

  lemma Swap(m: real, f: real, v: real)
    ensures m * (f * v) == f * (m * v)
  {
  }

  lemma RadialSource(a: Arithmetic, p: Coefficient, dx: real, dy: real)
    requires NoTangential(a, p)
    ensures WarpSource(a, p, dx, dy).0 == Stretch(a, p, Squared(dx, dy)) * dx
    ensures WarpSource(a, p, dx, dy).1 == Stretch(a, p, Squared(dx, dy)) * dy
  {
    Horner(a.valueOf(p.kr0), a.valueOf(p.kr1), a.valueOf(p.kr2), a.valueOf(p.kr3), Squared(dx, dy));
    NoTangent(dx, dy, Squared(dx, dy));
  }

  lemma NoTangent(dx: real, dy: real, r2: real)
    ensures TangentialX(0.0, 0.0, dx, dy, r2) == 0.0 && TangentialY(0.0, 0.0, dx, dy, r2) == 0.0
  {
  }

  lemma NoRadius(r2: real)
    ensures Radial(0.0, 0.0, 0.0, 0.0, r2) == 0.0
  {
  }

  lemma Horner(k0: real, k1: real, k2: real, k3: real, r2: real)
    ensures Radial(k0, k1, k2, k3, r2) == k0 + r2 * (k1 + r2 * (k2 + r2 * k3))
  {
    var inner := k2 + r2 * k3;
    assert r2 * (k1 + r2 * inner) == k1 * r2 + r2 * r2 * inner;
    assert r2 * r2 * inner == k2 * (r2 * r2) + k3 * (r2 * r2 * r2);
  }

  /** Without radial coefficients, and for t = (kt1, kt0) and the pixel d, the position is r^2 t + 2 (t . d) d away
      from the centre. */
  lemma TangentialWarp(a: Arithmetic, p: Coefficient, cx: real, cy: real, m: real, dx: real, dy: real)
    requires NoRadial(a, p)
    ensures var kt0, kt1 := a.valueOf(p.kt0), a.valueOf(p.kt1);
      var s := WarpPosition(a, p, cx, cy, m, dx, dy);
      var along := kt1 * dx + kt0 * dy;
      && s.0 == Placed(cx, m, Squared(dx, dy) * kt1 + 2.0 * (along * dx))
      && s.1 == Placed(cy, m, Squared(dx, dy) * kt0 + 2.0 * (along * dy))
  {
    var kt0, kt1 := a.valueOf(p.kt0), a.valueOf(p.kt1);
    TangentialSource(a, p, dx, dy);
    TangentVector(kt0, kt1, dx, dy);
    var r2, along := Squared(dx, dy), kt1 * dx + kt0 * dy;
    PositionFrom(a, p, cx, cy, m, dx, dy, r2 * kt1 + 2.0 * (along * dx), r2 * kt0 + 2.0 * (along * dy));
  }

  /** On the horizontal axis kt0 so moves a pixel by kt0 dx^2 vertically, on the vertical axis by 3 kt0 dy^2, and not
      horizontally; for kt1 the axes change roles. */
  lemma TangentialWarpOnAxes(a: Arithmetic, p: Coefficient, cx: real, cy: real, m: real, d: real)
    requires NoRadial(a, p)
    ensures var kt0, kt1 := a.valueOf(p.kt0), a.valueOf(p.kt1);
      var s, t := WarpPosition(a, p, cx, cy, m, d, 0.0), WarpPosition(a, p, cx, cy, m, 0.0, d);
      && s.0 == Placed(cx, m, 3.0 * (kt1 * Square(d))) && s.1 == Placed(cy, m, kt0 * Square(d))
      && t.0 == Placed(cx, m, kt1 * Square(d)) && t.1 == Placed(cy, m, 3.0 * (kt0 * Square(d)))
  {
    var kt0, kt1 := a.valueOf(p.kt0), a.valueOf(p.kt1);
    TangentialSource(a, p, d, 0.0);
    TangentialSource(a, p, 0.0, d);
    HorizontalAxis(kt0, kt1, d);
    VerticalAxis(kt0, kt1, d);
    PositionFrom(a, p, cx, cy, m, d, 0.0, 3.0 * (kt1 * Square(d)), kt0 * Square(d));
    PositionFrom(a, p, cx, cy, m, 0.0, d, kt1 * Square(d), 3.0 * (kt0 * Square(d)));
  }

  lemma TangentialSource(a: Arithmetic, p: Coefficient, dx: real, dy: real)
    requires NoRadial(a, p)
    ensures var kt0, kt1 := a.valueOf(p.kt0), a.valueOf(p.kt1);
      && WarpSource(a, p, dx, dy).0 == TangentialX(kt0, kt1, dx, dy, Squared(dx, dy))
      && WarpSource(a, p, dx, dy).1 == TangentialY(kt0, kt1, dx, dy, Squared(dx, dy))
  {
    NoRadius(Squared(dx, dy));
  }

  lemma TangentVector(kt0: real, kt1: real, dx: real, dy: real)
    ensures var r2, along := Squared(dx, dy), kt1 * dx + kt0 * dy;
      && TangentialX(kt0, kt1, dx, dy, r2) == r2 * kt1 + 2.0 * (along * dx)
      && TangentialY(kt0, kt1, dx, dy, r2) == r2 * kt0 + 2.0 * (along * dy)
  {
    var r2, along := Squared(dx, dy), kt1 * dx + kt0 * dy;
    assert along * dx == kt1 * (dx * dx) + kt0 * (dx * dy);
    assert along * dy == kt1 * (dx * dy) + kt0 * (dy * dy);
    CrossTerm(kt0, dx, dy);
    CrossTerm(kt1, dx, dy);
    Distributes(kt1, r2, 2.0 * dx * dx, r2 + 2.0 * dx * dx);
    Distributes(kt0, r2, 2.0 * dy * dy, r2 + 2.0 * dy * dy);
    assert kt1 * (2.0 * dx * dx) == 2.0 * (kt1 * (dx * dx)) && kt0 * (2.0 * dy * dy) == 2.0 * (kt0 * (dy * dy));
  }

  lemma HorizontalAxis(kt0: real, kt1: real, dx: real)
    ensures TangentialX(kt0, kt1, dx, 0.0, Squared(dx, 0.0)) == 3.0 * (kt1 * Square(dx))
    ensures TangentialY(kt0, kt1, dx, 0.0, Squared(dx, 0.0)) == kt0 * Square(dx)
  {
  }

  lemma VerticalAxis(kt0: real, kt1: real, dy: real)
    ensures TangentialX(kt0, kt1, 0.0, dy, Squared(0.0, dy)) == kt1 * Square(dy)
    ensures TangentialY(kt0, kt1, 0.0, dy, Squared(0.0, dy)) == 3.0 * (kt0 * Square(dy))
  {
  }

  /** The centre is at the given fractions of the image. */
  lemma CentreIsAtFractions(a: Arithmetic, e: Effect, width: nat, height: nat)
    requires (e.Distort? || e.Brighten?) && width > 0 && height > 0
    ensures var (cx, cy, m) := Centre(a, e, width, height);
      && cx == a.valueOf(if e.Distort? then e.wx else e.vx) * (width - 1) as real
      && cy == a.valueOf(if e.Distort? then e.wy else e.vy) * (height - 1) as real
      && m == a.sqrt(Farthest(cx, cy, width, height))
  {
    var (cx, cy, _) := Centre(a, e, width, height);
    UnitIsFarthestCorner(a, cx, cy, width, height);
  }

  /** A warp or a vignette leaves an image alone that is a line or a point, or whose farthest corner is not farther from
      the centre than the machine epsilon, and a warp one for which no plane is given. */
  lemma DegenerateExactly(a: Arithmetic, e: Effect, width: nat, height: nat)
    requires (e.Distort? || e.Brighten?) && width > 0 && height > 0
    ensures Degenerate(a, e, width, height) <==>
      || width == 1 || height == 1 || (e.Distort? && e.planes == [])
      || Centre(a, e, width, height).2 <= 0.0000000000000002220446049250313
  {
  }

  lemma LeftAlone(a: Arithmetic, e: Effect, image: seq<Half>, width: nat, height: nat)
    requires (e.Distort? || e.Brighten?) && Sensible(e) && width > 0 && height > 0 && Sized(image, width, height)
    requires Degenerate(a, e, width, height)
    ensures Apply(a, e, image, width, height) == image
  {
  }

  /** A warped value is the bicubic sample at that position, with the plane of its channel, or the last one. */
  lemma WarpedValue(a: Arithmetic, e: Effect, image: seq<Half>, width: nat, height: nat, x: nat, y: nat, c: nat)
    requires e.Distort? && Sensible(e) && x < width && y < height && c < 4 && Sized(image, width, height)
    requires !Degenerate(a, e, width, height)
    ensures Offset(width, x, y, c) < |image|
    ensures var (cx, cy, m) := Centre(a, e, width, height);
      var plane := if c < |e.planes| then e.planes[c] else e.planes[|e.planes| - 1];
      var at := WarpPosition(a, plane, cx, cy, m, (x as real - cx) / m, (y as real - cy) / m);
      Apply(a, e, image, width, height)[Offset(width, x, y, c)] ==
      a.toHalf(SampleBicubic(a, image, width, height, at.0, at.1, c))
  {
    OffsetDecodes(width, height, x, y, c);
  }

  // ---------------------------------------------------------------- vignette

  function Power(b: real, n: nat): (p: real)
  {
    if n == 0 then 1.0 else b * Power(b, n - 1)
  }

  function Term(k: real, power: real): real { k * power }

  /** k0 r^2 + k1 r^4 + ..., the first n terms. */
  function Series(a: Arithmetic, k: seq<Double>, r2: real, n: nat): (sum: real)
    requires n <= |k|
  {
    if n == 0 then 0.0 else Series(a, k, r2, n - 1) + Term(a.valueOf(k[n - 1]), Power(r2, n))
  }

  lemma Powers(b: real)
    ensures Power(b, 1) == b && Power(b, 2) == b * b && Power(b, 3) == b * b * b
    ensures Power(b, 4) == b * b * (b * b) && Power(b, 5) == b * b * (b * b) * b
  {
    assert Power(b, 1) == b * Power(b, 0) && Power(b, 2) == b * Power(b, 1) && Power(b, 3) == b * Power(b, 2);
    assert Power(b, 4) == b * Power(b, 3) && Power(b, 5) == b * Power(b, 4);
    Fourth(b);
  }

  lemma Fourth(b: real)
    ensures b * (b * (b * b)) == b * b * (b * b) && b * (b * (b * (b * b))) == b * b * (b * b) * b
  {
  }

  lemma FiveTerms(a: Arithmetic, k: seq<Double>, r2: real)
    requires |k| == 5
    ensures Series(a, k, r2, 5) ==
            Term(a.valueOf(k[0]), Power(r2, 1)) + Term(a.valueOf(k[1]), Power(r2, 2)) +
            Term(a.valueOf(k[2]), Power(r2, 3)) + Term(a.valueOf(k[3]), Power(r2, 4)) +
            Term(a.valueOf(k[4]), Power(r2, 5))
  {
    NextTerm(a, k, r2, 0);
    NextTerm(a, k, r2, 1);
    NextTerm(a, k, r2, 2);
    NextTerm(a, k, r2, 3);
    NextTerm(a, k, r2, 4);
  }

  lemma NextTerm(a: Arithmetic, k: seq<Double>, r2: real, n: nat)
    requires n < |k|
    ensures Series(a, k, r2, n + 1) == Series(a, k, r2, n) + Term(a.valueOf(k[n]), Power(r2, n + 1))
  {
  }

  /** A vignette scales the colours of a pixel, and not its alpha. */
  lemma VignettedValue(a: Arithmetic, e: Effect, image: seq<Half>, width: nat, height: nat, x: nat, y: nat, c: nat)
    requires e.Brighten? && Sensible(e) && x < width && y < height && c < 4 && Sized(image, width, height)
    requires !Degenerate(a, e, width, height)
    ensures Offset(width, x, y, c) < |image|
    ensures var k := Offset(width, x, y, c);
      Apply(a, e, image, width, height)[k] ==
      if c == 3 then image[k] else Brightened(a, image[k], Gain(a, e, width, height, x, y))
  {
    OffsetDecodes(width, height, x, y, c);
    VignettedAt(a, e, image, width, height, Offset(width, x, y, c));
  }

  lemma VignettedAt(a: Arithmetic, e: Effect, image: seq<Half>, width: nat, height: nat, k: nat)
    requires e.Brighten? && Sensible(e) && width > 0 && height > 0 && Sized(image, width, height) && k < |image|
    requires !Degenerate(a, e, width, height)
    ensures Apply(a, e, image, width, height)[k] ==
      if C(k) == 3 then image[k] else Brightened(a, image[k], Gain(a, e, width, height, X(width, k), Y(width, k)))
  {
  }

  /** The scale is 1 + k0 r^2 + k1 r^4 + k2 r^6 + k3 r^8 + k4 r^10, where r is the distance from the centre relative to
      the farthest corner. */
  lemma GainIsSeries(a: Arithmetic, e: Effect, width: nat, height: nat, x: nat, y: nat)
    requires e.Brighten? && |e.k| == 5 && !Degenerate(a, e, width, height)
    ensures var (cx, cy, m) := Centre(a, e, width, height);
      Gain(a, e, width, height, x, y) == 1.0 + Series(a, e.k, Squared((x as real - cx) / m, (y as real - cy) / m), 5)
  {
    var (cx, cy, m) := Centre(a, e, width, height);
    var r2 := Squared((x as real - cx) / m, (y as real - cy) / m);
    FiveTerms(a, e.k, r2);
    Powers(r2);
  }

  // ---------------------------------------------------------------- the unit of distance

  /** The largest squared distance of a corner from the centre. */
  ghost function Farthest(cx: real, cy: real, width: nat, height: nat): (far: real)
    ensures var x1, y1 := width as real - 1.0, height as real - 1.0;
      && far >= Squared(cx, cy) && far >= Squared(x1 - cx, cy) && far >= Squared(cx, y1 - cy)
      && far >= Squared(x1 - cx, y1 - cy)
      && (far == Squared(cx, cy) || far == Squared(x1 - cx, cy) || far == Squared(cx, y1 - cy) ||
          far == Squared(x1 - cx, y1 - cy))
  {
    var x1, y1 := width as real - 1.0, height as real - 1.0;
    var top := if Squared(cx, cy) >= Squared(x1 - cx, cy) then Squared(cx, cy) else Squared(x1 - cx, cy);
    var bottom := if Squared(cx, y1 - cy) >= Squared(x1 - cx, y1 - cy) then Squared(cx, y1 - cy)
                  else Squared(x1 - cx, y1 - cy);
    if top >= bottom then top else bottom
  }

  /** The unit of distance is its root. */
  lemma UnitIsFarthestCorner(a: Arithmetic, cx: real, cy: real, width: nat, height: nat)
    ensures MaxCornerDistance(a, cx, cy, width, height) == a.sqrt(Farthest(cx, cy, width, height))
  {
  }

  /** No pixel is farther from the centre. */
  lemma NoPixelIsFarther(cx: real, cy: real, width: nat, height: nat, x: nat, y: nat)
    requires x < width && y < height
    ensures Squared(x as real - cx, y as real - cy) <= Farthest(cx, cy, width, height)
  {
    var x1, y1 := width as real - 1.0, height as real - 1.0;
    Between(x as real, x1, cx);
    Between(y as real, y1, cy);
    SumBelow(Square(x as real - cx), Square(y as real - cy), Square(cx), Square(x1 - cx), Square(cy), Square(y1 - cy),
             Farthest(cx, cy, width, height));
  }

  lemma SumBelow(u: real, v: real, p: real, q: real, r: real, s: real, far: real)
    requires (u <= p || u <= q) && (v <= r || v <= s)
    requires p + r <= far && q + r <= far && p + s <= far && q + s <= far
    ensures u + v <= far
  {
  }

  /** Between two ends, one of them is at least as far. */
  lemma Between(v: real, end: real, c: real)
    requires 0.0 <= v <= end
    ensures Square(v - c) <= Square(c) || Square(v - c) <= Square(end - c)
  {
    if v <= c {
      Grows(c - v, c);
      assert Square(v - c) == Square(c - v);
    } else {
      Grows(v - c, end - c);
    }
  }

  lemma Grows(a: real, b: real)
    requires 0.0 <= a <= b
    ensures Square(a) <= Square(b)
  {
    assert Square(b) - Square(a) == (b - a) * (b + a);
  }

  // ---------------------------------------------------------------- cubic interpolation

  function Quadratic(c0: real, c1: real, c2: real, t: real): real { c0 + c1 * t + c2 * (t * t) }

  /** The curve through p1 at 0 and p2 at 1 whose slopes there are those of the chords between the neighbours. */
  lemma CubicIsHermite(p0: real, p1: real, p2: real, p3: real, t: real)
    ensures var t2 := t * t;
      var t3 := t2 * t;
      Cubic(p0, p1, p2, p3, t) ==
      p1 * (2.0 * t3 - 3.0 * t2 + 1.0) + p2 * (3.0 * t2 - 2.0 * t3) +
      (p2 - p0) / 2.0 * (t3 - 2.0 * t2 + t) + (p3 - p1) / 2.0 * (t3 - t2)
  {
  }

  lemma CubicAtOne(p0: real, p1: real, p2: real, p3: real)
    ensures Cubic(p0, p1, p2, p3, 1.0) == p2
  {
  }

  /** A parabola sampled at -1, 0, 1 and 2 is given back exactly. */
  lemma CubicKeepsQuadratics(c0: real, c1: real, c2: real, t: real)
    ensures Cubic(Quadratic(c0, c1, c2, -1.0), Quadratic(c0, c1, c2, 0.0), Quadratic(c0, c1, c2, 1.0),
                  Quadratic(c0, c1, c2, 2.0), t) == Quadratic(c0, c1, c2, t)
  {
  }

  lemma CubicIsLinear(p0: real, p1: real, p2: real, p3: real, s: real, t: real)
    ensures Cubic(s * p0, s * p1, s * p2, s * p3, t) == s * Cubic(p0, p1, p2, p3, t)
  {
  }

  datatype Curve = Curve(c0: real, c1: real, c2: real)

  function At(q: Curve, t: real): real { Quadratic(q.c0, q.c1, q.c2, t) }

  /** A parabola along each axis, multiplied. */
  function Product(across: Curve, down: Curve, x: real, y: real): real { At(across, x) * At(down, y) }

  ghost predicate SampleIs(a: Arithmetic, image: seq<Half>, width: nat, height: nat, ix: int, iy: int, c: nat,
                           across: Curve, down: Curve, sx: int, sy: int)
    requires width > 0 && height > 0 && c < 4 && Sized(image, width, height)
  {
    Sample(a, image, width, height, sx, sy, c) == Product(across, down, (sx - ix) as real, (sy - iy) as real)
  }

  /** The sixteen samples around a position are those of a product of two parabolas, one along each axis. */
  ghost predicate SamplesAre(a: Arithmetic, image: seq<Half>, width: nat, height: nat, ix: int, iy: int, c: nat,
                             across: Curve, down: Curve)
    requires width > 0 && height > 0 && c < 4 && Sized(image, width, height)
  {
    forall sx, sy :: ix - 1 <= sx <= ix + 2 && iy - 1 <= sy <= iy + 2 ==>
      SampleIs(a, image, width, height, ix, iy, c, across, down, sx, sy)
  }

  lemma RowKeepsQuadratics(a: Arithmetic, image: seq<Half>, width: nat, height: nat, ix: int, iy: int, sy: int, c: nat,
                           across: Curve, down: Curve, t: real, v: real)
    requires width > 0 && height > 0 && c < 4 && Sized(image, width, height) && iy - 1 <= sy <= iy + 2
    requires SamplesAre(a, image, width, height, ix, iy, c, across, down) && v == (sy - iy) as real
    ensures CubicRow(a, image, width, height, ix, sy, c, t) == Product(across, down, t, v)
  {
    assert SampleIs(a, image, width, height, ix, iy, c, across, down, ix - 1, sy);
    assert SampleIs(a, image, width, height, ix, iy, c, across, down, ix, sy);
    assert SampleIs(a, image, width, height, ix, iy, c, across, down, ix + 1, sy);
    assert SampleIs(a, image, width, height, ix, iy, c, across, down, ix + 2, sy);
    RowOfProduct(across, down, t, v, Sample(a, image, width, height, ix - 1, sy, c),
                 Sample(a, image, width, height, ix, sy, c), Sample(a, image, width, height, ix + 1, sy, c),
                 Sample(a, image, width, height, ix + 2, sy, c));
  }

  lemma RowOfProduct(across: Curve, down: Curve, s: real, t: real, r0: real, r1: real, r2: real, r3: real)
    requires r0 == Product(across, down, -1.0, t) && r1 == Product(across, down, 0.0, t)
    requires r2 == Product(across, down, 1.0, t) && r3 == Product(across, down, 2.0, t)
    ensures Cubic(r0, r1, r2, r3, s) == Product(across, down, s, t)
  {
    CubicIsLinear(At(across, -1.0), At(across, 0.0), At(across, 1.0), At(across, 2.0), At(down, t), s);
    CubicKeepsQuadratics(across.c0, across.c1, across.c2, s);
  }

  /** The four rows around a position. */
  ghost predicate RowsAre(a: Arithmetic, image: seq<Half>, width: nat, height: nat, ix: int, iy: int, c: nat, tx: real,
                          across: Curve, down: Curve)
    requires width > 0 && height > 0 && c < 4 && Sized(image, width, height)
  {
    && CubicRow(a, image, width, height, ix, iy - 1, c, tx) == Product(across, down, tx, -1.0)
    && CubicRow(a, image, width, height, ix, iy, c, tx) == Product(across, down, tx, 0.0)
    && CubicRow(a, image, width, height, ix, iy + 1, c, tx) == Product(across, down, tx, 1.0)
    && CubicRow(a, image, width, height, ix, iy + 2, c, tx) == Product(across, down, tx, 2.0)
  }

  lemma RowsFollow(a: Arithmetic, image: seq<Half>, width: nat, height: nat, ix: int, iy: int, c: nat, tx: real,
                   across: Curve, down: Curve)
    requires width > 0 && height > 0 && c < 4 && Sized(image, width, height)
    requires SamplesAre(a, image, width, height, ix, iy, c, across, down)
    ensures RowsAre(a, image, width, height, ix, iy, c, tx, across, down)
  {
    RowKeepsQuadratics(a, image, width, height, ix, iy, iy - 1, c, across, down, tx, -1.0);
    RowKeepsQuadratics(a, image, width, height, ix, iy, iy, c, across, down, tx, 0.0);
    RowKeepsQuadratics(a, image, width, height, ix, iy, iy + 1, c, across, down, tx, 1.0);
    RowKeepsQuadratics(a, image, width, height, ix, iy, iy + 2, c, across, down, tx, 2.0);
  }

  lemma BicubicFromRows(a: Arithmetic, image: seq<Half>, width: nat, height: nat, ix: int, iy: int, tx: real, ty: real,
                        c: nat, across: Curve, down: Curve)
    requires width > 0 && height > 0 && c < 4 && Sized(image, width, height)
    requires RowsAre(a, image, width, height, ix, iy, c, tx, across, down)
    ensures BicubicIn(a, image, width, height, ix, iy, tx, ty, c) == Product(across, down, tx, ty)
  {
    ColumnKeepsQuadratics(across, down, tx, ty, CubicRow(a, image, width, height, ix, iy - 1, c, tx),
                          CubicRow(a, image, width, height, ix, iy, c, tx),
                          CubicRow(a, image, width, height, ix, iy + 1, c, tx),
                          CubicRow(a, image, width, height, ix, iy + 2, c, tx));
  }

  lemma SampleInUnits(a: Arithmetic, image: seq<Half>, width: nat, height: nat, x: real, y: real, c: nat, value: real)
    requires width > 0 && height > 0 && c < 4 && Sized(image, width, height)
    requires 0.0 <= x <= width as real - 1.0 && 0.0 <= y <= height as real - 1.0
    requires BicubicIn(a, image, width, height, x.Floor, y.Floor, x - x.Floor as real, y - y.Floor as real, c) == value
    ensures SampleBicubic(a, image, width, height, x, y, c) == value
  {
  }

  /** A bicubic sample of such a product is its value at the position, the horizontal parabola taken along x and the
      vertical one along y. */
  lemma BicubicKeepsQuadratics(a: Arithmetic, image: seq<Half>, width: nat, height: nat, x: real, y: real, c: nat,
                               across: Curve, down: Curve)
    requires c < 4 && Sized(image, width, height) && 0.0 <= x <= width as real - 1.0 && 0.0 <= y <= height as real - 1.0
    requires width > 0 && height > 0 && SamplesAre(a, image, width, height, x.Floor, y.Floor, c, across, down)
    ensures SampleBicubic(a, image, width, height, x, y, c) ==
            Product(across, down, x - x.Floor as real, y - y.Floor as real)
  {
    var tx, ty := x - x.Floor as real, y - y.Floor as real;
    RowsFollow(a, image, width, height, x.Floor, y.Floor, c, tx, across, down);
    BicubicFromRows(a, image, width, height, x.Floor, y.Floor, tx, ty, c, across, down);
    SampleInUnits(a, image, width, height, x, y, c, Product(across, down, tx, ty));
  }

  lemma ColumnKeepsQuadratics(across: Curve, down: Curve, s: real, t: real, r0: real, r1: real, r2: real, r3: real)
    requires r0 == Product(across, down, s, -1.0) && r1 == Product(across, down, s, 0.0)
    requires r2 == Product(across, down, s, 1.0) && r3 == Product(across, down, s, 2.0)
    ensures Cubic(r0, r1, r2, r3, t) == Product(across, down, s, t)
  {
    CubicIsLinear(At(down, -1.0), At(down, 0.0), At(down, 1.0), At(down, 2.0), At(across, s), t);
    CubicKeepsQuadratics(down.c0, down.c1, down.c2, t);
  }

  /** A position outside the image reads the nearest one on its edge. */
  lemma EdgesRepeat(a: Arithmetic, image: seq<Half>, width: nat, height: nat, x: real, y: real, c: nat)
    requires width > 0 && height > 0 && c < 4 && Sized(image, width, height)
    ensures SampleBicubic(a, image, width, height, x, y, c) ==
            SampleBicubic(a, image, width, height, Nearest(x, (width - 1) as real), Nearest(y, (height - 1) as real), c)
  {
    NearestStays(x, (width - 1) as real);
    NearestStays(y, (height - 1) as real);
  }

  lemma NearestStays(v: real, end: real)
    requires end >= 0.0
    ensures ClampReal(v, 0.0, end) == Nearest(v, end) == ClampReal(Nearest(v, end), 0.0, end)
  {
  }

  /** The nearest number from 0 to an end. */
  function Nearest(v: real, end: real): (n: real)
    requires end >= 0.0
    ensures 0.0 <= n <= end && (0.0 <= v <= end ==> n == v) && (v < 0.0 ==> n == 0.0) && (v > end ==> n == end)
  {
    if v < 0.0 then 0.0 else if v > end then end else v
  }

  /** A pixel outside the image reads the nearest one inside. */
  lemma BorderRepeats(a: Arithmetic, image: seq<Half>, width: nat, height: nat, x: int, y: int, c: nat)
    requires width > 0 && height > 0 && c < 4 && Sized(image, width, height)
    ensures x < 0 ==> Sample(a, image, width, height, x, y, c) == Sample(a, image, width, height, 0, y, c)
    ensures x >= width ==> Sample(a, image, width, height, x, y, c) == Sample(a, image, width, height, width - 1, y, c)
    ensures y < 0 ==> Sample(a, image, width, height, x, y, c) == Sample(a, image, width, height, x, 0, c)
    ensures y >= height ==>
      Sample(a, image, width, height, x, y, c) == Sample(a, image, width, height, x, height - 1, c)
  {
  }

  // ---------------------------------------------------------------- patching

  /** One neighbour's share of a mean: its value, if it is inside. */
  ghost function Share(a: Arithmetic, image: seq<Half>, width: nat, height: nat, x: int, y: int, c: nat): (real, nat)
    requires width > 0 && height > 0 && c < 4 && Sized(image, width, height)
  {
    if 0 <= x < width && 0 <= y < height then (Sample(a, image, width, height, x, y, c), 1) else (0.0, 0)
  }

  /** A patched value is the mean of those of the pixels left, right, above and below that exist. */
  lemma PatchIsMean(a: Arithmetic, image: seq<Half>, width: nat, height: nat, x: int, y: int, c: nat)
    requires width > 0 && height > 0 && c < 4 && Sized(image, width, height)
    ensures var left, right := Share(a, image, width, height, x - 1, y, c), Share(a, image, width, height, x + 1, y, c);
      var up, down := Share(a, image, width, height, x, y - 1, c), Share(a, image, width, height, x, y + 1, c);
      var count := left.1 + right.1 + up.1 + down.1;
      PatchedChannel(a, image, width, height, x, y, c) ==
      if count == 0 then Sample(a, image, width, height, x, y, c)
      else (left.0 + right.0 + up.0 + down.0) / count as real
  {
    SumOfShares(a, image, width, height, x, y, c);
  }

  lemma SumOfShares(a: Arithmetic, image: seq<Half>, width: nat, height: nat, x: int, y: int, c: nat)
    requires width > 0 && height > 0 && c < 4 && Sized(image, width, height)
    ensures var left, right := Share(a, image, width, height, x - 1, y, c), Share(a, image, width, height, x + 1, y, c);
      var up, down := Share(a, image, width, height, x, y - 1, c), Share(a, image, width, height, x, y + 1, c);
      var all := Neighbours(a, image, width, height, x, y, c, 4);
      all.0 == left.0 + right.0 + up.0 + down.0 && all.1 == left.1 + right.1 + up.1 + down.1
  {
    NeighbourShare(a, image, width, height, x, y, c, 0, x - 1, y);
    NeighbourShare(a, image, width, height, x, y, c, 1, x + 1, y);
    NeighbourShare(a, image, width, height, x, y, c, 2, x, y - 1);
    NeighbourShare(a, image, width, height, x, y, c, 3, x, y + 1);
  }

  lemma NeighbourShare(a: Arithmetic, image: seq<Half>, width: nat, height: nat, x: int, y: int, c: nat, i: nat,
                       nx: int, ny: int)
    requires width > 0 && height > 0 && c < 4 && Sized(image, width, height) && i < 4
    requires nx == x + DX[i] && ny == y + DY[i]
    ensures var before := Neighbours(a, image, width, height, x, y, c, i);
      var share := Share(a, image, width, height, nx, ny, c);
      var after := Neighbours(a, image, width, height, x, y, c, i + 1);
      after.0 == before.0 + share.0 && after.1 == before.1 + share.1
  {
  }

  /** A channel of a pixel is within 0.0001 of a value. */
  ghost predicate CloseTo(a: Arithmetic, image: seq<Half>, width: nat, height: nat, x: int, y: int, c: nat, value: real)
    requires width > 0 && height > 0 && c < 4 && Sized(image, width, height)
  {
    value - 0.0001 <= Sample(a, image, width, height, x, y, c) <= value + 0.0001
  }

  /** A constant patches the colours of a pixel, and not its alpha, when one of its colours is close to it. */
  lemma ConstantPatches(a: Arithmetic, constant: U32, image: seq<Half>, width: nat, height: nat, x: nat, y: nat, c: nat)
    requires x < width && y < height && c < 4 && Sized(image, width, height)
    ensures var k, value := Offset(width, x, y, c), constant as int as real;
      && k < |image|
      && Apply(a, PatchValue(constant), image, width, height)[k] ==
         if c < 3 && (CloseTo(a, image, width, height, x, y, 0, value) ||
                      CloseTo(a, image, width, height, x, y, 1, value) ||
                      CloseTo(a, image, width, height, x, y, 2, value))
         then a.toHalf(PatchedChannel(a, image, width, height, x, y, c))
         else image[k]
  {
    OffsetDecodes(width, height, x, y, c);
    MarkedExactly(a, image, width, height, x, y, constant);
  }

  lemma MarkedExactly(a: Arithmetic, image: seq<Half>, width: nat, height: nat, x: int, y: int, constant: U32)
    requires width > 0 && height > 0 && Sized(image, width, height)
    ensures var value := constant as int as real;
      Marked(a, image, width, height, x, y, constant) <==>
        || CloseTo(a, image, width, height, x, y, 0, value) || CloseTo(a, image, width, height, x, y, 1, value)
        || CloseTo(a, image, width, height, x, y, 2, value)
  {
    var value := constant as int as real;
    assert IsConstant(a, image, width, height, x, y, 0, constant) <==> CloseTo(a, image, width, height, x, y, 0, value);
    assert IsConstant(a, image, width, height, x, y, 1, constant) <==> CloseTo(a, image, width, height, x, y, 1, value);
    assert IsConstant(a, image, width, height, x, y, 2, constant) <==> CloseTo(a, image, width, height, x, y, 2, value);
    if Marked(a, image, width, height, x, y, constant) {
      var c: nat :| c < 3 && IsConstant(a, image, width, height, x, y, c, constant);
      assert c == 0 || c == 1 || c == 2;
    }
  }

  /** A trim keeps the pixels of its half-open rectangle and clears the others, alpha included. */
  lemma TrimKeepsBounds(a: Arithmetic, bounds: Rect, image: seq<Half>, width: nat, height: nat, x: nat, y: nat, c: nat)
    requires x < width && y < height && c < 4 && Sized(image, width, height)
    ensures var k := Offset(width, x, y, c);
      && k < |image|
      && Apply(a, Crop(bounds), image, width, height)[k] ==
         if bounds.top <= y < bounds.bottom && bounds.left <= x < bounds.right then image[k] else a.toHalf(0.0)
  {
    OffsetDecodes(width, height, x, y, c);
  }
}
