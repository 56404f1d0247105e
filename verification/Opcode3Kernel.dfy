/** The opcode kernel: it applies each record in turn, reading one image buffer and
    writing the other, and swaps the two. */
module Opcode3Kernel {
  import opened Status
  import opened Options
  import opened Bytes
  import opened OpcodeList3
  import opened Opcode3Blob
  import I = OpcodeImage

  type Half = I.Half

  // ---------------------------------------------------------------- what a record asks for

  /** What the kernel relies on without checking again: the slices lie in the pools. */
  ghost predicate Runnable(r: DispatchRecord, points: seq<Point>, rects: seq<Rect>)
  {
    && Shaped(r) && r.slices.PointEnd() <= |points| && r.slices.RectEnd() <= |rects|
  }

  /** The planes of a record: a count above four is as good as four, since there are four channels. */
  function UsedPlanes(o: Optics): (planes: seq<Coefficient>)
    requires |o.coefficients| == 4
  {
    o.coefficients[..if o.coefficientCount < 4 then o.coefficientCount else 4]
  }

  /** The plane of a channel: the one at its index, or at the last one counted. */
  lemma PlaneOfChannel(o: Optics, c: nat)
    requires |o.coefficients| == 4 && o.coefficientCount > 0 && c < 4
    ensures var used := UsedPlanes(o);
      var index := if c < o.coefficientCount then c else o.coefficientCount as int - 1;
      index < 4 && used[if c < |used| then c else |used| - 1] == o.coefficients[index]
  {
  }

  /** The effect of a record, or None where the kernel answers that it is unsupported. */
  function EffectOf(r: DispatchRecord, points: seq<Point>, rects: seq<Rect>): (e: Option<I.Effect>)
    requires Runnable(r, points, rects)
    ensures e.Some? ==> I.Sensible(e.value)
  {
    match r.id
    case 0 => if r.optional == 0 then None else Some(I.Keep)
    case 1 => Some(I.Distort(UsedPlanes(r.optics), r.optics.cx, r.optics.cy))
    case 3 => Some(I.Brighten(r.optics.k, r.optics.vcx, r.optics.vcy))
    case 4 => Some(I.PatchValue(r.constant))
    case 5 => Some(I.PatchListed(points[r.slices.pointOffset..r.slices.PointEnd()],
                                 rects[r.slices.rectOffset..r.slices.RectEnd()]))
    case 6 => Some(I.Crop(r.bounds))
    case _ => None
  }

  /** Which records the kernel does not know: those of other numbers, and those of number 0 that are not optional. */
  lemma UnknownExactly(r: DispatchRecord, points: seq<Point>, rects: seq<Rect>)
    requires Runnable(r, points, rects)
    ensures EffectOf(r, points, rects).None? <==> r.id !in {1, 3, 4, 5, 6} && (r.id != 0 || r.optional == 0)
  {
  }

  ghost predicate Supported(records: seq<DispatchRecord>, points: seq<Point>, rects: seq<Rect>)
    requires forall i :: 0 <= i < |records| ==> Runnable(records[i], points, rects)
  {
    forall i :: 0 <= i < |records| ==> EffectOf(records[i], points, rects).Some?
  }

  ghost function Effects(records: seq<DispatchRecord>, points: seq<Point>, rects: seq<Rect>): (es: seq<I.Effect>)
    requires forall i :: 0 <= i < |records| ==> Runnable(records[i], points, rects)
    requires Supported(records, points, rects)
    ensures |es| == |records| && forall i :: 0 <= i < |es| ==> I.Sensible(es[i])
  {
    seq(|records|, i requires 0 <= i < |records| => EffectOf(records[i], points, rects).value)
  }

  /** What the parameters of an opcode of the file ask for. */
  ghost function Meaning(params: Params): (e: I.Effect)
    requires WellFormedParams(params)
    ensures I.Sensible(e)
  {
    match params
    case Warp(cs, cx, cy) => I.Distort(cs, cx, cy)
    case Vignette(k, cx, cy) => I.Brighten(k, cx, cy)
    case BadConstant(c, _) => I.PatchValue(c)
    case BadList(_, ps, rs) => I.PatchListed(ps, rs)
    case Trim(bounds) => I.Crop(bounds)
    case Unparsed => I.Keep
  }

  ghost function Meanings(ops: seq<Opcode>): (es: seq<I.Effect>)
    requires forall i :: 0 <= i < |ops| ==> WellFormed(ops[i])
    ensures |es| == |ops| && forall i :: 0 <= i < |es| ==> I.Sensible(es[i])
  {
    seq(|ops|, i requires 0 <= i < |ops| => assert WellFormed(ops[i]); Meaning(ops[i].params))
  }

  // ---------------------------------------------------------------- writing in row order

  /** The first n addresses hold the effect; the rest still hold the source image. */
  ghost predicate DoneTo(dst: seq<Half>, a: I.Arithmetic, e: I.Effect, src: seq<Half>, width: nat, height: nat, n: nat)
    requires width > 0 && height > 0 && I.Sized(src, width, height) && I.Sensible(e)
  {
    && |dst| == |src| && n <= |src|
    && forall k: nat :: k < |src| ==> dst[k] == if k < n then I.After(a, e, src, width, height, k) else src[k]
  }

  lemma RowEnd(width: nat, y: nat)
    ensures I.Offset(width, width, y, 0) == I.Offset(width, 0, y + 1, 0)
  {
  }

  lemma AllRows(width: nat, height: nat)
    ensures I.Offset(width, 0, height, 0) == 4 * (width * height)
  {
  }

  lemma Written(dst: seq<Half>, a: I.Arithmetic, e: I.Effect, src: seq<Half>, width: nat, height: nat, n: nat)
    requires width > 0 && height > 0 && I.Sized(src, width, height) && I.Sensible(e)
    requires DoneTo(dst, a, e, src, width, height, n) && n < |src|
    ensures DoneTo(dst[n := I.After(a, e, src, width, height, n)], a, e, src, width, height, n + 1)
  {
  }

  lemma LeftAlone(dst: seq<Half>, a: I.Arithmetic, e: I.Effect, src: seq<Half>, width: nat, height: nat, n: nat, m: nat)
    requires width > 0 && height > 0 && I.Sized(src, width, height) && I.Sensible(e)
    requires DoneTo(dst, a, e, src, width, height, n) && n <= m <= |src|
    requires forall k: nat :: n <= k < m ==> I.After(a, e, src, width, height, k) == src[k]
    ensures DoneTo(dst, a, e, src, width, height, m)
  {
  }

  lemma AllDone(dst: seq<Half>, a: I.Arithmetic, e: I.Effect, src: seq<Half>, width: nat, height: nat)
    requires width > 0 && height > 0 && I.Sized(src, width, height) && I.Sensible(e)
    requires DoneTo(dst, a, e, src, width, height, |src|)
    ensures dst == I.Apply(a, e, src, width, height)
  {
  }

  /** The four addresses of a pixel. */
  lemma PixelAddresses(width: nat, height: nat, x: nat, y: nat)
    requires x < width && y < height
    ensures I.Offset(width, x, y, 0) + 4 <= 4 * (width * height)
    ensures forall k: nat :: I.Offset(width, x, y, 0) <= k < I.Offset(width, x, y, 0) + 4 ==>
      I.X(width, k) == x && I.Y(width, k) == y && I.C(k) == k - I.Offset(width, x, y, 0)
  {
    I.OffsetDecodes(width, height, x, y, 3);
    forall k: nat | I.Offset(width, x, y, 0) <= k < I.Offset(width, x, y, 0) + 4
      ensures I.X(width, k) == x && I.Y(width, k) == y && I.C(k) == k - I.Offset(width, x, y, 0)
    {
      I.OffsetDecodes(width, height, x, y, k - I.Offset(width, x, y, 0));
    }
  }

  // ---------------------------------------------------------------- the five opcodes

  method CopyImage(src: seq<Half>, dst: array<Half>)
    requires dst.Length == |src|
    modifies dst
    ensures dst[..] == src
  {
    for i := 0 to |src|
      invariant dst[..i] == src[..i]
    {
      dst[i] := src[i];
      assert dst[..i + 1] == dst[..i] + [dst[i]] && src[..i + 1] == src[..i] + [src[i]];
    }
    assert dst[..] == dst[..|src|] && src == src[..|src|];
  }

  method ApplyWarp(a: I.Arithmetic, e: I.Effect, src: seq<Half>, width: nat, height: nat, dst: array<Half>)
    requires width > 0 && height > 0 && I.Sized(src, width, height) && dst.Length == |src|
    requires e.Distort? && I.Sensible(e)
    modifies dst
    ensures dst[..] == I.Apply(a, e, src, width, height)
  {
    CopyImage(src, dst);
    if |e.planes| == 0 || width <= 1 || height <= 1 {
      LeftAlone(dst[..], a, e, src, width, height, 0, |src|);
      AllDone(dst[..], a, e, src, width, height);
      return;
    }
    var (cx, cy, m) := I.Centre(a, e, width, height);
    if m <= I.EPSILON {
      LeftAlone(dst[..], a, e, src, width, height, 0, |src|);
      AllDone(dst[..], a, e, src, width, height);
      return;
    }
    for y := 0 to height
      invariant DoneTo(dst[..], a, e, src, width, height, I.Offset(width, 0, y, 0))
    {
      for x := 0 to width
        invariant DoneTo(dst[..], a, e, src, width, height, I.Offset(width, x, y, 0))
      {
        for c := 0 to I.CHANNELS
          invariant DoneTo(dst[..], a, e, src, width, height, I.Offset(width, x, y, c))
        {
          I.OffsetDecodes(width, height, x, y, c);
          ghost var before := dst[..];
          dst[I.Offset(width, x, y, c)] := I.Distorted(a, e, src, width, height, x, y, c);
          Written(before, a, e, src, width, height, I.Offset(width, x, y, c));
          assert dst[..] == before[I.Offset(width, x, y, c) := I.Distorted(a, e, src, width, height, x, y, c)];
        }
      }
      RowEnd(width, y);
    }
    AllRows(width, height);
    AllDone(dst[..], a, e, src, width, height);
  }

  method BrightenPixel(a: I.Arithmetic, e: I.Effect, src: seq<Half>, width: nat, height: nat, x: nat, y: nat,
                       dst: array<Half>)
    requires x < width && y < height && I.Sized(src, width, height) && dst.Length == |src|
    requires e.Brighten? && I.Sensible(e) && !I.Degenerate(a, e, width, height)
    requires DoneTo(dst[..], a, e, src, width, height, I.Offset(width, x, y, 0))
    modifies dst
    ensures DoneTo(dst[..], a, e, src, width, height, I.Offset(width, x + 1, y, 0))
  {
    var gain := I.Gain(a, e, width, height, x, y);
    PixelAddresses(width, height, x, y);
    for c := 0 to 3
      invariant DoneTo(dst[..], a, e, src, width, height, I.Offset(width, x, y, c))
    {
      var offset := I.Offset(width, x, y, c);
      ghost var before := dst[..];
      dst[offset] := I.Brightened(a, src[offset], gain);
      Written(before, a, e, src, width, height, offset);
      assert dst[..] == before[offset := I.Brightened(a, src[offset], gain)];
    }
    LeftAlone(dst[..], a, e, src, width, height, I.Offset(width, x, y, 3), I.Offset(width, x, y, 4));
  }

  method ApplyVignette(a: I.Arithmetic, e: I.Effect, src: seq<Half>, width: nat, height: nat, dst: array<Half>)
    requires width > 0 && height > 0 && I.Sized(src, width, height) && dst.Length == |src|
    requires e.Brighten? && I.Sensible(e)
    modifies dst
    ensures dst[..] == I.Apply(a, e, src, width, height)
  {
    CopyImage(src, dst);
    if width <= 1 || height <= 1 {
      LeftAlone(dst[..], a, e, src, width, height, 0, |src|);
      AllDone(dst[..], a, e, src, width, height);
      return;
    }
    var (cx, cy, m) := I.Centre(a, e, width, height);
    if m <= I.EPSILON {
      LeftAlone(dst[..], a, e, src, width, height, 0, |src|);
      AllDone(dst[..], a, e, src, width, height);
      return;
    }
    for y := 0 to height
      invariant DoneTo(dst[..], a, e, src, width, height, I.Offset(width, 0, y, 0))
    {
      for x := 0 to width
        invariant DoneTo(dst[..], a, e, src, width, height, I.Offset(width, x, y, 0))
      {
        BrightenPixel(a, e, src, width, height, x, y, dst);
      }
      RowEnd(width, y);
    }
    AllRows(width, height);
    AllDone(dst[..], a, e, src, width, height);
  }

  method ApplyTrimBounds(a: I.Arithmetic, e: I.Effect, src: seq<Half>, width: nat, height: nat, dst: array<Half>)
    requires width > 0 && height > 0 && I.Sized(src, width, height) && dst.Length == |src|
    requires e.Crop?
    modifies dst
    ensures dst[..] == I.Apply(a, e, src, width, height)
  {
    CopyImage(src, dst);
    for y := 0 to height
      invariant DoneTo(dst[..], a, e, src, width, height, I.Offset(width, 0, y, 0))
    {
      for x := 0 to width
        invariant DoneTo(dst[..], a, e, src, width, height, I.Offset(width, x, y, 0))
      {
        PixelAddresses(width, height, x, y);
        if I.Covers(e.bounds, x, y) {
          LeftAlone(dst[..], a, e, src, width, height, I.Offset(width, x, y, 0), I.Offset(width, x, y, 4));
        } else {
          for c := 0 to I.CHANNELS
            invariant DoneTo(dst[..], a, e, src, width, height, I.Offset(width, x, y, c))
          {
            I.OffsetDecodes(width, height, x, y, c);
            ghost var before := dst[..];
            dst[I.Offset(width, x, y, c)] := a.toHalf(0.0);
            Written(before, a, e, src, width, height, I.Offset(width, x, y, c));
            assert dst[..] == before[I.Offset(width, x, y, c) := a.toHalf(0.0)];
          }
        }
      }
      RowEnd(width, y);
    }
    AllRows(width, height);
    AllDone(dst[..], a, e, src, width, height);
  }

  // ---------------------------------------------------------------- patching

  method AverageNeighbours(a: I.Arithmetic, src: seq<Half>, width: nat, height: nat, x: int, y: int, c: nat)
    returns (value: real)
    requires width > 0 && height > 0 && c < 4 && I.Sized(src, width, height)
    ensures value == I.PatchedChannel(a, src, width, height, x, y, c)
  {
    var sum, count: nat := 0.0, 0;
    for i := 0 to 4
      invariant (sum, count) == I.Neighbours(a, src, width, height, x, y, c, i)
    {
      var nx, ny := x + I.DX[i], y + I.DY[i];
      if I.Inside(width, height, nx, ny) {
        sum := sum + I.Sample(a, src, width, height, nx, ny, c);
        count := count + 1;
      }
    }
    if count == 0 {
      value := I.Sample(a, src, width, height, x, y, c);
    } else {
      value := sum / count as real;
    }
  }

  /** The patched value at an address. */
  ghost function Patch(a: I.Arithmetic, src: seq<Half>, width: nat, height: nat, k: nat): Half
    requires width > 0 && height > 0 && I.Sized(src, width, height) && k < |src|
  {
    a.toHalf(I.PatchedChannel(a, src, width, height, I.X(width, k), I.Y(width, k), I.C(k)))
  }

  /** The colour channels of the chosen pixels are patched; everything else is as it was. */
  ghost predicate Overlay(was: seq<Half>, now: seq<Half>, a: I.Arithmetic, src: seq<Half>, width: nat, height: nat,
                          chosen: iset<(int, int)>)
    requires width > 0 && height > 0 && I.Sized(src, width, height)
  {
    && |was| == |now| == |src|
    && forall k: nat :: k < |src| ==>
         now[k] == if I.C(k) < 3 && (I.X(width, k), I.Y(width, k)) in chosen then Patch(a, src, width, height, k)
           else was[k]
  }

  lemma OverlayTwice(first: seq<Half>, second: seq<Half>, third: seq<Half>, a: I.Arithmetic, src: seq<Half>, width: nat,
                     height: nat, p: iset<(int, int)>, q: iset<(int, int)>, r: iset<(int, int)>)
    requires width > 0 && height > 0 && I.Sized(src, width, height)
    requires Overlay(first, second, a, src, width, height, p) && Overlay(second, third, a, src, width, height, q)
    requires forall x, y :: I.Inside(width, height, x, y) ==> ((x, y) in r <==> (x, y) in p || (x, y) in q)
    ensures Overlay(first, third, a, src, width, height, r)
  {
    forall k: nat | k < |src| ensures I.Inside(width, height, I.X(width, k), I.Y(width, k)) {
      I.DecodeEncodes(width, height, k);
    }
  }

  /** Patch one pixel; a pixel outside the image is ignored. */
  method PatchPixel(a: I.Arithmetic, src: seq<Half>, width: nat, height: nat, x: int, y: int, dst: array<Half>)
    requires width > 0 && height > 0 && I.Sized(src, width, height) && dst.Length == |src|
    modifies dst
    ensures Overlay(old(dst[..]), dst[..], a, src, width, height, iset{(x, y)})
  {
    forall k: nat | k < |src| ensures I.Inside(width, height, I.X(width, k), I.Y(width, k)) {
      I.DecodeEncodes(width, height, k);
    }
    if !I.Inside(width, height, x, y) {
      return;
    }
    PixelAddresses(width, height, x, y);
    for c := 0 to 3
      invariant forall k: nat :: k < |src| ==>
        dst[k] == if I.Offset(width, x, y, 0) <= k < I.Offset(width, x, y, c) then Patch(a, src, width, height, k)
          else old(dst[k])
    {
      var value := AverageNeighbours(a, src, width, height, x, y, c);
      dst[I.Offset(width, x, y, c)] := a.toHalf(value);
    }
    forall k: nat | k < |src| && I.C(k) < 3 && I.X(width, k) == x && I.Y(width, k) == y
      ensures I.Offset(width, x, y, 0) <= k < I.Offset(width, x, y, 3)
    {
      I.DecodeEncodes(width, height, k);
    }
  }

  ghost function MarkedPixels(a: I.Arithmetic, src: seq<Half>, width: nat, height: nat, constant: U32,
                              n: nat): iset<(int, int)>
    requires width > 0 && height > 0 && I.Sized(src, width, height)
  {
    iset x, y | I.Inside(width, height, x, y) && y * width + x < n &&
      I.Marked(a, src, width, height, x, y, constant) :: (x, y)
  }

  method PatchIfMarked(a: I.Arithmetic, src: seq<Half>, width: nat, height: nat, x: nat, y: nat, constant: U32,
                       dst: array<Half>)
    requires x < width && y < height && I.Sized(src, width, height) && dst.Length == |src|
    requires Overlay(src, dst[..], a, src, width, height, MarkedPixels(a, src, width, height, constant, y * width + x))
    modifies dst
    ensures Overlay(src, dst[..], a, src, width, height,
                    MarkedPixels(a, src, width, height, constant, y * width + x + 1))
  {
    var patch := PixelIsMarked(a, src, width, height, x, y, constant);
    OneMorePixel(a, src, width, height, constant, x, y);
    ghost var before := dst[..];
    ghost var one: iset<(int, int)> := iset{};
    if patch {
      PatchPixel(a, src, width, height, x, y, dst);
      one := iset{(x, y)};
    }
    OverlayTwice(src, before, dst[..], a, src, width, height,
                 MarkedPixels(a, src, width, height, constant, y * width + x), one,
                 MarkedPixels(a, src, width, height, constant, y * width + x + 1));
  }

  method PatchMarkedRow(a: I.Arithmetic, src: seq<Half>, width: nat, height: nat, y: nat, constant: U32,
                        dst: array<Half>)
    requires width > 0 && y < height && I.Sized(src, width, height) && dst.Length == |src|
    requires Overlay(src, dst[..], a, src, width, height, MarkedPixels(a, src, width, height, constant, y * width))
    modifies dst
    ensures Overlay(src, dst[..], a, src, width, height, MarkedPixels(a, src, width, height, constant, (y + 1) * width))
  {
    ghost var start := y * width;
    for x := 0 to width
      invariant Overlay(src, dst[..], a, src, width, height, MarkedPixels(a, src, width, height, constant, start + x))
    {
      PatchIfMarked(a, src, width, height, x, y, constant, dst);
    }
    assert start + width == (y + 1) * width;
  }

  method ApplyBadPixelsConstant(a: I.Arithmetic, e: I.Effect, src: seq<Half>, width: nat, height: nat, dst: array<Half>)
    requires width > 0 && height > 0 && I.Sized(src, width, height) && dst.Length == |src|
    requires e.PatchValue?
    modifies dst
    ensures dst[..] == I.Apply(a, e, src, width, height)
  {
    CopyImage(src, dst);
    NothingMarked(a, src, width, height, e.constant);
    for y := 0 to height
      invariant Overlay(src, dst[..], a, src, width, height, MarkedPixels(a, src, width, height, e.constant, y * width))
    {
      PatchMarkedRow(a, src, width, height, y, e.constant, dst);
    }
    MarkedOverlay(a, src, width, height, e.constant, dst[..]);
  }

  lemma NothingMarked(a: I.Arithmetic, src: seq<Half>, width: nat, height: nat, constant: U32)
    requires width > 0 && height > 0 && I.Sized(src, width, height)
    ensures Overlay(src, src, a, src, width, height, MarkedPixels(a, src, width, height, constant, 0 * width))
  {
    assert 0 * width == 0;
  }

  method PixelIsMarked(a: I.Arithmetic, src: seq<Half>, width: nat, height: nat, x: int, y: int, constant: U32)
    returns (patch: bool)
    requires width > 0 && height > 0 && I.Sized(src, width, height)
    ensures patch == I.Marked(a, src, width, height, x, y, constant)
  {
    patch := false;
    for c := 0 to 3
      invariant patch <==> exists d: nat :: d < c && I.IsConstant(a, src, width, height, x, y, d, constant)
    {
      patch := patch || I.IsConstant(a, src, width, height, x, y, c, constant);
    }
  }

  lemma OneMorePixel(a: I.Arithmetic, src: seq<Half>, width: nat, height: nat, constant: U32, x: nat, y: nat)
    requires I.Sized(src, width, height) && x < width && y < height
    ensures forall p, q :: I.Inside(width, height, p, q) ==>
      ((p, q) in MarkedPixels(a, src, width, height, constant, y * width + x + 1) <==>
       (p, q) in MarkedPixels(a, src, width, height, constant, y * width + x) ||
       ((p, q) == (x, y) && I.Marked(a, src, width, height, x, y, constant)))
  {
    forall p, q | I.Inside(width, height, p, q) && q * width + p == y * width + x ensures (p, q) == (x, y) {
      I.DivisionIsUnique(width, q, p, y, x);
    }
  }

  lemma MarkedOverlay(a: I.Arithmetic, src: seq<Half>, width: nat, height: nat, constant: U32, dst: seq<Half>)
    requires width > 0 && height > 0 && I.Sized(src, width, height)
    requires Overlay(src, dst, a, src, width, height, MarkedPixels(a, src, width, height, constant, height * width))
    ensures dst == I.Apply(a, I.PatchValue(constant), src, width, height)
  {
    forall k: nat | k < |src|
      ensures I.Inside(width, height, I.X(width, k), I.Y(width, k)) &&
        I.Y(width, k) * width + I.X(width, k) < height * width
    {
      I.DecodeEncodes(width, height, k);
      I.InsideRows(width, height, I.X(width, k), I.Y(width, k));
    }
  }

  // ---------------------------------------------------------------- bad-pixel lists

  ghost function VisitedPixels(points: seq<Point>, rects: seq<Rect>, width: nat, height: nat): iset<(int, int)>
  {
    iset x, y | I.Visited(points, rects, width, height, x, y) :: (x, y)
  }

  /** The part of a rect before a position, in row order. */
  ghost function RectPixels(r: Rect, width: nat, height: nat, x: int, y: int): iset<(int, int)>
  {
    iset p, q | I.RectVisits(r, width, height, p, q) && (q < y || (q == y && p < x)) :: (p, q)
  }

  method PatchRect(a: I.Arithmetic, src: seq<Half>, width: nat, height: nat, r: Rect, dst: array<Half>)
    requires width > 0 && height > 0 && I.Sized(src, width, height) && dst.Length == |src|
    modifies dst
    ensures Overlay(old(dst[..]), dst[..], a, src, width, height, RectPixels(r, width, height, width, height))
  {
    var top, bottom := I.AtLeast0(I.Min(I.AsInt(r.top), height)), I.AtLeast0(I.Min(I.AsInt(r.bottom), height));
    var left, right := I.AtLeast0(I.Min(I.AsInt(r.left), width)), I.AtLeast0(I.Min(I.AsInt(r.right), width));
    var y := top;
    while y < bottom
      invariant top <= y && (y <= bottom || y == top)
      invariant Overlay(old(dst[..]), dst[..], a, src, width, height, RectPixels(r, width, height, 0, y))
    {
      var x := left;
      while x < right
        invariant left <= x && (x <= right || x == left)
        invariant Overlay(old(dst[..]), dst[..], a, src, width, height, RectPixels(r, width, height, x, y))
      {
        ghost var before := dst[..];
        PatchPixel(a, src, width, height, x, y, dst);
        OverlayTwice(old(dst[..]), before, dst[..], a, src, width, height, RectPixels(r, width, height, x, y),
                     iset{(x, y)},
                     RectPixels(r, width, height, x + 1, y));
        x := x + 1;
      }
      assert RectPixels(r, width, height, x, y) == RectPixels(r, width, height, 0, y + 1);
      y := y + 1;
    }
    assert RectPixels(r, width, height, 0, y) == RectPixels(r, width, height, width, height);
  }

  method ApplyBadPixelsList(a: I.Arithmetic, e: I.Effect, src: seq<Half>, width: nat, height: nat, dst: array<Half>)
    requires width > 0 && height > 0 && I.Sized(src, width, height) && dst.Length == |src|
    requires e.PatchListed?
    modifies dst
    ensures dst[..] == I.Apply(a, e, src, width, height)
  {
    CopyImage(src, dst);
    for i := 0 to |e.points|
      invariant Overlay(src, dst[..], a, src, width, height, VisitedPixels(e.points[..i], [], width, height))
    {
      var x, y := I.AsInt(e.points[i].column), I.AsInt(e.points[i].row);
      ghost var before := dst[..];
      PatchPixel(a, src, width, height, x, y, dst);
      OnePointMore(e.points, i, width, height);
      OverlayTwice(src, before, dst[..], a, src, width, height, VisitedPixels(e.points[..i], [], width, height),
                   iset{(x, y)},
                   VisitedPixels(e.points[..i + 1], [], width, height));
    }
    assert e.points[..|e.points|] == e.points && e.rects[..0] == [];
    for i := 0 to |e.rects|
      invariant Overlay(src, dst[..], a, src, width, height, VisitedPixels(e.points, e.rects[..i], width, height))
    {
      ghost var before := dst[..];
      PatchRect(a, src, width, height, e.rects[i], dst);
      OneRectMore(e.points, e.rects, i, width, height);
      OverlayTwice(src, before, dst[..], a, src, width, height, VisitedPixels(e.points, e.rects[..i], width, height),
                   RectPixels(e.rects[i], width, height, width, height),
                   VisitedPixels(e.points, e.rects[..i + 1], width, height));
    }
    assert e.rects[..|e.rects|] == e.rects;
    ListedOverlay(a, src, width, height, e.points, e.rects, dst[..]);
  }

  lemma OnePointMore(points: seq<Point>, i: nat, width: nat, height: nat)
    requires i < |points|
    ensures var one := (I.AsInt(points[i].column), I.AsInt(points[i].row));
      forall x, y :: (x, y) in VisitedPixels(points[..i + 1], [], width, height) <==>
        (x, y) in VisitedPixels(points[..i], [], width, height) || (x, y) == one
  {
    forall x, y
      ensures I.Visited(points[..i + 1], [], width, height, x, y) <==>
              I.Visited(points[..i], [], width, height, x, y) || I.PointVisits(points[i], x, y)
    {
      var fewer, more := points[..i], points[..i + 1];
      assert more[i] == points[i];
      if k :| 0 <= k < i && I.PointVisits(fewer[k], x, y) {
        assert more[k] == fewer[k];
      }
      if k :| 0 <= k < |more| && I.PointVisits(more[k], x, y) {
        assert k < i ==> more[k] == fewer[k];
      }
    }
  }

  lemma OneRectMore(points: seq<Point>, rects: seq<Rect>, i: nat, width: nat, height: nat)
    requires i < |rects|
    ensures forall x, y :: (x, y) in VisitedPixels(points, rects[..i + 1], width, height) <==>
      (x, y) in VisitedPixels(points, rects[..i], width, height) ||
        (x, y) in RectPixels(rects[i], width, height, width, height)
  {
    forall x, y
      ensures I.Visited(points, rects[..i + 1], width, height, x, y) <==>
              I.Visited(points, rects[..i], width, height, x, y) || I.RectVisits(rects[i], width, height, x, y)
    {
      var fewer, more := rects[..i], rects[..i + 1];
      assert more[i] == rects[i];
      if k :| 0 <= k < i && I.RectVisits(fewer[k], width, height, x, y) {
        assert more[k] == fewer[k];
      }
      if k :| 0 <= k < |more| && I.RectVisits(more[k], width, height, x, y) {
        assert k < i ==> more[k] == fewer[k];
      }
    }
  }

  lemma ListedOverlay(a: I.Arithmetic, src: seq<Half>, width: nat, height: nat, points: seq<Point>, rects: seq<Rect>,
                      dst: seq<Half>)
    requires width > 0 && height > 0 && I.Sized(src, width, height)
    requires Overlay(src, dst, a, src, width, height, VisitedPixels(points, rects, width, height))
    ensures dst == I.Apply(a, I.PatchListed(points, rects), src, width, height)
  {
  }

  // ---------------------------------------------------------------- the loop over the records

  /** Apply one effect from one buffer to the other; an effect that keeps the image writes nothing. */
  method ApplyEffect(a: I.Arithmetic, e: I.Effect, src: seq<Half>, width: nat, height: nat, dst: array<Half>)
    returns (wrote: bool)
    requires width > 0 && height > 0 && I.Sized(src, width, height) && dst.Length == |src| && I.Sensible(e)
    modifies dst
    ensures wrote == !e.Keep?
    ensures wrote ==> dst[..] == I.Apply(a, e, src, width, height)
  {
    wrote := true;
    match e
    case Keep => wrote := false;
    case Distort(_, _, _) => ApplyWarp(a, e, src, width, height, dst);
    case Brighten(_, _, _) => ApplyVignette(a, e, src, width, height, dst);
    case PatchValue(_) => ApplyBadPixelsConstant(a, e, src, width, height, dst);
    case PatchListed(_, _) => ApplyBadPixelsList(a, e, src, width, height, dst);
    case Crop(_) => ApplyTrimBounds(a, e, src, width, height, dst);
  }

  lemma KeepChangesNothing(a: I.Arithmetic, image: seq<Half>, width: nat, height: nat)
    requires width > 0 && height > 0 && I.Sized(image, width, height)
    ensures I.Apply(a, I.Keep, image, width, height) == image
  {
  }

  lemma OneMoreEffect(a: I.Arithmetic, es: seq<I.Effect>, e: I.Effect, image: seq<Half>, width: nat, height: nat)
    requires width > 0 && height > 0 && I.Sized(image, width, height)
    requires I.Sensible(e) && forall k :: 0 <= k < |es| ==> I.Sensible(es[k])
    ensures I.ApplyAll(a, es + [e], image, width, height)
         == I.Apply(a, e, I.ApplyAll(a, es, image, width, height), width, height)
  {
    assert (es + [e])[..|es|] == es;
  }

  /** The outcome of a run: the records' effects on the image, unless one is unsupported. */
  ghost predicate Ran(a: I.Arithmetic, records: seq<DispatchRecord>, points: seq<Point>, rects: seq<Rect>,
                      image: seq<Half>, width: nat, height: nat, status: Status, out: seq<Half>)
    requires width > 0 && height > 0 && I.Sized(image, width, height)
  {
    && (forall i :: 0 <= i < |records| ==> Runnable(records[i], points, rects))
    && status == (if Supported(records, points, rects) then OK else UNSUPPORTED)
    && (status == OK ==> out == I.ApplyAll(a, Effects(records, points, rects), image, width, height))
  }

  /** The two-buffer loop computes the effects of the records one after another. */
  method RunRecords(a: I.Arithmetic, records: seq<DispatchRecord>, points: seq<Point>, rects: seq<Rect>,
                    image: seq<Half>, width: nat, height: nat) returns (status: Status, out: seq<Half>)
    requires width > 0 && height > 0 && I.Sized(image, width, height)
    requires forall i :: 0 <= i < |records| ==> Runnable(records[i], points, rects)
    ensures Ran(a, records, points, rects, image, width, height, status, out)
  {
    var working := new Half[|image|];
    CopyImage(image, working);
    var next := new Half[|image|];
    CopyImage(image, next);
    ghost var es: seq<I.Effect> := [];
    for i := 0 to |records|
      invariant working != next && working.Length == next.Length == |image| && fresh(working) && fresh(next)
      invariant |es| == i && forall k :: 0 <= k < i ==> EffectOf(records[k], points, rects) == Some(es[k])
      invariant working[..] == I.ApplyAll(a, es, image, width, height)
    {
      var effect := EffectOf(records[i], points, rects);
      if effect.None? {
        RanInto(a, records, points, rects, image, width, height, i);
        return UNSUPPORTED, [];
      }
      var wrote := ApplyEffect(a, effect.value, working[..], width, height, next);
      if wrote {
        working, next := next, working;
      } else {
        KeepChangesNothing(a, working[..], width, height);
      }
      OneMoreEffect(a, es, effect.value, image, width, height);
      es := es + [effect.value];
    }
    RanThrough(a, records, points, rects, image, width, height, es);
    return OK, working[..];
  }

  lemma RanInto(a: I.Arithmetic, records: seq<DispatchRecord>, points: seq<Point>, rects: seq<Rect>, image: seq<Half>,
                width: nat, height: nat, i: nat)
    requires width > 0 && height > 0 && I.Sized(image, width, height) && i < |records|
    requires forall k :: 0 <= k < |records| ==> Runnable(records[k], points, rects)
    requires EffectOf(records[i], points, rects).None?
    ensures Ran(a, records, points, rects, image, width, height, UNSUPPORTED, [])
  {
  }

  lemma RanThrough(a: I.Arithmetic, records: seq<DispatchRecord>, points: seq<Point>, rects: seq<Rect>,
                   image: seq<Half>, width: nat, height: nat, es: seq<I.Effect>)
    requires width > 0 && height > 0 && I.Sized(image, width, height) && |es| == |records|
    requires forall k :: 0 <= k < |records| ==> Runnable(records[k], points, rects)
    requires forall k :: 0 <= k < |records| ==> EffectOf(records[k], points, rects) == Some(es[k])
    ensures (forall k :: 0 <= k < |es| ==> I.Sensible(es[k])) &&
      Ran(a, records, points, rects, image, width, height, OK, I.ApplyAll(a, es, image, width, height))
  {
    assert Effects(records, points, rects) == es;
  }

  // ---------------------------------------------------------------- from blob to image

  function RecordsSeen(w: seq<U32>, n: nat): (records: seq<DispatchRecord>)
    requires RecordAtIndex(n) <= |w|
    ensures |records| == n && forall i :: 0 <= i < n ==> Shaped(records[i])
  {
    seq(n, i requires 0 <= i < n => RecordFrom(w, RecordAtIndex(i)))
  }

  ghost function AllRecords(blob: seq<Byte>): (records: seq<DispatchRecord>)
    requires Acceptable(blob)
    ensures forall i :: 0 <= i < |records| ==> Shaped(records[i])
  {
    RecordsSeen(LeWords(blob), FoundLayout(blob).count)
  }

  ghost function PointsSeen(blob: seq<Byte>): seq<Point>
    requires Acceptable(blob)
  {
    var w, layout := LeWords(blob), FoundLayout(blob);
    PointsIn(w, layout.points, PointEnd(SlicesSeen(w, layout.count)))
  }

  ghost function RectsSeen(blob: seq<Byte>): seq<Rect>
    requires Acceptable(blob)
  {
    var w, layout := LeWords(blob), FoundLayout(blob);
    RectsIn(w, layout.rects, RectEnd(SlicesSeen(w, layout.count)))
  }

  lemma {:induction false} SliceEndsBelow(slices: seq<Slices>, i: nat)
    requires i < |slices|
    ensures slices[i].PointEnd() <= PointEnd(slices) && slices[i].RectEnd() <= RectEnd(slices)
  {
    var front := slices[..|slices| - 1];
    if i < |front| {
      SliceEndsBelow(front, i);
    }
  }

  /** Every slice lies in the pools, which end where the last slice ends. */
  lemma {:induction false} SlicesInPools(w: seq<U32>, n: nat, points: seq<Point>, rects: seq<Rect>)
    requires RecordAtIndex(n) <= |w|
    requires |points| == PointEnd(SlicesSeen(w, n)) && |rects| == RectEnd(SlicesSeen(w, n))
    ensures forall i :: 0 <= i < n ==> Runnable(RecordsSeen(w, n)[i], points, rects)
  {
    forall i | 0 <= i < n ensures Runnable(RecordsSeen(w, n)[i], points, rects) {
      SliceEndsBelow(SlicesSeen(w, n), i);
    }
  }

  method RunWords(a: I.Arithmetic, w: seq<U32>, layout: Layout, image: seq<Half>, width: nat, height: nat)
    returns (status: Status, out: seq<Half>)
    requires width > 0 && height > 0 && I.Sized(image, width, height)
    requires RecordAtIndex(layout.count) <= |w|
    requires layout.points + 2 * PointEnd(SlicesSeen(w, layout.count)) <= |w|
    requires layout.rects + 4 * RectEnd(SlicesSeen(w, layout.count)) <= |w|
    ensures var slices := SlicesSeen(w, layout.count);
      Ran(a, RecordsSeen(w, layout.count), PointsIn(w, layout.points, PointEnd(slices)),
          RectsIn(w, layout.rects, RectEnd(slices)),
          image, width, height, status, out)
  {
    var pointCount, rectCount := CountPools(w, layout.count);
    var points, rects := PointsIn(w, layout.points, pointCount), RectsIn(w, layout.rects, rectCount);
    SlicesInPools(w, layout.count, points, rects);
    status, out := RunRecords(a, RecordsSeen(w, layout.count), points, rects, image, width, height);
  }

  /** What the check of a blob establishes about its words. */
  lemma AcceptedWords(blob: seq<Byte>, w: seq<U32>, layout: Layout)
    requires Acceptable(blob) && w == LeWords(blob) && layout == FoundLayout(blob)
    ensures RecordAtIndex(layout.count) <= |w|
    ensures layout.points + 2 * PointEnd(SlicesSeen(w, layout.count)) <= |w|
    ensures layout.rects + 4 * RectEnd(SlicesSeen(w, layout.count)) <= |w|
  {
  }

  /** The kernel on a blob of any content and an image of any size. */
  method Kernel(a: I.Arithmetic, blob: seq<Byte>, image: seq<Half>, width: int, height: int)
    returns (status: Status, out: seq<Half>)
    requires width > 0 && height > 0 ==> I.Sized(image, width, height)
    ensures !Acceptable(blob) || width <= 0 || height <= 0 <==> status == BAD_INDEX
    ensures status != BAD_INDEX ==>
      Ran(a, AllRecords(blob), PointsSeen(blob), RectsSeen(blob), image, width, height, status, out)
  {
    var layout := CheckedParamBlob(blob);
    if layout.None? || width <= 0 || height <= 0 {
      return BAD_INDEX, [];
    }
    var w := LeWords(blob);
    AcceptedWords(blob, w, layout.value);
    assert AllRecords(blob) == RecordsSeen(w, layout.value.count);
    status, out := RunWords(a, w, layout.value, image, width, height);
  }

  // ---------------------------------------------------------------- an opcode list, from file to image

  /** The record packed for an opcode of the file asks for what the opcode asks for. */
  lemma {:induction false} RecordMeansOpcode(ops: seq<Opcode>, i: nat)
    requires Packable(ops) && i < |ops| && WellFormed(ops[i])
    ensures var r := RecordsFor(ops)[i];
      && Runnable(r, PointPool(ops), RectPool(ops))
      && EffectOf(r, PointPool(ops), RectPool(ops)) == Some(Meaning(ops[i].params))
  {
    SlicesAreTheOpcodes(ops);
    RecordIsFor(ops, i);
    EffectIsMeaning(ops[i], RecordsFor(ops)[i], PointPool(ops), RectPool(ops));
  }

  /** Whether a record carries an opcode's fields, with its points and rects in the pools. */
  ghost predicate Carries(r: DispatchRecord, op: Opcode, points: seq<Point>, rects: seq<Rect>)
    requires Fits(op.id, op.params)
  {
    && r.id == IdNumber(op.id) && r.optional == (if op.optional then 1 else 0)
    && r.optics == OpticsFor(op.params)
    && (op.params.BadConstant? ==> r.constant == op.params.constant)
    && (op.params.Trim? ==> r.bounds == op.params.bounds)
    && r.slices.PointEnd() <= |points| && points[r.slices.pointOffset..r.slices.PointEnd()] == Points(op)
    && r.slices.RectEnd() <= |rects| && rects[r.slices.rectOffset..r.slices.RectEnd()] == Rects(op)
  }

  lemma EffectIsMeaning(op: Opcode, r: DispatchRecord, points: seq<Point>, rects: seq<Rect>)
    requires Fits(op.id, op.params) && (op.id == Unknown ==> op.optional) && Carries(r, op, points, rects)
    ensures Runnable(r, points, rects) && EffectOf(r, points, rects) == Some(Meaning(op.params))
  {
    if op.params.Warp? {
      assert UsedPlanes(r.optics) == op.params.coefficients;
    }
  }

  lemma {:induction false} RecordIsFor(ops: seq<Opcode>, i: nat)
    requires Packable(ops) && i < |ops|
    ensures var r := RecordsFor(ops)[i];
      && r.id == IdNumber(ops[i].id) && r.optional == (if ops[i].optional then 1 else 0)
      && r.optics == OpticsFor(ops[i].params)
      && (ops[i].params.BadConstant? ==> r.constant == ops[i].params.constant)
      && (ops[i].params.Trim? ==> r.bounds == ops[i].params.bounds)
  {
    var front := ops[..|ops| - 1];
    if i < |front| {
      RecordIsFor(front, i);
      assert RecordsFor(ops)[i] == RecordsFor(front)[i];
    }
  }

  /** Everything the kernel reads from a packed blob. */
  lemma {:induction false} PackedIsSeen(ops: seq<Opcode>, blob: seq<Byte>)
    requires Packable(ops) && blob == LeBytes(PackedWords(ops))
    ensures Acceptable(blob) && AllRecords(blob) == RecordsFor(ops)
    ensures PointsSeen(blob) == PointPool(ops) && RectsSeen(blob) == RectPool(ops)
  {
    PackedIsAccepted(ops);
    PackedSlices(ops);
    EndsArePoolSizes(ops);
    PackedPools(ops);
    forall i | 0 <= i < |ops|
      ensures RecordAtIndex(i) + RECORD_WORDS <= |PackedWords(ops)| &&
              RecordFrom(PackedWords(ops), RecordAtIndex(i)) == RecordsFor(ops)[i]
    {
      PackedRecord(ops, i);
    }
  }

  /** A list as a file may hold it, packed and run: the kernel never refuses it, and the
      image is what the opcodes mean, one after another. */
  method PackAndRun(a: I.Arithmetic, ops: seq<Opcode>, image: seq<Half>, width: nat, height: nat)
    returns (status: Status, out: seq<Half>)
    requires width > 0 && height > 0 && I.Sized(image, width, height)
    requires Packable(ops) && forall i :: 0 <= i < |ops| ==> WellFormed(ops[i])
    ensures status == OK && out == I.ApplyAll(a, Meanings(ops), image, width, height)
  {
    var blob := Pack(ops);
    PackedIsSeen(ops, blob);
    PackedEffects(ops);
    status, out := Kernel(a, blob, image, width, height);
  }

  /** The packed records are all supported, and ask for what the opcodes mean. */
  lemma {:induction false} PackedEffects(ops: seq<Opcode>)
    requires Packable(ops) && forall i :: 0 <= i < |ops| ==> WellFormed(ops[i])
    ensures forall i :: 0 <= i < |ops| ==> Runnable(RecordsFor(ops)[i], PointPool(ops), RectPool(ops))
    ensures Supported(RecordsFor(ops), PointPool(ops), RectPool(ops))
    ensures Effects(RecordsFor(ops), PointPool(ops), RectPool(ops)) == Meanings(ops)
  {
    forall i: nat | i < |ops|
      ensures Means(RecordsFor(ops)[i], PointPool(ops), RectPool(ops), Meanings(ops)[i])
    {
      RecordMeansOpcode(ops, i);
    }
    EffectsAre(RecordsFor(ops), PointPool(ops), RectPool(ops), Meanings(ops));
  }

  ghost predicate Means(r: DispatchRecord, points: seq<Point>, rects: seq<Rect>, e: I.Effect)
  {
    Runnable(r, points, rects) && EffectOf(r, points, rects) == Some(e)
  }

  lemma EffectsAre(records: seq<DispatchRecord>, points: seq<Point>, rects: seq<Rect>, effects: seq<I.Effect>)
    requires |records| == |effects| && forall i: nat :: i < |records| ==> Means(records[i], points, rects, effects[i])
    ensures forall i :: 0 <= i < |records| ==> Runnable(records[i], points, rects)
    ensures Supported(records, points, rects) && Effects(records, points, rects) == effects
  {
    forall i | 0 <= i < |records| ensures Runnable(records[i], points, rects) {
      assert Means(records[i], points, rects, effects[i]);
    }
    forall i | 0 <= i < |records| ensures EffectOf(records[i], points, rects) == Some(effects[i]) {
      assert Means(records[i], points, rects, effects[i]);
    }
  }
}
