/** The flat parameter blob between the opcode-list node and its kernel: a header, one
    fixed-size record per opcode, then a pool of bad points and a pool of bad rects that
    the records index. */
module Opcode3Blob {
  import opened Options
  import opened Bytes
  import opened OpcodeList3

  /** The warp and vignette fields of a record. */
  datatype Optics = Optics(coefficientCount: U32, coefficients: seq<Coefficient>, cx: Double, cy: Double,
                           k: seq<Double>, vcx: Double, vcy: Double)

  /** Which part of each pool belongs to a record. */
  datatype Slices = Slices(pointOffset: U32, pointCount: U32, rectOffset: U32, rectCount: U32) {
    function PointEnd(): nat { pointOffset as int + pointCount as int }
    function RectEnd(): nat { rectOffset as int + rectCount as int }
  }

  datatype DispatchRecord = DispatchRecord(id: U32, optional: U32, optics: Optics, constant: U32, phase: U32,
                                           slices: Slices, bounds: Rect)

  const HEADER_WORDS: nat := 2
  const RECORD_WORDS: nat := 80

  const ZERO: Double := Double(0, 0)
  const NO_COEFFICIENT: Coefficient := Coefficient(ZERO, ZERO, ZERO, ZERO, ZERO, ZERO)
  const NO_OPTICS: Optics :=
    Optics(0, [NO_COEFFICIENT, NO_COEFFICIENT, NO_COEFFICIENT, NO_COEFFICIENT], ZERO, ZERO,
           [ZERO, ZERO, ZERO, ZERO, ZERO], ZERO, ZERO)

  predicate Shaped(r: DispatchRecord)
  {
    |r.optics.coefficients| == 4 && |r.optics.k| == 5
  }

  function IdNumber(id: OpcodeId): U32
  {
    match id
    case Unknown => 0
    case WarpRectilinear => 1
    case FixVignetteRadial => 3
    case FixBadPixelsConstant => 4
    case FixBadPixelsList => 5
    case TrimBounds => 6
  }

  // ---------------------------------------------------------------- a record in memory

  function CoefficientLe(c: Coefficient): (w: seq<U32>)
    ensures |w| == 12
  {
    [c.kr0.low, c.kr0.high, c.kr1.low, c.kr1.high, c.kr2.low, c.kr2.high,
     c.kr3.low, c.kr3.high, c.kt0.low, c.kt0.high, c.kt1.low, c.kt1.high]
  }

  /** The record's first words; the fourth is padding before the doubles. */
  function Head(r: DispatchRecord): (w: seq<U32>) { [r.id, r.optional, r.optics.coefficientCount, 0] }

  function Planes(cs: seq<Coefficient>): (w: seq<U32>)
    requires |cs| == 4
    ensures |w| == 48
  {
    CoefficientLe(cs[0]) + CoefficientLe(cs[1]) + CoefficientLe(cs[2]) + CoefficientLe(cs[3])
  }

  function Middle(o: Optics): (w: seq<U32>)
    requires |o.k| == 5
    ensures |w| == 18
  {
    [o.cx.low, o.cx.high, o.cy.low, o.cy.high,
     o.k[0].low, o.k[0].high, o.k[1].low, o.k[1].high, o.k[2].low, o.k[2].high,
     o.k[3].low, o.k[3].high, o.k[4].low, o.k[4].high,
     o.vcx.low, o.vcx.high, o.vcy.low, o.vcy.high]
  }

  function Tail(r: DispatchRecord): (w: seq<U32>)
  {
    [r.constant, r.phase, r.slices.pointOffset, r.slices.pointCount, r.slices.rectOffset, r.slices.rectCount,
     r.bounds.top, r.bounds.left, r.bounds.bottom, r.bounds.right]
  }

  function RecordWords(r: DispatchRecord): (w: seq<U32>)
    requires Shaped(r)
    ensures |w| == RECORD_WORDS
  {
    Head(r) + Planes(r.optics.coefficients) + Middle(r.optics) + Tail(r)
  }

  function DoubleFrom(w: seq<U32>, at: nat): Double
    requires at + 2 <= |w|
  {
    Double(w[at + 1], w[at])
  }

  function CoefficientFrom(w: seq<U32>, at: nat): Coefficient
    requires at + 12 <= |w|
  {
    Coefficient(DoubleFrom(w, at), DoubleFrom(w, at + 2), DoubleFrom(w, at + 4),
                DoubleFrom(w, at + 6), DoubleFrom(w, at + 8), DoubleFrom(w, at + 10))
  }

  function OpticsFrom(w: seq<U32>, at: nat): (o: Optics)
    requires at + 70 <= |w|
  {
    Optics(
      w[at + 2],
      [CoefficientFrom(w, at + 4), CoefficientFrom(w, at + 16), CoefficientFrom(w, at + 28),
       CoefficientFrom(w, at + 40)],
      DoubleFrom(w, at + 52), DoubleFrom(w, at + 54),
      [DoubleFrom(w, at + 56), DoubleFrom(w, at + 58), DoubleFrom(w, at + 60), DoubleFrom(w, at + 62),
       DoubleFrom(w, at + 64)],
      DoubleFrom(w, at + 66), DoubleFrom(w, at + 68))
  }

  function SlicesFrom(w: seq<U32>, at: nat): (s: Slices)
    requires at + 76 <= |w|
  {
    Slices(w[at + 72], w[at + 73], w[at + 74], w[at + 75])
  }

  /** The record the kernel sees at a word offset. */
  function RecordFrom(w: seq<U32>, at: nat): (r: DispatchRecord)
    requires at + RECORD_WORDS <= |w|
  {
    DispatchRecord(w[at], w[at + 1], OpticsFrom(w, at), w[at + 70], w[at + 71], SlicesFrom(w, at), RectIn(w, at + 76))
  }

  lemma Elementwise(w: seq<U32>, at: nat, part: seq<U32>)
    requires at + |part| <= |w| && w[at..at + |part|] == part
    ensures forall j :: 0 <= j < |part| ==> w[at + j] == part[j]
  {
    forall j | 0 <= j < |part| ensures w[at + j] == part[j] {
      assert w[at..at + |part|][j] == w[at + j];
    }
  }

  lemma CoefficientKept(w: seq<U32>, at: nat, c: Coefficient)
    requires at + 12 <= |w| && w[at..at + 12] == CoefficientLe(c)
    ensures CoefficientFrom(w, at) == c
  {
    var b := CoefficientLe(c);
    Elementwise(w, at, b);
    assert w[at + 0] == b[0] && w[at + 1] == b[1] && w[at + 2] == b[2] && w[at + 3] == b[3];
    assert w[at + 4] == b[4] && w[at + 5] == b[5] && w[at + 6] == b[6] && w[at + 7] == b[7];
    assert w[at + 8] == b[8] && w[at + 9] == b[9] && w[at + 10] == b[10] && w[at + 11] == b[11];
  }

  lemma PartsOf(w: seq<U32>, at: nat, r: DispatchRecord)
    requires Shaped(r) && at + RECORD_WORDS <= |w| && w[at..at + RECORD_WORDS] == RecordWords(r)
    ensures w[at..at + 4] == Head(r)
    ensures w[at + 4..at + 16] == CoefficientLe(r.optics.coefficients[0]) &&
      w[at + 16..at + 28] == CoefficientLe(r.optics.coefficients[1])
    ensures w[at + 28..at + 40] == CoefficientLe(r.optics.coefficients[2]) &&
      w[at + 40..at + 52] == CoefficientLe(r.optics.coefficients[3])
    ensures w[at + 52..at + 70] == Middle(r.optics) && w[at + 70..at + 80] == Tail(r)
  {
    var whole, planes := RecordWords(r), Planes(r.optics.coefficients);
    assert whole[0..4] == Head(r) && whole[4..52] == planes && whole[52..70] == Middle(r.optics) &&
      whole[70..80] == Tail(r);
    SubSlice(w, at, whole, 0, 4);
    SubSlice(w, at, whole, 4, 52);
    SubSlice(w, at, whole, 52, 70);
    SubSlice(w, at, whole, 70, 80);
    PlanesOf(w, at + 4, r.optics.coefficients, planes);
  }

  lemma PlanesOf(w: seq<U32>, at: nat, cs: seq<Coefficient>, planes: seq<U32>)
    requires |cs| == 4 && planes == Planes(cs) && at + 48 <= |w| && w[at..at + 48] == planes
    ensures w[at..at + 12] == CoefficientLe(cs[0]) && w[at + 12..at + 24] == CoefficientLe(cs[1])
    ensures w[at + 24..at + 36] == CoefficientLe(cs[2]) && w[at + 36..at + 48] == CoefficientLe(cs[3])
  {
    assert planes[0..12] == CoefficientLe(cs[0]) && planes[12..24] == CoefficientLe(cs[1]);
    assert planes[24..36] == CoefficientLe(cs[2]) && planes[36..48] == CoefficientLe(cs[3]);
    SubSlice(w, at, planes, 0, 12);
    SubSlice(w, at, planes, 12, 24);
    SubSlice(w, at, planes, 24, 36);
    SubSlice(w, at, planes, 36, 48);
  }

  lemma SubSlice(w: seq<U32>, at: nat, part: seq<U32>, i: nat, j: nat)
    requires at + |part| <= |w| && w[at..at + |part|] == part && i <= j <= |part|
    ensures w[at + i..at + j] == part[i..j]
  {
    Elementwise(w, at, part);
    forall k | 0 <= k < j - i ensures w[at + i..at + j][k] == part[i..j][k] {
      assert w[at + (i + k)] == part[i + k];
    }
  }

  lemma MiddleKept(w: seq<U32>, at: nat, o: Optics)
    requires |o.k| == 5 && at + 18 <= |w| && w[at..at + 18] == Middle(o)
    ensures DoubleFrom(w, at) == o.cx && DoubleFrom(w, at + 2) == o.cy
    ensures [DoubleFrom(w, at + 4), DoubleFrom(w, at + 6), DoubleFrom(w, at + 8), DoubleFrom(w, at + 10),
             DoubleFrom(w, at + 12)] == o.k
    ensures DoubleFrom(w, at + 14) == o.vcx && DoubleFrom(w, at + 16) == o.vcy
  {
    var b := Middle(o);
    Elementwise(w, at, b);
    assert w[at + 0] == b[0] && w[at + 1] == b[1] && w[at + 2] == b[2] && w[at + 3] == b[3];
    assert w[at + 4] == b[4] && w[at + 5] == b[5] && w[at + 6] == b[6] && w[at + 7] == b[7];
    assert w[at + 8] == b[8] && w[at + 9] == b[9] && w[at + 10] == b[10] && w[at + 11] == b[11];
    assert w[at + 12] == b[12] && w[at + 13] == b[13] && w[at + 14] == b[14] && w[at + 15] == b[15];
    assert w[at + 16] == b[16] && w[at + 17] == b[17];
  }

  lemma TailKept(w: seq<U32>, at: nat, r: DispatchRecord)
    requires at + 80 <= |w| && w[at + 70..at + 80] == Tail(r)
    ensures w[at + 70] == r.constant && w[at + 71] == r.phase && SlicesFrom(w, at) == r.slices &&
      RectIn(w, at + 76) == r.bounds
  {
    var b := Tail(r);
    Elementwise(w, at + 70, b);
    assert w[at + 70 + 0] == b[0] && w[at + 70 + 1] == b[1] && w[at + 70 + 2] == b[2] && w[at + 70 + 3] == b[3];
    assert w[at + 70 + 4] == b[4] && w[at + 70 + 5] == b[5] && w[at + 70 + 6] == b[6] && w[at + 70 + 7] == b[7];
    assert w[at + 70 + 8] == b[8] && w[at + 70 + 9] == b[9];
  }

  lemma OpticsKept(w: seq<U32>, at: nat, r: DispatchRecord)
    requires Shaped(r) && at + RECORD_WORDS <= |w| && w[at..at + RECORD_WORDS] == RecordWords(r)
    ensures OpticsFrom(w, at) == r.optics && w[at] == r.id && w[at + 1] == r.optional
  {
    PartsOf(w, at, r);
    Elementwise(w, at, Head(r));
    assert w[at + 0] == Head(r)[0] && w[at + 1] == Head(r)[1] && w[at + 2] == Head(r)[2];
    CoefficientKept(w, at + 4, r.optics.coefficients[0]);
    CoefficientKept(w, at + 16, r.optics.coefficients[1]);
    CoefficientKept(w, at + 28, r.optics.coefficients[2]);
    CoefficientKept(w, at + 40, r.optics.coefficients[3]);
    MiddleKept(w, at + 52, r.optics);
  }

  /** A record written into the words is the record the kernel reads there. */
  lemma RecordKept(w: seq<U32>, at: nat, r: DispatchRecord)
    requires Shaped(r) && at + RECORD_WORDS <= |w| && w[at..at + RECORD_WORDS] == RecordWords(r)
    ensures RecordFrom(w, at) == r
  {
    OpticsKept(w, at, r);
    PartsOf(w, at, r);
    TailKept(w, at, r);
  }

  // ---------------------------------------------------------------- packing

  function Points(op: Opcode): seq<Point> { if op.params.BadList? then op.params.points else [] }

  function Rects(op: Opcode): seq<Rect> { if op.params.BadList? then op.params.rects else [] }

  /** The two pools: the points and rects of all opcodes, in list order. */
  ghost function PointPool(ops: seq<Opcode>): (pool: seq<Point>)
  {
    if ops == [] then [] else PointPool(ops[..|ops| - 1]) + Points(ops[|ops| - 1])
  }

  ghost function RectPool(ops: seq<Opcode>): (pool: seq<Rect>)
  {
    if ops == [] then [] else RectPool(ops[..|ops| - 1]) + Rects(ops[|ops| - 1])
  }

  function FourPlanes(cs: seq<Coefficient>): (planes: seq<Coefficient>)
    ensures |planes| == 4
  {
    seq(4, i requires 0 <= i < 4 => if i < |cs| then cs[i] else NO_COEFFICIENT)
  }

  function OpticsFor(p: Params): (o: Optics)
    requires p.Vignette? ==> |p.k| == 5
    ensures |o.coefficients| == 4 && |o.k| == 5
  {
    match p
    case Warp(cs, cx, cy) =>
      NO_OPTICS.(coefficientCount := if |cs| < 4 then |cs| else 4, coefficients := FourPlanes(cs), cx := cx, cy := cy)
    case Vignette(k, cx, cy) => NO_OPTICS.(k := k, vcx := cx, vcy := cy)
    case _ => NO_OPTICS
  }

  /** Offsets and counts are cut to 32 bits. */
  function SlicesFor(op: Opcode, pointOffset: nat, rectOffset: nat): (s: Slices)
  {
    if op.params.BadList? then
      Slices(Cut32(pointOffset), Cut32(|op.params.points|), Cut32(rectOffset), Cut32(|op.params.rects|))
    else Slices(0, 0, 0, 0)
  }

  function PhaseFor(p: Params): U32
  {
    match p
    case BadConstant(_, phase) => phase
    case BadList(phase, _, _) => phase
    case _ => 0
  }

  /** The record of one opcode, given how full the pools are. */
  function RecordFor(op: Opcode, pointOffset: nat, rectOffset: nat): (r: DispatchRecord)
    requires op.params.Vignette? ==> |op.params.k| == 5
    ensures Shaped(r)
  {
    DispatchRecord(IdNumber(op.id), if op.optional then 1 else 0, OpticsFor(op.params),
                   if op.params.BadConstant? then op.params.constant else 0, PhaseFor(op.params),
                   SlicesFor(op, pointOffset, rectOffset),
                   if op.params.Trim? then op.params.bounds else Rect(0, 0, 0, 0))
  }

  /** Every vignette has its five terms, as its type says. */
  ghost predicate FiveTerms(ops: seq<Opcode>)
  {
    forall i :: 0 <= i < |ops| && ops[i].params.Vignette? ==> |ops[i].params.k| == 5
  }

  /** Lists of which nothing is cut: counts and pools that fit 32-bit fields. */
  ghost predicate Packable(ops: seq<Opcode>)
  {
    |ops| < LIMIT32 && |PointPool(ops)| < LIMIT32 && |RectPool(ops)| < LIMIT32 && FiveTerms(ops)
  }

  /** The records of a list: each opcode's, with the pools as full as the opcodes before it left them. */
  ghost function RecordsFor(ops: seq<Opcode>): (records: seq<DispatchRecord>)
    requires FiveTerms(ops)
    ensures |records| == |ops| && forall i :: 0 <= i < |ops| ==> Shaped(records[i])
  {
    if ops == [] then []
    else
      var front := ops[..|ops| - 1];
      RecordsFor(front) + [RecordFor(ops[|ops| - 1], |PointPool(front)|, |RectPool(front)|)]
  }

  function RecordBlocks(records: seq<DispatchRecord>): (blocks: seq<seq<U32>>)
    requires forall i :: 0 <= i < |records| ==> Shaped(records[i])
    ensures |blocks| == |records| && Width(blocks, RECORD_WORDS)
    ensures forall i :: 0 <= i < |records| ==> blocks[i] == RecordWords(records[i])
  {
    seq(|records|, i requires 0 <= i < |records| => RecordWords(records[i]))
  }

  /** The words of a blob with these records and pools. */
  ghost function BlobWords(records: seq<DispatchRecord>, points: seq<Point>, rects: seq<Rect>): (w: seq<U32>)
    requires forall i :: 0 <= i < |records| ==> Shaped(records[i])
  {
    [Cut32(|records|), 0] + Join(RecordBlocks(records)) + Join(PointBlocks(points)) + Join(RectBlocks(rects))
  }

  /** Build the records and fill the pools. */
  method BuildRecords(ops: seq<Opcode>) returns (records: seq<DispatchRecord>, points: seq<Point>, rects: seq<Rect>)
    requires FiveTerms(ops)
    ensures records == RecordsFor(ops) && points == PointPool(ops) && rects == RectPool(ops)
  {
    records, points, rects := [], [], [];
    for k := 0 to |ops|
      invariant records == RecordsFor(ops[..k]) && points == PointPool(ops[..k]) && rects == RectPool(ops[..k])
    {
      var op := ops[k];
      assert ops[..k + 1][..k] == ops[..k] && ops[..k + 1][k] == op;
      records := records + [RecordFor(op, |points|, |rects|)];
      points := points + Points(op);
      rects := rects + Rects(op);
    }
    assert ops[..|ops|] == ops;
  }

  /** Append structs, given as words, one after another. */
  method AppendStructs(blob: seq<Byte>, blocks: seq<seq<U32>>) returns (longer: seq<Byte>)
    ensures longer == blob + LeBytes(Join(blocks))
  {
    longer := blob;
    for i := 0 to |blocks|
      invariant longer == blob + LeBytes(Join(blocks[..i]))
    {
      assert blocks[..i + 1][..i] == blocks[..i];
      LeBytesAppend(Join(blocks[..i]), blocks[i]);
      assert blob + LeBytes(Join(blocks[..i])) + LeBytes(blocks[i]) ==
        blob + (LeBytes(Join(blocks[..i])) + LeBytes(blocks[i]));
      longer := longer + LeBytes(blocks[i]);
    }
    assert blocks[..|blocks|] == blocks;
  }

  method Pack(ops: seq<Opcode>) returns (blob: seq<Byte>)
    requires FiveTerms(ops)
    ensures blob == LeBytes(PackedWords(ops))
  {
    var records, points, rects := BuildRecords(ops);
    var header: seq<U32> := [Cut32(|ops|), 0];
    blob := AppendStructs(LeBytes(header), RecordBlocks(records));
    blob := AppendStructs(blob, PointBlocks(points));
    blob := AppendStructs(blob, RectBlocks(rects));
    BlobParts(header, Join(RecordBlocks(records)), Join(PointBlocks(points)), Join(RectBlocks(rects)));
  }

  lemma BlobParts(a: seq<U32>, b: seq<U32>, c: seq<U32>, d: seq<U32>)
    ensures LeBytes(a + b + c + d) == LeBytes(a) + LeBytes(b) + LeBytes(c) + LeBytes(d)
  {
    LeBytesAppend(a, b);
    LeBytesAppend(a + b, c);
    LeBytesAppend(a + b + c, d);
  }

  // ---------------------------------------------------------------- checking

  /** Where the kernel finds things: the opcode count and the word offsets of the pools. */
  datatype Layout = Layout(count: nat, points: nat, rects: nat)

  function Max(a: nat, b: nat): nat { if a < b then b else a }

  function RecordAtIndex(i: nat): nat { HEADER_WORDS + RECORD_WORDS * i }

  /** The largest end of a point slice. */
  ghost function PointEnd(slices: seq<Slices>): (end: nat)
  {
    if slices == [] then 0 else Max(PointEnd(slices[..|slices| - 1]), slices[|slices| - 1].PointEnd())
  }

  ghost function RectEnd(slices: seq<Slices>): (end: nat)
  {
    if slices == [] then 0 else Max(RectEnd(slices[..|slices| - 1]), slices[|slices| - 1].RectEnd())
  }

  /** The slices the first n records of a blob claim. */
  ghost function SlicesSeen(w: seq<U32>, n: nat): (slices: seq<Slices>)
    requires RecordAtIndex(n) <= |w|
    ensures |slices| == n
  {
    seq(n, i requires 0 <= i < n => SlicesFrom(w, RecordAtIndex(i)))
  }

  /** The blob holds the header, the records it counts, and the pools as far as those records index them. */
  ghost predicate Acceptable(blob: seq<Byte>)
  {
    && |blob| >= 4 * HEADER_WORDS
    && var w := LeWords(blob);
       |blob| >= 4 * RecordAtIndex(w[0]) &&
       var slices := SlicesSeen(w, w[0]);
       |blob| >= 4 * (RecordAtIndex(w[0]) + 2 * PointEnd(slices) + 4 * RectEnd(slices))
  }

  /** The layout an acceptable blob has: the rect pool starts where the point slices end. */
  ghost function FoundLayout(blob: seq<Byte>): Layout
    requires Acceptable(blob)
  {
    var w := LeWords(blob);
    Layout(w[0], RecordAtIndex(w[0]), RecordAtIndex(w[0]) + 2 * PointEnd(SlicesSeen(w, w[0])))
  }

  /** The kernel's check, on blobs of any size and content. */
  method CheckedParamBlob(blob: seq<Byte>) returns (layout: Option<Layout>)
    ensures layout.Some? <==> Acceptable(blob)
    ensures layout.Some? ==> layout.value == FoundLayout(blob)
  {
    if |blob| < 4 * HEADER_WORDS {
      return None;
    }
    var w := LeWords(blob);
    var count: nat := w[0];
    if |blob| < 4 * RecordAtIndex(count) {
      return None;
    }
    var pointCount, rectCount := CountPools(w, count);
    var rectsAt := RecordAtIndex(count) + 2 * pointCount;
    if |blob| < 4 * (rectsAt + 4 * rectCount) {
      return None;
    }
    layout := Some(Layout(count, RecordAtIndex(count), rectsAt));
  }

  method CountPools(w: seq<U32>, count: nat) returns (pointCount: nat, rectCount: nat)
    requires RecordAtIndex(count) <= |w|
    ensures pointCount == PointEnd(SlicesSeen(w, count)) && rectCount == RectEnd(SlicesSeen(w, count))
  {
    pointCount, rectCount := 0, 0;
    ghost var slices := SlicesSeen(w, count);
    for i := 0 to count
      invariant pointCount == PointEnd(slices[..i]) && rectCount == RectEnd(slices[..i])
    {
      var s := SlicesFrom(w, RecordAtIndex(i));
      assert slices[..i + 1][..i] == slices[..i] && slices[..i + 1][i] == s;
      pointCount := Max(pointCount, s.PointEnd());
      rectCount := Max(rectCount, s.RectEnd());
    }
    assert slices[..count] == slices;
  }

  // ---------------------------------------------------------------- what was packed is what is found

  lemma FourPieces(a: seq<U32>, b: seq<U32>, c: seq<U32>, d: seq<U32>)
    requires a != []
    ensures var w := a + b + c + d;
      && w[0] == a[0] && w[|a|..|a| + |b|] == b && w[|a| + |b|..|a| + |b| + |c|] == c
      && w[|a| + |b| + |c|..|a| + |b| + |c| + |d|] == d
  {
  }

  lemma BlobShape(w: seq<U32>, layout: Layout, records: seq<DispatchRecord>, points: seq<Point>, rects: seq<Rect>)
    requires |records| < LIMIT32 && forall i :: 0 <= i < |records| ==> Shaped(records[i])
    requires w == BlobWords(records, points, rects)
    requires layout == Layout(|records|, RecordAtIndex(|records|), RecordAtIndex(|records|) + 2 * |points|)
    ensures |Join(RecordBlocks(records))| == RECORD_WORDS * |records|
    ensures |Join(PointBlocks(points))| == 2 * |points| && |Join(RectBlocks(rects))| == 4 * |rects|
    ensures |w| == layout.rects + 4 * |rects| && w[0] == |records|
    ensures w[HEADER_WORDS..layout.points] == Join(RecordBlocks(records))
    ensures w[layout.points..layout.rects] == Join(PointBlocks(points))
    ensures w[layout.rects..layout.rects + 4 * |rects|] == Join(RectBlocks(rects))
  {
    var blocks, ps, rs := RecordBlocks(records), PointBlocks(points), RectBlocks(rects);
    JoinLength(blocks, RECORD_WORDS);
    JoinLength(ps, 2);
    JoinLength(rs, 4);
    FourPieces([Cut32(|records|), 0], Join(blocks), Join(ps), Join(rs));
  }

  /** Both pools are where the layout says. */
  ghost predicate PoolsAt(w: seq<U32>, layout: Layout, points: seq<Point>, rects: seq<Rect>)
  {
    && layout.points + 2 * |points| <= |w| && layout.rects + 4 * |rects| <= |w|
    && PointsIn(w, layout.points, |points|) == points
    && RectsIn(w, layout.rects, |rects|) == rects
  }

  /** A blob's words give back its pools. */
  lemma BlobHoldsPools(w: seq<U32>, layout: Layout, records: seq<DispatchRecord>, points: seq<Point>, rects: seq<Rect>)
    requires |records| < LIMIT32 && forall i :: 0 <= i < |records| ==> Shaped(records[i])
    requires w == BlobWords(records, points, rects)
    requires layout == Layout(|records|, RecordAtIndex(|records|), RecordAtIndex(|records|) + 2 * |points|)
    ensures PoolsAt(w, layout, points, rects)
  {
    BlobShape(w, layout, records, points, rects);
    PointsRead(w, layout.points, points);
    RectsRead(w, layout.rects, rects);
  }

  lemma RecordHeld(w: seq<U32>, records: seq<DispatchRecord>, i: nat)
    requires i < |records| && forall k :: 0 <= k < |records| ==> Shaped(records[k])
    requires var joined := Join(RecordBlocks(records));
      HEADER_WORDS + |joined| <= |w| && w[HEADER_WORDS..HEADER_WORDS + |joined|] == joined
    ensures RecordAtIndex(i) + RECORD_WORDS <= |w| && RecordFrom(w, RecordAtIndex(i)) == records[i]
  {
    var blocks := RecordBlocks(records);
    JoinAt(blocks, RECORD_WORDS, i);
    SubSlice(w, HEADER_WORDS, Join(blocks), RECORD_WORDS * i, RECORD_WORDS * i + RECORD_WORDS);
    RecordKept(w, RecordAtIndex(i), records[i]);
  }

  ghost function AllSlices(records: seq<DispatchRecord>): (slices: seq<Slices>)
    ensures |slices| == |records|
  {
    seq(|records|, i requires 0 <= i < |records| => records[i].slices)
  }

  /** Without its last opcode a list is still packable. */
  lemma LastRecord(ops: seq<Opcode>, front: seq<Opcode>, last: Opcode)
    requires Packable(ops) && ops != [] && front == ops[..|ops| - 1] && last == ops[|ops| - 1]
    ensures Packable(front)
    ensures RecordsFor(ops) == RecordsFor(front) + [RecordFor(last, |PointPool(front)|, |RectPool(front)|)]
    ensures PointPool(ops) == PointPool(front) + Points(last) && RectPool(ops) == RectPool(front) + Rects(last)
  {
  }

  /** While nothing is cut, an opcode's slices begin where the pools ended and end where they end now. */
  lemma SlicesExtend(op: Opcode, points: nat, rects: nat)
    requires points + |Points(op)| < LIMIT32 && rects + |Rects(op)| < LIMIT32
    ensures var s := SlicesFor(op, points, rects);
      if op.params.BadList? then s == Slices(points, |Points(op)|, rects, |Rects(op)|) else s == Slices(0, 0, 0, 0)
  {
    Uncut(points);
    Uncut(rects);
    Uncut(|Points(op)|);
    Uncut(|Rects(op)|);
  }

  /** The largest slice end is the size of the pool, so the second pool is found where it is. */
  lemma {:induction false} EndsArePoolSizes(ops: seq<Opcode>)
    requires Packable(ops)
    ensures PointEnd(AllSlices(RecordsFor(ops))) == |PointPool(ops)| &&
      RectEnd(AllSlices(RecordsFor(ops))) == |RectPool(ops)|
  {
    if ops != [] {
      var front, last := ops[..|ops| - 1], ops[|ops| - 1];
      LastRecord(ops, front, last);
      EndsArePoolSizes(front);
      SlicesExtend(last, |PointPool(front)|, |RectPool(front)|);
      LastSlice(RecordsFor(front), RecordFor(last, |PointPool(front)|, |RectPool(front)|));
    }
  }

  lemma LastSlice(records: seq<DispatchRecord>, r: DispatchRecord)
    ensures PointEnd(AllSlices(records + [r])) == Max(PointEnd(AllSlices(records)), r.slices.PointEnd())
    ensures RectEnd(AllSlices(records + [r])) == Max(RectEnd(AllSlices(records)), r.slices.RectEnd())
  {
    var slices := AllSlices(records + [r]);
    assert slices[..|slices| - 1] == AllSlices(records);
  }

  /** A record's slices of the pools are these points and rects. */
  ghost predicate Holds(s: Slices, points: seq<Point>, rects: seq<Rect>, op: Opcode)
  {
    && s.PointEnd() <= |points| && points[s.pointOffset..s.PointEnd()] == Points(op)
    && s.RectEnd() <= |rects| && rects[s.rectOffset..s.RectEnd()] == Rects(op)
  }

  lemma EndOfPools(s: Slices, points: seq<Point>, rects: seq<Rect>, op: Opcode)
    requires op.params.BadList? ==> s.pointOffset == |points| && s.pointCount == |Points(op)|
    requires op.params.BadList? ==> s.rectOffset == |rects| && s.rectCount == |Rects(op)|
    requires !op.params.BadList? ==> s == Slices(0, 0, 0, 0)
    ensures Holds(s, points + Points(op), rects + Rects(op), op)
  {
  }

  lemma LastHolds(points: seq<Point>, rects: seq<Rect>, op: Opcode)
    requires |points| + |Points(op)| < LIMIT32 && |rects| + |Rects(op)| < LIMIT32
    ensures Holds(SlicesFor(op, |points|, |rects|), points + Points(op), rects + Rects(op), op)
  {
    SlicesExtend(op, |points|, |rects|);
    EndOfPools(SlicesFor(op, |points|, |rects|), points, rects, op);
  }

  lemma HoldsInLonger(s: Slices, points: seq<Point>, rects: seq<Rect>, op: Opcode, points': seq<Point>,
                      rects': seq<Rect>)
    requires Holds(s, points, rects, op)
    ensures Holds(s, points + points', rects + rects', op)
  {
    WithinPrefix(points, points', s.pointOffset, s.PointEnd());
    WithinPrefix(rects, rects', s.rectOffset, s.RectEnd());
  }

  /** Every record's slices of the pools are its opcode's points and rects. */
  ghost predicate AllHold(records: seq<DispatchRecord>, points: seq<Point>, rects: seq<Rect>, ops: seq<Opcode>)
  {
    |records| == |ops| && forall i :: 0 <= i < |ops| ==> Holds(records[i].slices, points, rects, ops[i])
  }

  lemma OneMoreHolds(records: seq<DispatchRecord>, points: seq<Point>, rects: seq<Rect>, ops: seq<Opcode>,
                     r: DispatchRecord, op: Opcode)
    requires AllHold(records, points, rects, ops) && Holds(r.slices, points + Points(op), rects + Rects(op), op)
    ensures AllHold(records + [r], points + Points(op), rects + Rects(op), ops + [op])
  {
    forall i | 0 <= i < |ops| ensures Holds(records[i].slices, points + Points(op), rects + Rects(op), ops[i]) {
      HoldsInLonger(records[i].slices, points, rects, ops[i], Points(op), Rects(op));
    }
  }

  /** Each record's slice of a pool is exactly its opcode's points or rects. */
  lemma {:induction false} SlicesAreTheOpcodes(ops: seq<Opcode>)
    requires Packable(ops)
    ensures AllHold(RecordsFor(ops), PointPool(ops), RectPool(ops), ops)
  {
    if ops != [] {
      var front, last := ops[..|ops| - 1], ops[|ops| - 1];
      assert front + [last] == ops;
      LastRecord(ops, front, last);
      SlicesAreTheOpcodes(front);
      LastHolds(PointPool(front), RectPool(front), last);
      OneMoreHolds(RecordsFor(front), PointPool(front), RectPool(front), front,
                   RecordFor(last, |PointPool(front)|, |RectPool(front)|), last);
    }
  }

  lemma WithinPrefix<T>(a: seq<T>, b: seq<T>, i: nat, j: nat)
    requires i <= j <= |a|
    ensures (a + b)[i..j] == a[i..j]
  {
  }

  ghost function LayoutOf(ops: seq<Opcode>): Layout
  {
    Layout(|ops|, RecordAtIndex(|ops|), RecordAtIndex(|ops|) + 2 * |PointPool(ops)|)
  }

  /** The words of the blob packed from a list. */
  ghost function PackedWords(ops: seq<Opcode>): (w: seq<U32>)
    requires FiveTerms(ops)
  {
    BlobWords(RecordsFor(ops), PointPool(ops), RectPool(ops))
  }

  /** Every packed blob is accepted, with the layout it was packed with. */
  lemma PackedIsAccepted(ops: seq<Opcode>)
    requires Packable(ops)
    ensures LeWords(LeBytes(PackedWords(ops))) == PackedWords(ops)
    ensures Acceptable(LeBytes(PackedWords(ops))) && FoundLayout(LeBytes(PackedWords(ops))) == LayoutOf(ops)
  {
    var w := PackedWords(ops);
    LeWordsOfBytes(w);
    BlobShape(PackedWords(ops), LayoutOf(ops), RecordsFor(ops), PointPool(ops), RectPool(ops));
    EndsArePoolSizes(ops);
    PackedSlices(ops);
    AcceptWords(LeBytes(w), w, |ops|, AllSlices(RecordsFor(ops)), |PointPool(ops)|, |RectPool(ops)|);
  }

  /** The kernel reads back the record packed for each opcode. */
  lemma PackedRecord(ops: seq<Opcode>, i: nat)
    requires Packable(ops) && i < |ops|
    ensures RecordAtIndex(i) + RECORD_WORDS <= |PackedWords(ops)|
    ensures RecordFrom(PackedWords(ops), RecordAtIndex(i)) == RecordsFor(ops)[i]
  {
    BlobShape(PackedWords(ops), LayoutOf(ops), RecordsFor(ops), PointPool(ops), RectPool(ops));
    RecordHeld(PackedWords(ops), RecordsFor(ops), i);
  }

  lemma PackedSlices(ops: seq<Opcode>)
    requires Packable(ops)
    ensures RecordAtIndex(|ops|) <= |PackedWords(ops)|
    ensures SlicesSeen(PackedWords(ops), |ops|) == AllSlices(RecordsFor(ops))
  {
    BlobShape(PackedWords(ops), LayoutOf(ops), RecordsFor(ops), PointPool(ops), RectPool(ops));
    forall i | 0 <= i < |ops|
      ensures RecordAtIndex(i) + 76 <= |PackedWords(ops)| &&
              SlicesFrom(PackedWords(ops), RecordAtIndex(i)) == RecordsFor(ops)[i].slices
    {
      PackedRecord(ops, i);
    }
  }

  /** The kernel reads back both pools where the layout says they are. */
  lemma PackedPools(ops: seq<Opcode>)
    requires Packable(ops)
    ensures PoolsAt(PackedWords(ops), LayoutOf(ops), PointPool(ops), RectPool(ops))
  {
    BlobHoldsPools(PackedWords(ops), LayoutOf(ops), RecordsFor(ops), PointPool(ops), RectPool(ops));
  }

  lemma AcceptWords(blob: seq<Byte>, w: seq<U32>, n: nat, slices: seq<Slices>, p: nat, q: nat)
    requires LeWords(blob) == w && |blob| == 4 * |w| && |w| == RecordAtIndex(n) + 2 * p + 4 * q && w[0] == n
    requires SlicesSeen(w, n) == slices && PointEnd(slices) == p && RectEnd(slices) == q
    ensures Acceptable(blob) && FoundLayout(blob) == Layout(n, RecordAtIndex(n), RecordAtIndex(n) + 2 * p)
  {
  }

  /** Packing and checking together: the check passes and finds what was packed. */
  method PackThenCheck(ops: seq<Opcode>) returns (blob: seq<Byte>, layout: Option<Layout>)
    requires Packable(ops)
    ensures blob == LeBytes(PackedWords(ops)) && layout == Some(LayoutOf(ops))
  {
    blob := Pack(ops);
    PackedIsAccepted(ops);
    layout := CheckedParamBlob(blob);
  }
}
