/** The third opcode list of a DNG file (chapter 7 of the Adobe DNG Specification):
    its values, their byte form, and the parser. */
module OpcodeList3 {
  import opened Options
  import opened Status
  import opened Bytes
  import opened RecordList

  const MAX_WARP_PLANES: nat := 4

  /** A double, as the two words of its bit pattern. */
  datatype Double = Double(high: U32, low: U32)

  datatype Coefficient = Coefficient(kr0: Double, kr1: Double, kr2: Double, kr3: Double, kt0: Double, kt1: Double)

  datatype Point = Point(row: U32, column: U32)

  datatype Rect = Rect(top: U32, left: U32, bottom: U32, right: U32)

  datatype OpcodeId =
    | Unknown | WarpRectilinear | FixVignetteRadial | FixBadPixelsConstant | FixBadPixelsList | TrimBounds

  datatype Params =
    | Warp(coefficients: seq<Coefficient>, cx: Double, cy: Double)
    | Vignette(k: seq<Double>, vcx: Double, vcy: Double)
    | BadConstant(constant: U32, phase: U32)
    | BadList(listPhase: U32, points: seq<Point>, rects: seq<Rect>)
    | Trim(bounds: Rect)
    | Unparsed

  datatype Opcode = Opcode(id: OpcodeId, rawId: U32, version: U32, flags: U32, optional: bool,
                           rawParams: seq<Byte>, params: Params)

  function IdFromRaw(raw: U32): OpcodeId
  {
    match raw
    case 1 => WarpRectilinear
    case 3 => FixVignetteRadial
    case 4 => FixBadPixelsConstant
    case 5 => FixBadPixelsList
    case 6 => TrimBounds
    case _ => Unknown
  }

  // ---------------------------------------------------------------- byte form of parameters

  function DoubleWords(d: Double): seq<U32> { [d.high, d.low] }

  function CoefficientWords(c: Coefficient): (w: seq<U32>)
    ensures |w| == 12
  {
    [c.kr0.high, c.kr0.low, c.kr1.high, c.kr1.low, c.kr2.high, c.kr2.low,
     c.kr3.high, c.kr3.low, c.kt0.high, c.kt0.low, c.kt1.high, c.kt1.low]
  }

  function PointWords(p: Point): seq<U32> { [p.row, p.column] }

  function RectWords(r: Rect): seq<U32> { [r.top, r.left, r.bottom, r.right] }

  ghost function CoefficientBlocks(cs: seq<Coefficient>): (blocks: seq<seq<U32>>)
    ensures |blocks| == |cs| && Width(blocks, 12)
  {
    seq(|cs|, i requires 0 <= i < |cs| => CoefficientWords(cs[i]))
  }

  ghost function DoubleBlocks(ds: seq<Double>): (blocks: seq<seq<U32>>)
    ensures |blocks| == |ds| && Width(blocks, 2)
  {
    seq(|ds|, i requires 0 <= i < |ds| => DoubleWords(ds[i]))
  }

  function PointBlocks(ps: seq<Point>): (blocks: seq<seq<U32>>)
    ensures |blocks| == |ps| && Width(blocks, 2)
  {
    seq(|ps|, i requires 0 <= i < |ps| => PointWords(ps[i]))
  }

  function RectBlocks(rs: seq<Rect>): (blocks: seq<seq<U32>>)
    ensures |blocks| == |rs| && Width(blocks, 4)
  {
    seq(|rs|, i requires 0 <= i < |rs| => RectWords(rs[i]))
  }

  /** The words of a parameter block; counts must fit a word. */
  ghost function ParamWords(p: Params): (words: seq<U32>)
    requires WellFormedParams(p)
  {
    match p
    case Warp(cs, cx, cy) => [|cs|] + Join(CoefficientBlocks(cs)) + DoubleWords(cx) + DoubleWords(cy)
    case Vignette(k, cx, cy) => Join(DoubleBlocks(k)) + DoubleWords(cx) + DoubleWords(cy)
    case BadConstant(c, phase) => [c, phase]
    case BadList(phase, ps, rs) => [phase, |ps|, |rs|] + Join(PointBlocks(ps)) + Join(RectBlocks(rs))
    case Trim(bounds) => RectWords(bounds)
    case Unparsed => []
  }

  ghost predicate WellFormedParams(p: Params)
  {
    match p
    case Warp(cs, _, _) => 1 <= |cs| <= MAX_WARP_PLANES
    case Vignette(k, _, _) => |k| == 5
    case BadList(_, ps, rs) => |ps| < LIMIT32 && |rs| < LIMIT32
    case _ => true
  }

  /** The parameters an opcode id carries. */
  ghost predicate Fits(id: OpcodeId, p: Params)
  {
    && WellFormedParams(p)
    && match id
       case Unknown => p.Unparsed?
       case WarpRectilinear => p.Warp?
       case FixVignetteRadial => p.Vignette?
       case FixBadPixelsConstant => p.BadConstant?
       case FixBadPixelsList => p.BadList?
       case TrimBounds => p.Trim?
  }

  // ---------------------------------------------------------------- reading parameters back

  function DoubleIn(w: seq<U32>, i: nat): Double
    requires i + 2 <= |w|
  {
    Double(w[i], w[i + 1])
  }

  function CoefficientIn(w: seq<U32>, i: nat): Coefficient
    requires i + 12 <= |w|
  {
    Coefficient(DoubleIn(w, i), DoubleIn(w, i + 2), DoubleIn(w, i + 4), DoubleIn(w, i + 6), DoubleIn(w, i + 8),
                DoubleIn(w, i + 10))
  }

  function RectIn(w: seq<U32>, i: nat): Rect
    requires i + 4 <= |w|
  {
    Rect(w[i], w[i + 1], w[i + 2], w[i + 3])
  }

  function CoefficientsIn(w: seq<U32>, at: nat, n: nat): (cs: seq<Coefficient>)
    requires at + 12 * n <= |w|
  {
    seq(n, i requires 0 <= i < n => CoefficientIn(w, at + 12 * i))
  }

  function DoublesIn(w: seq<U32>, at: nat, n: nat): (ds: seq<Double>)
    requires at + 2 * n <= |w|
  {
    seq(n, i requires 0 <= i < n => DoubleIn(w, at + 2 * i))
  }

  function PointsIn(w: seq<U32>, at: nat, n: nat): (ps: seq<Point>)
    requires at + 2 * n <= |w|
  {
    seq(n, i requires 0 <= i < n => Point(w[at + 2 * i], w[at + 2 * i + 1]))
  }

  function RectsIn(w: seq<U32>, at: nat, n: nat): (rs: seq<Rect>)
    requires at + 4 * n <= |w|
  {
    seq(n, i requires 0 <= i < n => RectIn(w, at + 4 * i))
  }

  function ReadWarp(w: seq<U32>): (r: Option<Params>)
  {
    if |w| < 1 then None
    else
      var n: nat := w[0];
      if n == 0 || n > MAX_WARP_PLANES || |w| != 1 + 12 * n + 4 then None
      else Some(Warp(CoefficientsIn(w, 1, n), DoubleIn(w, 1 + 12 * n), DoubleIn(w, 3 + 12 * n)))
  }

  function ReadVignette(w: seq<U32>): (r: Option<Params>)
  {
    if |w| != 14 then None else Some(Vignette(DoublesIn(w, 0, 5), DoubleIn(w, 10), DoubleIn(w, 12)))
  }

  function ReadBadConstant(w: seq<U32>): (r: Option<Params>)
  {
    if |w| != 2 then None else Some(BadConstant(w[0], w[1]))
  }

  function ReadBadList(w: seq<U32>): (r: Option<Params>)
  {
    if |w| < 3 then None
    else
      var p: nat, q: nat := w[1], w[2];
      if |w| != 3 + 2 * p + 4 * q then None
      else Some(BadList(w[0], PointsIn(w, 3, p), RectsIn(w, 3 + 2 * p, q)))
  }

  function ReadTrim(w: seq<U32>): (r: Option<Params>)
  {
    if |w| != 4 then None else Some(Trim(RectIn(w, 0)))
  }

  function ReadWords(id: OpcodeId, w: seq<U32>): (r: Option<Params>)
  {
    match id
    case Unknown => None
    case WarpRectilinear => ReadWarp(w)
    case FixVignetteRadial => ReadVignette(w)
    case FixBadPixelsConstant => ReadBadConstant(w)
    case FixBadPixelsList => ReadBadList(w)
    case TrimBounds => ReadTrim(w)
  }

  /** The parameters of a known opcode, if the block has exactly the right size. */
  ghost function ReadParams(id: OpcodeId, bytes: seq<Byte>): (r: Option<Params>)
  {
    if |bytes| % 4 != 0 then None else ReadWords(id, BeWords(bytes))
  }

  // ---------------------------------------------------------------- words and parameters are the same thing

  lemma SliceAt(w: seq<U32>, at: nat, inner: seq<U32>, k: nat, block: seq<U32>)
    requires at + |inner| <= |w| && w[at..at + |inner|] == inner
    requires k + |block| <= |inner| && inner[k..k + |block|] == block
    ensures forall j :: 0 <= j < |block| ==> w[at + k + j] == block[j]
  {
    forall j | 0 <= j < |block| ensures w[at + k + j] == block[j] {
      assert w[at..at + |inner|][k + j] == w[at + k + j];
      assert inner[k..k + |block|][j] == inner[k + j];
    }
  }

  lemma CoefficientsRead(w: seq<U32>, at: nat, cs: seq<Coefficient>)
    requires var joined := Join(CoefficientBlocks(cs)); at + |joined| <= |w| && w[at..at + |joined|] == joined
    ensures at + 12 * |cs| <= |w| && CoefficientsIn(w, at, |cs|) == cs
  {
    var blocks := CoefficientBlocks(cs);
    JoinLength(blocks, 12);
    forall i | 0 <= i < |cs| ensures at + 12 * i + 12 <= |w| && CoefficientIn(w, at + 12 * i) == cs[i] {
      CoefficientRead(w, at, cs, blocks, i);
    }
  }

  lemma CoefficientRead(w: seq<U32>, at: nat, cs: seq<Coefficient>, blocks: seq<seq<U32>>, i: nat)
    requires blocks == CoefficientBlocks(cs) && i < |cs| && at + |Join(blocks)| <= |w| &&
      w[at..at + |Join(blocks)|] == Join(blocks)
    ensures at + 12 * i + 12 <= |w| && CoefficientIn(w, at + 12 * i) == cs[i]
  {
    JoinAt(blocks, 12, i);
    SliceAt(w, at, Join(blocks), 12 * i, blocks[i]);
    CoefficientFromBlock(w, at + 12 * i, cs[i]);
  }

  lemma CoefficientFromBlock(w: seq<U32>, at: nat, c: Coefficient)
    requires at + 12 <= |w| && forall j :: 0 <= j < 12 ==> w[at + j] == CoefficientWords(c)[j]
    ensures CoefficientIn(w, at) == c
  {
    var b := CoefficientWords(c);
    assert w[at + 0] == b[0] && w[at + 1] == b[1] && w[at + 2] == b[2] && w[at + 3] == b[3];
    assert w[at + 4] == b[4] && w[at + 5] == b[5] && w[at + 6] == b[6] && w[at + 7] == b[7];
    assert w[at + 8] == b[8] && w[at + 9] == b[9] && w[at + 10] == b[10] && w[at + 11] == b[11];
  }

  lemma DoublesRead(w: seq<U32>, at: nat, ds: seq<Double>)
    requires var joined := Join(DoubleBlocks(ds)); at + |joined| <= |w| && w[at..at + |joined|] == joined
    ensures at + 2 * |ds| <= |w| && DoublesIn(w, at, |ds|) == ds
  {
    var blocks := DoubleBlocks(ds);
    JoinLength(blocks, 2);
    forall i | 0 <= i < |ds| ensures DoubleIn(w, at + 2 * i) == ds[i] {
      JoinAt(blocks, 2, i);
      SliceAt(w, at, Join(blocks), 2 * i, blocks[i]);
      assert w[at + 2 * i + 0] == blocks[i][0] && w[at + 2 * i + 1] == blocks[i][1];
    }
  }

  lemma PointsRead(w: seq<U32>, at: nat, ps: seq<Point>)
    requires var joined := Join(PointBlocks(ps)); at + |joined| <= |w| && w[at..at + |joined|] == joined
    ensures at + 2 * |ps| <= |w| && PointsIn(w, at, |ps|) == ps
  {
    var blocks := PointBlocks(ps);
    JoinLength(blocks, 2);
    forall i | 0 <= i < |ps| ensures PointsIn(w, at, |ps|)[i] == ps[i] {
      JoinAt(blocks, 2, i);
      SliceAt(w, at, Join(blocks), 2 * i, blocks[i]);
      assert w[at + 2 * i + 0] == blocks[i][0] && w[at + 2 * i + 1] == blocks[i][1];
    }
  }

  lemma RectsRead(w: seq<U32>, at: nat, rs: seq<Rect>)
    requires var joined := Join(RectBlocks(rs)); at + |joined| <= |w| && w[at..at + |joined|] == joined
    ensures at + 4 * |rs| <= |w| && RectsIn(w, at, |rs|) == rs
  {
    var blocks := RectBlocks(rs);
    JoinLength(blocks, 4);
    forall i | 0 <= i < |rs| ensures RectIn(w, at + 4 * i) == rs[i] {
      JoinAt(blocks, 4, i);
      SliceAt(w, at, Join(blocks), 4 * i, blocks[i]);
      assert w[at + 4 * i + 0] == blocks[i][0] && w[at + 4 * i + 1] == blocks[i][1];
      assert w[at + 4 * i + 2] == blocks[i][2] && w[at + 4 * i + 3] == blocks[i][3];
    }
  }

  lemma WarpRoundTrip(p: Params)
    requires p.Warp? && WellFormedParams(p)
    ensures ReadWarp(ParamWords(p)) == Some(p)
  {
    var w, joined := ParamWords(p), Join(CoefficientBlocks(p.coefficients));
    assert w[1..1 + |joined|] == joined;
    JoinLength(CoefficientBlocks(p.coefficients), 12);
    CoefficientsRead(w, 1, p.coefficients);
  }

  lemma VignetteRoundTrip(p: Params)
    requires p.Vignette? && WellFormedParams(p)
    ensures ReadVignette(ParamWords(p)) == Some(p)
  {
    var w, joined := ParamWords(p), Join(DoubleBlocks(p.k));
    assert w[0..0 + |joined|] == joined;
    JoinLength(DoubleBlocks(p.k), 2);
    DoublesRead(w, 0, p.k);
  }

  lemma BadListRoundTrip(p: Params)
    requires p.BadList? && WellFormedParams(p)
    ensures ReadBadList(ParamWords(p)) == Some(p)
  {
    var w, points, rects := ParamWords(p), Join(PointBlocks(p.points)), Join(RectBlocks(p.rects));
    JoinLength(PointBlocks(p.points), 2);
    JoinLength(RectBlocks(p.rects), 4);
    ThreePieces([p.listPhase, |p.points|, |p.rects|], points, rects);
    PointsRead(w, 3, p.points);
    RectsRead(w, 3 + |points|, p.rects);
  }

  lemma ThreePieces(a: seq<U32>, b: seq<U32>, c: seq<U32>)
    ensures var w := a + b + c;
      && (forall i :: 0 <= i < |a| ==> w[i] == a[i])
      && w[|a|..|a| + |b|] == b && w[|a| + |b|..|a| + |b| + |c|] == c
  {
  }

  /** Reading the words of well-formed parameters gives them back. */
  lemma ParamsRoundTrip(id: OpcodeId, p: Params)
    requires id != Unknown && Fits(id, p)
    ensures ReadWords(id, ParamWords(p)) == Some(p)
  {
    match id
    case WarpRectilinear => WarpRoundTrip(p);
    case FixVignetteRadial => VignetteRoundTrip(p);
    case FixBadPixelsConstant =>
    case FixBadPixelsList => BadListRoundTrip(p);
    case TrimBounds =>
  }

  lemma CoefficientsPrinted(w: seq<U32>, at: nat, n: nat)
    requires at + 12 * n <= |w|
    ensures Join(CoefficientBlocks(CoefficientsIn(w, at, n))) == w[at..at + 12 * n]
  {
    var blocks := CoefficientBlocks(CoefficientsIn(w, at, n));
    forall i | 0 <= i < n ensures blocks[i] == w[at + 12 * i..at + 12 * i + 12] {
      assert blocks[i] == CoefficientWords(CoefficientIn(w, at + 12 * i));
    }
    JoinSlices(w, at, 12, blocks);
  }

  lemma PointsPrinted(w: seq<U32>, at: nat, n: nat)
    requires at + 2 * n <= |w|
    ensures Join(PointBlocks(PointsIn(w, at, n))) == w[at..at + 2 * n]
  {
    var blocks := PointBlocks(PointsIn(w, at, n));
    forall i | 0 <= i < n ensures blocks[i] == w[at + 2 * i..at + 2 * i + 2] {
    }
    JoinSlices(w, at, 2, blocks);
  }

  lemma DoublesPrinted(w: seq<U32>, at: nat, n: nat)
    requires at + 2 * n <= |w|
    ensures Join(DoubleBlocks(DoublesIn(w, at, n))) == w[at..at + 2 * n]
  {
    var blocks := DoubleBlocks(DoublesIn(w, at, n));
    forall i | 0 <= i < n ensures blocks[i] == w[at + 2 * i..at + 2 * i + 2] {
    }
    JoinSlices(w, at, 2, blocks);
  }

  lemma RectsPrinted(w: seq<U32>, at: nat, n: nat)
    requires at + 4 * n <= |w|
    ensures Join(RectBlocks(RectsIn(w, at, n))) == w[at..at + 4 * n]
  {
    var blocks := RectBlocks(RectsIn(w, at, n));
    forall i | 0 <= i < n ensures blocks[i] == w[at + 4 * i..at + 4 * i + 4] {
    }
    JoinSlices(w, at, 4, blocks);
  }

  lemma WarpReprint(w: seq<U32>)
    requires ReadWarp(w).Some?
    ensures Fits(WarpRectilinear, ReadWarp(w).value) && ParamWords(ReadWarp(w).value) == w
  {
    var n: nat := w[0];
    CoefficientsPrinted(w, 1, n);
    var m := 1 + 12 * n;
    assert DoubleWords(DoubleIn(w, m)) == w[m..m + 2] && DoubleWords(DoubleIn(w, m + 2)) == w[m + 2..m + 4];
    FourParts(w, m);
  }

  lemma FourParts(w: seq<U32>, m: nat)
    requires 1 <= m && |w| == m + 4
    ensures [w[0]] + w[1..m] + w[m..m + 2] + w[m + 2..m + 4] == w
  {
  }

  lemma VignetteReprint(w: seq<U32>)
    requires ReadVignette(w).Some?
    ensures Fits(FixVignetteRadial, ReadVignette(w).value) && ParamWords(ReadVignette(w).value) == w
  {
    DoublesPrinted(w, 0, 5);
    assert w == w[0..10] + w[10..12] + w[12..];
  }

  lemma BadListReprint(w: seq<U32>)
    requires ReadBadList(w).Some?
    ensures Fits(FixBadPixelsList, ReadBadList(w).value) && ParamWords(ReadBadList(w).value) == w
  {
    var p: nat, q: nat := w[1], w[2];
    PointsPrinted(w, 3, p);
    RectsPrinted(w, 3 + 2 * p, q);
    assert w == [w[0], w[1], w[2]] + w[3..3 + 2 * p] + w[3 + 2 * p..];
  }

  /** Parameters that could be read print back to the words they were read from. */
  lemma ParamsReprint(id: OpcodeId, w: seq<U32>)
    requires ReadWords(id, w).Some?
    ensures Fits(id, ReadWords(id, w).value) && ParamWords(ReadWords(id, w).value) == w
  {
    match id
    case WarpRectilinear => WarpReprint(w);
    case FixVignetteRadial => VignetteReprint(w);
    case FixBadPixelsConstant =>
    case FixBadPixelsList => BadListReprint(w);
    case TrimBounds =>
  }

  // ---------------------------------------------------------------- the list

  /** What one record of the list means. */
  ghost function Interpret(record: Record): (r: Meaning<Opcode>)
    ensures r.Refused? ==> r.status == FAILED || r.status == UNSUPPORTED
  {
    var id, optional := IdFromRaw(record.rawId), record.flags % 2 == 1;
    if id == Unknown then
      if optional then Item(Opcode(id, record.rawId, record.version, record.flags, optional, record.raw, Unparsed))
      else Refused(UNSUPPORTED)
    else
      var params := ReadParams(id, record.raw);
      if params.None? then Refused(FAILED)
      else Item(Opcode(id, record.rawId, record.version, record.flags, optional, record.raw, params.value))
  }

  /** The number of a record decides what an accepted one holds; any other number is accepted only when optional. */
  lemma NumberDecides(record: Record)
    requires Interpret(record).Item?
    ensures var params := Interpret(record).value.params;
      && (params.Warp? <==> record.rawId == 1) && (params.Vignette? <==> record.rawId == 3)
      && (params.BadConstant? <==> record.rawId == 4) && (params.BadList? <==> record.rawId == 5)
      && (params.Trim? <==> record.rawId == 6) && (params.Unparsed? ==> record.flags % 2 == 1)
  {
  }

  ghost function RecordOf(op: Opcode): Record
  {
    Record(op.rawId, op.version, op.flags, op.rawParams)
  }

  /** An opcode as a file may hold it. */
  ghost predicate WellFormed(op: Opcode)
  {
    && op.id == IdFromRaw(op.rawId) && op.optional == (op.flags % 2 == 1)
    && |op.rawParams| < LIMIT32
    && (op.id == Unknown ==> op.optional)
    && Fits(op.id, op.params)
    && (op.id != Unknown ==> op.rawParams == BeBytes(ParamWords(op.params)))
  }

  /** The well-formed opcodes are exactly the meanings of records. */
  lemma WellFormedIsMeaning(op: Opcode)
    requires |op.rawParams| < LIMIT32
    ensures WellFormed(op) <==> Interpret(RecordOf(op)) == Item(op)
  {
    if WellFormed(op) && op.id != Unknown {
      BeWordsOfBytes(ParamWords(op.params));
      ParamsRoundTrip(op.id, op.params);
    }
    if Interpret(RecordOf(op)) == Item(op) && op.id != Unknown {
      ParamsReprint(op.id, BeWords(op.rawParams));
      BeBytesOfWords(op.rawParams);
    }
  }

  lemma MeaningIsOfItsRecord(record: Record)
    requires Interpret(record).Item?
    ensures RecordOf(Interpret(record).value) == record
  {
  }

  ghost function RecordsOf(ops: seq<Opcode>): (records: seq<Record>)
    ensures |records| == |ops| && forall i :: 0 <= i < |ops| ==> records[i] == RecordOf(ops[i])
  {
    seq(|ops|, i requires 0 <= i < |ops| => RecordOf(ops[i]))
  }

  /** The bytes of a list. */
  ghost function PrintList(ops: seq<Opcode>): (bytes: seq<Byte>)
    requires |ops| < LIMIT32 && Sized(RecordsOf(ops))
  {
    Be32(|ops|) + PrintRecords(RecordsOf(ops))
  }

  /** What parsing means: an empty tag is an empty list. */
  ghost function ParseList(bytes: seq<Byte>): (r: Parsed<Opcode>)
  {
    if bytes == [] then Ok([], 0)
    else if |bytes| < 4 then Err(FAILED)
    else ParseMany(Interpret, bytes, 4, Be32At(bytes, 0))
  }

  lemma WellFormedMeanings(ops: seq<Opcode>)
    requires forall i :: 0 <= i < |ops| ==> WellFormed(ops[i])
    ensures Sized(RecordsOf(ops)) && Means(Interpret, RecordsOf(ops), ops)
  {
    forall i | 0 <= i < |ops| ensures |ops[i].rawParams| < LIMIT32 && Interpret(RecordOf(ops[i])) == Item(ops[i]) {
      WellFormedIsMeaning(ops[i]);
    }
  }

  /** Round trip: parsing a printed list gives the list, whatever bytes follow it. */
  lemma ListRoundTrip(ops: seq<Opcode>, after: seq<Byte>)
    requires |ops| < LIMIT32 && forall i :: 0 <= i < |ops| ==> WellFormed(ops[i])
    ensures Sized(RecordsOf(ops))
    ensures ParseList(PrintList(ops) + after) == Ok(ops, |PrintList(ops)|)
  {
    WellFormedMeanings(ops);
    var printed := PrintRecords(RecordsOf(ops));
    var bytes := PrintList(ops) + after;
    assert bytes == [] + Be32(|ops|) + (printed + after);
    Be32Inside([], |ops|, printed + after);
    assert bytes == Be32(|ops|) + printed + after;
    ManyPrinted(Interpret, Be32(|ops|), RecordsOf(ops), ops, after);
  }

  /** Reprint: a list parsed from non-empty bytes holds only well-formed opcodes and
      prints back to exactly the bytes that were consumed. */
  lemma ListReprint(bytes: seq<Byte>)
    requires bytes != [] && ParseList(bytes).Ok?
    ensures var r := ParseList(bytes);
      && |r.items| == Be32At(bytes, 0) && r.consumed <= |bytes|
      && (forall i :: 0 <= i < |r.items| ==> WellFormed(r.items[i]))
      && Sized(RecordsOf(r.items)) && PrintList(r.items) == bytes[..r.consumed]
  {
    var r := ParseList(bytes);
    var records := ManyReprint(Interpret, bytes, 4, Be32At(bytes, 0), ParseList(bytes));
    MeaningsAreWellFormed(records, r.items);
    Be32Reprint(bytes, 0);
    FirstWordAndRest(bytes, Be32(Be32At(bytes, 0)), r.consumed);
  }

  lemma FirstWordAndRest(bytes: seq<Byte>, word: seq<Byte>, end: nat)
    requires 4 <= end <= |bytes| && word == bytes[0..4]
    ensures word + bytes[4..end] == bytes[..end]
  {
  }

  /** The meanings of records are well-formed, and the records are theirs. */
  lemma MeaningsAreWellFormed(records: seq<Record>, ops: seq<Opcode>)
    requires Sized(records) && Means(Interpret, records, ops)
    ensures records == RecordsOf(ops) && forall i :: 0 <= i < |ops| ==> WellFormed(ops[i])
  {
    forall i | 0 <= i < |records| ensures records[i] == RecordOf(ops[i]) && WellFormed(ops[i]) {
      assert Interpret(records[i]) == Item(ops[i]);
      MeaningIsOfItsRecord(records[i]);
      WellFormedIsMeaning(ops[i]);
    }
  }
}
