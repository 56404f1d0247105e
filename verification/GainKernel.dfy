/** Lens shading: gain maps are validated, packed into a blob and applied to every pixel. */
module GainKernel {
  import opened Status
  import opened Bytes
  import opened OpcodeList3
  import opened Reals
  import B = Opcode3Blob
  import G = GainMaps

  type GainMap = G.GainMap
  type Numbers = G.Numbers

  // ---------------------------------------------------------------- interpolation

  /** Two neighbouring lattice lines and how far the coordinate is past the first. */
  datatype AxisSample = AxisSample(low: nat, high: nat, weight: real)

  function Clamp(v: real, lo: real, hi: real): real
  {
    if v <= lo then lo else if v >= hi then hi else v
  }

  /** The sample stays on the lattice and stands for the coordinate clamped to it. */
  function SampleAxis(coord: real, points: nat): (s: AxisSample)
    requires points > 0
    ensures s.low <= s.high <= s.low + 1 && s.high < points && 0.0 <= s.weight < 1.0
    ensures s.low as real + s.weight == Clamp(coord, 0.0, (points - 1) as real)
    ensures s.weight > 0.0 ==> s.high == s.low + 1
  {
    if points <= 1 || coord <= 0.0 then AxisSample(0, 0, 0.0)
    else if coord >= (points - 1) as real then AxisSample(points - 1, points - 1, 0.0)
    else
      var low := coord.Floor;
      AxisSample(low, low + 1, coord - low as real)
  }

  /** Where a table entry is, in unbounded arithmetic. */
  function Entry(pointsH: nat, row: nat, column: nat): nat { row * pointsH + column }

  lemma EntryInTable(pointsV: nat, pointsH: nat, row: nat, column: nat)
    requires row < pointsV && column < pointsH
    ensures Entry(pointsH, row, column) < pointsV * pointsH
  {
    var d: nat := pointsV - 1 - row;
    assert d * pointsH >= 0;
    assert pointsV * pointsH == d * pointsH + row * pointsH + pointsH;
  }

  /** A table that has one entry per lattice point, with distances it can be divided by. */
  ghost predicate Usable(n: Numbers, grid: G.Grid, table: seq<U32>)
  {
    && grid.pointsV > 0 && grid.pointsH > 0 && |table| == grid.pointsV as nat * grid.pointsH as nat < LIMIT32
    && n.valueOf(grid.spacingV) != 0.0 && n.valueOf(grid.spacingH) != 0.0
  }

  function RowSample(n: Numbers, grid: G.Grid, y: nat): (s: AxisSample)
    requires grid.pointsV > 0 && n.valueOf(grid.spacingV) != 0.0
    ensures s.low <= s.high < grid.pointsV && 0.0 <= s.weight < 1.0
  {
    SampleAxis((y as real - n.valueOf(grid.originV)) / n.valueOf(grid.spacingV), grid.pointsV)
  }

  function ColumnSample(n: Numbers, grid: G.Grid, x: nat): (s: AxisSample)
    requires grid.pointsH > 0 && n.valueOf(grid.spacingH) != 0.0
    ensures s.low <= s.high < grid.pointsH && 0.0 <= s.weight < 1.0
  {
    SampleAxis((x as real - n.valueOf(grid.originH)) / n.valueOf(grid.spacingH), grid.pointsH)
  }

  ghost function GainAt(n: Numbers, grid: G.Grid, table: seq<U32>, row: nat, column: nat): real
    requires Usable(n, grid, table) && row < grid.pointsV && column < grid.pointsH
  {
    EntryInTable(grid.pointsV, grid.pointsH, row, column);
    n.gainOf(table[Entry(grid.pointsH, row, column)])
  }

  /** The gain a map means for a pixel: bilinear interpolation on the clamped lattice. */
  ghost function Interpolated(n: Numbers, grid: G.Grid, table: seq<U32>, x: nat, y: nat): real
    requires Usable(n, grid, table)
  {
    var sy, sx := RowSample(n, grid, y), ColumnSample(n, grid, x);
    Lerp(Lerp(GainAt(n, grid, table, sy.low, sx.low), GainAt(n, grid, table, sy.low, sx.high), sx.weight),
         Lerp(GainAt(n, grid, table, sy.high, sx.low), GainAt(n, grid, table, sy.high, sx.high), sx.weight),
         sy.weight)
  }

  /** The gain never leaves the range of the table's entries. */
  lemma GainWithinTable(n: Numbers, grid: G.Grid, table: seq<U32>, x: nat, y: nat, lo: real, hi: real)
    requires Usable(n, grid, table) && forall i :: 0 <= i < |table| ==> lo <= n.gainOf(table[i]) <= hi
    ensures lo <= Interpolated(n, grid, table, x, y) <= hi
  {
    var sy, sx := RowSample(n, grid, y), ColumnSample(n, grid, x);
    EntryInTable(grid.pointsV, grid.pointsH, sy.low, sx.low);
    EntryInTable(grid.pointsV, grid.pointsH, sy.low, sx.high);
    EntryInTable(grid.pointsV, grid.pointsH, sy.high, sx.low);
    EntryInTable(grid.pointsV, grid.pointsH, sy.high, sx.high);
    var g00, g10 := GainAt(n, grid, table, sy.low, sx.low), GainAt(n, grid, table, sy.low, sx.high);
    var g01, g11 := GainAt(n, grid, table, sy.high, sx.low), GainAt(n, grid, table, sy.high, sx.high);
    LerpBetween(g00, g10, sx.weight, lo, hi);
    LerpBetween(g01, g11, sx.weight, lo, hi);
    LerpBetween(Lerp(g00, g10, sx.weight), Lerp(g01, g11, sx.weight), sy.weight, lo, hi);
  }

  /** A pixel on a lattice point gets that point's entry. */
  lemma GainAtLatticePoint(n: Numbers, grid: G.Grid, table: seq<U32>, x: nat, y: nat, row: nat, column: nat)
    requires Usable(n, grid, table) && row < grid.pointsV && column < grid.pointsH
    requires y as real == n.valueOf(grid.originV) + row as real * n.valueOf(grid.spacingV)
    requires x as real == n.valueOf(grid.originH) + column as real * n.valueOf(grid.spacingH)
    ensures Interpolated(n, grid, table, x, y) == GainAt(n, grid, table, row, column)
  {
    LatticeSample(y as real, n.valueOf(grid.originV), n.valueOf(grid.spacingV), row, grid.pointsV);
    LatticeSample(x as real, n.valueOf(grid.originH), n.valueOf(grid.spacingH), column, grid.pointsH);
    NoWeightIsLow(n, grid, table, x, y, row, column);
  }

  lemma NoWeightIsLow(n: Numbers, grid: G.Grid, table: seq<U32>, x: nat, y: nat, row: nat, column: nat)
    requires Usable(n, grid, table) && row < grid.pointsV && column < grid.pointsH
    requires RowSample(n, grid, y).low == row && RowSample(n, grid, y).weight == 0.0
    requires ColumnSample(n, grid, x).low == column && ColumnSample(n, grid, x).weight == 0.0
    ensures Interpolated(n, grid, table, x, y) == GainAt(n, grid, table, row, column)
  {
  }

  lemma LatticeSample(v: real, origin: real, spacing: real, i: nat, points: nat)
    requires spacing != 0.0 && i < points && v == origin + i as real * spacing
    ensures var s := SampleAxis((v - origin) / spacing, points); s.low == i && s.weight == 0.0
  {
    QuotientIs(v - origin, i as real, spacing);
    OnTheLattice(i, points);
  }

  lemma QuotientIs(a: real, q: real, d: real)
    requires d != 0.0 && a == q * d
    ensures a / d == q
  {
    var r := a / d;
    assert r * d == a;
    assert (r - q) * d == 0.0;
  }

  lemma OnTheLattice(i: nat, points: nat)
    requires i < points
    ensures SampleAxis(i as real, points).low == i && SampleAxis(i as real, points).weight == 0.0
  {
  }

  // ---------------------------------------------------------------- between the lattice points

  /** A straight line, and the product of one along the rows and one along the columns. */
  datatype Line = Line(start: real, slope: real)

  function On(l: Line, v: real): real { l.start + l.slope * v }

  function Product(down: Line, across: Line, row: real, column: real): real { On(down, row) * On(across, column) }

  lemma AlongLine(l: Line, low: real, t: real)
    ensures Lerp(On(l, low), On(l, low + 1.0), t) == On(l, low + t)
  {
    assert l.slope * (low + 1.0) == l.slope * low + l.slope && l.slope * (low + t) == l.slope * low + l.slope * t;
  }

  lemma LerpScaled(s: real, a: real, b: real, t: real)
    ensures Lerp(s * a, s * b, t) == s * Lerp(a, b, t) && Lerp(a * s, b * s, t) == Lerp(a, b, t) * s
  {
  }

  lemma AcrossProduct(down: Line, across: Line, row: real, low: real, high: real, t: real)
    requires high == low + 1.0 || t == 0.0
    ensures Lerp(Product(down, across, row, low), Product(down, across, row, high), t) ==
            Product(down, across, row, low + t)
  {
    if high == low + 1.0 {
      AlongLine(across, low, t);
      LerpScaled(On(down, row), On(across, low), On(across, high), t);
    }
  }

  lemma DownProduct(down: Line, across: Line, low: real, high: real, column: real, t: real)
    requires high == low + 1.0 || t == 0.0
    ensures Lerp(Product(down, across, low, column), Product(down, across, high, column), t) ==
            Product(down, across, low + t, column)
  {
    if high == low + 1.0 {
      AlongLine(down, low, t);
      LerpScaled(On(across, column), On(down, low), On(down, high), t);
    }
  }

  ghost predicate EntryIs(n: Numbers, grid: G.Grid, table: seq<U32>, down: Line, across: Line, row: nat, column: nat)
    requires Usable(n, grid, table) && row < grid.pointsV && column < grid.pointsH
  {
    GainAt(n, grid, table, row, column) == Product(down, across, row as real, column as real)
  }

  /** The lattice coordinates of a pixel, kept on the lattice. */
  function LatticeRow(n: Numbers, grid: G.Grid, y: nat): real
    requires grid.pointsV > 0 && n.valueOf(grid.spacingV) != 0.0
  {
    Clamp((y as real - n.valueOf(grid.originV)) / n.valueOf(grid.spacingV), 0.0, (grid.pointsV - 1) as real)
  }

  function LatticeColumn(n: Numbers, grid: G.Grid, x: nat): real
    requires grid.pointsH > 0 && n.valueOf(grid.spacingH) != 0.0
  {
    Clamp((x as real - n.valueOf(grid.originH)) / n.valueOf(grid.spacingH), 0.0, (grid.pointsH - 1) as real)
  }

  /** A table that is the product of a line along its rows and a line along its columns gives that product at every
      pixel, and so does every sum of such tables: the interpolation is even along both axes. */
  lemma GainIsBilinear(n: Numbers, grid: G.Grid, table: seq<U32>, x: nat, y: nat, down: Line, across: Line)
    requires Usable(n, grid, table)
    requires forall row: nat, column: nat :: row < grid.pointsV && column < grid.pointsH ==>
      EntryIs(n, grid, table, down, across, row, column)
    ensures Interpolated(n, grid, table, x, y) ==
            Product(down, across, LatticeRow(n, grid, y), LatticeColumn(n, grid, x))
  {
    var sy, sx := RowSample(n, grid, y), ColumnSample(n, grid, x);
    assert EntryIs(n, grid, table, down, across, sy.low, sx.low);
    assert EntryIs(n, grid, table, down, across, sy.low, sx.high);
    assert EntryIs(n, grid, table, down, across, sy.high, sx.low);
    assert EntryIs(n, grid, table, down, across, sy.high, sx.high);
    FourCorners(down, across, sy, sx, LatticeRow(n, grid, y), LatticeColumn(n, grid, x));
  }

  lemma FourCorners(down: Line, across: Line, sy: AxisSample, sx: AxisSample, row: real, column: real)
    requires sy.low as real + sy.weight == row && (sy.high == sy.low + 1 || sy.weight == 0.0)
    requires sx.low as real + sx.weight == column && (sx.high == sx.low + 1 || sx.weight == 0.0)
    ensures Lerp(Lerp(Product(down, across, sy.low as real, sx.low as real),
                      Product(down, across, sy.low as real, sx.high as real), sx.weight),
                 Lerp(Product(down, across, sy.high as real, sx.low as real),
                      Product(down, across, sy.high as real, sx.high as real), sx.weight), sy.weight) ==
            Product(down, across, row, column)
  {
    AcrossProduct(down, across, sy.low as real, sx.low as real, sx.high as real, sx.weight);
    AcrossProduct(down, across, sy.high as real, sx.low as real, sx.high as real, sx.weight);
    DownProduct(down, across, sy.low as real, sy.high as real, column, sy.weight);
  }

  // ---------------------------------------------------------------- validation

  /** One map for all pixels, or four maps with the four planes among them. */
  ghost predicate CompletePlanes(maps: seq<GainMap>)
  {
    || (|maps| == 1 && maps[0].planes == 1 && maps[0].plane == 0)
    || (|maps| == 4 && (forall i :: 0 <= i < 4 ==> maps[i].planes == 4 && maps[i].plane < 4)
                    && forall i, j :: 0 <= i < j < 4 ==> maps[i].plane != maps[j].plane)
  }

  method ValidateGainMaps(maps: seq<GainMap>) returns (status: Status)
    ensures status == if maps == [] then NEED_METADATA else if CompletePlanes(maps) then OK else UNSUPPORTED
  {
    if maps == [] {
      return NEED_METADATA;
    }
    if |maps| == 1 && maps[0].planes == 1 && maps[0].plane == 0 {
      return OK;
    }
    if |maps| != 4 {
      return UNSUPPORTED;
    }
    var seen := new bool[4](_ => false);
    for i := 0 to 4
      invariant forall k :: 0 <= k < i ==> maps[k].planes == 4 && maps[k].plane < 4
      invariant forall k, j :: 0 <= k < j < i ==> maps[k].plane != maps[j].plane
      invariant forall p: nat :: p < 4 ==> (seen[p] <==> exists k :: 0 <= k < i && maps[k].plane == p)
    {
      if maps[i].planes != 4 || maps[i].plane >= 4 || seen[maps[i].plane] {
        return UNSUPPORTED;
      }
      seen[maps[i].plane] := true;
    }
    return OK;
  }

  /** Four maps with four different planes have every plane. */
  lemma EveryPlaneIsThere(maps: seq<GainMap>, p: nat)
    requires |maps| == 4 && CompletePlanes(maps) && p < 4
    ensures exists i :: 0 <= i < 4 && maps[i].plane == p
  {
    assert maps[0].plane < 4 && maps[1].plane < 4 && maps[2].plane < 4 && maps[3].plane < 4;
  }

  // ---------------------------------------------------------------- packing

  /** A map's record in the blob: its table is a slice of the gains after the records. */
  datatype PlaneRecord = PlaneRecord(area: Rect, plane: U32, planes: U32, grid: G.Grid, gainOffset: U32, gainCount: U32)

  /** The colour filter layout that goes along: its repeat size and its pattern. */
  datatype Cfa = Cfa(repeatRows: Byte, repeatColumns: Byte, pattern: seq<Byte>)

  const BLOB_HEADER_BYTES: nat := 24
  const PLANE_WORDS: nat := 18

  function PlaneWords(p: PlaneRecord): (w: seq<U32>)
    ensures |w| == PLANE_WORDS
  {
    [p.area.top, p.area.left, p.area.bottom, p.area.right, p.plane, p.planes, p.grid.pointsV, p.grid.pointsH,
     p.grid.spacingV.low, p.grid.spacingV.high, p.grid.spacingH.low, p.grid.spacingH.high,
     p.grid.originV.low, p.grid.originV.high, p.grid.originH.low, p.grid.originH.high, p.gainOffset, p.gainCount]
  }

  function PlaneFrom(w: seq<U32>, at: nat): (p: PlaneRecord)
    requires at + PLANE_WORDS <= |w|
  {
    PlaneRecord(RectIn(w, at), w[at + 4], w[at + 5],
                G.Grid(w[at + 6], w[at + 7], B.DoubleFrom(w, at + 8), B.DoubleFrom(w, at + 10),
                       B.DoubleFrom(w, at + 12), B.DoubleFrom(w, at + 14)),
                w[at + 16], w[at + 17])
  }

  lemma PlaneKept(w: seq<U32>, at: nat, p: PlaneRecord)
    requires at + PLANE_WORDS <= |w| && w[at..at + PLANE_WORDS] == PlaneWords(p)
    ensures PlaneFrom(w, at) == p
  {
    var b := PlaneWords(p);
    B.Elementwise(w, at, b);
    assert w[at + 0] == b[0] && w[at + 1] == b[1] && w[at + 2] == b[2] && w[at + 3] == b[3] && w[at + 4] == b[4] &&
      w[at + 5] == b[5];
    assert w[at + 6] == b[6] && w[at + 7] == b[7] && w[at + 8] == b[8] && w[at + 9] == b[9] && w[at + 10] == b[10] &&
      w[at + 11] == b[11];
    assert w[at + 12] == b[12] && w[at + 13] == b[13] && w[at + 14] == b[14] && w[at + 15] == b[15] &&
      w[at + 16] == b[16] && w[at + 17] == b[17];
  }

  /** The gains of all maps, one table after another. */
  ghost function AllGains(maps: seq<GainMap>): (gains: seq<U32>)
  {
    if maps == [] then [] else AllGains(maps[..|maps| - 1]) + maps[|maps| - 1].gain
  }

  function RecordFor(m: GainMap, offset: U32): PlaneRecord
  {
    PlaneRecord(m.area, m.plane, m.planes, m.grid, offset, Cut32(|m.gain|))
  }

  ghost function RecordsFor(maps: seq<GainMap>): (records: seq<PlaneRecord>)
    ensures |records| == |maps|
  {
    if maps == [] then []
    else
      var front := maps[..|maps| - 1];
      RecordsFor(front) + [RecordFor(maps[|maps| - 1], Cut32(|AllGains(front)|))]
  }

  function PlaneBlocks(records: seq<PlaneRecord>): (blocks: seq<seq<U32>>)
    ensures |blocks| == |records| && Width(blocks, PLANE_WORDS)
    ensures forall i :: 0 <= i < |records| ==> blocks[i] == PlaneWords(records[i])
  {
    seq(|records|, i requires 0 <= i < |records| => PlaneWords(records[i]))
  }

  /** The blob's first bytes; the last two are padding. */
  function HeaderBytes(count: U32, cfa: Cfa): (bytes: seq<Byte>)
    requires |cfa.pattern| == 16
    ensures |bytes| == BLOB_HEADER_BYTES
  {
    LeBytes([count]) + [cfa.repeatRows, cfa.repeatColumns] + cfa.pattern + [0, 0]
  }

  /** Everything after the header, as words. */
  ghost function BodyWords(maps: seq<GainMap>): (w: seq<U32>)
  {
    Join(PlaneBlocks(RecordsFor(maps))) + AllGains(maps)
  }

  method BuildRecords(maps: seq<GainMap>) returns (planes: seq<PlaneRecord>, gains: seq<U32>)
    ensures planes == RecordsFor(maps) && gains == AllGains(maps)
  {
    planes, gains := [], [];
    var gainOffset: U32 := 0;
    for i := 0 to |maps|
      invariant planes == RecordsFor(maps[..i]) && gains == AllGains(maps[..i]) && gainOffset == Cut32(|gains|)
    {
      OneMoreMap(maps, i);
      planes := planes + [RecordFor(maps[i], gainOffset)];
      CutSum(|gains|, |maps[i].gain|);
      gainOffset := Cut32(gainOffset as nat + Cut32(|maps[i].gain|) as nat);
      gains := gains + maps[i].gain;
    }
    assert maps[..|maps|] == maps;
  }

  lemma OneMoreMap(maps: seq<GainMap>, i: nat)
    requires i < |maps|
    ensures AllGains(maps[..i + 1]) == AllGains(maps[..i]) + maps[i].gain
    ensures RecordsFor(maps[..i + 1]) == RecordsFor(maps[..i]) + [RecordFor(maps[i], Cut32(|AllGains(maps[..i])|))]
  {
    assert maps[..i + 1][..i] == maps[..i] && maps[..i + 1][i] == maps[i];
  }

  method PackGainMaps(cfa: Cfa, maps: seq<GainMap>) returns (blob: seq<Byte>)
    requires |cfa.pattern| == 16
    ensures blob == HeaderBytes(Cut32(|maps|), cfa) + LeBytes(BodyWords(maps))
  {
    var planes, gains := BuildRecords(maps);
    var header := HeaderBytes(Cut32(|maps|), cfa);
    blob := B.AppendStructs(header, PlaneBlocks(planes));
    TwoParts(header, Join(PlaneBlocks(planes)), gains);
    blob := blob + LeBytes(gains);
  }

  lemma TwoParts(header: seq<Byte>, a: seq<U32>, b: seq<U32>)
    ensures header + LeBytes(a) + LeBytes(b) == header + LeBytes(a + b)
  {
    LeBytesAppend(a, b);
    assert header + LeBytes(a) + LeBytes(b) == header + (LeBytes(a) + LeBytes(b));
  }
}
