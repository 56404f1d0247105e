/** The lens-shading kernel: it checks the blob, picks a map for every pixel and scales
    the pixel by the map's interpolated gain. */
module GainShading {
  import opened Options
  import opened Status
  import opened Bytes
  import opened Reals
  import opened GainKernel
  import B = Opcode3Blob
  import G = GainMaps
  import I = OpcodeImage

  // ---------------------------------------------------------------- what the kernel finds in a blob

  /** What the kernel sees: whether the colour filter repeats in blocks of four, the records and the gains. */
  datatype View = View(quad: bool, records: seq<PlaneRecord>, gains: seq<U32>)

  function RecordsIn(w: seq<U32>, count: nat): (records: seq<PlaneRecord>)
    requires PLANE_WORDS * count <= |w|
    ensures |records| == count
  {
    seq(count, i requires 0 <= i < count => PlaneFrom(w, PLANE_WORDS * i))
  }

  /** A record the kernel accepts: a lattice, and a slice inside the gains. */
  predicate Acceptable(r: PlaneRecord, gainBytes: nat)
  {
    r.grid.pointsV != 0 && r.grid.pointsH != 0 && r.gainCount != 0 &&
      4 * (r.gainOffset as nat + r.gainCount as nat) <= gainBytes
  }

  ghost function Checked(blob: seq<Byte>): Status
  {
    if |blob| < BLOB_HEADER_BYTES then BAD_INDEX
    else
      var count: nat := Le32At(blob, 0);
      if count == 0 || count > 4 then NEED_METADATA
      else if |blob| < BLOB_HEADER_BYTES + 4 * PLANE_WORDS * count then BAD_INDEX
      else
        var records := RecordsIn(LeWords(blob[BLOB_HEADER_BYTES..]), count);
        if forall i :: 0 <= i < count ==> Acceptable(records[i], |blob| - BLOB_HEADER_BYTES - 4 * PLANE_WORDS * count)
          then OK
        else BAD_INDEX
  }

  ghost function ViewOf(blob: seq<Byte>): View
    requires Checked(blob) == OK
  {
    var w, count := LeWords(blob[BLOB_HEADER_BYTES..]), Le32At(blob, 0);
    View(blob[4] == 4 && blob[5] == 4, RecordsIn(w, count), w[PLANE_WORDS * count..])
  }

  method CheckRecords(records: seq<PlaneRecord>, gainBytes: nat) returns (ok: bool)
    ensures ok <==> forall i :: 0 <= i < |records| ==> Acceptable(records[i], gainBytes)
  {
    for i := 0 to |records|
      invariant forall k :: 0 <= k < i ==> Acceptable(records[k], gainBytes)
    {
      if !Acceptable(records[i], gainBytes) {
        return false;
      }
    }
    return true;
  }

  method CheckBlob(blob: seq<Byte>) returns (status: Status, view: Option<View>)
    ensures status == Checked(blob)
    ensures status == OK ==> view == Some(ViewOf(blob))
  {
    if |blob| < BLOB_HEADER_BYTES {
      return BAD_INDEX, None;
    }
    var count: nat := Le32At(blob, 0);
    if count == 0 || count > 4 {
      return NEED_METADATA, None;
    }
    if |blob| < BLOB_HEADER_BYTES + 4 * PLANE_WORDS * count {
      return BAD_INDEX, None;
    }
    var w := LeWords(blob[BLOB_HEADER_BYTES..]);
    var records := RecordsIn(w, count);
    var ok := CheckRecords(records, |blob| - BLOB_HEADER_BYTES - 4 * PLANE_WORDS * count);
    if !ok {
      return BAD_INDEX, None;
    }
    return OK, Some(View(blob[4] == 4 && blob[5] == 4, records, w[PLANE_WORDS * count..]));
  }

  // ---------------------------------------------------------------- picking a map

  /** The colour plane of a pixel: its place in a two-by-two block, of single pixels or of two-by-two groups. */
  function PlaneAt(quad: bool, x: nat, y: nat): (p: nat)
    ensures p < 4
  {
    if quad then y % 4 / 2 * 2 + x % 4 / 2 else y % 2 * 2 + x % 2
  }

  /** A block is two groups wide and high; its groups have the planes 0 and 1 above and 2 and 3 below. */
  lemma PlaneByGroup(quad: bool, i: nat, j: nat, dx: nat, dy: nat)
    requires var side := if quad then 2 else 1; dx < 2 * side && dy < 2 * side
    ensures var side := if quad then 2 else 1;
      PlaneAt(quad, i * (2 * side) + dx, j * (2 * side) + dy) ==
      if dy < side then (if dx < side then 0 else 1) else if dx < side then 2 else 3
  {
  }

  /** Which map a pixel picks: the only one, or the first for the pixel's plane. */
  ghost predicate Picks(planes: seq<U32>, quad: bool, x: nat, y: nat, i: nat)
  {
    && i < |planes|
    && if |planes| == 1 then i == 0
       else planes[i] == PlaneAt(quad, x, y) && forall k: nat :: k < i ==> planes[k] != PlaneAt(quad, x, y)
  }

  ghost predicate Pickable(planes: seq<U32>, quad: bool, x: nat, y: nat)
  {
    |planes| == 1 || exists i: nat :: i < |planes| && planes[i] == PlaneAt(quad, x, y)
  }

  function PlanesOf(records: seq<PlaneRecord>): (planes: seq<U32>)
    ensures |planes| == |records|
  {
    seq(|records|, i requires 0 <= i < |records| => records[i].plane)
  }

  method SelectMap(records: seq<PlaneRecord>, quad: bool, x: nat, y: nat) returns (r: Option<nat>)
    ensures r.Some? <==> Pickable(PlanesOf(records), quad, x, y)
    ensures r.Some? ==> Picks(PlanesOf(records), quad, x, y, r.value)
  {
    if |records| == 1 {
      return Some(0);
    }
    var plane := PlaneAt(quad, x, y);
    for i := 0 to |records|
      invariant forall k: nat :: k < i ==> PlanesOf(records)[k] != plane
    {
      if records[i].plane == plane {
        assert PlanesOf(records)[i] == plane;
        return Some(i);
      }
    }
    return None;
  }

  // ---------------------------------------------------------------- scaling the pixels

  function LatticeSize(grid: G.Grid): nat { grid.pointsV as nat * grid.pointsH as nat }

  /** The gains a record's lattice reads, from its offset on; the count it gives is not read again. */
  ghost function TableOf(view: View, i: nat): seq<U32>
    requires i < |view.records| && view.records[i].gainOffset as nat + LatticeSize(view.records[i].grid) <= |view.gains|
  {
    view.gains[view.records[i].gainOffset..view.records[i].gainOffset as nat + LatticeSize(view.records[i].grid)]
  }

  /** What the kernel relies on without checking: the lattice of every record lies in the gains. */
  ghost predicate Trusted(n: Numbers, view: View)
  {
    forall i: nat :: i < |view.records| ==>
      view.records[i].gainOffset as nat + LatticeSize(view.records[i].grid) <= |view.gains| &&
      Usable(n, view.records[i].grid, TableOf(view, i))
  }

  /** An index into a table, in 32-bit arithmetic. */
  function WrappedEntry(pointsH: U32, row: nat, column: nat): U32
  {
    Cut32(Cut32(row * pointsH as nat) as nat + column)
  }

  /** No index wraps: the table is smaller than 2^32 entries. */
  lemma EntryDoesNotWrap(pointsV: U32, pointsH: U32, row: nat, column: nat)
    requires row < pointsV && column < pointsH && pointsV as nat * pointsH as nat < LIMIT32
    ensures WrappedEntry(pointsH, row, column) == Entry(pointsH, row, column) < pointsV as nat * pointsH as nat
  {
    EntryInTable(pointsV, pointsH, row, column);
    assert row * pointsH as nat <= Entry(pointsH, row, column);
  }

  /** The gain as the kernel reads it from the gains at a record's offset. */
  method SampleGain(n: Numbers, grid: G.Grid, gains: seq<U32>, ghost table: seq<U32>, x: nat, y: nat)
    returns (gain: real)
    requires Usable(n, grid, table) && |table| <= |gains| && gains[..|table|] == table
    ensures gain == Interpolated(n, grid, table, x, y)
  {
    var sy, sx := RowSample(n, grid, y), ColumnSample(n, grid, x);
    EntryDoesNotWrap(grid.pointsV, grid.pointsH, sy.low, sx.low);
    EntryDoesNotWrap(grid.pointsV, grid.pointsH, sy.low, sx.high);
    EntryDoesNotWrap(grid.pointsV, grid.pointsH, sy.high, sx.low);
    EntryDoesNotWrap(grid.pointsV, grid.pointsH, sy.high, sx.high);
    var g00 := n.gainOf(gains[WrappedEntry(grid.pointsH, sy.low, sx.low)]);
    var g10 := n.gainOf(gains[WrappedEntry(grid.pointsH, sy.low, sx.high)]);
    var g01 := n.gainOf(gains[WrappedEntry(grid.pointsH, sy.high, sx.low)]);
    var g11 := n.gainOf(gains[WrappedEntry(grid.pointsH, sy.high, sx.high)]);
    assert g00 == GainAt(n, grid, table, sy.low, sx.low) && g10 == GainAt(n, grid, table, sy.low, sx.high);
    assert g01 == GainAt(n, grid, table, sy.high, sx.low) && g11 == GainAt(n, grid, table, sy.high, sx.high);
    gain := Lerp(Lerp(g00, g10, sx.weight), Lerp(g01, g11, sx.weight), sy.weight);
  }

  /** The entries read for a pixel, from an offset on, are among so many gains. */
  ghost predicate ReadsInside(n: Numbers, grid: G.Grid, offset: nat, size: nat, x: nat, y: nat)
    requires grid.pointsV > 0 && grid.pointsH > 0 && n.valueOf(grid.spacingV) != 0.0 && n.valueOf(grid.spacingH) != 0.0
  {
    var sy, sx := RowSample(n, grid, y), ColumnSample(n, grid, x);
    && offset + Entry(grid.pointsH, sy.low, sx.low) < size && offset + Entry(grid.pointsH, sy.low, sx.high) < size
    && offset + Entry(grid.pointsH, sy.high, sx.low) < size && offset + Entry(grid.pointsH, sy.high, sx.high) < size
  }

  /** A pixel far enough along an axis samples its last lattice line. */
  lemma FarPixel(origin: real, spacing: real, points: nat) returns (v: nat)
    requires spacing > 0.0 && points > 0
    ensures SampleAxis((v as real - origin) / spacing, points).high == points - 1
  {
    var edge := (points - 1) as real;
    var t := origin + edge * spacing;
    v := if t <= 0.0 then 0 else t.Floor + 1;
    var coord := (v as real - origin) / spacing;
    assert coord * spacing == v as real - origin;
    assert (coord - edge) * spacing >= 0.0;
    assert coord >= edge;
  }

  /** Every pixel of every image reads among the gains if and only if the whole lattice lies there. */
  lemma ReadsFitExactly(n: Numbers, grid: G.Grid, offset: nat, size: nat)
    requires grid.pointsV > 0 && grid.pointsH > 0 && n.valueOf(grid.spacingV) > 0.0 && n.valueOf(grid.spacingH) > 0.0
    ensures (forall x: nat, y: nat :: ReadsInside(n, grid, offset, size, x, y)) <==> offset + LatticeSize(grid) <= size
  {
    if offset + LatticeSize(grid) <= size {
      forall x: nat, y: nat ensures ReadsInside(n, grid, offset, size, x, y) {
        var sy, sx := RowSample(n, grid, y), ColumnSample(n, grid, x);
        EntryInTable(grid.pointsV, grid.pointsH, sy.low, sx.low);
        EntryInTable(grid.pointsV, grid.pointsH, sy.low, sx.high);
        EntryInTable(grid.pointsV, grid.pointsH, sy.high, sx.low);
        EntryInTable(grid.pointsV, grid.pointsH, sy.high, sx.high);
      }
    } else {
      var y := FarPixel(n.valueOf(grid.originV), n.valueOf(grid.spacingV), grid.pointsV);
      var x := FarPixel(n.valueOf(grid.originH), n.valueOf(grid.spacingH), grid.pointsH);
      LastEntry(grid.pointsV, grid.pointsH);
      assert !ReadsInside(n, grid, offset, size, x, y);
    }
  }

  lemma LastEntry(pointsV: nat, pointsH: nat)
    requires pointsV > 0 && pointsH > 0
    ensures Entry(pointsH, pointsV - 1, pointsH - 1) + 1 == pointsV * pointsH
  {
  }

  /** The gain of one map of a view at a pixel. */
  ghost function ViewGain(n: Numbers, view: View, i: nat, x: nat, y: nat): real
    requires Trusted(n, view) && i < |view.records|
  {
    Interpolated(n, view.records[i].grid, TableOf(view, i), x, y)
  }

  /** The gains of an image, as a function of the pixel; ViewGain under another name. */
  ghost predicate Gains(n: Numbers, view: View, gain: (nat, nat, nat) -> real)
    requires Trusted(n, view)
  {
    forall i: nat, x: nat, y: nat {:trigger ViewGain(n, view, i, x, y)} ::
      i < |view.records| ==> gain(i, x, y) == ViewGain(n, view, i, x, y)
  }

  method PixelGain(n: Numbers, view: View, ghost gain: (nat, nat, nat) -> real, x: nat, y: nat)
    returns (r: Option<real>, ghost i: nat)
    requires Trusted(n, view) && Gains(n, view, gain)
    ensures r.Some? <==> Pickable(PlanesOf(view.records), view.quad, x, y)
    ensures r.Some? ==> Picks(PlanesOf(view.records), view.quad, x, y, i) && r.value == gain(i, x, y)
  {
    i := 0;
    var picked := SelectMap(view.records, view.quad, x, y);
    if picked.None? {
      return None, 0;
    }
    i := picked.value;
    var record := view.records[picked.value];
    var gains := view.gains[record.gainOffset..];
    assert gains[..LatticeSize(record.grid)] == TableOf(view, i);
    var scale := SampleGain(n, record.grid, gains, TableOf(view, i), x, y);
    assert scale == ViewGain(n, view, i, x, y);
    return Some(scale), i;
  }

  /** One pixel: the input times the gain of the map the pixel picks. */
  ghost predicate Scaled(gain: (nat, nat, nat) -> real, planes: seq<U32>, quad: bool, x: nat, y: nat, input: real,
                         output: real)
  {
    exists i: nat :: Picks(planes, quad, x, y, i) && output == input * gain(i, x, y)
  }

  function Column(width: nat, k: nat): nat { if width == 0 then 0 else k % width }

  function Row(width: nat, k: nat): nat { if width == 0 then 0 else k / width }

  ghost predicate ScaledTo(gain: (nat, nat, nat) -> real, planes: seq<U32>, quad: bool, width: nat, input: seq<real>,
                           output: seq<real>, done: nat)
  {
    && |input| == |output| && done <= |input|
    && forall k: nat :: k < done ==> Scaled(gain, planes, quad, Column(width, k), Row(width, k), input[k], output[k])
  }

  ghost predicate CoveredTo(planes: seq<U32>, quad: bool, width: nat, done: nat)
  {
    forall k: nat :: k < done ==> Pickable(planes, quad, Column(width, k), Row(width, k))
  }

  /** The kernel on a view of any content: it stops at the first pixel without a map. */
  method ShadeImage(n: Numbers, view: View, ghost gain: (nat, nat, nat) -> real, width: nat, height: nat,
                    input: seq<real>, output: array<real>) returns (status: Status)
    requires Trusted(n, view) && Gains(n, view, gain) && |input| == output.Length == width * height
    modifies output
    ensures status == if CoveredTo(PlanesOf(view.records), view.quad, width, |input|) then OK else NEED_METADATA
    ensures status == OK ==> ScaledTo(gain, PlanesOf(view.records), view.quad, width, input, output[..], |input|)
  {
    ghost var planes := PlanesOf(view.records);
    for y := 0 to height
      invariant CoveredTo(planes, view.quad, width, y * width)
      invariant ScaledTo(gain, planes, view.quad, width, input, output[..], y * width)
    {
      var found := ShadeRow(n, view, gain, width, height, y, input, output);
      if !found {
        return NEED_METADATA;
      }
    }
    assert height * width == width * height;
    return OK;
  }

  /** One row; it ends early at a pixel without a map. */
  method ShadeRow(n: Numbers, view: View, ghost gain: (nat, nat, nat) -> real, width: nat, height: nat, y: nat,
                  input: seq<real>, output: array<real>) returns (found: bool)
    requires Trusted(n, view) && Gains(n, view, gain) && |input| == output.Length == width * height && y < height
    requires var planes := PlanesOf(view.records);
      && CoveredTo(planes, view.quad, width, y * width)
      && ScaledTo(gain, planes, view.quad, width, input, output[..], y * width)
    modifies output
    ensures var planes := PlanesOf(view.records);
      if found then CoveredTo(planes, view.quad, width, (y + 1) * width) &&
                    ScaledTo(gain, planes, view.quad, width, input, output[..], (y + 1) * width)
      else !CoveredTo(planes, view.quad, width, |input|)
  {
    ghost var planes := PlanesOf(view.records);
    var start := y * width;
    for x := 0 to width
      invariant CoveredTo(planes, view.quad, width, start + x)
      invariant ScaledTo(gain, planes, view.quad, width, input, output[..], start + x)
    {
      PixelOf(width, height, x, y, start + x);
      var scale, i := PixelGain(n, view, gain, x, y);
      if scale.None? {
        return false;
      }
      ScalePixel(gain, planes, view.quad, width, input, output, start + x, scale.value, i);
    }
    assert start + width == (y + 1) * width;
    return true;
  }

  lemma PixelOf(width: nat, height: nat, x: nat, y: nat, k: nat)
    requires x < width && y < height && k == y * width + x
    ensures Column(width, k) == x && Row(width, k) == y && k < width * height
  {
    I.InsideRows(width, height, x, y);
    I.QuotientRemainder(width, x, y);
  }

  method ScalePixel(ghost gain: (nat, nat, nat) -> real, ghost planes: seq<U32>, ghost quad: bool, ghost width: nat,
                    input: seq<real>, output: array<real>, k: nat, scale: real, ghost i: nat)
    requires k < |input| && ScaledTo(gain, planes, quad, width, input, output[..], k)
    requires Picks(planes, quad, Column(width, k), Row(width, k), i) &&
      scale == gain(i, Column(width, k), Row(width, k))
    modifies output
    ensures ScaledTo(gain, planes, quad, width, input, output[..], k + 1)
  {
    ghost var before := output[..];
    output[k] := input[k] * scale;
    OneMorePixel(gain, planes, quad, width, input, before, k, i, scale);
    assert output[..] == before[k := input[k] * scale];
  }

  lemma OneMorePixel(gain: (nat, nat, nat) -> real, planes: seq<U32>, quad: bool, width: nat, input: seq<real>,
                     output: seq<real>, k: nat, i: nat, scale: real)
    requires ScaledTo(gain, planes, quad, width, input, output, k) && k < |input|
    requires Picks(planes, quad, Column(width, k), Row(width, k), i)
    requires scale == gain(i, Column(width, k), Row(width, k))
    ensures ScaledTo(gain, planes, quad, width, input, output[k := input[k] * scale], k + 1)
  {
  }

  // ---------------------------------------------------------------- from parsed maps to pixels

  /** The tables fit 32-bit fields with room to spare, so no count or offset is cut. */
  lemma {:induction false} TotalGains(n: Numbers, maps: seq<GainMap>)
    requires forall i :: 0 <= i < |maps| ==> G.Sound(n, maps[i])
    ensures 4 * |AllGains(maps)| + G.GAIN_HEADER_BYTES * |maps| <= |maps| * LIMIT32
  {
    if maps != [] {
      TotalGains(n, maps[..|maps| - 1]);
    }
  }

  /** A record whose offset and count are the real ones: its slice of the gains is the map's table. */
  ghost predicate Serves(r: PlaneRecord, m: GainMap, gains: seq<U32>)
  {
    && r.plane == m.plane && r.grid == m.grid && r.gainCount == |m.gain|
    && r.gainOffset as nat + r.gainCount as nat <= |gains|
    && gains[r.gainOffset..r.gainOffset as nat + r.gainCount as nat] == m.gain
  }

  lemma ServesStill(r: PlaneRecord, m: GainMap, gains: seq<U32>, more: seq<U32>)
    requires Serves(r, m, gains)
    ensures Serves(r, m, gains + more)
  {
    B.WithinPrefix(gains, more, r.gainOffset, r.gainOffset as nat + r.gainCount as nat);
  }

  lemma ServesLast(m: GainMap, gains: seq<U32>)
    requires |gains| + |m.gain| < LIMIT32
    ensures Serves(RecordFor(m, Cut32(|gains|)), m, gains + m.gain)
  {
    assert Cut32(|gains|) == |gains| && Cut32(|m.gain|) == |m.gain|;
  }

  lemma {:induction false} RecordHasItsTable(maps: seq<GainMap>, i: nat)
    requires i < |maps| && |AllGains(maps)| < LIMIT32
    ensures Serves(RecordsFor(maps)[i], maps[i], AllGains(maps))
  {
    var front, last := maps[..|maps| - 1], maps[|maps| - 1];
    if i < |front| {
      RecordHasItsTable(front, i);
      ServesStill(RecordsFor(front)[i], maps[i], AllGains(front), last.gain);
    } else {
      ServesLast(last, AllGains(front));
    }
  }

  ghost function PackedView(cfa: Cfa, maps: seq<GainMap>): View
  {
    View(cfa.repeatRows == 4 && cfa.repeatColumns == 4, RecordsFor(maps), AllGains(maps))
  }

  /** The records are read back from the words after the header. */
  lemma BodyHolds(maps: seq<GainMap>, w: seq<U32>)
    requires w == BodyWords(maps)
    ensures |w| == PLANE_WORDS * |maps| + |AllGains(maps)|
    ensures RecordsIn(w, |maps|) == RecordsFor(maps) && w[PLANE_WORDS * |maps|..] == AllGains(maps)
  {
    var blocks := PlaneBlocks(RecordsFor(maps));
    JoinLength(blocks, PLANE_WORDS);
    forall i | 0 <= i < |maps| ensures PlaneFrom(w, PLANE_WORDS * i) == RecordsFor(maps)[i] {
      JoinAt(blocks, PLANE_WORDS, i);
      B.WithinPrefix(Join(blocks), AllGains(maps), PLANE_WORDS * i, PLANE_WORDS * i + PLANE_WORDS);
      PlaneKept(w, PLANE_WORDS * i, RecordsFor(maps)[i]);
    }
  }

  lemma HeaderHolds(cfa: Cfa, count: U32, body: seq<Byte>)
    requires |cfa.pattern| == 16
    ensures var blob := HeaderBytes(count, cfa) + body;
      && Le32At(blob, 0) == count && blob[4] == cfa.repeatRows && blob[5] == cfa.repeatColumns &&
        blob[BLOB_HEADER_BYTES..] == body
  {
    LeWordsOfBytes([count]);
    var blob := HeaderBytes(count, cfa) + body;
    assert LeWords(LeBytes([count]))[0] == Le32At(LeBytes([count]), 0);
    assert blob[0] == LeBytes([count])[0] && blob[1] == LeBytes([count])[1] && blob[2] == LeBytes([count])[2] &&
      blob[3] == LeBytes([count])[3];
  }

  lemma SoundIsUsable(n: Numbers, m: GainMap)
    requires G.Sound(n, m)
    ensures Usable(n, m.grid, m.gain) && |m.gain| > 0
  {
    EntryInTable(m.grid.pointsV, m.grid.pointsH, 0, 0);
  }

  lemma {:induction false} PackedIsTrusted(n: Numbers, cfa: Cfa, maps: seq<GainMap>)
    requires |AllGains(maps)| < LIMIT32 && forall i :: 0 <= i < |maps| ==> G.Sound(n, maps[i])
    ensures Trusted(n, PackedView(cfa, maps))
    ensures forall i: nat :: i < |maps| ==> TableOf(PackedView(cfa, maps), i) == maps[i].gain
    ensures forall i: nat :: i < |maps| ==> Acceptable(RecordsFor(maps)[i], 4 * |AllGains(maps)|)
  {
    forall i: nat | i < |maps| ensures Serves(RecordsFor(maps)[i], maps[i], AllGains(maps)) &&
      Usable(n, maps[i].grid, maps[i].gain) && |maps[i].gain| > 0 {
      RecordHasItsTable(maps, i);
      SoundIsUsable(n, maps[i]);
    }
  }

  /** What it takes for a blob to be found. */
  lemma FoundWhen(blob: seq<Byte>, w: seq<U32>, records: seq<PlaneRecord>, gains: seq<U32>)
    requires |blob| == BLOB_HEADER_BYTES + 4 * |w| && LeWords(blob[BLOB_HEADER_BYTES..]) == w
    requires 1 <= |records| <= 4 && Le32At(blob, 0) == |records|
    requires |w| == PLANE_WORDS * |records| + |gains| && w[PLANE_WORDS * |records|..] == gains
    requires RecordsIn(w, |records|) == records && forall i :: 0 <= i < |records| ==>
      Acceptable(records[i], 4 * |gains|)
    ensures Checked(blob) == OK && ViewOf(blob) == View(blob[4] == 4 && blob[5] == 4, records, gains)
  {
  }

  /** The check passes on every packed blob, and finds what was packed. */
  lemma PackedIsFound(n: Numbers, cfa: Cfa, maps: seq<GainMap>, w: seq<U32>, blob: seq<Byte>)
    requires |cfa.pattern| == 16 && 1 <= |maps| <= 4 && forall i :: 0 <= i < |maps| ==> G.Sound(n, maps[i])
    requires |AllGains(maps)| < LIMIT32
    requires w == BodyWords(maps) && blob == HeaderBytes(|maps|, cfa) + LeBytes(w)
    ensures Checked(blob) == OK && ViewOf(blob) == PackedView(cfa, maps)
  {
    HeaderHolds(cfa, |maps|, LeBytes(w));
    LeWordsOfBytes(w);
    BodyHolds(maps, w);
    PackedIsTrusted(n, cfa, maps);
    FoundWhen(blob, w, RecordsFor(maps), AllGains(maps));
  }

  /** The planes of the maps, in order; the records keep them. */
  ghost function MapPlanes(maps: seq<GainMap>): (planes: seq<U32>)
    ensures |planes| == |maps|
  {
    seq(|maps|, i requires 0 <= i < |maps| => maps[i].plane)
  }

  lemma PackedPlanes(maps: seq<GainMap>)
    requires |AllGains(maps)| < LIMIT32
    ensures PlanesOf(RecordsFor(maps)) == MapPlanes(maps)
  {
    forall i: nat | i < |maps| ensures RecordsFor(maps)[i].plane == maps[i].plane {
      RecordHasItsTable(maps, i);
    }
  }

  lemma CompleteIsPickable(maps: seq<GainMap>, quad: bool, x: nat, y: nat)
    requires CompletePlanes(maps)
    ensures Pickable(MapPlanes(maps), quad, x, y)
  {
    if |maps| == 4 {
      EveryPlaneIsThere(maps, PlaneAt(quad, x, y));
      var i: nat :| i < 4 && maps[i].plane == PlaneAt(quad, x, y);
      assert MapPlanes(maps)[i] == PlaneAt(quad, x, y);
    }
  }

  /** The gain a map means at a pixel. */
  ghost function MapGain(n: Numbers, maps: seq<GainMap>, i: nat, x: nat, y: nat): real
  {
    if i < |maps| && Usable(n, maps[i].grid, maps[i].gain) then Interpolated(n, maps[i].grid, maps[i].gain, x, y)
      else 0.0
  }

  ghost function MapGains(n: Numbers, maps: seq<GainMap>): (nat, nat, nat) -> real
  {
    (i: nat, x: nat, y: nat) => MapGain(n, maps, i, x, y)
  }

  lemma PackedGains(n: Numbers, cfa: Cfa, maps: seq<GainMap>)
    requires |AllGains(maps)| < LIMIT32 && forall i :: 0 <= i < |maps| ==> G.Sound(n, maps[i])
    ensures Trusted(n, PackedView(cfa, maps)) && Gains(n, PackedView(cfa, maps), MapGains(n, maps))
  {
    PackedIsTrusted(n, cfa, maps);
    forall i: nat, x: nat, y: nat | i < |maps|
      ensures ViewGain(n, PackedView(cfa, maps), i, x, y) == MapGain(n, maps, i, x, y)
    {
      RecordHasItsTable(maps, i);
      assert TableOf(PackedView(cfa, maps), i) == maps[i].gain;
    }
  }

  method PackAndCheck(n: Numbers, cfa: Cfa, maps: seq<GainMap>) returns (view: View)
    requires |cfa.pattern| == 16 && CompletePlanes(maps) && forall i :: 0 <= i < |maps| ==> G.Sound(n, maps[i])
    ensures view == PackedView(cfa, maps) && Trusted(n, view) && Gains(n, view, MapGains(n, maps))
    ensures PlanesOf(view.records) == MapPlanes(maps)
  {
    var blob := PackGainMaps(cfa, maps);
    TotalGains(n, maps);
    assert Cut32(|maps|) == |maps|;
    PackedIsFound(n, cfa, maps, BodyWords(maps), blob);
    var checked, found := CheckBlob(blob);
    view := found.value;
    PackedFacts(n, cfa, maps, view);
  }

  lemma PackedFacts(n: Numbers, cfa: Cfa, maps: seq<GainMap>, view: View)
    requires |AllGains(maps)| < LIMIT32 && view == PackedView(cfa, maps) && forall i :: 0 <= i < |maps| ==>
      G.Sound(n, maps[i])
    ensures Trusted(n, view) && Gains(n, view, MapGains(n, maps)) && PlanesOf(view.records) == MapPlanes(maps)
  {
    PackedGains(n, cfa, maps);
    PackedPlanes(maps);
  }

  lemma CompleteIsCovered(maps: seq<GainMap>, quad: bool, width: nat, done: nat)
    requires CompletePlanes(maps)
    ensures CoveredTo(MapPlanes(maps), quad, width, done)
  {
    forall k: nat | k < done ensures Pickable(MapPlanes(maps), quad, Column(width, k), Row(width, k)) {
      CompleteIsPickable(maps, quad, Column(width, k), Row(width, k));
    }
  }

  /** Sound, complete maps, packed and run on an image of any size: the kernel never
      refuses them, and every pixel is scaled by the gain of the map for its plane. */
  method PackAndShade(n: Numbers, cfa: Cfa, maps: seq<GainMap>, width: nat, height: nat, input: seq<real>,
                      output: array<real>)
    returns (status: Status)
    requires |cfa.pattern| == 16 && CompletePlanes(maps) && forall i :: 0 <= i < |maps| ==> G.Sound(n, maps[i])
    requires |input| == output.Length == width * height
    modifies output
    ensures status == OK
    ensures var quad := cfa.repeatRows == 4 && cfa.repeatColumns == 4;
      ScaledTo(MapGains(n, maps), MapPlanes(maps), quad, width, input, output[..], |input|)
  {
    var view := PackAndCheck(n, cfa, maps);
    CompleteIsCovered(maps, view.quad, width, |input|);
    status := ShadeImage(n, view, MapGains(n, maps), width, height, input, output);
  }
}
