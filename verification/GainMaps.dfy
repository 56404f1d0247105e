/** The gain maps of the second opcode list: what the parser accepts and what every
    accepted map guarantees. */
module GainMaps {
  import opened Options
  import opened Status
  import opened Bytes
  import opened RecordList
  import opened OpcodeList3

  const GAIN_MAP_OPCODE: U32 := 9
  const GAIN_HEADER_BYTES: nat := 76
  const GAIN_HEADER_WORDS: nat := 19
  const MAX64: nat := 0xFFFF_FFFF_FFFF_FFFF

  /** How bit patterns are read as numbers. */
  datatype Numbers = Numbers(valueOf: Double -> real, isFinite: Double -> bool, gainOf: U32 -> real)

  /** The table's lattice: its size, the distance between its points and where it starts. */
  datatype Grid = Grid(pointsV: U32, pointsH: U32, spacingV: Double, spacingH: Double, originV: Double, originH: Double)

  datatype GainMap = GainMap(area: Rect, plane: U32, planes: U32, rowPitch: U32, colPitch: U32, grid: Grid,
                             mapPlanes: U32, gain: seq<U32>)

  // ---------------------------------------------------------------- the size check

  /** The number of table entries, in 64-bit arithmetic that refuses to overflow. */
  function CheckedGainCount(v: U32, h: U32, planes: U32): (count: Option<nat>)
    ensures count.Some? <==> v != 0 && h != 0 && planes != 0 && Entries(v, h, planes) <= MAX64
    ensures count.Some? ==> count.value == Entries(v, h, planes) && count.value > 0
  {
    if v == 0 || h == 0 || planes == 0 then None
    else
      AtMost(v, h, MAX64);
      Grows(v as nat * h as nat, planes);
      if v > MAX64 / h then None
      else
        var vh: nat := v * h;
        AtMost(vh, planes, MAX64);
        Grows(v, h);
        if vh > MAX64 / planes then None else Some(vh * planes)
  }

  function Entries(v: nat, h: nat, planes: nat): nat { v * h * planes }

  lemma Grows(a: nat, b: nat)
    requires b > 0
    ensures a * b >= a
  {
    assert a * (b - 1) >= 0;
  }

  lemma AtMost(a: nat, b: nat, m: nat)
    requires b > 0
    ensures a <= m / b <==> a * b <= m
  {
    var q, r := m / b, m % b;
    assert q * b + r == m;
    Ordered(a, q, b);
    Ordered(q + 1, a, b);
  }

  lemma Ordered(a: int, c: int, b: nat)
    ensures a <= c ==> a * b <= c * b
  {
    if a <= c {
      var d: nat := c - a;
      assert d * b >= 0;
      assert c * b == a * b + d * b;
    }
  }

  // ---------------------------------------------------------------- what a record means

  function GridIn(w: seq<U32>): (g: Grid)
    requires |w| >= GAIN_HEADER_WORDS
  {
    Grid(w[8], w[9], DoubleIn(w, 10), DoubleIn(w, 12), DoubleIn(w, 14), DoubleIn(w, 16))
  }

  /** The shapes this version supports. */
  predicate RequiredShape(n: Numbers, m: GainMap)
  {
    && (m.planes == 1 || m.planes == 4) && m.plane < m.planes && m.mapPlanes == 1
    && m.rowPitch > 0 && m.colPitch > 0
    && n.isFinite(m.grid.spacingV) && n.isFinite(m.grid.spacingH)
    && n.valueOf(m.grid.spacingV) > 0.0 && n.valueOf(m.grid.spacingH) > 0.0
    && n.isFinite(m.grid.originV) && n.isFinite(m.grid.originH)
  }

  /** One plane of one or four, with a table of one plane, positive pitches, and a lattice whose origin is finite and
      whose spacing is finite and positive. */
  lemma ShapeIs(n: Numbers, m: GainMap)
    ensures RequiredShape(n, m) <==>
      && ((m.planes == 1 && m.plane == 0) || (m.planes == 4 && m.plane in {0, 1, 2, 3}))
      && m.mapPlanes == 1 && m.rowPitch != 0 && m.colPitch != 0
      && n.isFinite(m.grid.originV) && n.isFinite(m.grid.originH)
      && n.isFinite(m.grid.spacingV) && n.valueOf(m.grid.spacingV) > 0.0
      && n.isFinite(m.grid.spacingH) && n.valueOf(m.grid.spacingH) > 0.0
  {
  }

  /** The map whose header is in these words, with the first entries of the table. */
  function MapIn(w: seq<U32>, entries: nat): (m: GainMap)
    requires GAIN_HEADER_WORDS + entries <= |w|
  {
    GainMap(RectIn(w, 0), w[4], w[5], w[6], w[7], GridIn(w), w[18], w[GAIN_HEADER_WORDS..GAIN_HEADER_WORDS + entries])
  }

  /** The meaning of a parameter block: too short or too large is a failure, and only
      then is the shape looked at. Bytes after the table are ignored. */
  ghost function ReadGainMap(n: Numbers, raw: seq<Byte>): (m: Meaning<GainMap>)
  {
    if |raw| < GAIN_HEADER_BYTES then Refused(FAILED)
    else
      var w := BeWords(raw);
      var entries := CheckedGainCount(w[8], w[9], w[18]);
      if entries.None? || entries.value > (MAX64 - GAIN_HEADER_BYTES) / 4 then Refused(FAILED)
      else if |raw| < GAIN_HEADER_BYTES + entries.value * 4 then Refused(FAILED)
      else if !RequiredShape(n, MapIn(w, entries.value)) then Refused(UNSUPPORTED)
      else Item(MapIn(w, entries.value))
  }

  /** Only gain-map opcodes matter; the rest are skipped, whatever they hold. */
  ghost function Interpret(n: Numbers, record: Record): (m: Meaning<Option<GainMap>>)
  {
    if record.rawId != GAIN_MAP_OPCODE then Item(None)
    else
      var found := ReadGainMap(n, record.raw);
      if found.Refused? then Refused(found.status) else Item(Some(found.value))
  }

  ghost function Interpreter(n: Numbers): Record -> Meaning<Option<GainMap>>
  {
    r => Interpret(n, r)
  }

  ghost function Kept(items: seq<Option<GainMap>>): (maps: seq<GainMap>)
  {
    if items == [] then []
    else if items[0].None? then Kept(items[1..])
    else [items[0].value] + Kept(items[1..])
  }

  ghost function ParseList(n: Numbers, bytes: seq<Byte>): (r: Parsed<Option<GainMap>>)
  {
    if bytes == [] then Ok([], 0)
    else if |bytes| < 4 then Err(FAILED)
    else ParseMany(Interpreter(n), bytes, 4, Be32At(bytes, 0))
  }

  // ---------------------------------------------------------------- what every accepted map guarantees

  /** A map as the kernel needs it: one table entry per lattice point, few enough that
      neither the count nor four counts together wrap a 32-bit field. */
  ghost predicate Sound(n: Numbers, m: GainMap)
  {
    && RequiredShape(n, m)
    && m.grid.pointsV > 0 && m.grid.pointsH > 0
    && |m.gain| == m.grid.pointsV as nat * m.grid.pointsH as nat
    && 4 * |m.gain| + GAIN_HEADER_BYTES < LIMIT32
  }

  lemma AcceptedIsSound(n: Numbers, raw: seq<Byte>)
    requires |raw| < LIMIT32 && ReadGainMap(n, raw).Item?
    ensures Sound(n, ReadGainMap(n, raw).value)
  {
    var w := BeWords(raw);
    assert Entries(w[8], w[9], 1) == w[8] as nat * w[9] as nat;
  }

  lemma {:induction false} KeptAreSound(n: Numbers, items: seq<Option<GainMap>>)
    requires forall i :: 0 <= i < |items| && items[i].Some? ==> Sound(n, items[i].value)
    ensures forall i :: 0 <= i < |Kept(items)| ==> Sound(n, Kept(items)[i])
  {
    if items != [] {
      KeptAreSound(n, items[1..]);
    }
  }

  /** Every map of every list the parser accepts is sound. */
  lemma {:induction false} ParsedMapsAreSound(n: Numbers, bytes: seq<Byte>)
    requires ParseList(n, bytes).Ok?
    ensures forall i :: 0 <= i < |Kept(ParseList(n, bytes).items)| ==> Sound(n, Kept(ParseList(n, bytes).items)[i])
  {
    var items := ParseList(n, bytes).items;
    forall i | 0 <= i < |items| && items[i].Some? ensures Sound(n, items[i].value) {
      var record := ItemHasRecord(Interpreter(n), bytes, 4, Be32At(bytes, 0), ParseList(n, bytes), i);
      AcceptedIsSound(n, record.raw);
    }
    KeptAreSound(n, items);
  }
}

/** The parser for gain maps. */
module GainMapParser {
  import opened Options
  import opened Status
  import opened Bytes
  import opened RecordList
  import opened OpcodeList3
  import opened OpcodeParser
  import G = GainMaps

  method ReadGains(reader: Reader, n: nat) returns (gains: seq<U32>)
    requires reader.offset == G.GAIN_HEADER_BYTES && 4 * (G.GAIN_HEADER_WORDS + n) <= |reader.bytes|
    modifies reader
    ensures gains == BeWords(reader.bytes)[G.GAIN_HEADER_WORDS..G.GAIN_HEADER_WORDS + n]
  {
    gains := [];
    ghost var w := BeWords(reader.bytes);
    for i := 0 to n
      invariant reader.offset == 4 * (G.GAIN_HEADER_WORDS + i)
      invariant gains == w[G.GAIN_HEADER_WORDS..G.GAIN_HEADER_WORDS + i]
    {
      var gain := reader.ReadWord(G.GAIN_HEADER_WORDS + i);
      gains := gains + [gain];
    }
  }

  /** Read the header into a map that has no table yet. */
  method ReadHeader(reader: Reader) returns (m: G.GainMap)
    requires reader.offset == 0 && |reader.bytes| >= G.GAIN_HEADER_BYTES
    modifies reader
    ensures reader.offset == G.GAIN_HEADER_BYTES && m == G.MapIn(BeWords(reader.bytes), 0)
  {
    var area := reader.ReadRect(0);
    var plane := reader.ReadWord(4);
    var planes := reader.ReadWord(5);
    var rowPitch := reader.ReadWord(6);
    var colPitch := reader.ReadWord(7);
    var pointsV := reader.ReadWord(8);
    var pointsH := reader.ReadWord(9);
    var spacingV := reader.ReadDouble(10);
    var spacingH := reader.ReadDouble(12);
    var originV := reader.ReadDouble(14);
    var originH := reader.ReadDouble(16);
    var mapPlanes := reader.ReadWord(18);
    m := G.GainMap(area, plane, planes, rowPitch, colPitch,
                   G.Grid(pointsV, pointsH, spacingV, spacingH, originV, originH), mapPlanes, []);
  }

  method ParseGainMap(n: G.Numbers, params: seq<Byte>) returns (r: Meaning<G.GainMap>)
    ensures r == G.ReadGainMap(n, params)
  {
    if |params| < G.GAIN_HEADER_BYTES {
      return Refused(FAILED);
    }
    var reader := new Reader(params);
    var m := ReadHeader(reader);
    var count := G.CheckedGainCount(m.grid.pointsV, m.grid.pointsH, m.mapPlanes);
    if count.None? {
      return Refused(FAILED);
    }
    if count.value > (G.MAX64 - G.GAIN_HEADER_BYTES) / 4 {
      return Refused(FAILED);
    }
    if |params| < G.GAIN_HEADER_BYTES + count.value * 4 {
      return Refused(FAILED);
    }
    if !G.RequiredShape(n, m) {
      return Refused(UNSUPPORTED);
    }
    var gains := ReadGains(reader, count.value);
    r := Item(m.(gain := gains));
  }

  /** The record at the reader, if the bytes hold all of it. */
  method ReadRecord(reader: Reader) returns (r: Option<Record>)
    requires reader.offset <= |reader.bytes|
    modifies reader
    ensures r == RecordAt(reader.bytes, old(reader.offset))
    ensures r.Some? ==> reader.offset == old(reader.offset) + HEADER_BYTES + |r.value.raw| <= |reader.bytes|
  {
    if !reader.CanRead(HEADER_BYTES) {
      return None;
    }
    var id := reader.ReadU32();
    var version := reader.ReadU32();
    var flags := reader.ReadU32();
    var size: nat := reader.ReadU32();
    if !reader.CanRead(size) {
      return None;
    }
    var params := reader.bytes[reader.offset..reader.offset + size];
    reader.offset := reader.offset + size;
    return Some(Record(id, version, flags, params));
  }

  /** One turn of the list loop. */
  method ParseRecord(n: G.Numbers, reader: Reader) returns (r: Meaning<Option<G.GainMap>>)
    requires reader.offset <= |reader.bytes|
    modifies reader
    ensures var record := RecordAt(reader.bytes, old(reader.offset));
      if record.None? then r == Refused(FAILED)
      else r == G.Interpret(n, record.value) &&
           reader.offset == old(reader.offset) + HEADER_BYTES + |record.value.raw| <= |reader.bytes|
  {
    var record := ReadRecord(reader);
    if record.None? {
      return Refused(FAILED);
    }
    if record.value.rawId != G.GAIN_MAP_OPCODE {
      return Item(None);
    }
    var m := ParseGainMap(n, record.value.raw);
    r := if m.Refused? then Refused(m.status) else Item(Some(m.value));
  }

  lemma {:induction false} KeptAppend(a: seq<Option<G.GainMap>>, m: Option<G.GainMap>)
    ensures G.Kept(a + [m]) == G.Kept(a) + (if m.Some? then [m.value] else [])
  {
    if a != [] {
      KeptAppend(a[1..], m);
      assert (a + [m])[1..] == a[1..] + [m];
    } else {
      assert a + [m] == [m];
    }
  }

  method TakeRecord(n: G.Numbers, reader: Reader, ghost interpret: Record -> Meaning<Option<G.GainMap>>,
                    ghost whole: Parsed<Option<G.GainMap>>, ghost items: seq<Option<G.GainMap>>, ghost left: nat)
    returns (meaning: Meaning<Option<G.GainMap>>)
    requires reader.offset <= |reader.bytes| && interpret == G.Interpreter(n) && left > 0
    requires Remaining(whole, items, interpret, reader.bytes, reader.offset, left)
    modifies reader
    ensures meaning.Refused? ==> whole == Err(meaning.status) && meaning.status != OK
    ensures meaning.Item? ==>
      reader.offset <= |reader.bytes| &&
      Remaining(whole, items + [meaning.value], interpret, reader.bytes, reader.offset, left - 1)
  {
    ghost var start := reader.offset;
    meaning := ParseRecord(n, reader);
    LoopTurn(interpret, reader.bytes, start, reader.offset, left, items, meaning, whole);
  }

  /** How a parse is returned. */
  ghost predicate Outcome(r: Parsed<Option<G.GainMap>>, status: Status, maps: seq<G.GainMap>)
  {
    (status == OK <==> r.Ok?) && if r.Ok? then maps == G.Kept(r.items) else status == r.status
  }

  /** Read the records one after another, keeping the maps, stopping at the first that is refused. */
  method ParseRecords(n: G.Numbers, reader: Reader, count: nat, ghost interpret: Record -> Meaning<Option<G.GainMap>>,
                      ghost whole: Parsed<Option<G.GainMap>>) returns (status: Status, maps: seq<G.GainMap>)
    requires reader.offset <= |reader.bytes| && interpret == G.Interpreter(n)
    requires Remaining(whole, [], interpret, reader.bytes, reader.offset, count)
    modifies reader
    ensures Outcome(whole, status, maps)
  {
    maps := [];
    ghost var items: seq<Option<G.GainMap>> := [];
    for i := 0 to count
      invariant reader.offset <= |reader.bytes| && maps == G.Kept(items)
      invariant Remaining(whole, items, interpret, reader.bytes, reader.offset, count - i)
    {
      var meaning := TakeRecord(n, reader, interpret, whole, items, count - i);
      if meaning.Refused? {
        return meaning.status, [];
      }
      KeptAppend(items, meaning.value);
      items := items + [meaning.value];
      if meaning.value.Some? {
        maps := maps + [meaning.value.value];
      }
    }
    ToTheEnd(whole, items, interpret, reader.bytes, reader.offset);
    status := OK;
  }

  /** The parser, on bytes of any length and content. */
  method ParseGainMaps(n: G.Numbers, bytes: seq<Byte>) returns (status: Status, maps: seq<G.GainMap>)
    ensures status == OK <==> G.ParseList(n, bytes).Ok?
    ensures status == OK ==> maps == G.Kept(G.ParseList(n, bytes).items) && forall i :: 0 <= i < |maps| ==>
      G.Sound(n, maps[i])
    ensures status != OK ==> status == G.ParseList(n, bytes).status
  {
    if bytes == [] {
      return OK, [];
    }
    var reader := new Reader(bytes);
    if !reader.CanRead(4) {
      return FAILED, [];
    }
    var count: nat := reader.ReadU32();
    FromTheStart(G.ParseList(n, bytes), G.Interpreter(n), bytes, reader.offset, count);
    status, maps := ParseRecords(n, reader, count, G.Interpreter(n), G.ParseList(n, bytes));
    if status == OK {
      G.ParsedMapsAreSound(n, bytes);
    }
  }
}
