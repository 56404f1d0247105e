/** The byte form of a gain map: what is printed parses back, and what is parsed prints back. */
module GainMapFormat {
  import opened Options
  import opened Status
  import opened Bytes
  import opened RecordList
  import opened OpcodeList3
  import opened GainMaps

  function GridWords(g: Grid): (w: seq<U32>)
    ensures |w| == 10
  {
    [g.pointsV, g.pointsH, g.spacingV.high, g.spacingV.low, g.spacingH.high, g.spacingH.low,
     g.originV.high, g.originV.low, g.originH.high, g.originH.low]
  }

  /** The words of a map: where it applies, its lattice, its planes and its table. */
  function MapWords(m: GainMap): (w: seq<U32>)
    ensures |w| == GAIN_HEADER_WORDS + |m.gain|
  {
    RectWords(m.area) + [m.plane, m.planes, m.rowPitch, m.colPitch] + GridWords(m.grid) + [m.mapPlanes] + m.gain
  }

  lemma HeaderReads(m: GainMap, w: seq<U32>)
    requires MapWords(m) <= w
    ensures MapIn(w, |m.gain|) == m
  {
    var p := MapWords(m);
    assert forall i :: 0 <= i < |p| ==> w[i] == p[i];
    assert RectIn(w, 0) == m.area;
    assert GridIn(w) == m.grid;
    assert w[GAIN_HEADER_WORDS..GAIN_HEADER_WORDS + |m.gain|] == m.gain;
  }

  lemma PrefixWords(words: seq<U32>, after: seq<Byte>)
    ensures words <= BeWords(BeBytes(words) + after)
  {
    var bytes := BeBytes(words) + after;
    BeWordsOfBytes(words);
    forall i | 0 <= i < |words| ensures BeWords(bytes)[i] == words[i] {
      assert Be32At(bytes, 4 * i) == Be32At(BeBytes(words), 4 * i);
    }
  }

  /** A sound map prints to a block that reads as the map, whatever bytes follow it. */
  lemma MapRoundTrip(n: Numbers, m: GainMap, after: seq<Byte>)
    requires Sound(n, m)
    ensures ReadGainMap(n, BeBytes(MapWords(m)) + after) == Item(m)
  {
    var raw := BeBytes(MapWords(m)) + after;
    var w := BeWords(raw);
    PrefixWords(MapWords(m), after);
    HeaderReads(m, w);
    assert w[8] == m.grid.pointsV && w[9] == m.grid.pointsH && w[18] == m.mapPlanes;
    OnePlane(m.grid.pointsV, m.grid.pointsH);
  }

  lemma OnePlane(v: nat, h: nat)
    ensures Entries(v, h, 1) == v * h
  {
  }

  /** A block that reads as a map starts with the bytes the map prints to; the rest is not looked at. */
  lemma MapReprint(n: Numbers, raw: seq<Byte>)
    requires ReadGainMap(n, raw).Item?
    ensures var m := ReadGainMap(n, raw).value;
      var size := GAIN_HEADER_BYTES + 4 * |m.gain|;
      size <= |raw| && BeBytes(MapWords(m)) == raw[..size]
  {
    var m, w := ReadGainMap(n, raw).value, BeWords(raw);
    var count := GAIN_HEADER_WORDS + |m.gain|;
    HeaderPrints(m, w);
    FirstWords(raw, count);
    BeBytesOfCountedWords(raw[..4 * count], count);
  }

  lemma HeaderPrints(m: GainMap, w: seq<U32>)
    requires GAIN_HEADER_WORDS + |m.gain| <= |w| && m == MapIn(w, |m.gain|)
    ensures MapWords(m) == w[..GAIN_HEADER_WORDS + |m.gain|]
  {
    assert RectWords(m.area) == w[0..4] && GridWords(m.grid) == w[8..18];
  }

  lemma FirstWords(raw: seq<Byte>, count: nat)
    requires 4 * count <= |raw|
    ensures BeWords(raw[..4 * count]) == BeWords(raw)[..count]
  {
    forall i | 0 <= i < count ensures BeWords(raw[..4 * count])[i] == BeWords(raw)[i] {
      assert Be32At(raw[..4 * count], 4 * i) == Be32At(raw, 4 * i);
    }
  }

  // ---------------------------------------------------------------- the list

  ghost function MapRecord(m: GainMap, version: U32, flags: U32): Record
  {
    Record(9, version, flags, BeBytes(MapWords(m)))
  }

  /** A list that holds a record of number 9 for each map, in order, and other records anywhere between. */
  ghost predicate Holds(records: seq<Record>, maps: seq<GainMap>)
  {
    if records == [] then maps == []
    else if records[0].rawId != 9 then Holds(records[1..], maps)
    else
      && maps != [] && records[0] == MapRecord(maps[0], records[0].version, records[0].flags)
      && Holds(records[1..], maps[1..])
  }

  ghost function Items(records: seq<Record>, maps: seq<GainMap>): (items: seq<Option<GainMap>>)
  {
    if records == [] then []
    else if records[0].rawId != 9 || maps == [] then [None] + Items(records[1..], maps)
    else [Some(maps[0])] + Items(records[1..], maps[1..])
  }

  lemma MapRecordMeans(n: Numbers, record: Record, m: GainMap)
    requires Sound(n, m) && record == MapRecord(m, record.version, record.flags)
    ensures Interpreter(n)(record) == Item(Some(m))
  {
    MapRoundTrip(n, m, []);
    assert BeBytes(MapWords(m)) + [] == record.raw;
  }

  lemma {:induction false} HeldMeans(n: Numbers, records: seq<Record>, maps: seq<GainMap>)
    requires Holds(records, maps) && forall i :: 0 <= i < |maps| ==> Sound(n, maps[i])
    ensures Means(Interpreter(n), records, Items(records, maps))
  {
    if records != [] {
      var rest := if records[0].rawId != 9 then maps else maps[1..];
      HeldMeans(n, records[1..], rest);
      assert Items(records, maps)[1..] == Items(records[1..], rest);
      if records[0].rawId == 9 {
        MapRecordMeans(n, records[0], maps[0]);
      }
      MeansFirst(n, records, Items(records, maps));
    }
  }

  lemma {:induction false} HeldKept(records: seq<Record>, maps: seq<GainMap>)
    requires Holds(records, maps)
    ensures Kept(Items(records, maps)) == maps
  {
    if records != [] {
      var rest := if records[0].rawId != 9 then maps else maps[1..];
      HeldKept(records[1..], rest);
      assert Items(records, maps)[1..] == Items(records[1..], rest);
    }
  }

  lemma MeansFirst(n: Numbers, records: seq<Record>, items: seq<Option<GainMap>>)
    requires |records| > 0 && |items| > 0 && Interpreter(n)(records[0]) == Item(items[0])
    requires Means(Interpreter(n), records[1..], items[1..])
    ensures Means(Interpreter(n), records, items)
  {
    forall i | 0 <= i < |items| ensures Interpreter(n)(records[i]) == Item(items[i]) {
      assert i > 0 ==> records[i] == records[1..][i - 1] && items[i] == items[1..][i - 1];
    }
  }

  /** Parsing a printed list gives its maps in order, whatever other records and bytes it holds. */
  lemma GainListRoundTrip(n: Numbers, records: seq<Record>, maps: seq<GainMap>, after: seq<Byte>)
    requires |records| < LIMIT32 && Sized(records) && Holds(records, maps)
    requires forall i :: 0 <= i < |maps| ==> Sound(n, maps[i])
    ensures GainMaps.ParseList(n, Be32(|records|) + PrintRecords(records) + after).Ok?
    ensures Kept(GainMaps.ParseList(n, Be32(|records|) + PrintRecords(records) + after).items) == maps
  {
    HeldMeans(n, records, maps);
    HeldKept(records, maps);
    var items := Items(records, maps);
    var bytes := Be32(|records|) + PrintRecords(records) + after;
    CountFirst(|records|, PrintRecords(records), after);
    ManyPrinted(Interpreter(n), Be32(|records|), records, items, after);
    ListFrom(n, bytes, |records|, Ok(items, 4 + |PrintRecords(records)|));
  }

  lemma CountFirst(count: U32, printed: seq<Byte>, after: seq<Byte>)
    ensures Be32At(Be32(count) + printed + after, 0) == count
  {
    assert Be32(count) + printed + after == [] + Be32(count) + (printed + after);
    Be32Inside([], count, printed + after);
  }

  lemma ListFrom(n: Numbers, bytes: seq<Byte>, count: nat, r: Parsed<Option<GainMap>>)
    requires |bytes| >= 4 && Be32At(bytes, 0) == count && ParseMany(Interpreter(n), bytes, 4, count) == r
    ensures GainMaps.ParseList(n, bytes) == r
  {
  }
}
