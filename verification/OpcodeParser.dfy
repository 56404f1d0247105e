/** The parser for the third opcode list: a reader that moves along the bytes, proved
    to compute exactly what the list means. */
module OpcodeParser {
  import opened Options
  import opened Status
  import opened Bytes
  import opened RecordList
  import opened OpcodeList3

  /** A cursor over bytes. Reads happen only where enough bytes are left. */
  class Reader {
    const bytes: seq<Byte>
    var offset: nat

    constructor (b: seq<Byte>)
      ensures bytes == b && offset == 0
    {
      bytes, offset := b, 0;
    }

    predicate CanRead(size: nat)
      reads this
    {
      offset <= |bytes| && size <= |bytes| - offset
    }

    method ReadU32() returns (v: U32)
      requires CanRead(4)
      modifies this
      ensures offset == old(offset) + 4 && v == Be32At(bytes, old(offset))
    {
      v := Word(bytes[offset], bytes[offset + 1], bytes[offset + 2], bytes[offset + 3]);
      offset := offset + 4;
    }

    /** The next word of a block read word by word. */
    method ReadWord(ghost k: nat) returns (v: U32)
      requires offset == 4 * k && CanRead(4)
      modifies this
      ensures offset == 4 * (k + 1) && v == BeWords(bytes)[k]
    {
      v := ReadU32();
    }

    method ReadDouble(ghost k: nat) returns (d: Double)
      requires offset == 4 * k && CanRead(8)
      modifies this
      ensures offset == 4 * (k + 2) && d == DoubleIn(BeWords(bytes), k)
    {
      var high := ReadWord(k);
      var low := ReadWord(k + 1);
      d := Double(high, low);
    }

    method ReadRect(ghost k: nat) returns (r: Rect)
      requires offset == 4 * k && CanRead(16)
      modifies this
      ensures offset == 4 * (k + 4) && r == RectIn(BeWords(bytes), k)
    {
      var top := ReadWord(k);
      var left := ReadWord(k + 1);
      var bottom := ReadWord(k + 2);
      var right := ReadWord(k + 3);
      r := Rect(top, left, bottom, right);
    }

    method ReadCoefficient(ghost k: nat) returns (c: Coefficient)
      requires offset == 4 * k && CanRead(48)
      modifies this
      ensures offset == 4 * (k + 12) && c == CoefficientIn(BeWords(bytes), k)
    {
      var kr0 := ReadDouble(k);
      var kr1 := ReadDouble(k + 2);
      var kr2 := ReadDouble(k + 4);
      var kr3 := ReadDouble(k + 6);
      var kt0 := ReadDouble(k + 8);
      var kt1 := ReadDouble(k + 10);
      c := Coefficient(kr0, kr1, kr2, kr3, kt0, kt1);
    }
  }

  method ReadCoefficients(reader: Reader, n: nat) returns (coefficients: seq<Coefficient>)
    requires reader.offset == 4 && 4 * (1 + 12 * n) <= |reader.bytes|
    modifies reader
    ensures reader.offset == 4 * (1 + 12 * n) && coefficients == CoefficientsIn(BeWords(reader.bytes), 1, n)
  {
    coefficients := [];
    for i := 0 to n
      invariant reader.offset == 4 * (1 + 12 * i)
      invariant coefficients == CoefficientsIn(BeWords(reader.bytes), 1, i)
    {
      var coefficient := reader.ReadCoefficient(1 + 12 * i);
      coefficients := coefficients + [coefficient];
    }
  }

  method ParseWarpRectilinear(params: seq<Byte>) returns (r: Option<Params>)
    ensures r == ReadParams(WarpRectilinear, params)
  {
    if |params| < 4 {
      return None;
    }
    var reader := new Reader(params);
    var count: nat := reader.ReadWord(0);
    if count == 0 || count > MAX_WARP_PLANES {
      return None;
    }
    if |params| != 4 + count * 48 + 16 {
      return None;
    }
    var coefficients := ReadCoefficients(reader, count);
    var cx := reader.ReadDouble(1 + 12 * count);
    var cy := reader.ReadDouble(3 + 12 * count);
    r := Some(Warp(coefficients, cx, cy));
  }

  method ParseFixVignetteRadial(params: seq<Byte>) returns (r: Option<Params>)
    ensures r == ReadParams(FixVignetteRadial, params)
  {
    if |params| != 7 * 8 {
      return None;
    }
    var reader := new Reader(params);
    ghost var w := BeWords(params);
    var k: seq<Double> := [];
    for i := 0 to 5
      invariant reader.offset == 4 * (2 * i)
      invariant k == DoublesIn(w, 0, i)
    {
      var d := reader.ReadDouble(2 * i);
      k := k + [d];
    }
    var cx := reader.ReadDouble(10);
    var cy := reader.ReadDouble(12);
    r := Some(Vignette(k, cx, cy));
  }

  method ParseFixBadPixelsConstant(params: seq<Byte>) returns (r: Option<Params>)
    ensures r == ReadParams(FixBadPixelsConstant, params)
  {
    if |params| != 8 {
      return None;
    }
    var reader := new Reader(params);
    var constant := reader.ReadWord(0);
    var phase := reader.ReadWord(1);
    r := Some(BadConstant(constant, phase));
  }

  const MAX_SIZE: nat := 0xFFFF_FFFF_FFFF_FFFF

  function ListSize(points: nat, rects: nat): nat { 12 + points * 8 + rects * 16 }

  /** The guards against 64-bit overflow of a list block's size. */
  predicate ListSizeFits(points: nat, rects: nat)
  {
    points <= (MAX_SIZE - 12) / 8 && rects <= (MAX_SIZE - (12 + points * 8)) / 16
  }

  /** The guards never fire: 32-bit counts cannot overflow a 64-bit size. */
  lemma ListSizeAlwaysFits(points: U32, rects: U32)
    ensures ListSizeFits(points, rects)
  {
  }

  method ReadPoints(reader: Reader, n: nat, ghost at: nat) returns (points: seq<Point>)
    requires reader.offset == 4 * at && 4 * (at + 2 * n) <= |reader.bytes|
    modifies reader
    ensures reader.offset == 4 * (at + 2 * n) && points == PointsIn(BeWords(reader.bytes), at, n)
  {
    points := [];
    for i := 0 to n
      invariant reader.offset == 4 * (at + 2 * i)
      invariant points == PointsIn(BeWords(reader.bytes), at, i)
    {
      var row := reader.ReadWord(at + 2 * i);
      var column := reader.ReadWord(at + 2 * i + 1);
      points := points + [Point(row, column)];
    }
  }

  method ReadRects(reader: Reader, n: nat, ghost at: nat) returns (rects: seq<Rect>)
    requires reader.offset == 4 * at && 4 * (at + 4 * n) <= |reader.bytes|
    modifies reader
    ensures reader.offset == 4 * (at + 4 * n) && rects == RectsIn(BeWords(reader.bytes), at, n)
  {
    rects := [];
    for i := 0 to n
      invariant reader.offset == 4 * (at + 4 * i)
      invariant rects == RectsIn(BeWords(reader.bytes), at, i)
    {
      var rect := reader.ReadRect(at + 4 * i);
      rects := rects + [rect];
    }
  }

  method ParseFixBadPixelsList(params: seq<Byte>) returns (r: Option<Params>)
    ensures r == ReadParams(FixBadPixelsList, params)
  {
    if |params| < 12 {
      return None;
    }
    var reader := new Reader(params);
    var phase := reader.ReadWord(0);
    var pointCount := reader.ReadWord(1);
    var rectCount := reader.ReadWord(2);
    ListSizeAlwaysFits(pointCount, rectCount);
    if !ListSizeFits(pointCount, rectCount) || |params| != ListSize(pointCount, rectCount) {
      return None;
    }
    var points := ReadPoints(reader, pointCount, 3);
    var rects := ReadRects(reader, rectCount, 3 + 2 * (pointCount as int));
    r := Some(BadList(phase, points, rects));
  }

  method ParseTrimBounds(params: seq<Byte>) returns (r: Option<Params>)
    ensures r == ReadParams(TrimBounds, params)
  {
    if |params| != 16 {
      return None;
    }
    var reader := new Reader(params);
    var bounds := reader.ReadRect(0);
    r := Some(Trim(bounds));
  }

  method ParseKnownOpcode(id: OpcodeId, params: seq<Byte>) returns (r: Option<Params>)
    ensures r == ReadParams(id, params)
  {
    match id
    case WarpRectilinear => r := ParseWarpRectilinear(params);
    case FixVignetteRadial => r := ParseFixVignetteRadial(params);
    case FixBadPixelsConstant => r := ParseFixBadPixelsConstant(params);
    case FixBadPixelsList => r := ParseFixBadPixelsList(params);
    case TrimBounds => r := ParseTrimBounds(params);
    case Unknown => r := None;
  }

  /** Another name for what records mean to this list. */
  ghost predicate Interprets(interpret: Record -> Meaning<Opcode>)
  {
    forall r {:trigger Interpret(r)} :: interpret(r) == Interpret(r)
  }

  /** One turn of the list loop. */
  method ParseRecord(reader: Reader, ghost interpret: Record -> Meaning<Opcode>) returns (r: Meaning<Opcode>)
    requires reader.offset <= |reader.bytes| && Interprets(interpret)
    modifies reader
    ensures reader.offset <= |reader.bytes| && (r.Refused? ==> r.status != OK)
    ensures var record := RecordAt(reader.bytes, old(reader.offset));
      if record.None? then r == Refused(FAILED)
      else r == interpret(record.value) && reader.offset == old(reader.offset) + HEADER_BYTES + |record.value.raw|
  {
    if !reader.CanRead(HEADER_BYTES) {
      return Refused(FAILED);
    }
    ghost var start := reader.offset;
    var rawId := reader.ReadU32();
    var id := IdFromRaw(rawId);
    var version := reader.ReadU32();
    var flags := reader.ReadU32();
    var optional := flags % 2 == 1;
    var size: nat := reader.ReadU32();
    if !reader.CanRead(size) {
      return Refused(FAILED);
    }
    var params := reader.bytes[reader.offset..reader.offset + size];
    ghost var record := Record(rawId, version, flags, params);
    assert RecordAt(reader.bytes, start) == Some(record) && interpret(record) == Interpret(record);
    reader.offset := reader.offset + size;
    if id == Unknown {
      if !optional {
        return Refused(UNSUPPORTED);
      }
      return Item(Opcode(id, rawId, version, flags, optional, params, Unparsed));
    }
    var parsed := ParseKnownOpcode(id, params);
    if parsed.None? {
      return Refused(FAILED);
    }
    r := Item(Opcode(id, rawId, version, flags, optional, params, parsed.value));
  }

  method TakeRecord(reader: Reader, ghost interpret: Record -> Meaning<Opcode>, ghost whole: Parsed<Opcode>,
                    ghost opcodes: seq<Opcode>, ghost left: nat) returns (meaning: Meaning<Opcode>)
    requires reader.offset <= |reader.bytes| && Interprets(interpret) && left > 0
    requires Remaining(whole, opcodes, interpret, reader.bytes, reader.offset, left)
    modifies reader
    ensures meaning.Refused? ==> whole == Err(meaning.status) && meaning.status != OK
    ensures meaning.Item? ==>
      reader.offset <= |reader.bytes| &&
      Remaining(whole, opcodes + [meaning.value], interpret, reader.bytes, reader.offset, left - 1)
  {
    ghost var start := reader.offset;
    meaning := ParseRecord(reader, interpret);
    LoopTurn(interpret, reader.bytes, start, reader.offset, left, opcodes, meaning, whole);
  }

  /** How a parse is returned. */
  ghost predicate Outcome(r: Parsed<Opcode>, status: Status, opcodes: seq<Opcode>)
  {
    (status == OK <==> r.Ok?) && if r.Ok? then opcodes == r.items else status == r.status
  }

  /** Read the records one after another, stopping at the first that is refused. */
  method ParseRecords(reader: Reader, count: nat, ghost interpret: Record -> Meaning<Opcode>,
                      ghost whole: Parsed<Opcode>)
    returns (status: Status, opcodes: seq<Opcode>)
    requires reader.offset <= |reader.bytes| && Interprets(interpret)
    requires Remaining(whole, [], interpret, reader.bytes, reader.offset, count)
    modifies reader
    ensures Outcome(whole, status, opcodes)
  {
    opcodes := [];
    for i := 0 to count
      invariant reader.offset <= |reader.bytes|
      invariant Remaining(whole, opcodes, interpret, reader.bytes, reader.offset, count - i)
    {
      var meaning := TakeRecord(reader, interpret, whole, opcodes, count - i);
      if meaning.Refused? {
        return meaning.status, [];
      }
      opcodes := opcodes + [meaning.value];
    }
    ToTheEnd(whole, opcodes, interpret, reader.bytes, reader.offset);
    status := OK;
  }

  method Parse(bytes: seq<Byte>) returns (status: Status, opcodes: seq<Opcode>)
    ensures status == OK <==> ParseList(bytes).Ok?
    ensures status == OK ==> opcodes == ParseList(bytes).items
    ensures status != OK ==> status == ParseList(bytes).status
  {
    if bytes == [] {
      return OK, [];
    }
    var reader := new Reader(bytes);
    if !reader.CanRead(4) {
      return FAILED, [];
    }
    var count: nat := reader.ReadU32();
    FromTheStart(ParseList(bytes), Interpret, bytes, reader.offset, count);
    status, opcodes := ParseRecords(reader, count, Interpret, ParseList(bytes));
  }
}
