/** The node that corrects an image by its opcode list: the bytes of the tag are parsed,
    packed for the kernel, and run. */
module OpcodeNode {
  import opened Status
  import opened Options
  import opened Bytes
  import opened RecordList
  import opened OpcodeList3
  import OpcodeParser
  import opened Opcode3Blob
  import opened Opcode3Kernel
  import I = OpcodeImage

  // ---------------------------------------------------------------- parsed lists can be packed

  lemma {:induction false} PrintedSize(records: seq<Record>, r: Record)
    requires Sized(records) && |r.raw| < LIMIT32
    ensures Sized(records + [r])
    ensures |PrintRecords(records + [r])| == |PrintRecords(records)| + HEADER_BYTES + |r.raw|
  {
    var more := records + [r];
    assert forall i :: 0 <= i < |more| ==> |more[i].raw| < LIMIT32;
    if records == [] {
      assert PrintRecords(more[1..]) == [];
    } else {
      PrintedSize(records[1..], r);
      assert more[1..] == records[1..] + [r];
    }
  }

  /** The bytes of an opcode pay for its points and rects. */
  ghost predicate Pays(op: Opcode)
  {
    |op.rawParams| < LIMIT32 && 8 * |Points(op)| + 16 * |Rects(op)| <= |op.rawParams|
  }

  lemma EntriesFitParams(op: Opcode)
    requires WellFormed(op)
    ensures Pays(op)
  {
    if op.params.BadList? {
      JoinLength(PointBlocks(op.params.points), 2);
      JoinLength(RectBlocks(op.params.rects), 4);
    }
  }

  /** The bytes of the records pay for the pools. */
  ghost predicate PoolsFit(ops: seq<Opcode>, records: seq<Record>)
  {
    Sized(records) && 8 * |PointPool(ops)| + 16 * |RectPool(ops)| <= |PrintRecords(records)|
  }

  lemma {:induction false} PoolsFitBytes(ops: seq<Opcode>)
    requires forall i :: 0 <= i < |ops| ==> Pays(ops[i])
    ensures PoolsFit(ops, RecordsOf(ops))
  {
    if ops != [] {
      var front, last := ops[..|ops| - 1], ops[|ops| - 1];
      PoolsFitBytes(front);
      assert RecordsOf(ops) == RecordsOf(front) + [RecordOf(last)];
      OneMoreFits(ops, front, last, RecordsOf(front), RecordOf(last));
    }
  }

  lemma OneMoreFits(ops: seq<Opcode>, front: seq<Opcode>, last: Opcode, records: seq<Record>, r: Record)
    requires ops != [] && front == ops[..|ops| - 1] && last == ops[|ops| - 1] && PoolsFit(front, records)
    requires |r.raw| < LIMIT32 && 8 * |Points(last)| + 16 * |Rects(last)| <= |r.raw|
    ensures PoolsFit(ops, records + [r])
  {
    PrintedSize(records, r);
    PoolSizes(ops, front, last);
  }

  lemma PoolSizes(ops: seq<Opcode>, front: seq<Opcode>, last: Opcode)
    requires ops != [] && front == ops[..|ops| - 1] && last == ops[|ops| - 1]
    ensures |PointPool(ops)| == |PointPool(front)| + |Points(last)| &&
      |RectPool(ops)| == |RectPool(front)| + |Rects(last)|
  {
  }

  /** Bytes too few to hold 2^32 points hold only lists of which packing cuts nothing. */
  lemma ParsedIsPackable(bytes: seq<Byte>, ops: seq<Opcode>)
    requires ParseList(bytes).Ok? && ops == ParseList(bytes).items && |bytes| < 8 * LIMIT32
    ensures (forall i :: 0 <= i < |ops| ==> WellFormed(ops[i])) && Packable(ops)
  {
    if bytes != [] {
      ListReprint(bytes);
      forall i | 0 <= i < |ops| ensures Pays(ops[i]) {
        EntriesFitParams(ops[i]);
      }
      PoolsFitBytes(ops);
      assert |PrintList(ops)| == 4 + |PrintRecords(RecordsOf(ops))|;
    }
  }

  // ---------------------------------------------------------------- the node

  /** A missing tag or an empty list copies the image; a list that does not parse gives the
      parser's status; any other list gives its opcodes' effects, and is never refused. */
  method Process(a: I.Arithmetic, tag: Option<seq<Byte>>, image: seq<Half>, width: nat, height: nat)
    returns (status: Status, out: seq<Half>)
    requires width > 0 && height > 0 && I.Sized(image, width, height)
    requires tag.Some? ==> |tag.value| < 8 * LIMIT32
    ensures tag.None? ==> status == OK && out == image
    ensures tag.Some? && ParseList(tag.value).Err? ==> status == ParseList(tag.value).status != OK
    ensures tag.Some? && ParseList(tag.value).Ok? ==>
      var ops := ParseList(tag.value).items;
      && status == OK
      && (forall i :: 0 <= i < |ops| ==> WellFormed(ops[i]))
      && out == I.ApplyAll(a, Meanings(ops), image, width, height)
  {
    if tag.None? {
      return OK, image;
    }
    var parsed, ops := OpcodeParser.Parse(tag.value);
    if parsed != OK {
      return parsed, [];
    }
    ParsedIsPackable(tag.value, ops);
    if ops == [] {
      return OK, image;
    }
    status, out := PackAndRun(a, ops, image, width, height);
  }
}
