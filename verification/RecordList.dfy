/** The framing the opcode lists share: a count, then records of four header words and
    a parameter block whose size is the last of them. */
module RecordList {
  import opened Options
  import opened Status
  import opened Bytes

  const HEADER_BYTES: nat := 16

  datatype Record = Record(rawId: U32, version: U32, flags: U32, raw: seq<Byte>)

  /** What a record means to the list it is in: an item, or a refusal. */
  datatype Meaning<T> = Item(value: T) | Refused(status: Status)

  datatype Parsed<T> = Ok(items: seq<T>, consumed: nat) | Err(status: Status)

  predicate Sized(records: seq<Record>)
  {
    forall i :: 0 <= i < |records| ==> |records[i].raw| < LIMIT32
  }

  ghost function PrintRecord(r: Record): (bytes: seq<Byte>)
    requires |r.raw| < LIMIT32
    ensures |bytes| == HEADER_BYTES + |r.raw|
  {
    Be32(r.rawId) + Be32(r.version) + Be32(r.flags) + Be32(|r.raw|) + r.raw
  }

  ghost function PrintRecords(records: seq<Record>): (bytes: seq<Byte>)
    requires Sized(records)
  {
    if records == [] then [] else PrintRecord(records[0]) + PrintRecords(records[1..])
  }

  /** The record at an offset, if the bytes hold all of it. */
  function RecordAt(bytes: seq<Byte>, offset: nat): (r: Option<Record>)
    ensures r.Some? ==> |r.value.raw| < LIMIT32 && offset + HEADER_BYTES + |r.value.raw| <= |bytes|
  {
    if offset + HEADER_BYTES > |bytes| then None
    else
      var size: nat := Be32At(bytes, offset + 12);
      if offset + HEADER_BYTES + size > |bytes| then None
      else Some(Record(Be32At(bytes, offset), Be32At(bytes, offset + 4), Be32At(bytes, offset + 8),
                       bytes[offset + HEADER_BYTES..offset + HEADER_BYTES + size]))
  }

  ghost function ParseMany<T>(interpret: Record -> Meaning<T>, bytes: seq<Byte>, offset: nat,
                              count: nat): (r: Parsed<T>)
    decreases count
  {
    if count == 0 then Ok([], offset)
    else
      var record := RecordAt(bytes, offset);
      if record.None? then Err(FAILED)
      else
        var meaning := interpret(record.value);
        if meaning.Refused? then Err(meaning.status)
        else
          var rest := ParseMany(interpret, bytes, offset + HEADER_BYTES + |record.value.raw|, count - 1);
          if rest.Err? then rest else Ok([meaning.value] + rest.items, rest.consumed)
  }

  /** A parse that goes on after some items were already read. */
  ghost function Prefixed<T>(front: seq<T>, rest: Parsed<T>): Parsed<T>
  {
    if rest.Err? then rest else Ok(front + rest.items, rest.consumed)
  }

  /** The whole parse, seen after some items were read. */
  ghost predicate Remaining<T>(whole: Parsed<T>, items: seq<T>, interpret: Record -> Meaning<T>, bytes: seq<Byte>,
                               offset: nat, left: nat)
  {
    whole == Prefixed(items, ParseMany(interpret, bytes, offset, left))
  }

  lemma FromTheStart<T>(whole: Parsed<T>, interpret: Record -> Meaning<T>, bytes: seq<Byte>, offset: nat, count: nat)
    requires whole == ParseMany(interpret, bytes, offset, count)
    ensures Remaining(whole, [], interpret, bytes, offset, count)
  {
    assert whole.Ok? ==> [] + whole.items == whole.items;
  }

  lemma ToTheEnd<T>(whole: Parsed<T>, items: seq<T>, interpret: Record -> Meaning<T>, bytes: seq<Byte>, offset: nat)
    requires Remaining(whole, items, interpret, bytes, offset, 0)
    ensures whole == Ok(items, offset)
  {
    assert items + [] == items;
  }

  /** What one turn of a list loop does to the rest of the parse, given what the next record means. */
  lemma LoopTurn<T>(interpret: Record -> Meaning<T>, bytes: seq<Byte>, offset: nat, next: nat, count: nat,
                    front: seq<T>, meaning: Meaning<T>, whole: Parsed<T>)
    requires count > 0 && whole == Prefixed(front, ParseMany(interpret, bytes, offset, count))
    requires var record := RecordAt(bytes, offset);
      if record.None? then meaning == Refused(FAILED)
      else meaning == interpret(record.value) && next == offset + HEADER_BYTES + |record.value.raw|
    ensures meaning.Refused? ==> whole == Err(meaning.status)
    ensures meaning.Item? ==> whole == Prefixed(front + [meaning.value], ParseMany(interpret, bytes, next, count - 1))
  {
    if meaning.Item? {
      var rest := ParseMany(interpret, bytes, next, count - 1);
      if rest.Ok? {
        assert front + ([meaning.value] + rest.items) == front + [meaning.value] + rest.items;
      }
    }
  }

  /** Every item of a parsed list is what some record means. */
  lemma {:induction false} ItemHasRecord<T>(interpret: Record -> Meaning<T>, bytes: seq<Byte>, offset: nat, count: nat,
                                            r: Parsed<T>, i: nat)
    returns (record: Record)
    requires r == ParseMany(interpret, bytes, offset, count) && r.Ok? && i < |r.items|
    ensures |record.raw| < LIMIT32 && interpret(record) == Item(r.items[i])
    decreases count
  {
    var first, next, rest := ManyFirst(interpret, bytes, offset, count, r);
    record := first;
    if i > 0 {
      record := ItemHasRecord(interpret, bytes, next, count - 1, rest, i - 1);
    }
  }

  ghost predicate Means<T>(interpret: Record -> Meaning<T>, records: seq<Record>, items: seq<T>)
  {
    |records| == |items| && forall i :: 0 <= i < |items| ==> interpret(records[i]) == Item(items[i])
  }

  lemma HeaderPrinted(r: Record)
    requires |r.raw| < LIMIT32
    ensures var p := PrintRecord(r);
      && Be32At(p, 0) == r.rawId && Be32At(p, 4) == r.version && Be32At(p, 8) == r.flags && Be32At(p, 12) == |r.raw|
      && p[HEADER_BYTES..] == r.raw
  {
    Be32RoundTrip(r.rawId);
    Be32RoundTrip(r.version);
    Be32RoundTrip(r.flags);
    Be32RoundTrip(|r.raw|);
    var p := PrintRecord(r);
    assert p[0..4] == Be32(r.rawId) && p[4..8] == Be32(r.version) && p[8..12] == Be32(r.flags) &&
      p[12..16] == Be32(|r.raw|);
    SliceReads(p, 0);
    SliceReads(p, 4);
    SliceReads(p, 8);
    SliceReads(p, 12);
  }

  lemma SliceReads(p: seq<Byte>, k: nat)
    requires k + 4 <= |p|
    ensures Be32At(p, k) == Be32At(p[k..k + 4], 0)
  {
  }

  /** A printed record is found again wherever it stands. */
  lemma RecordPrinted(before: seq<Byte>, r: Record, after: seq<Byte>)
    requires |r.raw| < LIMIT32
    ensures RecordAt(before + PrintRecord(r) + after, |before|) == Some(r)
  {
    var p := PrintRecord(r);
    HeaderPrinted(r);
    Be32Shift(before, p, after, 0);
    Be32Shift(before, p, after, 4);
    Be32Shift(before, p, after, 8);
    Be32Shift(before, p, after, 12);
    SliceShift(before, p, after, HEADER_BYTES);
  }

  lemma SliceShift(before: seq<Byte>, part: seq<Byte>, after: seq<Byte>, k: nat)
    requires k <= |part|
    ensures (before + part + after)[|before| + k..|before| + |part|] == part[k..]
  {
  }

  lemma RecordReprint(bytes: seq<Byte>, offset: nat)
    requires RecordAt(bytes, offset).Some?
    ensures var r := RecordAt(bytes, offset).value;
      PrintRecord(r) == bytes[offset..offset + HEADER_BYTES + |r.raw|]
  {
    var r := RecordAt(bytes, offset).value;
    WordsReprint(bytes, offset, r.rawId, r.version, r.flags, |r.raw|);
    FiveParts(bytes, offset, offset + HEADER_BYTES + |r.raw|);
  }

  lemma WordsReprint(bytes: seq<Byte>, at: nat, a: U32, b: U32, c: U32, d: U32)
    requires at + 16 <= |bytes| && a == Be32At(bytes, at) && b == Be32At(bytes, at + 4)
    requires c == Be32At(bytes, at + 8) && d == Be32At(bytes, at + 12)
    ensures Be32(a) == bytes[at..at + 4] && Be32(b) == bytes[at + 4..at + 8]
    ensures Be32(c) == bytes[at + 8..at + 12] && Be32(d) == bytes[at + 12..at + 16]
  {
    Be32Reprint(bytes, at);
    Be32Reprint(bytes, at + 4);
    Be32Reprint(bytes, at + 8);
    Be32Reprint(bytes, at + 12);
  }

  lemma FiveParts(bytes: seq<Byte>, at: nat, end: nat)
    requires at + 16 <= end <= |bytes|
    ensures bytes[at..at + 4] + bytes[at + 4..at + 8] + bytes[at + 8..at + 12] + bytes[at + 12..at + 16] +
      bytes[at + 16..end]
         == bytes[at..end]
  {
  }

  /** Parsing printed records gives what they mean, whatever follows. */
  lemma ManyPrinted<T>(interpret: Record -> Meaning<T>, before: seq<Byte>, records: seq<Record>, items: seq<T>,
                       after: seq<Byte>)
    requires Sized(records) && Means(interpret, records, items)
    ensures ParseMany(interpret, before + PrintRecords(records) + after, |before|, |items|)
         == Ok(items, |before| + |PrintRecords(records)|)
  {
    PrintedParse(interpret, before, records, items, after,
                 ParseMany(interpret, before + PrintRecords(records) + after, |before|, |items|));
  }

  lemma {:induction false} PrintedParse<T>(interpret: Record -> Meaning<T>, before: seq<Byte>, records: seq<Record>,
                                           items: seq<T>, after: seq<Byte>, r: Parsed<T>)
    requires Sized(records) && Means(interpret, records, items)
    requires r == ParseMany(interpret, before + PrintRecords(records) + after, |before|, |items|)
    ensures r == Ok(items, |before| + |PrintRecords(records)|)
    decreases |records|
  {
    if records != [] {
      var first, rest := PrintRecord(records[0]), PrintRecords(records[1..]);
      var r' := ParseMany(interpret, before + first + rest + after, |before + first|, |items[1..]|);
      PrintedParse(interpret, before + first, records[1..], items[1..], after, r');
      PrintedStep(interpret, before, records[0], rest, after, items[0], items[1..], r');
      assert [items[0]] + items[1..] == items && PrintRecords(records) == first + rest;
    }
  }

  lemma PrintedStep<T>(interpret: Record -> Meaning<T>, before: seq<Byte>, record: Record, rest: seq<Byte>,
                       after: seq<Byte>, item: T, items: seq<T>, r: Parsed<T>)
    requires |record.raw| < LIMIT32 && interpret(record) == Item(item)
    requires r == ParseMany(interpret, before + PrintRecord(record) + rest + after, |before + PrintRecord(record)|,
                            |items|)
    requires r == Ok(items, |before + PrintRecord(record)| + |rest|)
    ensures ParseMany(interpret, before + (PrintRecord(record) + rest) + after, |before|, |items| + 1)
         == Ok([item] + items, |before| + |PrintRecord(record) + rest|)
  {
    var first := PrintRecord(record);
    Regroup(before, first, rest, after);
    RecordPrinted(before, record, rest + after);
    var next := |before + first|;
    ManyStep(interpret, before + (first + rest) + after, |before|, next, record, item, items, next + |rest|);
  }

  lemma ManyStep<T>(interpret: Record -> Meaning<T>, bytes: seq<Byte>, offset: nat, next: nat, record: Record, item: T,
                    items: seq<T>, end: nat)
    requires RecordAt(bytes, offset) == Some(record) && interpret(record) == Item(item)
    requires next == offset + HEADER_BYTES + |record.raw| &&
      ParseMany(interpret, bytes, next, |items|) == Ok(items, end)
    ensures ParseMany(interpret, bytes, offset, |items| + 1) == Ok([item] + items, end)
  {
  }

  /** The first record of a parse that went well, and the parse of the rest. */
  lemma ManyFirst<T>(interpret: Record -> Meaning<T>, bytes: seq<Byte>, offset: nat, count: nat, r: Parsed<T>)
    returns (first: Record, next: nat, rest: Parsed<T>)
    requires count > 0 && r == ParseMany(interpret, bytes, offset, count) && r.Ok?
    ensures RecordAt(bytes, offset) == Some(first) && |first.raw| < LIMIT32
    ensures next == offset + HEADER_BYTES + |first.raw| <= |bytes|
    ensures rest == ParseMany(interpret, bytes, next, count - 1) && rest.Ok?
    ensures |r.items| > 0 && interpret(first) == Item(r.items[0]) && r == Ok([r.items[0]] + rest.items, rest.consumed)
  {
    first := RecordAt(bytes, offset).value;
    next := offset + HEADER_BYTES + |first.raw|;
    rest := ParseMany(interpret, bytes, next, count - 1);
  }

  lemma Regroup(before: seq<Byte>, first: seq<Byte>, rest: seq<Byte>, after: seq<Byte>)
    ensures before + (first + rest) + after == before + first + (rest + after)
    ensures before + (first + rest) + after == before + first + rest + after
  {
  }

  /** A parse whose items come from these records, which print back to the bytes it consumed. */
  ghost predicate Reprints<T>(interpret: Record -> Meaning<T>, bytes: seq<Byte>, offset: nat, r: Parsed<T>,
                              records: seq<Record>)
  {
    && r.Ok? && offset <= r.consumed <= |bytes|
    && Sized(records) && Means(interpret, records, r.items)
    && PrintRecords(records) == bytes[offset..r.consumed]
  }

  lemma ReprintStep<T>(interpret: Record -> Meaning<T>, bytes: seq<Byte>, offset: nat, next: nat, first: Record,
                       item: T, rest: Parsed<T>, records: seq<Record>)
    requires RecordAt(bytes, offset) == Some(first) && next == offset + HEADER_BYTES + |first.raw|
    requires interpret(first) == Item(item) && Reprints(interpret, bytes, next, rest, records)
    ensures Reprints(interpret, bytes, offset, Ok([item] + rest.items, rest.consumed), [first] + records)
  {
    PrintCons(first, records);
    RecordReprint(bytes, offset);
    SplitAt(bytes, offset, next, rest.consumed);
    MeansCons(interpret, first, records, item, rest.items);
  }

  lemma SplitAt(bytes: seq<Byte>, i: nat, j: nat, k: nat)
    requires i <= j <= k <= |bytes|
    ensures bytes[i..k] == bytes[i..j] + bytes[j..k]
  {
  }

  lemma MeansCons<T>(interpret: Record -> Meaning<T>, first: Record, records: seq<Record>, item: T, items: seq<T>)
    requires interpret(first) == Item(item) && Means(interpret, records, items)
    ensures Means(interpret, [first] + records, [item] + items)
  {
  }

  /** Records that were parsed print back to the bytes they came from. */
  lemma {:induction false} ManyReprint<T>(interpret: Record -> Meaning<T>, bytes: seq<Byte>, offset: nat, count: nat,
                                          r: Parsed<T>)
    returns (records: seq<Record>)
    requires offset <= |bytes| && r == ParseMany(interpret, bytes, offset, count) && r.Ok?
    ensures |records| == count && Reprints(interpret, bytes, offset, r, records)
    decreases count
  {
    records := [];
    if count > 0 {
      var first, next, rest := ManyFirst(interpret, bytes, offset, count, r);
      var others := ManyReprint(interpret, bytes, next, count - 1, rest);
      ReprintStep(interpret, bytes, offset, next, first, r.items[0], rest, others);
      records := [first] + others;
    }
  }

  lemma PrintCons(first: Record, rest: seq<Record>)
    requires |first.raw| < LIMIT32 && Sized(rest)
    ensures Sized([first] + rest) && PrintRecords([first] + rest) == PrintRecord(first) + PrintRecords(rest)
  {
    assert ([first] + rest)[1..] == rest;
  }
}
