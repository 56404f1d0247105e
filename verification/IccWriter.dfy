/** The profile writer: it reads a base profile, replaces two of its tags, sorts the
    payloads and lays the profile out again. */
module IccWriter {
  import opened Options
  import opened Bytes
  import opened IccProfile

  // ---------------------------------------------------------------- a growing byte string

  class ByteVector {
    var bytes: seq<Byte>

    constructor (initial: seq<Byte>)
      ensures bytes == initial
    {
      bytes := initial;
    }

    method Append(more: seq<Byte>)
      modifies this
      ensures bytes == old(bytes) + more
    {
      bytes := bytes + more;
    }

    method AppendU32(v: U32)
      modifies this
      ensures bytes == old(bytes) + Be32(v)
    {
      bytes := bytes + [Byte3(v)];
      bytes := bytes + [Byte2(v)];
      bytes := bytes + [Byte1(v)];
      bytes := bytes + [Byte0(v)];
    }

    /** Grow to a size, filling with zeros. */
    method Resize(size: nat)
      requires size >= |bytes|
      modifies this
      ensures bytes == old(bytes) + Zeros(size - |old(bytes)|)
    {
      bytes := bytes + Zeros(size - |bytes|);
    }

    method Align4()
      modifies this
      ensures bytes == old(bytes) + Zeros(Pad(|old(bytes)|))
    {
      ghost var k := 0;
      while |bytes| % 4 != 0
        invariant 0 <= k <= Pad(|old(bytes)|) && bytes == old(bytes) + Zeros(k)
        decreases Pad(|old(bytes)|) - k
      {
        bytes := bytes + [0];
        k := k + 1;
      }
    }

    method WriteU32(offset: nat, v: U32)
      requires offset + 4 <= |bytes|
      modifies this
      ensures bytes == old(bytes)[..offset] + Be32(v) + old(bytes)[offset + 4..]
    {
      FourWritten(bytes, offset, Be32(v));
      bytes := bytes[offset := Byte3(v)];
      bytes := bytes[offset + 1 := Byte2(v)];
      bytes := bytes[offset + 2 := Byte1(v)];
      bytes := bytes[offset + 3 := Byte0(v)];
    }

    method Set(offset: nat, b: Byte)
      requires offset < |bytes|
      modifies this
      ensures bytes == old(bytes)[offset := b]
    {
      bytes := bytes[offset := b];
    }
  }

  // ---------------------------------------------------------------- reading the base profile

  method ReadTagRecords(profile: seq<Byte>) returns (r: Option<seq<TagRecord>>)
    ensures r.Some? <==> Accepted(profile)
    ensures r.Some? ==> r.value == Tags(profile)
  {
    if |profile| < TABLE_START || Be32At(profile, 36) != ACSP {
      return None;
    }
    var count: nat := Be32At(profile, 128);
    if TableEnd(count) > |profile| {
      return None;
    }
    var records: seq<TagRecord> := [];
    for i := 0 to count
      invariant |records| == i
      invariant forall k: nat :: k < i ==> records[k] == TagAt(profile, k) && TagAt(profile, k).End() <= |profile|
    {
      var record := TagAt(profile, i);
      if record.End() > |profile| {
        return None;
      }
      records := records + [record];
    }
    return Some(records);
  }

  // ---------------------------------------------------------------- the payloads

  function CicpTag(): (bytes: seq<Byte>)
    ensures |bytes| == 12
  {
    Be32(CICP) + Be32(0) + [9, 16, 9, 1]
  }

  function A2b0Tag(): (bytes: seq<Byte>)
    ensures |bytes| == 20
  {
    Be32(MABF) + Be32(0) + [3, 3, 0, 0] + Be32(16) + Be32(0)
  }

  predicate Replaced(signature: U32) { signature == CICP || signature == A2B0 }

  ghost function Kept(ps: seq<Payload>): (kept: seq<Payload>)
  {
    if ps == [] then []
    else if Replaced(ps[|ps| - 1].signature) then Kept(ps[..|ps| - 1])
    else Kept(ps[..|ps| - 1]) + [ps[|ps| - 1]]
  }

  function NewTags(): (ps: seq<Payload>)
  {
    [Payload(CICP, CicpTag()), Payload(A2B0, A2b0Tag())]
  }

  ghost function NewPayloads(base: seq<Byte>): (ps: seq<Payload>)
    requires Accepted(base)
  {
    Kept(Payloads(base)) + NewTags()
  }

  // ---------------------------------------------------------------- sorting

  ghost predicate BySignature(ps: seq<Payload>)
  {
    forall i, j :: 0 <= i < j < |ps| ==> ps[i].signature <= ps[j].signature
  }

  ghost predicate Arranged(sorted: seq<Payload>, ps: seq<Payload>)
  {
    multiset(sorted) == multiset(ps) && BySignature(sorted)
  }

  /** The library's sort: any function that arranges payloads by signature, ties in any order. */
  type Sorter = seq<Payload> -> seq<Payload>

  ghost predicate Sorts(sort: Sorter)
  {
    forall ps :: Arranged(sort(ps), ps)
  }

  // ---------------------------------------------------------------- laying out

  /** A table end is a multiple of four, so padding the file is padding the body. */
  lemma PadShift(count: nat, n: nat)
    ensures Pad(TableEnd(count) + n) == Pad(n)
  {
  }

  /** Append one payload, aligned, and note where it went. */
  method AppendNext(out: ByteVector, ps: seq<Payload>, i: nat, ghost start: seq<Byte>) returns (record: TagRecord)
    requires i < |ps| && |start| == TableEnd(|ps|) && out.bytes == start + Body(ps[..i])
    modifies out
    ensures out.bytes == start + Body(ps[..i + 1]) && record == TagFor(ps, i)
  {
    assert ps[..i + 1][..i] == ps[..i] && ps[..i + 1][i] == ps[i];
    PadShift(|ps|, |Body(ps[..i])|);
    out.Align4();
    var offset := Cut32(|out.bytes|);
    out.Append(ps[i].bytes);
    record := TagRecord(ps[i].signature, offset, Cut32(|ps[i].bytes|));
  }

  /** Append the payloads, each aligned, and note where they went. */
  method AppendPayloads(out: ByteVector, ps: seq<Payload>) returns (records: seq<TagRecord>)
    requires |out.bytes| == TableEnd(|ps|)
    modifies out
    ensures out.bytes == old(out.bytes) + Body(ps)
    ensures records == TagsFor(ps)
  {
    records := [];
    ghost var start := out.bytes;
    for i := 0 to |ps|
      invariant out.bytes == start + Body(ps[..i])
      invariant |records| == i && forall k :: 0 <= k < i ==> records[k] == TagFor(ps, k)
    {
      var record := AppendNext(out, ps, i, start);
      records := records + [record];
    }
    assert ps[..|ps|] == ps;
  }

  /** Overwrite one record's place. */
  method WriteRecord(out: ByteVector, at: nat, r: TagRecord)
    requires at + 12 <= |out.bytes|
    modifies out
    ensures out.bytes == old(out.bytes)[..at] + (Be32(r.signature) + Be32(r.offset) + Be32(r.size)) +
      old(out.bytes)[at + 12..]
  {
    out.WriteU32(at, r.signature);
    out.WriteU32(at + 4, r.offset);
    out.WriteU32(at + 8, r.size);
  }

  lemma TableGrows(ps: seq<Payload>, i: nat, r: TagRecord)
    requires i < |ps| && r == TagFor(ps, i)
    ensures BeBytes(TableWords(ps, i + 1)) == BeBytes(TableWords(ps, i)) +
      (Be32(r.signature) + Be32(r.offset) + Be32(r.size))
  {
    ThreeWords(TableWords(ps, i), r.signature, r.offset, r.size);
  }

  lemma ThreeWords(w: seq<U32>, a: U32, b: U32, c: U32)
    ensures BeBytes(w + [a, b, c]) == BeBytes(w) + (Be32(a) + Be32(b) + Be32(c))
  {
    assert w + [a, b, c] == w + [a] + [b] + [c];
    BeBytesSnoc(w, a);
    BeBytesSnoc(w + [a], b);
    BeBytesSnoc(w + [a] + [b], c);
  }

  lemma Overwrite(a: seq<Byte>, m: nat, tail: seq<Byte>, b: seq<Byte>)
    requires m >= 12 && |b| == 12
    ensures var all := a + Zeros(m) + tail; all[..|a|] + b + all[|a| + 12..] == a + b + Zeros(m - 12) + tail
  {
  }

  /** The first n records are in the table; the rest of it is zeros. */
  ghost predicate TableTo(bytes: seq<Byte>, front: seq<Byte>, ps: seq<Payload>, n: nat, body: seq<Byte>)
    requires n <= |ps|
  {
    bytes == front + BeBytes(TableWords(ps, n)) + Zeros(12 * (|ps| - n)) + body
  }

  method WriteNext(out: ByteVector, ps: seq<Payload>, i: nat, r: TagRecord, ghost front: seq<Byte>,
                   ghost body: seq<Byte>)
    requires i < |ps| && r == TagFor(ps, i) && |front| == TABLE_START && TableTo(out.bytes, front, ps, i, body)
    modifies out
    ensures TableTo(out.bytes, front, ps, i + 1, body)
  {
    ghost var before := out.bytes;
    WriteRecord(out, TableEnd(i), r);
    TableGrows(ps, i, r);
    RecordWritten(before, front, BeBytes(TableWords(ps, i)), 12 * (|ps| - i), body, TableEnd(i),
                  Be32(r.signature) + Be32(r.offset) + Be32(r.size));
  }

  /** Fill the table that was left as zeros. */
  method WriteTable(out: ByteVector, ps: seq<Payload>, records: seq<TagRecord>, ghost front: seq<Byte>,
                    ghost body: seq<Byte>)
    requires records == TagsFor(ps) && |front| == TABLE_START && out.bytes == front + Zeros(12 * |ps|) + body
    modifies out
    ensures out.bytes == front + BeBytes(TableWords(ps, |ps|)) + body
  {
    assert front + [] + Zeros(12 * |ps|) + body == front + Zeros(12 * |ps|) + body;
    for i := 0 to |records|
      invariant TableTo(out.bytes, front, ps, i, body)
    {
      WriteNext(out, ps, i, records[i], front, body);
    }
    assert out.bytes == front + BeBytes(TableWords(ps, |ps|)) + [] + body;
  }

  lemma RecordWritten(before: seq<Byte>, front: seq<Byte>, table: seq<Byte>, m: nat, body: seq<Byte>, at: nat,
                      r: seq<Byte>)
    requires m >= 12 && |r| == 12 && at == |front| + |table| && before == front + table + Zeros(m) + body
    ensures before[..at] + r + before[at + 12..] == front + (table + r) + Zeros(m - 12) + body
  {
    Overwrite(front + table, m, body, r);
    assert front + (table + r) == front + table + r;
  }

  /** Overwrite the size and the version. */
  method WriteHeader(out: ByteVector, ghost header: seq<Byte>, ghost rest: seq<Byte>)
    requires |header| == HEADER_BYTES && out.bytes == header + rest
    modifies out
    ensures out.bytes == Header(header, |header + rest|) + rest
  {
    ghost var size := Be32(Cut32(|header + rest|));
    out.WriteU32(0, Cut32(|out.bytes|));
    assert out.bytes == size + header[4..] + rest;
    ghost var written := out.bytes;
    out.Set(8, 4);
    out.Set(9, 0x40);
    out.Set(10, 0);
    out.Set(11, 0);
    VersionWritten(size, header, rest, written);
  }

  lemma VersionWritten(size: seq<Byte>, header: seq<Byte>, rest: seq<Byte>, written: seq<Byte>)
    requires |size| == 4 && |header| == HEADER_BYTES && written == size + header[4..] + rest
    ensures written[8 := 4][9 := 0x40][10 := 0][11 := 0] == size + header[4..8] + [4, 0x40, 0, 0] + header[12..] + rest
  {
    var version: seq<Byte> := [4, 0x40, 0, 0];
    FourWritten(written, 8, version);
    assert written[..8] == size + header[4..8] && written[12..] == header[12..] + rest;
    assert size + header[4..8] + version + (header[12..] + rest) == size + header[4..8] + version + header[12..] + rest;
  }

  lemma FourWritten(bytes: seq<Byte>, at: nat, v: seq<Byte>)
    requires |v| == 4 && at + 4 <= |bytes|
    ensures bytes[at := v[0]][at + 1 := v[1]][at + 2 := v[2]][at + 3 := v[3]] == bytes[..at] + v + bytes[at + 4..]
  {
  }

  /** Lay out a profile from a header and payloads. */
  method LayOut(header: seq<Byte>, ps: seq<Payload>) returns (out: ByteVector)
    requires |header| == HEADER_BYTES
    ensures out.bytes == Profile(header, ps)
  {
    out := new ByteVector(header);
    out.AppendU32(Cut32(|ps|));
    out.Resize(TableEnd(|ps|));
    ghost var count, zeros := Be32(Cut32(|ps|)), Zeros(12 * |ps|);
    var records := AppendPayloads(out, ps);
    Regroup(header, count, zeros, Body(ps));
    WriteHeader(out, header, count + zeros + Body(ps));
    ghost var front := Header(header, Length(ps)) + count;
    Regroup(Header(header, Length(ps)), count, zeros, Body(ps));
    WriteTable(out, ps, records, front, Body(ps));
  }

  /** Collect the payloads that stay, then the two new ones. */
  method CollectPayloads(base: seq<Byte>, records: seq<TagRecord>) returns (ps: seq<Payload>)
    requires Accepted(base) && records == Tags(base)
    ensures ps == NewPayloads(base)
  {
    ps := [];
    ghost var all := Payloads(base);
    for i := 0 to |records|
      invariant ps == Kept(all[..i])
    {
      KeptSnoc(all, i);
      if !Replaced(records[i].signature) {
        ps := ps + [PayloadOf(base, records[i])];
      }
    }
    assert all[..|records|] == all;
    ps := ps + [Payload(CICP, CicpTag())];
    ps := ps + [Payload(A2B0, A2b0Tag())];
  }

  lemma KeptSnoc(ps: seq<Payload>, i: nat)
    requires i < |ps|
    ensures Kept(ps[..i + 1]) == if Replaced(ps[i].signature) then Kept(ps[..i]) else Kept(ps[..i]) + [ps[i]]
  {
    assert ps[..i + 1][..i] == ps[..i] && ps[..i + 1][i] == ps[i];
  }

  /** The writer, on base profiles of any content: None where it throws. */
  method Bt2020Pq(base: seq<Byte>, sort: Sorter) returns (r: Option<seq<Byte>>)
    ensures r.Some? <==> Accepted(base)
    ensures r.Some? ==> r.value == Rebuilt(base, sort)
  {
    var records := ReadTagRecords(base);
    if records.None? {
      return None;
    }
    var ps := CollectPayloads(base, records.value);
    var out := LayOut(base[..HEADER_BYTES], sort(ps));
    return Some(out.bytes);
  }

  ghost function Rebuilt(base: seq<Byte>, sort: Sorter): (profile: seq<Byte>)
    requires Accepted(base)
  {
    Profile(base[..HEADER_BYTES], sort(NewPayloads(base)))
  }

  // ---------------------------------------------------------------- what the writer promises

  ghost predicate TagsBySignature(tags: seq<TagRecord>)
  {
    forall i, j :: 0 <= i < j < |tags| ==> tags[i].signature <= tags[j].signature
  }

  lemma BaseHeader(base: seq<Byte>)
    requires |base| >= TABLE_START
    ensures Be32At(base[..HEADER_BYTES], 36) == Be32At(base, 36)
  {
  }

  /** Every rebuilt profile of less than 2^32 bytes is accepted again, with sorted, aligned and
      disjoint tags whose payloads are the kept ones and the two new ones. */
  lemma RebuiltIsSound(base: seq<Byte>, sort: Sorter, out: seq<Byte>)
    requires Accepted(base) && Sorts(sort) && out == Rebuilt(base, sort) && |out| < LIMIT32
    ensures Accepted(out) && Be32At(out, 0) == |out| && out[8..12] == [4, 0x40, 0, 0]
    ensures TagsBySignature(Tags(out)) && WellPlaced(Tags(out))
    ensures multiset(Payloads(out)) == multiset(Kept(Payloads(base))) + multiset(NewTags())
  {
    var header, ps := base[..HEADER_BYTES], sort(NewPayloads(base));
    BaseHeader(base);
    ProfileIsAccepted(header, ps, out);
    TagsAreWellPlaced(ps);
    assert Arranged(ps, NewPayloads(base));
    VersionIs(header, |out|, out);
  }

  lemma VersionIs(header: seq<Byte>, size: nat, out: seq<Byte>)
    requires |header| == HEADER_BYTES <= |out| && out[..HEADER_BYTES] == Header(header, size)
    ensures out[8..12] == [4, 0x40, 0, 0]
  {
    assert out[8..12] == out[..HEADER_BYTES][8..12];
    assert Header(header, size)[8..12] == [4, 0x40, 0, 0];
  }

  // ---------------------------------------------------------------- rebuilding again changes nothing

  lemma {:induction false} KeptCounts(ps: seq<Payload>, x: Payload)
    ensures multiset(Kept(ps))[x] == if Replaced(x.signature) then 0 else multiset(ps)[x]
  {
    if ps != [] {
      var front, last := ps[..|ps| - 1], ps[|ps| - 1];
      KeptCounts(front, x);
      assert ps == front + [last];
    }
  }

  /** The two new payloads, byte by byte. */
  lemma NewTagBytes()
    ensures CicpTag() == [0x63, 0x69, 0x63, 0x70, 0, 0, 0, 0, 9, 16, 9, 1]
    ensures A2b0Tag() == [0x6D, 0x41, 0x42, 0x46, 0, 0, 0, 0, 3, 3, 0, 0, 0, 0, 0, 16, 0, 0, 0, 0]
  {
  }

  /** How often a rebuilt profile holds a payload: as often as the base did, except that "cicp" and "A2B0" are there
      once, with the new contents only. */
  lemma RebuiltHolds(base: seq<Byte>, sort: Sorter, out: seq<Byte>, x: Payload)
    requires Accepted(base) && Sorts(sort) && out == Rebuilt(base, sort) && |out| < LIMIT32
    ensures Accepted(out)
    ensures multiset(Payloads(out))[x] ==
            if x == Payload(0x6369_6370, CicpTag()) || x == Payload(0x4132_4230, A2b0Tag()) then 1
            else if x.signature == 0x6369_6370 || x.signature == 0x4132_4230 then 0
            else multiset(Payloads(base))[x]
  {
    RebuiltIsSound(base, sort, out);
    KeptCounts(Payloads(base), x);
    assert multiset(NewTags()) == multiset{Payload(CICP, CicpTag()), Payload(A2B0, A2b0Tag())};
  }

  /** Apart from the size and the version, the header is the base's. */
  lemma RebuiltKeepsHeader(base: seq<Byte>, sort: Sorter, out: seq<Byte>, k: nat)
    requires Accepted(base) && Sorts(sort) && out == Rebuilt(base, sort) && |out| < LIMIT32
    requires 4 <= k < 8 || 12 <= k < 128
    ensures |out| >= 128 && out[k] == base[k]
  {
    RebuiltIsSound(base, sort, out);
    var header, ps := base[..HEADER_BYTES], sort(NewPayloads(base));
    HeaderFirst(header, ps, out, k);
    if k < 8 {
      assert Header(header, Length(ps))[k] == header[k];
    } else {
      HeaderKeeps(header, Length(ps), k);
    }
  }

  lemma HeaderFirst(header: seq<Byte>, ps: seq<Payload>, out: seq<Byte>, k: nat)
    requires |header| == HEADER_BYTES && Length(ps) < LIMIT32 && out == Profile(header, ps) && k < HEADER_BYTES <= |out|
    ensures out[k] == Header(header, Length(ps))[k]
  {
  }

  /** Payloads with the same signature are the same. */
  ghost predicate TiesAgree(ps: seq<Payload>)
  {
    forall x, y :: x in ps && y in ps && x.signature == y.signature ==> x == y
  }

  lemma LastIsSame(a: seq<Payload>, b: seq<Payload>)
    requires multiset(a) == multiset(b) && TiesAgree(a) && BySignature(a) && BySignature(b) && |a| == |b| > 0
    ensures a[|a| - 1] == b[|b| - 1]
  {
    var n := |a| - 1;
    assert a[n] in multiset(b) && b[n] in multiset(a);
    var i :| 0 <= i < |b| && b[i] == a[n];
    var j :| 0 <= j < |a| && a[j] == b[n];
    assert a[j].signature == a[n].signature;
  }

  lemma SameSize(a: seq<Payload>, b: seq<Payload>)
    requires multiset(a) == multiset(b)
    ensures |a| == |b|
  {
    assert |a| == |multiset(a)| == |multiset(b)| == |b|;
  }

  lemma SameByLast(a: seq<Payload>, b: seq<Payload>, n: nat)
    requires |a| == |b| == n + 1 && a[..n] == b[..n] && a[n] == b[n]
    ensures a == b
  {
    assert a == a[..n] + [a[n]] && b == b[..n] + [b[n]];
  }

  lemma WithoutLast(a: seq<Payload>)
    requires a != []
    ensures multiset(a[..|a| - 1]) == multiset(a) - multiset{a[|a| - 1]}
  {
    assert a == a[..|a| - 1] + [a[|a| - 1]];
  }

  lemma FrontIsArranged(a: seq<Payload>)
    requires a != [] && BySignature(a)
    ensures BySignature(a[..|a| - 1])
  {
  }

  lemma FrontTiesAgree(a: seq<Payload>)
    requires a != [] && TiesAgree(a)
    ensures TiesAgree(a[..|a| - 1])
  {
    forall x | x in a[..|a| - 1] ensures x in a {
    }
  }

  /** There is only one arrangement when payloads with the same signature are the same. */
  lemma {:induction false} ArrangementIsUnique(a: seq<Payload>, b: seq<Payload>)
    requires multiset(a) == multiset(b) && TiesAgree(a) && BySignature(a) && BySignature(b)
    ensures a == b
    decreases |a|
  {
    SameSize(a, b);
    if a != [] {
      var n := |a| - 1;
      LastIsSame(a, b);
      WithoutLast(a);
      WithoutLast(b);
      FrontIsArranged(a);
      FrontIsArranged(b);
      FrontTiesAgree(a);
      ArrangementIsUnique(a[..n], b[..n]);
      SameByLast(a, b, n);
    }
  }

  lemma HeaderTwice(header: seq<Byte>, size: nat)
    requires |header| == HEADER_BYTES
    ensures Header(Header(header, size), size) == Header(header, size)
  {
    var h := Header(header, size);
    assert h[4..8] == header[4..8] && h[12..] == header[12..];
  }

  lemma {:induction false} KeptIsNotReplaced(ps: seq<Payload>, x: Payload)
    requires x in Kept(ps)
    ensures !Replaced(x.signature)
  {
    if Replaced(ps[|ps| - 1].signature) || x in Kept(ps[..|ps| - 1]) {
      KeptIsNotReplaced(ps[..|ps| - 1], x);
    }
  }

  lemma NewTiesAgree(base: seq<Byte>)
    requires Accepted(base) && TiesAgree(Kept(Payloads(base)))
    ensures TiesAgree(NewPayloads(base))
  {
    var kept := Kept(Payloads(base));
    forall x | x in kept ensures !Replaced(x.signature) {
      KeptIsNotReplaced(Payloads(base), x);
    }
  }

  lemma SameElements(a: seq<Payload>, b: seq<Payload>)
    requires multiset(a) == multiset(b)
    ensures forall x :: x in a <==> x in b
  {
    forall x ensures x in a <==> x in b {
      assert x in a <==> x in multiset(a);
    }
  }

  /** Rebuilding a rebuilt profile gives the same bytes, when tags it kept under one signature are the same. */
  lemma RebuildIsIdempotent(base: seq<Byte>, sort: Sorter, out: seq<Byte>)
    requires Accepted(base) && Sorts(sort) && out == Rebuilt(base, sort) && |out| < LIMIT32
    requires TiesAgree(Kept(Payloads(base)))
    ensures Accepted(out) && Rebuilt(out, sort) == out
  {
    var header, ps := base[..HEADER_BYTES], sort(NewPayloads(base));
    BaseHeader(base);
    ProfileIsAccepted(header, ps, out);
    SortedTwice(base, sort, ps);
    HeaderTwice(header, |out|);
    SameProfile(header, out[..HEADER_BYTES], ps);
  }

  /** The payloads of a rebuilt profile are sorted again to the same arrangement. */
  lemma SortedTwice(base: seq<Byte>, sort: Sorter, ps: seq<Payload>)
    requires Accepted(base) && Sorts(sort) && ps == sort(NewPayloads(base)) && TiesAgree(Kept(Payloads(base)))
    ensures sort(Kept(ps) + NewTags()) == ps
  {
    assert Arranged(ps, NewPayloads(base));
    NewTiesAgree(base);
    SameElements(ps, NewPayloads(base));
    SamePayloads(base, ps);
    assert Arranged(sort(Kept(ps) + NewTags()), Kept(ps) + NewTags());
    ArrangementIsUnique(ps, sort(Kept(ps) + NewTags()));
  }

  lemma SamePayloads(base: seq<Byte>, ps: seq<Payload>)
    requires Accepted(base) && multiset(ps) == multiset(NewPayloads(base))
    ensures multiset(Kept(ps) + NewTags()) == multiset(ps)
  {
    var kept := Kept(Payloads(base));
    forall x: Payload ensures multiset(Kept(ps))[x] == multiset(kept)[x] {
      KeptCounts(ps, x);
      KeptCounts(Payloads(base), x);
      assert multiset(NewTags())[x] > 0 ==> Replaced(x.signature);
    }
  }

  lemma SameProfile(h1: seq<Byte>, h2: seq<Byte>, ps: seq<Payload>)
    requires |h1| == |h2| == HEADER_BYTES && Header(h1, Length(ps)) == Header(h2, Length(ps))
    ensures Profile(h1, ps) == Profile(h2, ps)
  {
  }
}
