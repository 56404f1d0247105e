/** ICC profiles as byte strings (section 7 of ICC.1:2022): a 128-byte header, a table of
    tag records, and the tag payloads that the records point at. */
module IccProfile {
  import opened Bytes

  const ACSP: U32 := 0x6163_7370
  const CICP: U32 := 0x6369_6370
  const A2B0: U32 := 0x4132_4230
  const MABF: U32 := 0x6D41_4246

  const HEADER_BYTES: nat := 128
  const TABLE_START: nat := 132

  datatype TagRecord = TagRecord(signature: U32, offset: U32, size: U32) {
    function End(): nat { offset as nat + size as nat }
  }

  datatype Payload = Payload(signature: U32, bytes: seq<Byte>)

  // ---------------------------------------------------------------- reading

  function TableEnd(count: nat): nat { TABLE_START + 12 * count }

  function TagAt(profile: seq<Byte>, i: nat): (r: TagRecord)
    requires TableEnd(i + 1) <= |profile|
  {
    TagRecord(Be32At(profile, TableEnd(i)), Be32At(profile, TableEnd(i) + 4), Be32At(profile, TableEnd(i) + 8))
  }

  /** The profiles a reader accepts: the signature, a whole table, and payloads inside the file. */
  ghost predicate Accepted(profile: seq<Byte>)
  {
    && |profile| >= TABLE_START && Be32At(profile, 36) == ACSP
    && TableEnd(Be32At(profile, 128)) <= |profile|
    && forall i: nat :: i < Be32At(profile, 128) ==> TagAt(profile, i).End() <= |profile|
  }

  ghost function Tags(profile: seq<Byte>): (records: seq<TagRecord>)
    requires Accepted(profile)
    ensures |records| == Be32At(profile, 128)
    ensures forall i :: 0 <= i < |records| ==> records[i].End() <= |profile|
  {
    seq(Be32At(profile, 128), i requires 0 <= i < Be32At(profile, 128) => TagAt(profile, i))
  }

  function PayloadOf(profile: seq<Byte>, r: TagRecord): Payload
    requires r.End() <= |profile|
  {
    Payload(r.signature, profile[r.offset..r.End()])
  }

  /** All payloads, in table order. */
  ghost function Payloads(profile: seq<Byte>): (ps: seq<Payload>)
    requires Accepted(profile)
    ensures |ps| == |Tags(profile)|
  {
    seq(|Tags(profile)|, i requires 0 <= i < |Tags(profile)| => PayloadOf(profile, Tags(profile)[i]))
  }

  /** An accepted profile has the letters "acsp" at 36. */
  lemma AcceptedIsSigned(profile: seq<Byte>)
    requires Accepted(profile)
    ensures profile[36..40] == [0x61, 0x63, 0x73, 0x70]
  {
    Be32Reprint(profile, 36);
  }

  /** Where a payload is, in bytes: the table starts at 132, after the count at 128, and has twelve bytes a tag: the
      signature, the offset and the size. */
  lemma PayloadInBytes(profile: seq<Byte>, i: nat)
    requires Accepted(profile) && i < Be32At(profile, 128)
    ensures |profile| >= 144 + 12 * i
    ensures var at := 132 + 12 * i;
      var start, size: nat := Be32At(profile, at + 4), Be32At(profile, at + 8);
      && start as nat + size <= |profile|
      && Payloads(profile)[i] == Payload(Be32At(profile, at), profile[start..start as nat + size])
  {
    assert TableEnd(i + 1) <= TableEnd(Be32At(profile, 128));
    assert Tags(profile)[i] == TagAt(profile, i);
  }

  // ---------------------------------------------------------------- laying payloads out

  function Pad(n: nat): (pad: nat)
    ensures pad < 4 && (n + pad) % 4 == 0
  {
    if n % 4 == 0 then 0 else 4 - n % 4
  }

  function Zeros(n: nat): (z: seq<Byte>)
    ensures |z| == n
  {
    seq(n, _ => 0)
  }

  /** The payloads one after another, each starting on a multiple of four. */
  function Body(ps: seq<Payload>): (bytes: seq<Byte>)
  {
    if ps == [] then []
    else
      var front := Body(ps[..|ps| - 1]);
      front + Zeros(Pad(|front|)) + ps[|ps| - 1].bytes
  }

  /** Where a payload starts in the body. */
  function Start(ps: seq<Payload>, i: nat): (start: nat)
    requires i < |ps|
    ensures start % 4 == 0
  {
    var before := |Body(ps[..i])|;
    before + Pad(before)
  }

  function TagFor(ps: seq<Payload>, i: nat): TagRecord
    requires i < |ps|
  {
    TagRecord(ps[i].signature, Cut32(TableEnd(|ps|) + Start(ps, i)), Cut32(|ps[i].bytes|))
  }

  /** The words of the first n tag records. */
  ghost function TableWords(ps: seq<Payload>, n: nat): (w: seq<U32>)
    requires n <= |ps|
    ensures |w| == 3 * n
  {
    if n == 0 then []
    else
      var r := TagFor(ps, n - 1);
      TableWords(ps, n - 1) + [r.signature, r.offset, r.size]
  }

  function Length(ps: seq<Payload>): nat { TableEnd(|ps|) + |Body(ps)| }

  /** A header with the size and the version overwritten. */
  function Header(header: seq<Byte>, size: nat): (h: seq<Byte>)
    requires |header| == HEADER_BYTES
    ensures |h| == HEADER_BYTES
  {
    Be32(Cut32(size)) + header[4..8] + [4, 0x40, 0, 0] + header[12..]
  }

  /** The profile with this header and these payloads. */
  ghost function Profile(header: seq<Byte>, ps: seq<Payload>): (profile: seq<Byte>)
    requires |header| == HEADER_BYTES
    ensures |profile| == Length(ps)
  {
    Header(header, Length(ps)) + Be32(Cut32(|ps|)) + BeBytes(TableWords(ps, |ps|)) + Body(ps)
  }

  // ---------------------------------------------------------------- what is read back

  lemma {:induction false} BodyGrows(ps: seq<Payload>, i: nat)
    requires i <= |ps|
    ensures |Body(ps[..i])| <= |Body(ps)| && Body(ps)[..|Body(ps[..i])|] == Body(ps[..i])
    decreases |ps|
  {
    if i == |ps| {
      assert ps[..i] == ps;
    } else {
      var front := ps[..|ps| - 1];
      BodyGrows(front, i);
      assert front[..i] == ps[..i];
      assert Body(ps)[..|Body(front)|] == Body(front);
    }
  }

  /** Each payload is in the body where its record says. */
  lemma {:induction false} BodyHolds(ps: seq<Payload>, i: nat)
    requires i < |ps|
    ensures Start(ps, i) + |ps[i].bytes| == |Body(ps[..i + 1])| <= |Body(ps)|
    ensures Body(ps)[Start(ps, i)..Start(ps, i) + |ps[i].bytes|] == ps[i].bytes
  {
    var upto := ps[..i + 1];
    assert upto[..i] == ps[..i] && upto[i] == ps[i];
    BodyGrows(ps, i + 1);
    var s, e := Start(ps, i), Start(ps, i) + |ps[i].bytes|;
    assert Body(upto)[s..e] == ps[i].bytes;
    assert Body(ps)[s..e] == Body(ps)[..|Body(upto)|][s..e];
  }

  /** Payloads do not overlap: an earlier one ends before a later one starts. */
  lemma BodyDisjoint(ps: seq<Payload>, i: nat, j: nat)
    requires i < j < |ps|
    ensures Start(ps, i) + |ps[i].bytes| <= Start(ps, j)
  {
    BodyHolds(ps, i);
    BodyGrows(ps[..j], i + 1);
    assert ps[..j][..i + 1] == ps[..i + 1];
  }

  lemma {:induction false} TableWordsAt(ps: seq<Payload>, n: nat, i: nat)
    requires i < n <= |ps|
    ensures var w, r := TableWords(ps, n), TagFor(ps, i);
      w[3 * i] == r.signature && w[3 * i + 1] == r.offset && w[3 * i + 2] == r.size
  {
    if i < n - 1 {
      TableWordsAt(ps, n - 1, i);
    }
  }

  lemma TagInside(before: seq<Byte>, table: seq<Byte>, after: seq<Byte>, i: nat, p: seq<Byte>)
    requires |before| == TABLE_START && p == before + table + after && 12 * i + 12 <= |table|
    ensures TableEnd(i + 1) <= |p|
    ensures TagAt(p, i) == TagRecord(Be32At(table, 12 * i), Be32At(table, 12 * i + 4), Be32At(table, 12 * i + 8))
  {
    Be32Shift(before, table, after, 12 * i);
    Be32Shift(before, table, after, 12 * i + 4);
    Be32Shift(before, table, after, 12 * i + 8);
  }

  lemma WordOf(w: seq<U32>, k: nat, at: nat)
    requires k < |w| && at == 4 * k
    ensures Be32At(BeBytes(w), at) == w[k]
  {
    BeWordsOfBytes(w);
    assert BeWords(BeBytes(w))[k] == w[k];
  }

  lemma TableTag(w: seq<U32>, i: nat, r: TagRecord, table: seq<Byte>)
    requires 3 * i + 2 < |w| && w[3 * i] == r.signature && w[3 * i + 1] == r.offset && w[3 * i + 2] == r.size
    requires table == BeBytes(w)
    ensures 12 * i + 12 <= |table|
    ensures TagRecord(Be32At(table, 12 * i), Be32At(table, 12 * i + 4), Be32At(table, 12 * i + 8)) == r
  {
    WordOf(w, 3 * i, 12 * i);
    WordOf(w, 3 * i + 1, 12 * i + 4);
    WordOf(w, 3 * i + 2, 12 * i + 8);
  }

  lemma TagRead(header: seq<Byte>, ps: seq<Payload>, i: nat, p: seq<Byte>)
    requires |header| == HEADER_BYTES && i < |ps| && p == Profile(header, ps)
    ensures TableEnd(i + 1) <= |p| && TagAt(p, i) == TagFor(ps, i)
  {
    TableWordsAt(ps, |ps|, i);
    TableTag(TableWords(ps, |ps|), i, TagFor(ps, i), BeBytes(TableWords(ps, |ps|)));
    TagInside(Header(header, Length(ps)) + Be32(Cut32(|ps|)), BeBytes(TableWords(ps, |ps|)), Body(ps), i, p);
  }

  /** The header's words, read from any bytes that start with it. */
  lemma HeaderRead(header: seq<Byte>, size: nat, rest: seq<Byte>, p: seq<Byte>)
    requires |header| == HEADER_BYTES && p == Header(header, size) + rest
    ensures Be32At(p, 0) == Cut32(size) && Be32At(p, 36) == Be32At(header, 36) &&
      p[..HEADER_BYTES] == Header(header, size)
  {
    var h := Header(header, size);
    Be32RoundTrip(Cut32(size));
    assert h[0..4] == Be32(Cut32(size));
    assert p[0] == h[0] == Be32(Cut32(size))[0] && p[1] == h[1] == Be32(Cut32(size))[1];
    assert p[2] == h[2] == Be32(Cut32(size))[2] && p[3] == h[3] == Be32(Cut32(size))[3];
    assert h[12..] == header[12..];
    HeaderKeeps(header, size, 36);
    HeaderKeeps(header, size, 37);
    HeaderKeeps(header, size, 38);
    HeaderKeeps(header, size, 39);
  }

  lemma HeaderKeeps(header: seq<Byte>, size: nat, k: nat)
    requires |header| == HEADER_BYTES && 12 <= k < HEADER_BYTES
    ensures Header(header, size)[k] == header[k]
  {
    assert header[12..][k - 12] == header[k];
  }

  lemma CountRead(header: seq<Byte>, ps: seq<Payload>, p: seq<Byte>)
    requires |header| == HEADER_BYTES && p == Profile(header, ps) && Length(ps) < LIMIT32
    ensures |p| >= TableEnd(|ps|) && Be32At(p, 128) == |ps|
    ensures Be32At(p, 0) == |p| && Be32At(p, 36) == Be32At(header, 36) && p[..HEADER_BYTES] == Header(header, |p|)
  {
    PartsRead(header, Length(ps), |ps|, BeBytes(TableWords(ps, |ps|)), Body(ps), p);
  }

  lemma PartsRead(header: seq<Byte>, size: nat, n: nat, t: seq<Byte>, b: seq<Byte>, p: seq<Byte>)
    requires |header| == HEADER_BYTES && p == Header(header, size) + Be32(Cut32(n)) + t + b && n < LIMIT32 &&
      size < LIMIT32
    ensures Be32At(p, 128) == n && Be32At(p, 0) == size && Be32At(p, 36) == Be32At(header, 36) &&
      p[..HEADER_BYTES] == Header(header, size)
  {
    Uncut(n);
    Uncut(size);
    assert Be32At(p, 128) == n by {
      Regroup(Header(header, size), Be32(Cut32(n)), t, b);
      WordAfter(p, Header(header, size), Cut32(n), t + b, 128);
    }
    Regroup(Header(header, size), Be32(Cut32(n)), t, b);
    HeaderRead(header, size, Be32(Cut32(n)) + t + b, p);
  }

  lemma WordAfter(p: seq<Byte>, before: seq<Byte>, v: U32, after: seq<Byte>, at: nat)
    requires p == before + Be32(v) + after && at == |before|
    ensures Be32At(p, at) == v
  {
    Be32Inside(before, v, after);
  }

  lemma Regroup(h: seq<Byte>, c: seq<Byte>, t: seq<Byte>, b: seq<Byte>)
    ensures h + c + t + b == h + c + (t + b) && h + c + t + b == h + (c + t + b)
  {
  }

  lemma LastPart(front: seq<Byte>, b: seq<Byte>, s: nat, e: nat)
    requires s <= e <= |b|
    ensures (front + b)[|front| + s..|front| + e] == b[s..e]
  {
  }

  lemma PayloadRead(header: seq<Byte>, ps: seq<Payload>, i: nat, p: seq<Byte>)
    requires |header| == HEADER_BYTES && i < |ps| && Length(ps) < LIMIT32 && p == Profile(header, ps)
    ensures Placed(ps, i, TagFor(ps, i)) && TagFor(ps, i).End() <= |p| && PayloadOf(p, TagFor(ps, i)) == ps[i]
  {
    BodyHolds(ps, i);
    TagIsPlaced(ps, i);
    LastPart(Header(header, Length(ps)) + Be32(Cut32(|ps|)) + BeBytes(TableWords(ps, |ps|)), Body(ps),
             Start(ps, i), Start(ps, i) + |ps[i].bytes|);
  }

  /** A record that holds the payload's real place and size. */
  ghost predicate Placed(ps: seq<Payload>, i: nat, r: TagRecord)
    requires i < |ps|
  {
    r.signature == ps[i].signature && r.offset as nat == TableEnd(|ps|) + Start(ps, i) && r.size as nat == |ps[i].bytes|
  }

  lemma TagIsPlaced(ps: seq<Payload>, i: nat)
    requires i < |ps| && Length(ps) < LIMIT32
    ensures Placed(ps, i, TagFor(ps, i))
  {
    BodyHolds(ps, i);
    Uncut(TableEnd(|ps|) + Start(ps, i));
    Uncut(|ps[i].bytes|);
  }

  /** The i-th record of the profile is this tag, and its payload is this one. */
  ghost predicate Held(p: seq<Byte>, i: nat, tag: TagRecord, payload: Payload)
  {
    TableEnd(i + 1) <= |p| && TagAt(p, i) == tag && tag.End() <= |p| && PayloadOf(p, tag) == payload
  }

  /** What it takes for a profile to be accepted with these payloads. */
  lemma AcceptedWhen(p: seq<Byte>, tags: seq<TagRecord>, ps: seq<Payload>)
    requires |p| >= TABLE_START && Be32At(p, 36) == ACSP && Be32At(p, 128) == |tags| == |ps| && TableEnd(|ps|) <= |p|
    requires forall i: nat :: i < |ps| ==> Held(p, i, tags[i], ps[i])
    ensures Accepted(p) && Tags(p) == tags && Payloads(p) == ps
  {
    forall i: nat | i < |ps| ensures TagAt(p, i) == tags[i] && TagAt(p, i).End() <= |p| {
      assert Held(p, i, tags[i], ps[i]);
    }
  }

  ghost function TagsFor(ps: seq<Payload>): (tags: seq<TagRecord>)
    ensures |tags| == |ps|
  {
    seq(|ps|, i requires 0 <= i < |ps| => TagFor(ps, i))
  }

  lemma TagHeld(header: seq<Byte>, ps: seq<Payload>, i: nat, p: seq<Byte>, tag: TagRecord)
    requires |header| == HEADER_BYTES && i < |ps| && Length(ps) < LIMIT32 && p == Profile(header, ps) &&
      tag == TagFor(ps, i)
    ensures Held(p, i, tag, ps[i])
  {
    TagRead(header, ps, i, p);
    PayloadRead(header, ps, i, p);
  }

  /** A profile of less than 2^32 bytes is accepted, and its tags and payloads are the ones it was made of. */
  lemma ProfileIsAccepted(header: seq<Byte>, ps: seq<Payload>, p: seq<Byte>)
    requires |header| == HEADER_BYTES && Be32At(header, 36) == ACSP && Length(ps) < LIMIT32 && p == Profile(header, ps)
    ensures Accepted(p) && Tags(p) == TagsFor(ps) && Payloads(p) == ps
    ensures Be32At(p, 0) == |p| && p[..HEADER_BYTES] == Header(header, |p|)
  {
    CountRead(header, ps, p);
    var tags := TagsFor(ps);
    forall i: nat | i < |ps| ensures Held(p, i, tags[i], ps[i]) {
      TagHeld(header, ps, i, p, tags[i]);
    }
    AcceptedWhen(p, tags, ps);
  }

  /** Tag records that are aligned, lie after the table and do not overlap. */
  ghost predicate WellPlaced(records: seq<TagRecord>)
  {
    && (forall i :: 0 <= i < |records| ==>
          records[i].offset % 4 == 0 && records[i].offset as nat >= TableEnd(|records|))
    && forall i, j :: 0 <= i < j < |records| ==> records[i].End() <= records[j].offset
  }

  lemma WellPlacedWhen(tags: seq<TagRecord>, starts: seq<nat>)
    requires |starts| == |tags|
    requires forall i :: 0 <= i < |tags| ==> tags[i].offset as nat == TableEnd(|tags|) + starts[i] && starts[i] % 4 == 0
    requires forall i, j :: 0 <= i < j < |tags| ==> starts[i] + tags[i].size as nat <= starts[j]
    ensures WellPlaced(tags)
  {
  }

  lemma TagsAreWellPlaced(ps: seq<Payload>)
    requires Length(ps) < LIMIT32
    ensures WellPlaced(TagsFor(ps))
  {
    var tags, starts := TagsFor(ps), seq(|ps|, i requires 0 <= i < |ps| => Start(ps, i));
    forall i: nat | i < |ps| ensures Placed(ps, i, tags[i]) {
      TagIsPlaced(ps, i);
    }
    forall i, j | 0 <= i < j < |ps| ensures starts[i] + tags[i].size as nat <= starts[j] {
      BodyDisjoint(ps, i, j);
    }
    WellPlacedWhen(tags, starts);
  }

  /** The last payload is not padded, so the file's length is as far from a multiple of four as that payload's. */
  lemma LengthFollowsLast(ps: seq<Payload>)
    requires ps != []
    ensures Length(ps) % 4 == |ps[|ps| - 1].bytes| % 4
  {
    var before, last := |Body(ps[..|ps| - 1])|, |ps[|ps| - 1].bytes|;
    assert |Body(ps)| == before + Pad(before) + last;
    FoursMore(before + Pad(before), last, (before + Pad(before)) / 4);
    FoursMore(TableEnd(|ps|), |Body(ps)|, 33 + 3 * |ps|);
  }

  lemma FoursMore(a: nat, b: nat, q: nat)
    requires a == 4 * q
    ensures (a + b) % 4 == b % 4
  {
    assert a + b == 4 * (q + b / 4) + b % 4;
  }
}
