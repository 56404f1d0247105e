/** When the length of a rebuilt profile is a multiple of four: the last payload of the file
    is not padded, and which payload is last depends on the sort only among equal signatures. */
module IccAlignment {
  import opened Bytes
  import opened IccProfile
  import opened IccWriter

  // ---------------------------------------------------------------- the last payload

  /** A payload with the largest signature. */
  ghost predicate Topmost(ps: seq<Payload>, x: Payload)
  {
    x in ps && forall y :: y in ps ==> y.signature <= x.signature
  }

  /** The length of every kept payload that a sort may put last is a multiple of four. */
  ghost predicate EndsAligned(base: seq<Byte>)
    requires Accepted(base)
  {
    var kept := Kept(Payloads(base));
    forall x :: Topmost(kept, x) && x.signature > CICP ==> |x.bytes| % 4 == 0
  }

  lemma LastIsTopmost(sorted: seq<Payload>, ps: seq<Payload>)
    requires Arranged(sorted, ps) && ps != []
    ensures sorted != [] && Topmost(ps, sorted[|sorted| - 1])
  {
    SameSize(sorted, ps);
    var last := sorted[|sorted| - 1];
    assert last in multiset(sorted);
    forall y | y in ps ensures y.signature <= last.signature {
      assert y in multiset(ps);
      var i :| 0 <= i < |sorted| && sorted[i] == y;
    }
  }

  /** The rebuilt length is as far from a multiple of four as the last payload's. */
  lemma RebuiltEnds(base: seq<Byte>, sort: Sorter, last: Payload)
    requires Accepted(base) && Sorts(sort)
    requires var ps := sort(NewPayloads(base)); ps != [] && last == ps[|ps| - 1]
    ensures Topmost(NewPayloads(base), last)
    ensures |Rebuilt(base, sort)| % 4 == |last.bytes| % 4
  {
    assert Arranged(sort(NewPayloads(base)), NewPayloads(base));
    LastIsTopmost(sort(NewPayloads(base)), NewPayloads(base));
    LengthFollowsLast(sort(NewPayloads(base)));
  }

  lemma SortedIsNotEmpty(base: seq<Byte>, sort: Sorter)
    requires Accepted(base) && Sorts(sort)
    ensures sort(NewPayloads(base)) != []
  {
    assert Arranged(sort(NewPayloads(base)), NewPayloads(base));
    SameSize(sort(NewPayloads(base)), NewPayloads(base));
  }

  /** A topmost payload is one of the new tags, or a kept one beyond them. */
  lemma TopmostOfNew(base: seq<Byte>, x: Payload)
    requires Accepted(base)
    ensures Topmost(NewPayloads(base), x) && !(x in NewTags()) ==>
            Topmost(Kept(Payloads(base)), x) && x.signature > CICP
    ensures Topmost(Kept(Payloads(base)), x) && x.signature > CICP ==> Topmost(NewPayloads(base), x)
  {
    var kept := Kept(Payloads(base));
    assert NewPayloads(base) == kept + NewTags() && NewTags()[0] in NewPayloads(base);
    if x in kept {
      KeptIsNotReplaced(Payloads(base), x);
    }
  }

  /** Whatever the sort, a base whose ends are aligned gives a length that is a multiple of four. */
  lemma AlignedLength(base: seq<Byte>, sort: Sorter)
    requires Accepted(base) && Sorts(sort) && EndsAligned(base)
    ensures |Rebuilt(base, sort)| % 4 == 0
  {
    SortedIsNotEmpty(base, sort);
    var ps := sort(NewPayloads(base));
    var last := ps[|ps| - 1];
    RebuiltEnds(base, sort, last);
    TopmostOfNew(base, last);
    if last in NewTags() {
      NewTagsAreAligned(last);
    }
  }

  lemma NewTagsAreAligned(x: Payload)
    requires x in NewTags()
    ensures |x.bytes| % 4 == 0
  {
  }

  // ---------------------------------------------------------------- a sort with a chosen last payload

  /** Put a payload after the last one whose signature is not larger. */
  ghost function Insert(ps: seq<Payload>, x: Payload): (r: seq<Payload>)
    requires BySignature(ps)
    ensures Arranged(r, ps + [x])
  {
    if ps == [] || ps[|ps| - 1].signature <= x.signature then ps + [x]
    else
      var front, last := ps[..|ps| - 1], ps[|ps| - 1];
      assert ps == front + [last];
      var r := Insert(front, x) + [last];
      InsertKeepsOrder(front, x, Insert(front, x), last);
      r
  }

  lemma InsertKeepsOrder(front: seq<Payload>, x: Payload, r: seq<Payload>, last: Payload)
    requires Arranged(r, front + [x]) && BySignature(front + [last]) && x.signature < last.signature
    ensures Arranged(r + [last], front + [last] + [x])
  {
    forall i | 0 <= i < |r| ensures r[i].signature <= last.signature {
      assert r[i] in multiset(front + [x]);
      var k :| 0 <= k < |front + [x]| && (front + [x])[k] == r[i];
      assert k < |front| ==> (front + [last])[k] == front[k] && (front + [last])[|front|] == last;
    }
    assert multiset(r + [last]) == multiset(front + [x]) + multiset{last};
  }

  ghost function Sorted(ps: seq<Payload>): (r: seq<Payload>)
    ensures Arranged(r, ps)
  {
    if ps == [] then []
    else
      assert ps == ps[..|ps| - 1] + [ps[|ps| - 1]];
      Insert(Sorted(ps[..|ps| - 1]), ps[|ps| - 1])
  }

  /** Sorted, with a chosen payload last where it is topmost. */
  ghost function SortedWithLast(ps: seq<Payload>, x: Payload): (r: seq<Payload>)
    ensures Arranged(r, ps)
    ensures Topmost(ps, x) ==> r != [] && r[|r| - 1] == x
  {
    if !Topmost(ps, x) then Sorted(ps)
    else
      var i :| 0 <= i < |ps| && ps[i] == x;
      var rest := ps[..i] + ps[i + 1..];
      LastFits(ps, i, rest, Sorted(rest));
      Sorted(rest) + [x]
  }

  lemma LastFits(ps: seq<Payload>, i: nat, rest: seq<Payload>, sorted: seq<Payload>)
    requires i < |ps| && rest == ps[..i] + ps[i + 1..] && Topmost(ps, ps[i]) && Arranged(sorted, rest)
    ensures Arranged(sorted + [ps[i]], ps)
  {
    assert ps == ps[..i] + [ps[i]] + ps[i + 1..];
    forall k | 0 <= k < |sorted| ensures sorted[k].signature <= ps[i].signature {
      assert sorted[k] in multiset(rest);
      assert sorted[k] in rest && sorted[k] in ps;
    }
  }

  lemma ASortPutsLast(x: Payload) returns (sort: Sorter)
    ensures Sorts(sort) && forall ps :: Topmost(ps, x) ==> sort(ps) != [] && sort(ps)[|sort(ps)| - 1] == x
  {
    sort := ps => SortedWithLast(ps, x);
    forall ps: seq<Payload> ensures Arranged(sort(ps), ps) {
      assert sort(ps) == SortedWithLast(ps, x);
    }
  }

  // ---------------------------------------------------------------- the exact condition

  /** Every sort makes the rebuilt length a multiple of four if and only if the ends are aligned. */
  lemma LengthIsAlignedExactly(base: seq<Byte>)
    requires Accepted(base)
    ensures (forall sort: Sorter :: Sorts(sort) ==> |Rebuilt(base, sort)| % 4 == 0) <==> EndsAligned(base)
  {
    if EndsAligned(base) {
      forall sort: Sorter | Sorts(sort) ensures |Rebuilt(base, sort)| % 4 == 0 {
        AlignedLength(base, sort);
      }
    } else {
      var x :| Topmost(Kept(Payloads(base)), x) && x.signature > CICP && |x.bytes| % 4 != 0;
      TopmostOfNew(base, x);
      var sort := ASortPutsLast(x);
      RebuiltEnds(base, sort, x);
    }
  }

  const RTRC: U32 := 0x7254_5243

  /** A base with a single tag beyond the new ones: every sort puts that tag last. */
  lemma OnlyTagIsLast(base: seq<Byte>, only: Payload, sort: Sorter)
    requires Accepted(base) && Payloads(base) == [only] && only.signature > CICP && Sorts(sort)
    ensures |Rebuilt(base, sort)| % 4 == |only.bytes| % 4
  {
    SortedIsNotEmpty(base, sort);
    var ps := sort(NewPayloads(base));
    RebuiltEnds(base, sort, ps[|ps| - 1]);
    assert Kept([only]) == [only] by {
      assert [only][..0] == [];
    }
    assert only in NewPayloads(base);
  }

  lemma OneTagBase(header: seq<Byte>, only: Payload, base: seq<Byte>)
    requires |header| == HEADER_BYTES && Be32At(header, 36) == ACSP && |only.bytes| < 1000 &&
      base == Profile(header, [only])
    ensures Accepted(base) && Payloads(base) == [only]
  {
    assert Body([only]) == only.bytes by {
      assert [only][..0] == [] && Body([]) == [];
    }
    ProfileIsAccepted(header, [only], base);
  }

  lemma HeaderWith(signature: U32) returns (header: seq<Byte>)
    ensures |header| == HEADER_BYTES && Be32At(header, 36) == signature
  {
    header := Zeros(36) + Be32(signature) + Zeros(88);
    Be32Inside(Zeros(36), signature, Zeros(88));
  }

  /** An accepted base with one tag of one byte, whose rebuilt length no sort makes a multiple of four. */
  lemma UnalignedBase() returns (base: seq<Byte>)
    ensures Accepted(base) && forall sort: Sorter :: Sorts(sort) ==> |Rebuilt(base, sort)| % 4 == 1
  {
    var header := HeaderWith(ACSP);
    var only := Payload(RTRC, [0]);
    base := Profile(header, [only]);
    OneTagBase(header, only, base);
    forall sort: Sorter | Sorts(sort) ensures |Rebuilt(base, sort)| % 4 == 1 {
      OnlyTagIsLast(base, only, sort);
    }
  }
}
