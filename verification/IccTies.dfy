/** When rebuilding a rebuilt ICC profile gives the same bytes: exactly when tags that were kept
    under one signature are the same, since the order of equal signatures is up to the sort. */
module IccTies {
  import opened Bytes
  import opened IccProfile
  import opened IccWriter
  import opened IccAlignment

  /** Rebuilding twice is rebuilding once. */
  ghost predicate Stable(base: seq<Byte>, sort: Sorter)
    requires Accepted(base)
  {
    var out := Rebuilt(base, sort);
    Accepted(out) && Rebuilt(out, sort) == out
  }

  /** However the payloads are ordered, the file stays below 2^32 bytes. */
  ghost predicate Short(base: seq<Byte>)
    requires Accepted(base)
  {
    forall ps :: multiset(ps) == multiset(NewPayloads(base)) ==> Length(ps) < LIMIT32
  }

  // ---------------------------------------------------------------- two arrangements

  /** Swapping two different payloads under one signature gives another arrangement, which keeps other payloads. */
  lemma Swapped(a: seq<Payload>, i: nat, j: nat, b: seq<Payload>)
    requires i < j < |a| && BySignature(a) && a[i].signature == a[j].signature && a[i] != a[j]
    requires !Replaced(a[i].signature) && b == a[i := a[j]][j := a[i]]
    ensures Arranged(b, a) && Kept(a) != Kept(b)
  {
    SwappedIsArranged(a, i, j, b);
    KeptDiffer(a, b, i);
  }

  lemma SwappedIsArranged(a: seq<Payload>, i: nat, j: nat, b: seq<Payload>)
    requires i < j < |a| && BySignature(a) && a[i].signature == a[j].signature && b == a[i := a[j]][j := a[i]]
    ensures Arranged(b, a)
  {
    forall k | 0 <= k < |a| ensures b[k].signature == a[k].signature {
    }
  }

  lemma PlaceOf(ps: seq<Payload>, x: Payload) returns (i: nat)
    requires x in ps
    ensures i < |ps| && ps[i] == x
  {
    i :| i < |ps| && ps[i] == x;
  }

  lemma TwoPlaces(ps: seq<Payload>, x: Payload, y: Payload) returns (i: nat, j: nat)
    requires x in ps && y in ps && x != y
    ensures i < j < |ps| && ((ps[i] == x && ps[j] == y) || (ps[i] == y && ps[j] == x))
  {
    i := PlaceOf(ps, x);
    j := PlaceOf(ps, y);
    if j < i {
      i, j := j, i;
    }
  }

  /** Two different kept payloads under one signature can be arranged in two ways. */
  lemma TwoArrangements(ps: seq<Payload>, all: seq<Payload>) returns (a: seq<Payload>, b: seq<Payload>)
    requires !TiesAgree(Kept(ps)) && all == Kept(ps) + NewTags()
    ensures Arranged(a, all) && Arranged(b, all) && Kept(a) != Kept(b)
  {
    var x, y :| x in Kept(ps) && y in Kept(ps) && x.signature == y.signature && x != y;
    KeptIsNotReplaced(ps, x);
    a := Sorted(all);
    SameElements(a, all);
    var i, j := TwoPlaces(a, x, y);
    b := a[i := a[j]][j := a[i]];
    Swapped(a, i, j, b);
  }

  /** Sequences that first differ in two kept payloads keep different payloads. */
  lemma {:induction false} KeptDiffer(a: seq<Payload>, b: seq<Payload>, i: nat)
    requires |a| == |b| && i < |a| && a[i] != b[i]
    requires forall k :: 0 <= k < |a| ==> (a[k] == b[k] || (!Replaced(a[k].signature) && !Replaced(b[k].signature)))
    ensures Kept(a) != Kept(b)
  {
    var n := |a| - 1;
    KeptSizes(a[..n], b[..n]);
    if i < n {
      KeptDiffer(a[..n], b[..n], i);
      if !Replaced(a[n].signature) {
        assert Kept(a)[..|Kept(a[..n])|] == Kept(a[..n]) && Kept(b)[..|Kept(b[..n])|] == Kept(b[..n]);
      }
    } else {
      assert Kept(a)[|Kept(a[..n])|] == a[n] && Kept(b)[|Kept(b[..n])|] == b[n];
    }
  }

  lemma {:induction false} KeptSizes(a: seq<Payload>, b: seq<Payload>)
    requires |a| == |b|
    requires forall k :: 0 <= k < |a| ==> (a[k] == b[k] || (!Replaced(a[k].signature) && !Replaced(b[k].signature)))
    ensures |Kept(a)| == |Kept(b)|
  {
    if a != [] {
      KeptSizes(a[..|a| - 1], b[..|b| - 1]);
    }
  }

  // ---------------------------------------------------------------- a sort that does not settle

  /** A sort that arranges one sequence one way, and what comes back of it another way. */
  lemma ASortThatSwaps(first: seq<Payload>, a: seq<Payload>, second: seq<Payload>, b: seq<Payload>)
    returns (sort: Sorter)
    requires first != second && Arranged(a, first) && Arranged(b, second)
    ensures Sorts(sort) && sort(first) == a && sort(second) == b
  {
    sort := ps => if ps == first then a else if ps == second then b else Sorted(ps);
    forall ps: seq<Payload> ensures Arranged(sort(ps), ps) {
      assert sort(ps) == if ps == first then a else if ps == second then b else Sorted(ps);
    }
  }

  lemma SwapIsNotStable(base: seq<Byte>, sort: Sorter, a: seq<Payload>, b: seq<Payload>)
    requires Accepted(base) && Short(base) && Arranged(a, NewPayloads(base)) && Arranged(b, NewPayloads(base)) && a != b
    requires sort(NewPayloads(base)) == a && sort(Kept(a) + NewTags()) == b
    ensures !Stable(base, sort)
  {
    var header, out := base[..HEADER_BYTES], Rebuilt(base, sort);
    BaseHeader(base);
    ProfileIsAccepted(header, a, out);
    if Stable(base, sort) {
      SecondProfile(base, out, a, b, sort);
    }
  }

  lemma SecondProfile(base: seq<Byte>, out: seq<Byte>, a: seq<Payload>, b: seq<Payload>, sort: Sorter)
    requires Accepted(base) && Short(base) && Arranged(b, NewPayloads(base))
    requires Accepted(out) && Payloads(out) == a && Be32At(out, 36) == ACSP
    requires sort(Kept(a) + NewTags()) == b && Rebuilt(out, sort) == out
    ensures a == b
  {
    BaseHeader(out);
    ProfileIsAccepted(out[..HEADER_BYTES], b, out);
  }

  // ---------------------------------------------------------------- the exact condition

  lemma TiesMakeStable(base: seq<Byte>, sort: Sorter)
    requires Accepted(base) && Short(base) && TiesAgree(Kept(Payloads(base))) && Sorts(sort)
    ensures Stable(base, sort)
  {
    assert Arranged(sort(NewPayloads(base)), NewPayloads(base));
    RebuildIsIdempotent(base, sort, Rebuilt(base, sort));
  }

  lemma TiesBreakStable(base: seq<Byte>) returns (sort: Sorter)
    requires Accepted(base) && Short(base) && !TiesAgree(Kept(Payloads(base)))
    ensures Sorts(sort) && !Stable(base, sort)
  {
    var kept := Kept(Payloads(base));
    var a, b := TwoArrangements(Payloads(base), NewPayloads(base));
    if Kept(a) == kept {
      a, b := b, a;
    }
    SamePayloads(base, a);
    assert kept + NewTags() != Kept(a) + NewTags() by {
      Prefixes(kept, Kept(a), NewTags());
    }
    assert Arranged(b, Kept(a) + NewTags());
    sort := ASortThatSwaps(NewPayloads(base), a, Kept(a) + NewTags(), b);
    SwapIsNotStable(base, sort, a, b);
  }

  lemma Prefixes(p: seq<Payload>, q: seq<Payload>, tail: seq<Payload>)
    requires p != q
    ensures p + tail != q + tail
  {
    assert p == (p + tail)[..|p|] && q == (q + tail)[..|q|];
  }

  /** Every sort makes rebuilding stable if and only if tags kept under one signature are the same. */
  lemma RebuildIsStableExactly(base: seq<Byte>)
    requires Accepted(base) && Short(base)
    ensures (forall sort: Sorter :: Sorts(sort) ==> Stable(base, sort)) <==> TiesAgree(Kept(Payloads(base)))
  {
    if TiesAgree(Kept(Payloads(base))) {
      forall sort: Sorter | Sorts(sort) ensures Stable(base, sort) {
        TiesMakeStable(base, sort);
      }
    } else {
      var sort := TiesBreakStable(base);
    }
  }

  // ---------------------------------------------------------------- a base that fails it

  lemma {:induction false} BodyBelow(ps: seq<Payload>)
    requires forall i :: 0 <= i < |ps| ==> |ps[i].bytes| <= 20
    ensures |Body(ps)| <= 23 * |ps|
  {
    if ps != [] {
      BodyBelow(ps[..|ps| - 1]);
    }
  }

  lemma FewSmallTagsAreShort(base: seq<Byte>)
    requires Accepted(base) && |NewPayloads(base)| < 1000
    requires forall x :: x in NewPayloads(base) ==> |x.bytes| <= 20
    ensures Short(base)
  {
    forall ps | multiset(ps) == multiset(NewPayloads(base)) ensures Length(ps) < LIMIT32 {
      SameSize(ps, NewPayloads(base));
      SameElements(ps, NewPayloads(base));
      BodyBelow(ps);
    }
  }

  lemma TwoKept(x: Payload, y: Payload)
    requires !Replaced(x.signature) && !Replaced(y.signature)
    ensures Kept([x, y]) == [x, y]
  {
    var two := [x, y];
    KeptSnoc(two, 0);
    KeptSnoc(two, 1);
    assert two[..0] == [] && two[..2] == two && [] + [x] + [y] == two;
  }

  lemma TwoTagBase(header: seq<Byte>, x: Payload, y: Payload, base: seq<Byte>)
    requires |header| == HEADER_BYTES && Be32At(header, 36) == ACSP && |x.bytes| <= 20 && |y.bytes| <= 20
    requires base == Profile(header, [x, y])
    ensures Accepted(base) && Payloads(base) == [x, y]
  {
    BodyBelow([x, y]);
    ProfileIsAccepted(header, [x, y], base);
  }

  lemma TiedBase(base: seq<Byte>, x: Payload, y: Payload)
    requires Accepted(base) && Payloads(base) == [x, y] && |x.bytes| <= 20 && |y.bytes| <= 20
    requires !Replaced(x.signature) && x.signature == y.signature && x != y
    ensures Short(base) && !TiesAgree(Kept(Payloads(base)))
  {
    TwoKept(x, y);
    assert NewPayloads(base) == [x, y] + NewTags();
    assert [x, y][0] == x && [x, y][1] == y;
    FewSmallTagsAreShort(base);
  }

  /** Any two small tags under one signature make a base, and a sort, under which rebuilding twice differs. */
  lemma TwoTagsAreUnstable(header: seq<Byte>, x: Payload, y: Payload) returns (base: seq<Byte>, sort: Sorter)
    requires |header| == HEADER_BYTES && Be32At(header, 36) == ACSP && |x.bytes| <= 20 && |y.bytes| <= 20
    requires !Replaced(x.signature) && x.signature == y.signature && x != y
    ensures Accepted(base) && Short(base) && Payloads(base) == [x, y] && Sorts(sort) && !Stable(base, sort)
  {
    base := Profile(header, [x, y]);
    TwoTagBase(header, x, y, base);
    TiedBase(base, x, y);
    sort := TiesBreakStable(base);
  }

  lemma TwoSmallTags() returns (x: Payload, y: Payload)
    ensures |x.bytes| <= 20 && |y.bytes| <= 20 && !Replaced(x.signature) && x.signature == y.signature && x != y
  {
    x, y := Payload(RTRC, [0]), Payload(RTRC, [1]);
    assert x.bytes[0] != y.bytes[0];
  }

  /** There is such a base. */
  lemma UnstableBase() returns (base: seq<Byte>, sort: Sorter)
    ensures Accepted(base) && Short(base) && Sorts(sort) && !Stable(base, sort)
  {
    var header := HeaderWith(ACSP);
    var x, y := TwoSmallTags();
    base, sort := TwoTagsAreUnstable(header, x, y);
  }
}
