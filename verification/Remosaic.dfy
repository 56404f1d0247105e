/** Turning a Quad Bayer mosaic into a Bayer one: every pixel becomes the weighted average
    of the samples of its new colour in a 5x5 window, in 32-bit arithmetic. */
module Remosaic {
  import opened Bytes

  type Sample = x: int | 0 <= x < 65536

  /** An image whose first column and row have any coordinates. */
  datatype Image = Image(minX: int, minY: int, rows: seq<seq<Sample>>)

  ghost predicate Shaped(image: Image, width: nat, height: nat)
  {
    width > 0 && height > 0 && |image.rows| == height && forall i :: 0 <= i < height ==> |image.rows[i]| == width
  }

  function Clamp(v: int, lo: int, hi: int): int
  {
    if v < lo then lo else if v > hi then hi else v
  }

  /** The sample at a position, or at the nearest edge. */
  function At(image: Image, width: nat, height: nat, x: int, y: int): Sample
    requires Shaped(image, width, height)
  {
    var column, row := Clamp(x, image.minX, image.minX + width - 1), Clamp(y, image.minY, image.minY + height - 1);
    image.rows[row - image.minY][column - image.minX]
  }

  // ---------------------------------------------------------------- colours

  /** Whether a coordinate is in the first half of its group of four. */
  predicate Low(v: int) { v % 4 < 2 }

  /** The colour of a Quad Bayer position: groups of two by two. */
  function QuadColor(x: int, y: int): nat
  {
    if Low(y) && Low(x) then 0 else if !Low(y) && !Low(x) then 2 else 1
  }

  /** The colour of a Bayer position. */
  function BayerColor(x: int, y: int): nat
  {
    if y % 2 == 0 && x % 2 == 0 then 0 else if y % 2 != 0 && x % 2 != 0 then 2 else 1
  }

  // ---------------------------------------------------------------- the taps

  function Abs(v: int): nat { if v < 0 then -v else v }

  function Times(a: nat, b: nat): nat { a * b }

  /** The column and row a tap reads, kept inside the image. */
  function TapX(image: Image, width: nat, x: int, k: nat): int
    requires width > 0
  {
    Clamp(x + k % 5 - 2, image.minX, image.minX + width - 1)
  }

  function TapY(image: Image, height: nat, y: int, k: nat): int
    requires height > 0
  {
    Clamp(y + k / 5 - 2, image.minY, image.minY + height - 1)
  }

  function Penalty(image: Image, width: nat, height: nat, sx: int, sy: int, distance: nat): nat
    requires Shaped(image, width, height)
  {
    64 + Abs(At(image, width, height, sx - 1, sy) as int - At(image, width, height, sx + 1, sy) as int)
    + Abs(At(image, width, height, sx, sy - 1) as int - At(image, width, height, sx, sy + 1) as int) + distance * 16
  }

  /** A tap's weight: none for another colour, and at least one for the pixel's own. */
  function Weight(image: Image, width: nat, height: nat, x: int, y: int, k: nat): (w: nat)
    requires Shaped(image, width, height) && k < 25
    ensures w <= 1024 && (w > 0 <==> QuadColor(TapX(image, width, x, k), TapY(image, height, y, k)) == BayerColor(x, y))
  {
    var sx, sy := TapX(image, width, x, k), TapY(image, height, y, k);
    var penalty := Penalty(image, width, height, sx, sy, Abs(k % 5 - 2) + Abs(k / 5 - 2));
    if QuadColor(sx, sy) != BayerColor(x, y) then 0
    else if 65536 / penalty < 1 then 1 else 65536 / penalty
  }

  function Value(image: Image, width: nat, height: nat, x: int, y: int, k: nat): Sample
    requires Shaped(image, width, height)
  {
    At(image, width, height, TapX(image, width, x, k), TapY(image, height, y, k))
  }

  /** A weight is 65536 over a penalty, rounded down but never to nothing. The penalty is 64 and grows by the contrast
      between the samples beside the tap and between those above and below it, and by 16 for every column and row
      between the tap and the pixel. */
  lemma WeightFavoursFlatAndNear(image: Image, width: nat, height: nat, x: int, y: int, k: nat)
    requires Shaped(image, width, height) && k < 25
    requires QuadColor(TapX(image, width, x, k), TapY(image, height, y, k)) == BayerColor(x, y)
    ensures var sx, sy := TapX(image, width, x, k), TapY(image, height, y, k);
      var left, right := At(image, width, height, sx - 1, sy) as int, At(image, width, height, sx + 1, sy) as int;
      var above, below := At(image, width, height, sx, sy - 1) as int, At(image, width, height, sx, sy + 1) as int;
      var penalty := 64 + Abs(right - left) + Abs(below - above) + 16 * Abs(k % 5 - 2) + 16 * Abs(k / 5 - 2);
      var w := Weight(image, width, height, x, y, k);
      w >= 1 && (w == 1 || Times(w, penalty) <= 65536) && 65536 < Times(w + 1, penalty)
  {
    var sx, sy := TapX(image, width, x, k), TapY(image, height, y, k);
    var near := Abs(k % 5 - 2) + Abs(k / 5 - 2);
    PenaltyIs(image, width, height, sx, sy, Abs(k % 5 - 2), Abs(k / 5 - 2));
    Quotient(Penalty(image, width, height, sx, sy, near));
  }

  lemma PenaltyIs(image: Image, width: nat, height: nat, sx: int, sy: int, columns: nat, rows: nat)
    requires Shaped(image, width, height)
    ensures Penalty(image, width, height, sx, sy, columns + rows) ==
            64 + Abs(At(image, width, height, sx + 1, sy) as int - At(image, width, height, sx - 1, sy) as int) +
            Abs(At(image, width, height, sx, sy + 1) as int - At(image, width, height, sx, sy - 1) as int) +
            16 * columns + 16 * rows
  {
  }

  lemma Quotient(p: nat)
    requires p > 0
    ensures Times(65536 / p, p) <= 65536 < Times(65536 / p + 1, p)
    ensures 65536 / p < 1 ==> 65536 < Times(2, p)
  {
    var q, r := 65536 / p, 65536 % p;
    assert q * p + r == 65536;
    assert (q + 1) * p == q * p + p;
  }

  /** One tap: a weight and the sample it weighs. */
  datatype Tap = Tap(weight: nat, value: nat)

  function TapAt(image: Image, width: nat, height: nat, x: int, y: int, k: nat): (t: Tap)
    requires Shaped(image, width, height) && k < 25
    ensures t.weight <= 1024 && t.value < 65536
  {
    Tap(Weight(image, width, height, x, y, k), Value(image, width, height, x, y, k))
  }

  /** All taps of a pixel, row by row. */
  ghost function Taps(image: Image, width: nat, height: nat, x: int, y: int): (taps: seq<Tap>)
    requires Shaped(image, width, height)
    ensures |taps| == 25 && Bounded(taps)
  {
    seq(25, k requires 0 <= k < 25 => TapAt(image, width, height, x, y, k))
  }

  ghost predicate Bounded(taps: seq<Tap>)
  {
    forall i :: 0 <= i < |taps| ==> taps[i].weight <= 1024 && taps[i].value < 65536
  }

  // ---------------------------------------------------------------- sums over taps

  /** The sums, in unbounded arithmetic. */
  ghost function Weights(taps: seq<Tap>): (sum: nat)
  {
    if taps == [] then 0 else Weights(taps[..|taps| - 1]) + taps[|taps| - 1].weight
  }

  ghost function Weighted(taps: seq<Tap>): (sum: nat)
  {
    if taps == [] then 0 else Weighted(taps[..|taps| - 1]) + Times(taps[|taps| - 1].weight, taps[|taps| - 1].value)
  }

  lemma Scale(w: nat, lo: int, v: int, hi: int)
    requires lo <= v <= hi
    ensures w * lo <= w * v <= w * hi
  {
    assert w * (v - lo) >= 0 && w * (hi - v) >= 0;
  }

  lemma Distribute(a: nat, b: nat, c: int)
    ensures (a + b) * c == a * c + b * c
  {
  }

  /** Every sample that has a weight lies in a range. */
  ghost predicate SamplesWithin(taps: seq<Tap>, lo: int, hi: int)
  {
    forall i :: 0 <= i < |taps| && taps[i].weight > 0 ==> lo <= taps[i].value <= hi
  }

  lemma {:induction false} SumsWithin(taps: seq<Tap>, lo: int, hi: int)
    requires SamplesWithin(taps, lo, hi)
    ensures Weights(taps) * lo <= Weighted(taps) <= Weights(taps) * hi
  {
    if taps != [] {
      var front, t := taps[..|taps| - 1], taps[|taps| - 1];
      SumsWithin(front, lo, hi);
      if t.weight > 0 {
        Scale(t.weight, lo, t.value, hi);
      }
      Distribute(Weights(front), t.weight, lo);
      Distribute(Weights(front), t.weight, hi);
    }
  }

  lemma {:induction false} WeightsFit(taps: seq<Tap>)
    requires Bounded(taps)
    ensures Weights(taps) <= 1024 * |taps|
  {
    if taps != [] {
      WeightsFit(taps[..|taps| - 1]);
    }
  }

  /** Neither sum of up to 25 taps, nor the rounding term added to it, reaches 2^32. */
  lemma SumsFit(taps: seq<Tap>)
    requires Bounded(taps) && |taps| <= 25
    ensures Weights(taps) <= 25600 && Weighted(taps) + 25600 < LIMIT32
  {
    WeightsFit(taps);
    SumsWithin(taps, 0, 65535);
    Scale(65535, 0, Weights(taps), 25600);
  }

  lemma Prefixes(taps: seq<Tap>, k: nat)
    requires k < |taps|
    ensures Weights(taps[..k + 1]) == Weights(taps[..k]) + taps[k].weight
    ensures Weighted(taps[..k + 1]) == Weighted(taps[..k]) + Times(taps[k].weight, taps[k].value)
  {
    assert taps[..k + 1][..k] == taps[..k];
  }

  // ---------------------------------------------------------------- the average

  /** One turn of the loop, in wrapping 32-bit arithmetic; nothing wraps. */
  method AddTap(weightedSum: U32, weightSum: U32, t: Tap, ghost taps: seq<Tap>, ghost k: nat)
    returns (weighted: U32, weights: U32)
    requires Bounded(taps) && k < |taps| <= 25 && t == taps[k]
    requires weightedSum == Weighted(taps[..k]) && weightSum == Weights(taps[..k])
    ensures weighted == Weighted(taps[..k + 1]) && weights == Weights(taps[..k + 1])
  {
    Prefixes(taps, k);
    SumsFit(taps[..k + 1]);
    weighted := Cut32(weightedSum as nat + Cut32(Times(t.weight, t.value)) as nat);
    weights := Cut32(weightSum as nat + t.weight);
  }

  /** The loops over the window. */
  method Average(image: Image, width: nat, height: nat, x: int, y: int) returns (out: Sample)
    requires Shaped(image, width, height)
    ensures out == AverageOf(Taps(image, width, height, x, y))
  {
    ghost var taps := Taps(image, width, height, x, y);
    var weightedSum: U32, weightSum: U32 := 0, 0;
    for dy := 0 to 5
      invariant weightSum == Weights(taps[..5 * dy]) && weightedSum == Weighted(taps[..5 * dy])
    {
      for dx := 0 to 5
        invariant weightSum == Weights(taps[..5 * dy + dx]) && weightedSum == Weighted(taps[..5 * dy + dx])
      {
        var tap := TapAt(image, width, height, x, y, 5 * dy + dx);
        weightedSum, weightSum := AddTap(weightedSum, weightSum, tap, taps, 5 * dy + dx);
      }
    }
    assert taps[..25] == taps;
    out := Divide(weightedSum, weightSum, taps);
  }

  method Divide(weightedSum: U32, weightSum: U32, ghost taps: seq<Tap>) returns (out: Sample)
    requires Bounded(taps) && |taps| == 25 && weightedSum == Weighted(taps) && weightSum == Weights(taps)
    ensures out == AverageOf(taps)
  {
    if weightSum == 0 {
      return 0;
    }
    SumsFit(taps);
    AverageWithin(taps, 0, 65535);
    out := Cut32(weightedSum as nat + weightSum as nat / 2) / weightSum;
  }

  /** The rounded weighted mean, or zero without any weight. */
  ghost function AverageOf(taps: seq<Tap>): nat
  {
    var w := Weights(taps);
    if w == 0 then 0 else (Weighted(taps) + w / 2) / w
  }

  /** The rounded quotient, whatever the numbers: between the bounds, and the nearest integer. */
  lemma Rounded(sum: nat, w: nat, lo: int, hi: int)
    requires w > 0 && w * lo <= sum <= w * hi
    ensures lo <= (sum + w / 2) / w <= hi
    ensures 2 * sum - w < 2 * (w * ((sum + w / 2) / w)) <= 2 * sum + w
  {
    var q, r := (sum + w / 2) / w, (sum + w / 2) % w;
    assert w * q + r == sum + w / 2;
    assert q + 1 <= lo ==> w * (q + 1) <= w * lo by {
      if q + 1 <= lo {
        Scale(w, q + 1, lo, lo);
      }
    }
    assert hi + 1 <= q ==> w * (hi + 1) <= w * q by {
      if hi + 1 <= q {
        Scale(w, hi + 1, q, q);
      }
    }
    assert w * (q + 1) == w * q + w && w * (hi + 1) == w * hi + w;
  }

  /** The average lies between the smallest and the largest sample of its colour in the
      window, and is the integer nearest to the weighted mean. */
  lemma AverageWithin(taps: seq<Tap>, lo: int, hi: int)
    requires SamplesWithin(taps, lo, hi) && Weights(taps) > 0
    ensures lo <= AverageOf(taps) <= hi
    ensures var w, sum := Weights(taps), Weighted(taps); 2 * sum - w < 2 * (w * AverageOf(taps)) <= 2 * sum + w
  {
    SumsWithin(taps, lo, hi);
    Rounded(Weighted(taps), Weights(taps), lo, hi);
  }

  // ---------------------------------------------------------------- where a sample is found

  lemma {:induction false} OneTapIsEnough(taps: seq<Tap>, k: nat)
    requires k < |taps| && taps[k].weight > 0
    ensures Weights(taps) > 0
  {
    if k < |taps| - 1 {
      OneTapIsEnough(taps[..|taps| - 1], k);
    }
  }

  lemma {:induction false} NoTapIsNothing(taps: seq<Tap>)
    requires forall k :: 0 <= k < |taps| ==> taps[k].weight == 0
    ensures Weights(taps) == 0
  {
    if taps != [] {
      NoTapIsNothing(taps[..|taps| - 1]);
    }
  }

  /** Some of the five offsets from v, kept on the axis, reaches the wanted half. */
  ghost predicate Sees(min: int, size: nat, v: int, low: bool)
    requires size > 0
  {
    exists d: nat :: d < 5 && Low(Offset(min, size, v, d)) == low
  }

  function Offset(min: int, size: nat, v: int, d: nat): int
    requires size > 0
  {
    Clamp(v + d - 2, min, min + size - 1)
  }

  /** An axis with both halves on it. */
  predicate TwoSided(min: int, size: nat) { size >= 3 || (size == 2 && min % 2 == 1) }

  lemma Halves(v: int)
    ensures Low(v + 2) != Low(v) && (Low(v + 1) == Low(v) <==> v % 2 == 0)
  {
    var q, r := v / 4, v % 4;
    Residue(v, q, r);
    Residue(v + 1, if r < 3 then q else q + 1, if r < 3 then r + 1 else 0);
    Residue(v + 2, if r < 2 then q else q + 1, if r < 2 then r + 2 else r - 2);
  }

  lemma Residue(v: int, q: int, r: int)
    requires v == 4 * q + r && 0 <= r < 4
    ensures v % 4 == r && (v % 2 == 0 <==> r == 0 || r == 2)
  {
    Remainder4(v, q, r);
    Remainder2(v, if r < 2 then 2 * q else 2 * q + 1, if r < 2 then r else r - 2);
  }

  lemma Remainder4(v: int, q: int, r: int)
    requires v == 4 * q + r && 0 <= r < 4
    ensures v % 4 == r
  {
  }

  lemma Remainder2(v: int, q: int, r: int)
    requires v == 2 * q + r && 0 <= r < 2
    ensures v % 2 == r
  {
  }

  /** Every position sees both halves of a two-sided axis, and only the half it is in otherwise. */
  lemma SeesExactly(min: int, size: nat, v: int, low: bool)
    requires size > 0 && min <= v < min + size
    ensures Sees(min, size, v, low) <==> TwoSided(min, size) || Low(min) == low
  {
    if size >= 3 {
      SeesBoth(min, size, v, low);
    } else {
      SeesEnds(min, size, v, low);
      Halves(min);
    }
  }

  /** On one or two positions every offset reaches an end, and each end is reached. */
  lemma SeesEnds(min: int, size: nat, v: int, low: bool)
    requires 0 < size < 3 && min <= v < min + size
    ensures Sees(min, size, v, low) <==> Low(min) == low || Low(min + size - 1) == low
  {
    assert Offset(min, size, v, 0) == min && Offset(min, size, v, 4) == min + size - 1;
    if Sees(min, size, v, low) {
      var d: nat :| d < 5 && Low(Offset(min, size, v, d)) == low;
      assert Offset(min, size, v, d) == min || Offset(min, size, v, d) == min + size - 1;
    }
  }

  /** Two steps away is the other half: from the position, or across the middle of three. */
  lemma SeesBoth(min: int, size: nat, v: int, low: bool)
    requires size >= 3 && min <= v < min + size
    ensures Sees(min, size, v, low)
  {
    var d: nat := if v - 2 >= min then 0 else if v + 2 < min + size then 2 else 1;
    var e: nat := d + 2;
    Halves(Offset(min, size, v, d));
    assert Offset(min, size, v, e) == Offset(min, size, v, d) + 2;
    assert Low(Offset(min, size, v, d)) == low || Low(Offset(min, size, v, e)) == low;
  }

  /** A pixel finds a sample of its colour. */
  ghost predicate Finds(image: Image, width: nat, height: nat, x: int, y: int)
    requires Shaped(image, width, height)
  {
    Weights(Taps(image, width, height, x, y)) > 0
  }

  /** The halves a pixel of a colour needs to see: both first halves, both second ones, or one of each. */
  ghost predicate SeesColor(image: Image, width: nat, height: nat, x: int, y: int)
    requires width > 0 && height > 0
  {
    match BayerColor(x, y)
    case 0 => Sees(image.minX, width, x, true) && Sees(image.minY, height, y, true)
    case 2 => Sees(image.minX, width, x, false) && Sees(image.minY, height, y, false)
    case _ =>
      || (Sees(image.minX, width, x, true) && Sees(image.minY, height, y, false))
      || (Sees(image.minX, width, x, false) && Sees(image.minY, height, y, true))
  }

  /** The tap at an offset along each axis reads the position at those offsets. */
  lemma TapReads(image: Image, width: nat, height: nat, x: int, y: int, dx: nat, dy: nat)
    requires Shaped(image, width, height) && dx < 5 && dy < 5
    ensures var k := 5 * dy + dx;
      && TapX(image, width, x, k) == Offset(image.minX, width, x, dx)
      && TapY(image, height, y, k) == Offset(image.minY, height, y, dy)
  {
    assert (5 * dy + dx) % 5 == dx && (5 * dy + dx) / 5 == dy;
  }

  lemma FoundByHalves(image: Image, width: nat, height: nat, x: int, y: int, lowX: bool, lowY: bool)
    requires Shaped(image, width, height) && Sees(image.minX, width, x, lowX) && Sees(image.minY, height, y, lowY)
    requires BayerColor(x, y) == if lowX && lowY then 0 else if !lowX && !lowY then 2 else 1
    ensures Finds(image, width, height, x, y)
  {
    var dx: nat :| dx < 5 && Low(Offset(image.minX, width, x, dx)) == lowX;
    var dy: nat :| dy < 5 && Low(Offset(image.minY, height, y, dy)) == lowY;
    TapReads(image, width, height, x, y, dx, dy);
    OneTapIsEnough(Taps(image, width, height, x, y), 5 * dy + dx);
  }

  lemma SeenAt(image: Image, width: nat, height: nat, x: int, y: int, dx: nat, dy: nat)
    requires width > 0 && height > 0 && dx < 5 && dy < 5
    requires QuadColor(Offset(image.minX, width, x, dx), Offset(image.minY, height, y, dy)) == BayerColor(x, y)
    ensures SeesColor(image, width, height, x, y)
  {
    assert Sees(image.minX, width, x, Low(Offset(image.minX, width, x, dx)));
    assert Sees(image.minY, height, y, Low(Offset(image.minY, height, y, dy)));
  }

  lemma SeenByTap(image: Image, width: nat, height: nat, x: int, y: int, k: nat)
    requires Shaped(image, width, height) && k < 25 && Weight(image, width, height, x, y, k) > 0
    ensures SeesColor(image, width, height, x, y)
  {
    var dx, dy := k % 5, k / 5;
    assert 5 * dy + dx == k;
    TapReads(image, width, height, x, y, dx, dy);
    SeenAt(image, width, height, x, y, dx, dy);
  }

  lemma SomeTap(taps: seq<Tap>) returns (k: nat)
    requires Weights(taps) > 0
    ensures k < |taps| && taps[k].weight > 0
  {
    if forall i :: 0 <= i < |taps| ==> taps[i].weight == 0 {
      NoTapIsNothing(taps);
    }
    k :| k < |taps| && taps[k].weight > 0;
  }

  lemma SeenIfFound(image: Image, width: nat, height: nat, x: int, y: int)
    requires Shaped(image, width, height) && Finds(image, width, height, x, y)
    ensures SeesColor(image, width, height, x, y)
  {
    var k := SomeTap(Taps(image, width, height, x, y));
    SeenByTap(image, width, height, x, y, k);
  }

  lemma FindsExactly(image: Image, width: nat, height: nat, x: int, y: int)
    requires Shaped(image, width, height)
    ensures Finds(image, width, height, x, y) <==> SeesColor(image, width, height, x, y)
  {
    if Finds(image, width, height, x, y) {
      SeenIfFound(image, width, height, x, y);
    }
    if SeesColor(image, width, height, x, y) {
      if BayerColor(x, y) == 0 {
        FoundByHalves(image, width, height, x, y, true, true);
      } else if BayerColor(x, y) == 2 {
        FoundByHalves(image, width, height, x, y, false, false);
      } else {
        var lowX := Sees(image.minX, width, x, true) && Sees(image.minY, height, y, false);
        FoundByHalves(image, width, height, x, y, lowX, !lowX);
      }
    }
  }

  predicate InImage(image: Image, width: nat, height: nat, x: int, y: int)
  {
    image.minX <= x < image.minX + width && image.minY <= y < image.minY + height
  }

  /** A single row or column whose parity goes with its half. */
  predicate InStep(min: int, size: nat) { size == 1 && (Low(min) <==> min % 2 == 0) }

  /** The images on which every pixel finds its colour, by their place and size alone. */
  predicate Complete(minX: int, minY: int, width: nat, height: nat)
  {
    || (TwoSided(minX, width) && TwoSided(minY, height))
    || (TwoSided(minX, width) && InStep(minY, height))
    || (InStep(minX, width) && TwoSided(minY, height))
    || (width == 1 && height == 1 && QuadColor(minX, minY) == BayerColor(minX, minY))
  }

  /** The halves an axis holds. */
  predicate Holds(min: int, size: nat, low: bool) { TwoSided(min, size) || Low(min) == low }

  /** The halves each axis holds, and the parity of the pixel, decide what a pixel finds. */
  predicate Matches(image: Image, width: nat, height: nat, x: int, y: int)
  {
    if x % 2 == 0 && y % 2 == 0 then Holds(image.minX, width, true) && Holds(image.minY, height, true)
    else if x % 2 != 0 && y % 2 != 0 then Holds(image.minX, width, false) && Holds(image.minY, height, false)
    else
      || (Holds(image.minX, width, true) && Holds(image.minY, height, false))
      || (Holds(image.minX, width, false) && Holds(image.minY, height, true))
  }

  lemma FindsByPlace(image: Image, width: nat, height: nat, x: int, y: int)
    requires Shaped(image, width, height) && InImage(image, width, height, x, y)
    ensures Finds(image, width, height, x, y) <==> Matches(image, width, height, x, y)
  {
    FindsExactly(image, width, height, x, y);
    SeesExactly(image.minX, width, x, true);
    SeesExactly(image.minX, width, x, false);
    SeesExactly(image.minY, height, y, true);
    SeesExactly(image.minY, height, y, false);
  }

  lemma CompleteMatches(image: Image, width: nat, height: nat, x: int, y: int)
    requires InImage(image, width, height, x, y) && Complete(image.minX, image.minY, width, height)
    ensures Matches(image, width, height, x, y)
  {
  }

  /** The position among the first two of an axis that has a parity, if any has. */
  function Choose(min: int, size: nat, odd: bool): (v: int)
    requires size > 0
    ensures min <= v < min + size && (size >= 2 ==> (v % 2 != 0) == odd) && (size == 1 ==> v == min)
  {
    if size == 1 || (min % 2 != 0) == odd then min else min + 1
  }

  /** An incomplete image has a pixel, among its first two columns and rows, that matches nothing. */
  lemma IncompleteMisses(image: Image, width: nat, height: nat) returns (x: int, y: int)
    requires width > 0 && height > 0 && !Complete(image.minX, image.minY, width, height)
    ensures InImage(image, width, height, x, y) && !Matches(image, width, height, x, y)
  {
    // A one-sided axis lacks a half: ask for the colour of that half; if it is a single line
    // of the wrong parity, ask for the colour that needs the half it lacks.
    var oddX := if TwoSided(image.minX, width) then
        (if height == 1 then image.minY % 2 != 0 else Low(image.minY))
      else Low(image.minX);
    var oddY := if TwoSided(image.minX, width) then Low(image.minY)
      else if width == 1 then image.minX % 2 != 0 else Low(image.minX);
    x, y := Choose(image.minX, width, oddX), Choose(image.minY, height, oddY);
    if Matches(image, width, height, x, y) {
      x, y := Choose(image.minX, width, !oddX), Choose(image.minY, height, !oddY);
    }
  }

  /** Every pixel finds a sample of its colour if and only if the image is complete. */
  lemma ColorsAreFoundExactly(image: Image, width: nat, height: nat)
    requires Shaped(image, width, height)
    ensures (forall x, y :: InImage(image, width, height, x, y) ==> Finds(image, width, height, x, y)) <==>
            Complete(image.minX, image.minY, width, height)
  {
    if Complete(image.minX, image.minY, width, height) {
      forall x, y | InImage(image, width, height, x, y) ensures Finds(image, width, height, x, y) {
        FindsByPlace(image, width, height, x, y);
        CompleteMatches(image, width, height, x, y);
      }
    } else {
      var x, y := IncompleteMisses(image, width, height);
      FindsByPlace(image, width, height, x, y);
    }
  }

  /** On every image of at least three by three, every pixel finds a sample of its colour. */
  lemma ColorIsFound(image: Image, width: nat, height: nat, x: int, y: int)
    requires Shaped(image, width, height) && width >= 3 && height >= 3 && InImage(image, width, height, x, y)
    ensures Weights(Taps(image, width, height, x, y)) > 0
  {
    FindsByPlace(image, width, height, x, y);
  }

  /** An image of one colour group: a pixel of another colour finds nothing and becomes zero,
      whatever the samples are. */
  lemma TwoByTwoFindsNothing(image: Image)
    requires Shaped(image, 2, 2) && image.minX == 0 && image.minY == 0
    ensures !Finds(image, 2, 2, 1, 1) && AverageOf(Taps(image, 2, 2, 1, 1)) == 0
  {
    FindsByPlace(image, 2, 2, 1, 1);
  }

  /** What the remosaic promises of a pixel: an average of its colour's samples in the
      window, never outside their range, and zero exactly where there are none to average. */
  lemma RemosaicIsSound(image: Image, width: nat, height: nat, x: int, y: int, lo: int, hi: int)
    requires Shaped(image, width, height) && InImage(image, width, height, x, y)
    requires forall k: nat ::
      k < 25 && QuadColor(TapX(image, width, x, k), TapY(image, height, y, k)) == BayerColor(x, y) ==>
      lo <= Value(image, width, height, x, y, k) <= hi
    ensures var out := AverageOf(Taps(image, width, height, x, y));
      if Matches(image, width, height, x, y) then lo <= out <= hi else out == 0
  {
    FindsByPlace(image, width, height, x, y);
    if Matches(image, width, height, x, y) {
      AverageWithin(Taps(image, width, height, x, y), lo, hi);
    }
  }
}
