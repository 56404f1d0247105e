/** Colour lookup in a three-dimensional table, over the reals: tetrahedral and trilinear
    interpolation in the cell that holds the colour. */
module Lut3d {
  import opened Reals

  // ---------------------------------------------------------------- cells

  function Clamp(v: real, lo: real, hi: real): real
  {
    if v < lo then lo else if v > hi then hi else v
  }

  function ClampInt(v: int, lo: int, hi: int): int
  {
    if v < lo then lo else if v > hi then hi else v
  }

  /** A coordinate on the lattice. */
  function Scaled(v: real, size: nat): (s: real)
    requires size >= 2
    ensures 0.0 <= s <= (size - 1) as real
  {
    UnitTimes(Clamp(v, 0.0, 1.0), (size - 1) as real);
    Clamp(v, 0.0, 1.0) * (size - 1) as real
  }

  lemma UnitTimes(u: real, m: real)
    requires 0.0 <= u <= 1.0 && m >= 0.0
    ensures 0.0 <= u * m <= m
  {
    assert (1.0 - u) * m >= 0.0;
  }

  /** The cell of a coordinate, never the last lattice point. */
  function Cell(v: real, size: nat): (i: nat)
    requires size >= 2
    ensures i + 1 < size
  {
    ClampInt(Scaled(v, size).Floor, 0, size - 2)
  }

  /** How far the coordinate is into its cell. */
  function Fraction(v: real, size: nat): (d: real)
    requires size >= 2
    ensures 0.0 <= d <= 1.0 && Cell(v, size) as real + d == Scaled(v, size)
  {
    Scaled(v, size) - Cell(v, size) as real
  }

  /** One channel of a table, with the third coordinate running fastest. */
  ghost predicate IsTable(table: seq<real>, size: nat)
  {
    size >= 2 && |table| == size * size * size
  }

  function Index(size: nat, r: nat, g: nat, b: nat): nat { (r * size + g) * size + b }

  lemma IndexInTable(size: nat, r: nat, g: nat, b: nat)
    requires r < size && g < size && b < size
    ensures Index(size, r, g, b) < size * size * size
  {
    RowMajor(size, size, r, g);
    RowMajor(size * size, size, r * size + g, b);
  }

  /** A step along the third coordinate moves one entry on, along the second a row, along the first a whole slice. */
  lemma IndexStrides(size: nat, r: nat, g: nat, b: nat)
    ensures Index(size, 0, 0, 0) == 0 && Index(size, r, g, b + 1) == Index(size, r, g, b) + 1
    ensures Index(size, r, g + 1, b) == Index(size, r, g, b) + size
    ensures Index(size, r + 1, g, b) == Index(size, r, g, b) + size * size
  {
  }

  lemma RowMajor(rows: nat, columns: nat, i: nat, j: nat)
    requires i < rows && j < columns
    ensures i * columns + j < rows * columns
  {
    var d: nat := rows - 1 - i;
    assert d * columns >= 0;
    assert rows * columns == d * columns + i * columns + columns;
  }

  function Entry(table: seq<real>, size: nat, r: nat, g: nat, b: nat): real
    requires IsTable(table, size) && r < size && g < size && b < size
  {
    IndexInTable(size, r, g, b);
    table[Index(size, r, g, b)]
  }

  /** The eight corners of a cell. */
  datatype Corners = Corners(c000: real, c100: real, c010: real, c001: real, c110: real, c101: real, c011: real,
                             c111: real)

  function CornersAt(table: seq<real>, size: nat, r: nat, g: nat, b: nat): (c: Corners)
    requires IsTable(table, size) && r + 1 < size && g + 1 < size && b + 1 < size
  {
    Corners(Entry(table, size, r, g, b), Entry(table, size, r + 1, g, b), Entry(table, size, r, g + 1, b),
            Entry(table, size, r, g, b + 1), Entry(table, size, r + 1, g + 1, b), Entry(table, size, r + 1, g, b + 1),
            Entry(table, size, r, g + 1, b + 1),
            Entry(table, size, r + 1, g + 1, b + 1))
  }

  // ---------------------------------------------------------------- the two interpolations

  function AddDelta(base: real, from: real, to: real, weight: real): real { base + (to - from) * weight }

  /** Walk from the first corner to the last along the axes, in one of six orders. */
  function RgbOrder(c: Corners, dr: real, dg: real, db: real): real
  {
    AddDelta(AddDelta(AddDelta(c.c000, c.c000, c.c100, dr), c.c100, c.c110, dg), c.c110, c.c111, db)
  }

  function RbgOrder(c: Corners, dr: real, dg: real, db: real): real
  {
    AddDelta(AddDelta(AddDelta(c.c000, c.c000, c.c100, dr), c.c100, c.c101, db), c.c101, c.c111, dg)
  }

  function BrgOrder(c: Corners, dr: real, dg: real, db: real): real
  {
    AddDelta(AddDelta(AddDelta(c.c000, c.c000, c.c001, db), c.c001, c.c101, dr), c.c101, c.c111, dg)
  }

  function GrbOrder(c: Corners, dr: real, dg: real, db: real): real
  {
    AddDelta(AddDelta(AddDelta(c.c000, c.c000, c.c010, dg), c.c010, c.c110, dr), c.c110, c.c111, db)
  }

  function GbrOrder(c: Corners, dr: real, dg: real, db: real): real
  {
    AddDelta(AddDelta(AddDelta(c.c000, c.c000, c.c010, dg), c.c010, c.c011, db), c.c011, c.c111, dr)
  }

  function BgrOrder(c: Corners, dr: real, dg: real, db: real): real
  {
    AddDelta(AddDelta(AddDelta(c.c000, c.c000, c.c001, db), c.c001, c.c011, dg), c.c011, c.c111, dr)
  }

  function Tetrahedral(c: Corners, dr: real, dg: real, db: real): real
  {
    if dr >= dg && dg >= db then RgbOrder(c, dr, dg, db)
    else if dr >= db && db >= dg then RbgOrder(c, dr, dg, db)
    else if db >= dr && dr >= dg then BrgOrder(c, dr, dg, db)
    else if dg >= dr && dr >= db then GrbOrder(c, dr, dg, db)
    else if dg >= db && db >= dr then GbrOrder(c, dr, dg, db)
    else BgrOrder(c, dr, dg, db)
  }

  function Trilinear(c: Corners, dr: real, dg: real, db: real): real
  {
    var c00, c10 := Lerp(c.c000, c.c100, dr), Lerp(c.c010, c.c110, dr);
    var c01, c11 := Lerp(c.c001, c.c101, dr), Lerp(c.c011, c.c111, dr);
    var c0, c1 := Lerp(c00, c10, dg), Lerp(c01, c11, dg);
    Lerp(c0, c1, db)
  }

  // ---------------------------------------------------------------- tetrahedral as one formula

  function Min(a: real, b: real): real { if a < b then a else b }

  function Max(a: real, b: real): real { if a < b then b else a }

  /** The share of a corner: how far the axes it is moved along reach beyond the others. */
  function Share(inside: real, outside: real): (w: real)
    ensures w >= 0.0
  {
    Max(0.0, inside - outside)
  }

  /** The shares of the eight corners. A corner moved along some axes gets what the least of
      their fractions has over the greatest of the other fractions. */
  function Shares(dr: real, dg: real, db: real): (w: Corners)
  {
    Corners(Share(1.0, Max(dr, Max(dg, db))),
            Share(dr, Max(dg, db)), Share(dg, Max(dr, db)), Share(db, Max(dr, dg)),
            Share(Min(dr, dg), db), Share(Min(dr, db), dg), Share(Min(dg, db), dr),
            Share(Min(dr, Min(dg, db)), 0.0))
  }

  function Total(w: Corners): real
  {
    (w.c000 + w.c100 + w.c010 + w.c001) + (w.c110 + w.c101 + w.c011 + w.c111)
  }

  function Mix(w: Corners, c: Corners): real
  {
    (w.c000 * c.c000 + w.c100 * c.c100 + w.c010 * c.c010 + w.c001 * c.c001)
    + (w.c110 * c.c110 + w.c101 * c.c101 + w.c011 * c.c011 + w.c111 * c.c111)
  }

  ghost predicate Unit(d: real) { 0.0 <= d <= 1.0 }

  /** The shares are a partition of one. */
  lemma SharesAddUp(dr: real, dg: real, db: real)
    requires Unit(dr) && Unit(dg) && Unit(db)
    ensures var w := Shares(dr, dg, db);
      && Total(w) == 1.0
      && w.c000 >= 0.0 && w.c100 >= 0.0 && w.c010 >= 0.0 && w.c001 >= 0.0
      && w.c110 >= 0.0 && w.c101 >= 0.0 && w.c011 >= 0.0 && w.c111 >= 0.0
  {
  }

  /** A walk with weights that never grow is a mix of the corners it visits. */
  lemma WalkIsMix(p: real, q: real, r: real, s: real, d1: real, d2: real, d3: real)
    ensures AddDelta(AddDelta(AddDelta(p, p, q, d1), q, r, d2), r, s, d3)
         == (1.0 - d1) * p + (d1 - d2) * q + (d2 - d3) * r + d3 * s
  {
  }

  ghost predicate IsMix(v: real, c: Corners, dr: real, dg: real, db: real)
  {
    v == Mix(Shares(dr, dg, db), c)
  }

  lemma RgbIsMix(c: Corners, dr: real, dg: real, db: real)
    requires Unit(dr) && Unit(dg) && Unit(db) && dr >= dg >= db
    ensures IsMix(RgbOrder(c, dr, dg, db), c, dr, dg, db)
  {
    WalkIsMix(c.c000, c.c100, c.c110, c.c111, dr, dg, db);
    assert Shares(dr, dg, db) == Corners(1.0 - dr, dr - dg, 0.0, 0.0, dg - db, 0.0, 0.0, db);
  }

  lemma RbgIsMix(c: Corners, dr: real, dg: real, db: real)
    requires Unit(dr) && Unit(dg) && Unit(db) && dr >= db >= dg
    ensures IsMix(RbgOrder(c, dr, dg, db), c, dr, dg, db)
  {
    WalkIsMix(c.c000, c.c100, c.c101, c.c111, dr, db, dg);
    assert Shares(dr, dg, db) == Corners(1.0 - dr, dr - db, 0.0, 0.0, 0.0, db - dg, 0.0, dg);
  }

  lemma BrgIsMix(c: Corners, dr: real, dg: real, db: real)
    requires Unit(dr) && Unit(dg) && Unit(db) && db >= dr >= dg
    ensures IsMix(BrgOrder(c, dr, dg, db), c, dr, dg, db)
  {
    WalkIsMix(c.c000, c.c001, c.c101, c.c111, db, dr, dg);
    assert Shares(dr, dg, db) == Corners(1.0 - db, 0.0, 0.0, db - dr, 0.0, dr - dg, 0.0, dg);
  }

  lemma GrbIsMix(c: Corners, dr: real, dg: real, db: real)
    requires Unit(dr) && Unit(dg) && Unit(db) && dg >= dr >= db
    ensures IsMix(GrbOrder(c, dr, dg, db), c, dr, dg, db)
  {
    WalkIsMix(c.c000, c.c010, c.c110, c.c111, dg, dr, db);
    assert Shares(dr, dg, db) == Corners(1.0 - dg, 0.0, dg - dr, 0.0, dr - db, 0.0, 0.0, db);
  }

  lemma GbrIsMix(c: Corners, dr: real, dg: real, db: real)
    requires Unit(dr) && Unit(dg) && Unit(db) && dg >= db >= dr
    ensures IsMix(GbrOrder(c, dr, dg, db), c, dr, dg, db)
  {
    WalkIsMix(c.c000, c.c010, c.c011, c.c111, dg, db, dr);
    assert Shares(dr, dg, db) == Corners(1.0 - dg, 0.0, dg - db, 0.0, 0.0, 0.0, db - dr, dr);
  }

  lemma BgrIsMix(c: Corners, dr: real, dg: real, db: real)
    requires Unit(dr) && Unit(dg) && Unit(db) && db >= dg >= dr
    ensures IsMix(BgrOrder(c, dr, dg, db), c, dr, dg, db)
  {
    WalkIsMix(c.c000, c.c001, c.c011, c.c111, db, dg, dr);
    assert Shares(dr, dg, db) == Corners(1.0 - db, 0.0, 0.0, db - dg, 0.0, 0.0, dg - dr, dr);
  }

  /** Tetrahedral interpolation is the mix by shares, in every case; so cases that both apply,
      on a tie, agree. */
  lemma TetrahedralIsMix(c: Corners, dr: real, dg: real, db: real)
    requires Unit(dr) && Unit(dg) && Unit(db)
    ensures Tetrahedral(c, dr, dg, db) == Mix(Shares(dr, dg, db), c)
    ensures dr >= dg >= db ==> Tetrahedral(c, dr, dg, db) == RgbOrder(c, dr, dg, db)
    ensures dr >= db >= dg ==> Tetrahedral(c, dr, dg, db) == RbgOrder(c, dr, dg, db)
    ensures db >= dr >= dg ==> Tetrahedral(c, dr, dg, db) == BrgOrder(c, dr, dg, db)
    ensures dg >= dr >= db ==> Tetrahedral(c, dr, dg, db) == GrbOrder(c, dr, dg, db)
    ensures dg >= db >= dr ==> Tetrahedral(c, dr, dg, db) == GbrOrder(c, dr, dg, db)
    ensures db >= dg >= dr ==> Tetrahedral(c, dr, dg, db) == BgrOrder(c, dr, dg, db)
  {
    if dr >= dg >= db {
      RgbIsMix(c, dr, dg, db);
    }
    if dr >= db >= dg {
      RbgIsMix(c, dr, dg, db);
    }
    if db >= dr >= dg {
      BrgIsMix(c, dr, dg, db);
    }
    if dg >= dr >= db {
      GrbIsMix(c, dr, dg, db);
    }
    if dg >= db >= dr {
      GbrIsMix(c, dr, dg, db);
    }
    if db >= dg >= dr {
      BgrIsMix(c, dr, dg, db);
    }
  }

  ghost predicate CornersWithin(c: Corners, lo: real, hi: real)
  {
    && lo <= c.c000 <= hi && lo <= c.c100 <= hi && lo <= c.c010 <= hi && lo <= c.c001 <= hi
    && lo <= c.c110 <= hi && lo <= c.c101 <= hi && lo <= c.c011 <= hi && lo <= c.c111 <= hi
  }

  /** A sum of weighted values, bounded by its total weight times the bounds. */
  ghost predicate Balanced(weight: real, sum: real, lo: real, hi: real)
  {
    weight * lo <= sum <= weight * hi
  }

  lemma Weigh(w: real, v: real, lo: real, hi: real)
    requires w >= 0.0 && lo <= v <= hi
    ensures Balanced(w, w * v, lo, hi)
  {
    NonNegative(w, v - lo);
    NonNegative(w, hi - v);
  }

  lemma AddWeighed(weight: real, sum: real, w: real, v: real, lo: real, hi: real)
    requires Balanced(weight, sum, lo, hi) && w >= 0.0 && lo <= v <= hi
    ensures Balanced(weight + w, sum + w * v, lo, hi)
  {
    Weigh(w, v, lo, hi);
    assert (weight + w) * lo == weight * lo + w * lo && (weight + w) * hi == weight * hi + w * hi;
  }

  lemma FourBalanced(w1: real, v1: real, w2: real, v2: real, w3: real, v3: real, w4: real, v4: real, lo: real, hi: real)
    requires w1 >= 0.0 && w2 >= 0.0 && w3 >= 0.0 && w4 >= 0.0
    requires lo <= v1 <= hi && lo <= v2 <= hi && lo <= v3 <= hi && lo <= v4 <= hi
    ensures Balanced(w1 + w2 + w3 + w4, w1 * v1 + w2 * v2 + w3 * v3 + w4 * v4, lo, hi)
  {
    Weigh(w1, v1, lo, hi);
    AddWeighed(w1, w1 * v1, w2, v2, lo, hi);
    AddWeighed(w1 + w2, w1 * v1 + w2 * v2, w3, v3, lo, hi);
    AddWeighed(w1 + w2 + w3, w1 * v1 + w2 * v2 + w3 * v3, w4, v4, lo, hi);
  }

  lemma WholeIsBounded(weight: real, sum: real, lo: real, hi: real)
    requires Balanced(weight, sum, lo, hi) && weight == 1.0
    ensures lo <= sum <= hi
  {
  }

  lemma WalkWithin(p: real, q: real, r: real, s: real, d1: real, d2: real, d3: real, lo: real, hi: real)
    requires 1.0 >= d1 >= d2 >= d3 >= 0.0 && lo <= p <= hi && lo <= q <= hi && lo <= r <= hi && lo <= s <= hi
    ensures lo <= AddDelta(AddDelta(AddDelta(p, p, q, d1), q, r, d2), r, s, d3) <= hi
  {
    WalkIsMix(p, q, r, s, d1, d2, d3);
    FourBalanced(1.0 - d1, p, d1 - d2, q, d2 - d3, r, d3, s, lo, hi);
    WholeIsBounded((1.0 - d1) + (d1 - d2) + (d2 - d3) + d3, (1.0 - d1) * p + (d1 - d2) * q + (d2 - d3) * r + d3 * s, lo,
                   hi);
  }

  /** A convex combination stays in the range of the corners. */
  lemma TetrahedralWithin(c: Corners, dr: real, dg: real, db: real, lo: real, hi: real)
    requires Unit(dr) && Unit(dg) && Unit(db) && CornersWithin(c, lo, hi)
    ensures lo <= Tetrahedral(c, dr, dg, db) <= hi
  {
    if dr >= dg && dg >= db {
      WalkWithin(c.c000, c.c100, c.c110, c.c111, dr, dg, db, lo, hi);
    } else if dr >= db && db >= dg {
      WalkWithin(c.c000, c.c100, c.c101, c.c111, dr, db, dg, lo, hi);
    } else if db >= dr && dr >= dg {
      WalkWithin(c.c000, c.c001, c.c101, c.c111, db, dr, dg, lo, hi);
    } else if dg >= dr && dr >= db {
      WalkWithin(c.c000, c.c010, c.c110, c.c111, dg, dr, db, lo, hi);
    } else if dg >= db && db >= dr {
      WalkWithin(c.c000, c.c010, c.c011, c.c111, dg, db, dr, lo, hi);
    } else {
      WalkWithin(c.c000, c.c001, c.c011, c.c111, db, dg, dr, lo, hi);
    }
  }

  lemma TrilinearWithin(c: Corners, dr: real, dg: real, db: real, lo: real, hi: real)
    requires Unit(dr) && Unit(dg) && Unit(db) && CornersWithin(c, lo, hi)
    ensures lo <= Trilinear(c, dr, dg, db) <= hi
  {
    LerpBetween(c.c000, c.c100, dr, lo, hi);
    LerpBetween(c.c010, c.c110, dr, lo, hi);
    LerpBetween(c.c001, c.c101, dr, lo, hi);
    LerpBetween(c.c011, c.c111, dr, lo, hi);
    BilinearWithin(Lerp(c.c000, c.c100, dr), Lerp(c.c010, c.c110, dr), Lerp(c.c001, c.c101, dr),
                   Lerp(c.c011, c.c111, dr), dg, db, lo, hi);
  }

  lemma BilinearWithin(c00: real, c10: real, c01: real, c11: real, dg: real, db: real, lo: real, hi: real)
    requires lo <= c00 <= hi && lo <= c10 <= hi && lo <= c01 <= hi && lo <= c11 <= hi && Unit(dg) && Unit(db)
    ensures lo <= Lerp(Lerp(c00, c10, dg), Lerp(c01, c11, dg), db) <= hi
  {
    LerpBetween(c00, c10, dg, lo, hi);
    LerpBetween(c01, c11, dg, lo, hi);
    LerpBetween(Lerp(c00, c10, dg), Lerp(c01, c11, dg), db, lo, hi);
  }

  /** Trilinear interpolation gives every corner at that corner. */
  lemma TrilinearAtCorners(c: Corners)
    ensures Trilinear(c, 0.0, 0.0, 0.0) == c.c000 && Trilinear(c, 1.0, 0.0, 0.0) == c.c100
    ensures Trilinear(c, 0.0, 1.0, 0.0) == c.c010 && Trilinear(c, 0.0, 0.0, 1.0) == c.c001
    ensures Trilinear(c, 1.0, 1.0, 0.0) == c.c110 && Trilinear(c, 1.0, 0.0, 1.0) == c.c101
    ensures Trilinear(c, 0.0, 1.0, 1.0) == c.c011 && Trilinear(c, 1.0, 1.0, 1.0) == c.c111
  {
  }

  /** Along each axis it goes evenly from one face of the cell to the other. */
  lemma TrilinearIsEven(c: Corners, dr: real, dg: real, db: real)
    ensures Trilinear(c, dr, dg, db) == Lerp(Trilinear(c, 0.0, dg, db), Trilinear(c, 1.0, dg, db), dr)
    ensures Trilinear(c, dr, dg, db) == Lerp(Trilinear(c, dr, 0.0, db), Trilinear(c, dr, 1.0, db), dg)
    ensures Trilinear(c, dr, dg, db) == Lerp(Trilinear(c, dr, dg, 0.0), Trilinear(c, dr, dg, 1.0), db)
  {
    EvenInRed(c, dr, dg, db);
    EvenInGreen(Lerp(c.c000, c.c100, dr), Lerp(c.c010, c.c110, dr), Lerp(c.c001, c.c101, dr), Lerp(c.c011, c.c111, dr),
                dg, db);
    LerpEnds(Lerp(Lerp(c.c000, c.c100, dr), Lerp(c.c010, c.c110, dr), dg),
             Lerp(Lerp(c.c001, c.c101, dr), Lerp(c.c011, c.c111, dr), dg));
  }

  lemma LerpEnds(a: real, b: real)
    ensures Lerp(a, b, 0.0) == a && Lerp(a, b, 1.0) == b
  {
  }

  /** The order of two interpolations does not matter. */
  lemma LerpsCommute(a: real, b: real, c: real, d: real, s: real, t: real)
    ensures Lerp(Lerp(a, b, s), Lerp(c, d, s), t) == Lerp(Lerp(a, c, t), Lerp(b, d, t), s)
  {
  }

  lemma EvenInGreen(c00: real, c10: real, c01: real, c11: real, dg: real, db: real)
    ensures Lerp(Lerp(c00, c10, dg), Lerp(c01, c11, dg), db) ==
            Lerp(Lerp(Lerp(c00, c10, 0.0), Lerp(c01, c11, 0.0), db),
                 Lerp(Lerp(c00, c10, 1.0), Lerp(c01, c11, 1.0), db), dg)
  {
    LerpEnds(c00, c10);
    LerpEnds(c01, c11);
    LerpsCommute(c00, c10, c01, c11, dg, db);
  }

  lemma EvenInRed(c: Corners, dr: real, dg: real, db: real)
    ensures Trilinear(c, dr, dg, db) == Lerp(Trilinear(c, 0.0, dg, db), Trilinear(c, 1.0, dg, db), dr)
  {
    LerpEnds(c.c000, c.c100);
    LerpEnds(c.c010, c.c110);
    LerpEnds(c.c001, c.c101);
    LerpEnds(c.c011, c.c111);
    LerpsCommute(c.c000, c.c100, c.c010, c.c110, dr, dg);
    LerpsCommute(c.c001, c.c101, c.c011, c.c111, dr, dg);
    LerpsCommute(Lerp(c.c000, c.c010, dg), Lerp(c.c100, c.c110, dg), Lerp(c.c001, c.c011, dg), Lerp(c.c101, c.c111, dg),
                 dr, db);
  }

  // ---------------------------------------------------------------- affine tables

  /** A cell whose corners are an affine function of the axes. */
  function AffineCorners(a: real, p: real, q: real, s: real): Corners
  {
    Corners(a, a + p, a + q, a + s, a + p + q, a + p + s, a + q + s, a + p + q + s)
  }

  lemma AffineCell(a: real, p: real, q: real, s: real, dr: real, dg: real, db: real)
    ensures var c := AffineCorners(a, p, q, s);
      Tetrahedral(c, dr, dg, db) == a + p * dr + q * dg + s * db == Trilinear(c, dr, dg, db)
  {
    AffineTetrahedron(a, p, q, s, dr, dg, db);
    AffineCube(a, p, q, s, dr, dg, db);
  }

  /** A walk over corners that differ by k1, k2 and k3. */
  lemma AffineWalk(x0: real, x1: real, x2: real, x3: real, k1: real, k2: real, k3: real, w1: real, w2: real, w3: real)
    requires x1 == x0 + k1 && x2 == x1 + k2 && x3 == x2 + k3
    ensures AddDelta(AddDelta(AddDelta(x0, x0, x1, w1), x1, x2, w2), x2, x3, w3) == x0 + k1 * w1 + k2 * w2 + k3 * w3
  {
  }

  lemma AffineTetrahedron(a: real, p: real, q: real, s: real, dr: real, dg: real, db: real)
    ensures Tetrahedral(AffineCorners(a, p, q, s), dr, dg, db) == a + p * dr + q * dg + s * db
  {
    var c := AffineCorners(a, p, q, s);
    if dr >= dg && dg >= db {
      AffineWalk(c.c000, c.c100, c.c110, c.c111, p, q, s, dr, dg, db);
    } else if dr >= db && db >= dg {
      AffineWalk(c.c000, c.c100, c.c101, c.c111, p, s, q, dr, db, dg);
    } else if db >= dr && dr >= dg {
      AffineWalk(c.c000, c.c001, c.c101, c.c111, s, p, q, db, dr, dg);
    } else if dg >= dr && dr >= db {
      AffineWalk(c.c000, c.c010, c.c110, c.c111, q, p, s, dg, dr, db);
    } else if dg >= db && db >= dr {
      AffineWalk(c.c000, c.c010, c.c011, c.c111, q, s, p, dg, db, dr);
    } else {
      AffineWalk(c.c000, c.c001, c.c011, c.c111, s, q, p, db, dg, dr);
    }
  }

  lemma AffineCube(a: real, p: real, q: real, s: real, dr: real, dg: real, db: real)
    ensures Trilinear(AffineCorners(a, p, q, s), dr, dg, db) == a + p * dr + q * dg + s * db
  {
  }

  // ---------------------------------------------------------------- looking up

  datatype Interpolation = ByTetrahedron | ByCube

  function InCell(c: Corners, how: Interpolation, dr: real, dg: real, db: real): real
  {
    if how.ByCube? then Trilinear(c, dr, dg, db) else Tetrahedral(c, dr, dg, db)
  }

  /** The kernel for one channel of one pixel, before the result is clamped to a colour. */
  function Interpolate(table: seq<real>, size: nat, how: Interpolation, r: real, g: real, b: real): real
    requires IsTable(table, size)
  {
    InCell(CornersAt(table, size, Cell(r, size), Cell(g, size), Cell(b, size)), how,
           Fraction(r, size), Fraction(g, size), Fraction(b, size))
  }

  function Lookup(table: seq<real>, size: nat, how: Interpolation, r: real, g: real, b: real): (v: real)
    requires IsTable(table, size)
    ensures 0.0 <= v <= 1.0
  {
    Clamp(Interpolate(table, size, how, r, g, b), 0.0, 1.0)
  }

  ghost predicate TableWithin(table: seq<real>, lo: real, hi: real)
  {
    forall i :: 0 <= i < |table| ==> lo <= table[i] <= hi
  }

  /** Either interpolation of any colour stays in the range of the table. */
  lemma InterpolateWithin(table: seq<real>, size: nat, how: Interpolation, r: real, g: real, b: real, lo: real,
                          hi: real)
    requires IsTable(table, size) && TableWithin(table, lo, hi)
    ensures lo <= Interpolate(table, size, how, r, g, b) <= hi
  {
    var c := CornersAt(table, size, Cell(r, size), Cell(g, size), Cell(b, size));
    CellWithin(table, size, Cell(r, size), Cell(g, size), Cell(b, size), lo, hi);
    TetrahedralWithin(c, Fraction(r, size), Fraction(g, size), Fraction(b, size), lo, hi);
    TrilinearWithin(c, Fraction(r, size), Fraction(g, size), Fraction(b, size), lo, hi);
  }

  lemma CellWithin(table: seq<real>, size: nat, r: nat, g: nat, b: nat, lo: real, hi: real)
    requires IsTable(table, size) && TableWithin(table, lo, hi) && r + 1 < size && g + 1 < size && b + 1 < size
    ensures CornersWithin(CornersAt(table, size, r, g, b), lo, hi)
  {
    EntryWithin(table, size, r, g, b, lo, hi);
    EntryWithin(table, size, r + 1, g, b, lo, hi);
    EntryWithin(table, size, r, g + 1, b, lo, hi);
    EntryWithin(table, size, r, g, b + 1, lo, hi);
    EntryWithin(table, size, r + 1, g + 1, b, lo, hi);
    EntryWithin(table, size, r + 1, g, b + 1, lo, hi);
    EntryWithin(table, size, r, g + 1, b + 1, lo, hi);
    EntryWithin(table, size, r + 1, g + 1, b + 1, lo, hi);
  }

  lemma EntryWithin(table: seq<real>, size: nat, r: nat, g: nat, b: nat, lo: real, hi: real)
    requires IsTable(table, size) && TableWithin(table, lo, hi) && r < size && g < size && b < size
    ensures lo <= Entry(table, size, r, g, b) <= hi
  {
    IndexInTable(size, r, g, b);
  }

  /** A table of colours gives colours, so clamping the result changes nothing. */
  lemma LookupNeedsNoClamp(table: seq<real>, size: nat, how: Interpolation, r: real, g: real, b: real)
    requires IsTable(table, size) && TableWithin(table, 0.0, 1.0)
    ensures Lookup(table, size, how, r, g, b) == Interpolate(table, size, how, r, g, b)
  {
    InterpolateWithin(table, size, how, r, g, b, 0.0, 1.0);
  }

  function Affine(a: real, p: real, q: real, s: real, r: real, g: real, b: real): real
  {
    a + p * r + q * g + s * b
  }

  ghost predicate IsAffine(table: seq<real>, size: nat, a: real, p: real, q: real, s: real)
    requires IsTable(table, size)
  {
    forall r: nat, g: nat, b: nat :: r < size && g < size && b < size ==>
      Entry(table, size, r, g, b) == Affine(a, p, q, s, r as real, g as real, b as real)
  }

  lemma AffineEntries(a: real, p: real, q: real, s: real, r: real, g: real, b: real)
    ensures var base := Affine(a, p, q, s, r, g, b);
      && Affine(a, p, q, s, r + 1.0, g, b) == base + p && Affine(a, p, q, s, r, g + 1.0, b) == base + q
      && Affine(a, p, q, s, r, g, b + 1.0) == base + s && Affine(a, p, q, s, r + 1.0, g + 1.0, b) == base + p + q
      && Affine(a, p, q, s, r + 1.0, g, b + 1.0) == base + p + s &&
        Affine(a, p, q, s, r, g + 1.0, b + 1.0) == base + q + s
      && Affine(a, p, q, s, r + 1.0, g + 1.0, b + 1.0) == base + p + q + s
  {
  }

  lemma AffineMove(a: real, p: real, q: real, s: real, r: real, g: real, b: real, dr: real, dg: real, db: real,
                   r1: real, g1: real, b1: real)
    requires r1 == r + dr && g1 == g + dg && b1 == b + db
    ensures Affine(a, p, q, s, r, g, b) + p * dr + q * dg + s * db == Affine(a, p, q, s, r1, g1, b1)
  {
  }

  lemma AffineCorner(table: seq<real>, size: nat, a: real, p: real, q: real, s: real, r: nat, g: nat, b: nat)
    requires IsTable(table, size) && IsAffine(table, size, a, p, q, s) && r + 1 < size && g + 1 < size && b + 1 < size
    ensures CornersAt(table, size, r, g, b) ==
      AffineCorners(Affine(a, p, q, s, r as real, g as real, b as real), p, q, s)
  {
    AffineEntries(a, p, q, s, r as real, g as real, b as real);
    assert (r + 1) as real == r as real + 1.0 && (g + 1) as real == g as real + 1.0 &&
      (b + 1) as real == b as real + 1.0;
  }

  /** On an affine table both interpolations compute the affine function, at every colour. */
  lemma AffineLookup(table: seq<real>, size: nat, how: Interpolation, a: real, p: real, q: real, s: real, r: real,
                     g: real, b: real)
    requires IsTable(table, size) && IsAffine(table, size, a, p, q, s)
    ensures Interpolate(table, size, how, r, g, b) ==
      Affine(a, p, q, s, Scaled(r, size), Scaled(g, size), Scaled(b, size))
  {
    var r0, g0, b0 := Cell(r, size), Cell(g, size), Cell(b, size);
    var dr, dg, db := Fraction(r, size), Fraction(g, size), Fraction(b, size);
    var base := Affine(a, p, q, s, r0 as real, g0 as real, b0 as real);
    AffineCorner(table, size, a, p, q, s, r0, g0, b0);
    EitherOnAffine(how, base, p, q, s, dr, dg, db);
    AffineMove(a, p, q, s, r0 as real, g0 as real, b0 as real, dr, dg, db, Scaled(r, size), Scaled(g, size),
               Scaled(b, size));
    assert Interpolate(table, size, how, r, g, b) == InCell(CornersAt(table, size, r0, g0, b0), how, dr, dg, db);
  }

  lemma EitherOnAffine(how: Interpolation, a: real, p: real, q: real, s: real, dr: real, dg: real, db: real)
    ensures InCell(AffineCorners(a, p, q, s), how, dr, dg, db) == a + p * dr + q * dg + s * db
  {
    AffineCell(a, p, q, s, dr, dg, db);
  }
}
