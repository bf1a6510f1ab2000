// Addressing of five-dimensional volumes. A volume has extents maxX, maxY,
// maxZ, maxTime and maxI5; a voxel (x, y, z, t, i5) lives at the linear index
//   (((i5 * maxTime + t) * maxZ + z) * maxY + y) * maxX + x
// so x varies fastest and i5 slowest. The same arithmetic describes the
// order in which a rectangular region is visited by the series loops: the
// p-th value of a region is the voxel whose offset inside the region's own
// box is p.

module VolumeIndex {
  import opened Java

  /** The number of positions along each axis. */
  datatype Extents = Extents(maxX: int, maxY: int, maxZ: int, maxTime: int, maxI5: int)

  datatype Coord = Coord(x: int, y: int, z: int, t: int, i5: int)

  predicate NonNegative(e: Extents)
  {
    e.maxX >= 0 && e.maxY >= 0 && e.maxZ >= 0 && e.maxTime >= 0 && e.maxI5 >= 0
  }

  predicate InRange(e: Extents, c: Coord)
  {
    0 <= c.x < e.maxX && 0 <= c.y < e.maxY && 0 <= c.z < e.maxZ
    && 0 <= c.t < e.maxTime && 0 <= c.i5 < e.maxI5
  }

  /** The row-major offset of `c`, without any range check. */
  function Offset(e: Extents, c: Coord): int
  {
    (((c.i5 * e.maxTime + c.t) * e.maxZ + c.z) * e.maxY + c.y) * e.maxX + c.x
  }

  /** The number of voxels, over all five axes. */
  function Size(e: Extents): int
  {
    (((e.maxI5 * e.maxTime) * e.maxZ) * e.maxY) * e.maxX
  }

  /** One level of the mixed radix: `q*d + v` stays below `n*d`. */
  lemma Digit(q: int, n: int, d: int, v: int)
    requires 0 <= q < n && 0 <= v < d
    ensures 0 <= q * d + v < n * d
  {
    assert (n - 1 - q) * d >= 0;
    assert n * d == (n - 1 - q) * d + q * d + d;
  }

  lemma OffsetBounds(e: Extents, c: Coord)
    requires InRange(e, c)
    ensures 0 <= Offset(e, c) < Size(e)
  {
    Digit(c.i5, e.maxI5, e.maxTime, c.t);
    Digit(c.i5 * e.maxTime + c.t, e.maxI5 * e.maxTime, e.maxZ, c.z);
    Digit((c.i5 * e.maxTime + c.t) * e.maxZ + c.z, e.maxI5 * e.maxTime * e.maxZ, e.maxY, c.y);
    Digit(((c.i5 * e.maxTime + c.t) * e.maxZ + c.z) * e.maxY + c.y, e.maxI5 * e.maxTime * e.maxZ * e.maxY, e.maxX, c.x);
  }

  /**
   * `getIndex(x, y, z, t, i5)`: -1 when any coordinate is outside its extent,
   * otherwise the row-major offset, which then lies in [0, Size).
   */
  function GetIndex(e: Extents, c: Coord): (r: int)
    ensures r == -1 <==> !InRange(e, c)
    ensures InRange(e, c) ==> 0 <= r < Size(e) && r == Offset(e, c)
  {
    if !InRange(e, c) then -1
    else
      OffsetBounds(e, c);
      Offset(e, c)
  }

  /** The digits of `i` in the mixed radix of `e`, x least significant and i5 the leading digit. */
  function Digits(e: Extents, i: int): Coord
    requires e.maxX > 0 && e.maxY > 0 && e.maxZ > 0 && e.maxTime > 0
  {
    var q1 := i / e.maxX;
    var q2 := q1 / e.maxY;
    var q3 := q2 / e.maxZ;
    Coord(i % e.maxX, q1 % e.maxY, q2 % e.maxZ, q3 % e.maxTime, q3 / e.maxTime)
  }

  /** Every index in [0, Size) is the offset of its digits, which are an in-range voxel. */
  lemma OffsetOfDigits(e: Extents, i: int)
    requires NonNegative(e) && 0 <= i < Size(e)
    ensures e.maxX > 0 && e.maxY > 0 && e.maxZ > 0 && e.maxTime > 0
    ensures InRange(e, Digits(e, i)) && Offset(e, Digits(e, i)) == i
  {
    DivBelow(i, e.maxI5 * e.maxTime * e.maxZ * e.maxY, e.maxX);
    var q1 := i / e.maxX;
    DivBelow(q1, e.maxI5 * e.maxTime * e.maxZ, e.maxY);
    var q2 := q1 / e.maxY;
    DivBelow(q2, e.maxI5 * e.maxTime, e.maxZ);
    var q3 := q2 / e.maxZ;
    DivBelow(q3, e.maxI5, e.maxTime);
    var c := Digits(e, i);
    assert q3 == c.i5 * e.maxTime + c.t;
    assert q2 == q3 * e.maxZ + c.z;
    assert q1 == q2 * e.maxY + c.y;
    assert i == q1 * e.maxX + c.x;
  }

  /** The digits of an in-range voxel's offset are that voxel. */
  lemma DigitsOfOffset(e: Extents, c: Coord)
    requires NonNegative(e) && InRange(e, c)
    ensures 0 <= Offset(e, c) < Size(e) && Digits(e, Offset(e, c)) == c
  {
    OffsetBounds(e, c);
    var q3 := c.i5 * e.maxTime + c.t;
    var q2 := q3 * e.maxZ + c.z;
    var q1 := q2 * e.maxY + c.y;
    var i := q1 * e.maxX + c.x;
    assert q3 >= 0 && q2 >= 0 && q1 >= 0;
    ModUnique(i, e.maxX, q1, c.x);
    ModUnique(q1, e.maxY, q2, c.y);
    ModUnique(q2, e.maxZ, q3, c.z);
    ModUnique(q3, e.maxTime, c.i5, c.t);
  }

  lemma DivBelow(i: int, n: int, d: int)
    requires 0 <= i < n * d && d >= 0
    ensures d > 0 && 0 <= i / d < n
  {
  }

  /** The voxel at linear index `i`: the inverse of `GetIndex` on [0, Size). */
  ghost function CoordOf(e: Extents, i: int): (c: Coord)
    requires NonNegative(e) && 0 <= i < Size(e)
    ensures InRange(e, c) && Offset(e, c) == i
  {
    OffsetOfDigits(e, i);
    var c :| InRange(e, c) && Offset(e, c) == i;
    c
  }

  /** The voxel of the offset of an in-range voxel is that voxel. */
  lemma CoordOfOffset(e: Extents, c: Coord)
    requires NonNegative(e) && InRange(e, c)
    ensures 0 <= Offset(e, c) < Size(e) && CoordOf(e, Offset(e, c)) == c
  {
    OffsetBounds(e, c);
    var i := Offset(e, c);
    var d := CoordOf(e, i);
    assert Digits(e, i) == c by {
      DigitsOfOffset(e, c);
    }
    assert Digits(e, i) == d by {
      DigitsOfOffset(e, d);
    }
  }

  /** Distinct in-range voxels have distinct indices. */
  lemma GetIndexInjective(e: Extents, c: Coord, d: Coord)
    requires NonNegative(e) && InRange(e, c) && InRange(e, d) && GetIndex(e, c) == GetIndex(e, d)
    ensures c == d
  {
    CoordOfOffset(e, c);
    CoordOfOffset(e, d);
  }

  /** Every index in [0, Size) is the index of exactly the voxel `CoordOf` names. */
  lemma GetIndexOnto(e: Extents, i: int)
    requires NonNegative(e) && 0 <= i < Size(e)
    ensures GetIndex(e, CoordOf(e, i)) == i
  {
  }

  /** Stepping one position along an axis moves the offset by that axis's stride. */
  lemma Strides(e: Extents, c: Coord)
    ensures Offset(e, c.(x := c.x + 1)) == Offset(e, c) + 1
    ensures Offset(e, c.(y := c.y + 1)) == Offset(e, c) + e.maxX
    ensures Offset(e, c.(z := c.z + 1)) == Offset(e, c) + e.maxY * e.maxX
    ensures Offset(e, c.(t := c.t + 1)) == Offset(e, c) + e.maxZ * e.maxY * e.maxX
  {
    var a := c.i5 * e.maxTime + c.t;
    assert (a + 1) * e.maxZ + c.z == (a * e.maxZ + c.z) + e.maxZ;
    var b := a * e.maxZ + c.z;
    assert (b + 1) * e.maxY + c.y == (b * e.maxY + c.y) + e.maxY;
    assert ((b + 1) * e.maxY + c.y) * e.maxX == (b * e.maxY + c.y) * e.maxX + e.maxY * e.maxX;
    assert (b * e.maxY + c.y + 1) * e.maxX == (b * e.maxY + c.y) * e.maxX + e.maxX;
    var g := (a + 1) * e.maxZ + c.z;
    assert g * e.maxY + c.y == b * e.maxY + c.y + e.maxZ * e.maxY;
    assert (g * e.maxY + c.y) * e.maxX == (b * e.maxY + c.y) * e.maxX + e.maxZ * e.maxY * e.maxX;
  }

  /** Within a row the offset moves one for one with x. */
  lemma RowOffset(e: Extents, c: Coord, dx: int)
    ensures Offset(e, c.(x := c.x + dx)) == Offset(e, c) + dx
  {
  }

  /**
   * The offset is linear: moving by (dx, dy, dz) moves it by the same amount
   * wherever the move starts.
   */
  lemma Translate(e: Extents, c: Coord, d: Coord, dx: int, dy: int, dz: int)
    requires d == Coord(c.x + dx, c.y + dy, c.z + dz, c.t, c.i5)
    ensures Offset(e, d) - Offset(e, c) == (dz * e.maxY + dy) * e.maxX + dx
  {
    var a := c.i5 * e.maxTime + c.t;
    assert (a * e.maxZ + c.z + dz) * e.maxY == (a * e.maxZ + c.z) * e.maxY + dz * e.maxY;
    assert ((a * e.maxZ + c.z) * e.maxY + dz * e.maxY + c.y + dy) * e.maxX
      == ((a * e.maxZ + c.z) * e.maxY + c.y) * e.maxX + (dz * e.maxY + dy) * e.maxX;
  }

  /** Running x one past its last position is the same offset as the start of the next row. */
  lemma CarryX(e: Extents, c: Coord)
    requires c.x == e.maxX
    ensures Offset(e, c) == Offset(e, c.(x := 0, y := c.y + 1))
  {
    Strides(e, c.(x := 0));
  }

  lemma CarryY(e: Extents, c: Coord)
    requires c.x == 0 && c.y == e.maxY
    ensures Offset(e, c) == Offset(e, c.(y := 0, z := c.z + 1))
  {
    var b := (c.i5 * e.maxTime + c.t) * e.maxZ + c.z;
    assert b * e.maxY + e.maxY == (b + 1) * e.maxY;
  }

  lemma CarryZ(e: Extents, c: Coord)
    requires c.x == 0 && c.y == 0 && c.z == e.maxZ
    ensures Offset(e, c) == Offset(e, c.(z := 0, t := c.t + 1))
  {
    var a := c.i5 * e.maxTime + c.t;
    assert a * e.maxZ + e.maxZ == (a + 1) * e.maxZ;
  }

  lemma CarryT(e: Extents, c: Coord)
    requires c.x == 0 && c.y == 0 && c.z == 0 && c.t == e.maxTime
    ensures Offset(e, c) == Offset(e, c.(t := 0, i5 := c.i5 + 1))
  {
    assert c.i5 * e.maxTime + e.maxTime == (c.i5 + 1) * e.maxTime;
  }

  /** The offset one past the last voxel is the size. */
  lemma OffsetEnd(e: Extents)
    ensures Offset(e, Coord(0, 0, 0, 0, e.maxI5)) == Size(e)
  {
  }

  /**
   * `getNumEntries()`: maxX * maxTime * maxY * maxZ. The fifth extent is not
   * part of the product, so it counts the voxels of one i5 block only.
   */
  function NumEntries(e: Extents): (n: int)
    ensures e.maxI5 == 1 ==> n == Size(e)
    ensures Size(e) == e.maxI5 * n
  {
    e.maxX * e.maxTime * e.maxY * e.maxZ
  }

  // ---------------------------------------------------------------------
  // Regions: the (x0, y0, z0, t0, i5_0, width, height, depth, duration,
  // i5_count) arguments of the series methods.

  /** A box of `box` extents whose first voxel is `origin`. */
  datatype Region = Region(origin: Coord, box: Extents)

  predicate Inside(e: Extents, r: Region)
  {
    NonNegative(r.box)
    && 0 <= r.origin.x && r.origin.x + r.box.maxX <= e.maxX
    && 0 <= r.origin.y && r.origin.y + r.box.maxY <= e.maxY
    && 0 <= r.origin.z && r.origin.z + r.box.maxZ <= e.maxZ
    && 0 <= r.origin.t && r.origin.t + r.box.maxTime <= e.maxTime
    && 0 <= r.origin.i5 && r.origin.i5 + r.box.maxI5 <= e.maxI5
  }

  function Shift(o: Coord, d: Coord): Coord
  {
    Coord(o.x + d.x, o.y + d.y, o.z + d.z, o.t + d.t, o.i5 + d.i5)
  }

  /** The voxel that the loops visit p-th: i5 outermost, then t, z, y, and x innermost. */
  ghost function At(r: Region, p: int): (c: Coord)
    requires NonNegative(r.box) && 0 <= p < Size(r.box)
  {
    Shift(r.origin, CoordOf(r.box, p))
  }

  /** The linear index of the p-th voxel of a region that lies inside the volume. */
  ghost function RegionIndex(e: Extents, r: Region, p: int): (i: int)
    requires Inside(e, r) && 0 <= p < Size(r.box)
    ensures InRange(e, At(r, p)) && 0 <= i < Size(e) && i == GetIndex(e, At(r, p))
  {
    GetIndex(e, At(r, p))
  }

  /** Different positions of a region inside the volume are different voxels. */
  lemma RegionIndexInjective(e: Extents, r: Region, p: int, q: int)
    requires NonNegative(e) && Inside(e, r) && 0 <= p < Size(r.box) && 0 <= q < Size(r.box)
    requires RegionIndex(e, r, p) == RegionIndex(e, r, q)
    ensures p == q
  {
    GetIndexInjective(e, At(r, p), At(r, q));
    assert CoordOf(r.box, p) == CoordOf(r.box, q);
  }

  /** Different positions of a region are different voxels, whether or not they are in the volume. */
  lemma AtInjective(r: Region, p: int, q: int)
    requires NonNegative(r.box) && 0 <= p < Size(r.box) && 0 <= q < Size(r.box) && At(r, p) == At(r, q)
    ensures p == q
  {
    assert CoordOf(r.box, p) == CoordOf(r.box, q);
  }

  lemma SizeNonNegative(e: Extents)
    requires NonNegative(e)
    ensures Size(e) >= 0
  {
    assert e.maxI5 * e.maxTime >= 0;
    assert e.maxI5 * e.maxTime * e.maxZ >= 0;
    assert e.maxI5 * e.maxTime * e.maxZ * e.maxY >= 0;
  }

  /** The first position, from `p` on, whose voxel lies outside the volume; the size if there is none. */
  ghost function FirstOutside(e: Extents, r: Region, p: int): (k: int)
    requires NonNegative(r.box) && 0 <= p <= Size(r.box)
    ensures p <= k <= Size(r.box)
    ensures forall q :: p <= q < k ==> InRange(e, At(r, q))
    ensures k < Size(r.box) ==> !InRange(e, At(r, k))
    decreases Size(r.box) - p
  {
    if p == Size(r.box) || !InRange(e, At(r, p)) then p else FirstOutside(e, r, p + 1)
  }

  /** A position `k` with every voxel before it in range and its own voxel out of range (or the end) is the first outside. */
  lemma {:induction false} FirstOutsideIs(e: Extents, r: Region, p: int, k: int)
    requires NonNegative(r.box) && 0 <= p <= k <= Size(r.box)
    requires forall q :: p <= q < k ==> InRange(e, At(r, q))
    requires k < Size(r.box) ==> !InRange(e, At(r, k))
    ensures FirstOutside(e, r, p) == k
    decreases k - p
  {
    if p < k {
      FirstOutsideIs(e, r, p + 1, k);
    }
  }

  /** The loop coordinates (i, j, k, l, m) are the p-th voxel, p their offset within the box. */
  lemma AtOffset(r: Region, c: Coord)
    requires NonNegative(r.box)
    requires InRange(r.box, Coord(c.x - r.origin.x, c.y - r.origin.y, c.z - r.origin.z, c.t - r.origin.t, c.i5 - r.origin.i5))
    ensures var p := Offset(r.box, Coord(c.x - r.origin.x, c.y - r.origin.y, c.z - r.origin.z, c.t - r.origin.t, c.i5 - r.origin.i5));
      0 <= p < Size(r.box) && At(r, p) == c
  {
    CoordOfOffset(r.box, Coord(c.x - r.origin.x, c.y - r.origin.y, c.z - r.origin.z, c.t - r.origin.t, c.i5 - r.origin.i5));
  }

  // ---------------------------------------------------------------------
  // lineNatural: the axis a segment runs along.

  const X: int := 0x1
  const Y: int := 0x2
  const Z: int := 0x3
  const MINUS: int := 0x10
  const PLUS: int := 0x20
  const NONE: int := 0

  /** A point with float coordinates; only comparisons between them are used. */
  datatype Point = Point(x: real, y: real, z: real)

  /**
   * `lineNatural(p1, p2)`: the axis and direction of the segment p1 -> p2
   * when it is parallel to an axis, NONE otherwise. A segment of length zero
   * reads as Z_MINUS.
   */
  function LineNatural(p1: Point, p2: Point): (d: int)
    ensures d != NONE <==> (p1.x == p2.x && p1.y == p2.y) || (p1.x == p2.x && p1.z == p2.z) || (p1.y == p2.y && p1.z == p2.z)
    ensures p1.x == p2.x && p1.y == p2.y ==> d == Z + (if p1.z < p2.z then PLUS else MINUS)
    ensures p1.x == p2.x && p1.y != p2.y && p1.z == p2.z ==> d == Y + (if p1.y < p2.y then PLUS else MINUS)
    ensures p1.x != p2.x && p1.y == p2.y && p1.z == p2.z ==> d == X + (if p1.x < p2.x then PLUS else MINUS)
  {
    if p1.x == p2.x then
      if p1.y == p2.y then
        if p1.z < p2.z then Z + PLUS else Z + MINUS
      else if p1.z == p2.z then
        if p1.y < p2.y then Y + PLUS else Y + MINUS
      else NONE
    else if p1.y == p2.y && p1.z == p2.z then
      if p1.x < p2.x then X + PLUS else X + MINUS
    else NONE
  }

  /** Reversing a segment parallel to an axis flips PLUS and MINUS, unless it has length zero. */
  lemma LineNaturalReverse(p1: Point, p2: Point)
    requires p1 != p2 && LineNatural(p1, p2) != NONE
    ensures LineNatural(p2, p1) == LineNatural(p1, p2) - PLUS + MINUS || LineNatural(p2, p1) == LineNatural(p1, p2) - MINUS + PLUS
    ensures LineNatural(p2, p1) != LineNatural(p1, p2)
  {
  }
}
