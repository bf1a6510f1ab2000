// A cursor over an indexed volume. It keeps the linear index of the voxel
// it stands on next to that voxel's coordinates, and moves both together:
// one step along x is one step of the index, and the jumps at the end of a
// row or a slab of the iterated box are the precomputed `yskip` and
// `zskip`. The moves are specified by step functions on values; the
// property proved about them is that they keep the index equal to the
// row-major offset of the coordinates.

module Iterators {
  import opened Java
  import opened VolumeIndex
  import opened Volumes

  /** Every extent is at least one. */
  predicate Positive(e: Extents)
  {
    e.maxX > 0 && e.maxY > 0 && e.maxZ > 0 && e.maxTime > 0 && e.maxI5 > 0
  }

  /**
   * One digit of a mixed-radix number: with the digits below `d`, the
   * numbers `qc d + vc` and `qm d + vm` compare like (qc, vc) and (qm, vm).
   */
  lemma Lex(qc: int, qm: int, d: int, vc: int, vm: int)
    requires qc <= qm && vc < d && 0 <= vm < d
    requires qc == qm ==> vc <= vm
    ensures qc * d + vc <= qm * d + vm
    ensures qc * d + vc == qm * d + vm <==> qc == qm && vc == vm
  {
    if qc < qm {
      assert (qm - qc) * d >= d by { MulAtLeast(d, qm - qc); }
      assert qm * d == qc * d + (qm - qc) * d;
    }
  }

  /**
   * A voxel `c` no further than `m` along every axis, in the same i5
   * volume, has an offset no larger than `m`'s, and the same one only when
   * it is `m`.
   */
  lemma OffsetBelow(e: Extents, c: Coord, m: Coord)
    requires c.i5 == m.i5 && c.x <= m.x && 0 <= m.x < e.maxX
    requires 0 <= c.y <= m.y < e.maxY && 0 <= c.z <= m.z < e.maxZ && 0 <= c.t <= m.t
    ensures Offset(e, c) <= Offset(e, m)
    ensures Offset(e, c) == Offset(e, m) <==> c == m
  {
    var qc := c.i5 * e.maxTime + c.t;
    var qm := m.i5 * e.maxTime + m.t;
    var rc := qc * e.maxZ + c.z;
    var rm := qm * e.maxZ + m.z;
    Lex(qc, qm, e.maxZ, c.z, m.z);
    var sc := rc * e.maxY + c.y;
    var sm := rm * e.maxY + m.y;
    Lex(rc, rm, e.maxY, c.y, m.y);
    Lex(sc, sm, e.maxX, c.x, m.x);
  }

  /** Past the last voxel of a row the index jumps by `yskip` to the first voxel of the next row. */
  lemma RowEnd(e: Extents, p: Coord, minX: int, maxX: int, minY: int, minZ: int, yskip: int)
    requires p.x == maxX
    requires yskip == Offset(e, Coord(minX, minY + 1, minZ, 0, 0)) - Offset(e, Coord(maxX, minY, minZ, 0, 0)) - 1
    ensures Offset(e, p.(x := minX, y := p.y + 1)) == Offset(e, p) + 1 + yskip
  {
    Translate(e, Coord(maxX, minY, minZ, 0, 0), Coord(minX, minY + 1, minZ, 0, 0), minX - maxX, 1, 0);
    Translate(e, p, p.(x := minX, y := p.y + 1), minX - maxX, 1, 0);
  }

  /** Past the last voxel of a slab the index jumps by `zskip` to the first voxel of the next slab. */
  lemma SlabEnd(e: Extents, p: Coord, minX: int, maxX: int, minY: int, maxY: int, minZ: int, zskip: int)
    requires p.x == maxX && p.y == maxY
    requires zskip == Offset(e, Coord(minX, minY, minZ + 1, 0, 0)) - Offset(e, Coord(maxX, maxY, minZ, 0, 0)) - 1
    ensures Offset(e, p.(x := minX, y := minY, z := p.z + 1)) == Offset(e, p) + 1 + zskip
  {
    Translate(e, Coord(maxX, maxY, minZ, 0, 0), Coord(minX, minY, minZ + 1, 0, 0), minX - maxX, minY - maxY, 1);
    Translate(e, p, p.(x := minX, y := minY, z := p.z + 1), minX - maxX, minY - maxY, 1);
  }

  /**
   * The box an iterator walks, with inclusive bounds, and the index jumps
   * at the end of its rows and slabs.
   */
  datatype Bounds = Bounds(
    minX: int, minY: int, minZ: int, maxX: int, maxY: int, maxZ: int,
    maxT: int, maxI5: int, yskip: int, zskip: int)

  /** The box lies inside the volume, is not empty, and spans all time steps and i5 volumes. */
  predicate BoxIn(e: Extents, b: Bounds)
  {
    0 <= b.minX <= b.maxX < e.maxX && 0 <= b.minY <= b.maxY < e.maxY && 0 <= b.minZ <= b.maxZ < e.maxZ
    && b.maxT == e.maxTime - 1 && b.maxI5 == e.maxI5 - 1
  }

  /** The box is the whole volume, as a freshly built iterator has it. */
  predicate WholeVolume(e: Extents, b: Bounds)
  {
    b.minX == 0 && b.minY == 0 && b.minZ == 0
    && b.maxX == e.maxX - 1 && b.maxY == e.maxY - 1 && b.maxZ == e.maxZ - 1
  }

  /**
   * `yskip` and `zskip` are what `setBounds` computes: the distance from
   * the last voxel of a row (of a slab) of the box to the first voxel of
   * the next, less one.
   */
  predicate SkipsFit(e: Extents, b: Bounds)
  {
    (b.minY < b.maxY ==>
      b.yskip == Offset(e, Coord(b.minX, b.minY + 1, b.minZ, 0, 0)) - Offset(e, Coord(b.maxX, b.minY, b.minZ, 0, 0)) - 1)
    && (b.minZ < b.maxZ ==>
      b.zskip == Offset(e, Coord(b.minX, b.minY, b.minZ + 1, 0, 0)) - Offset(e, Coord(b.maxX, b.maxY, b.minZ, 0, 0)) - 1)
  }

  /** `p` is a voxel of the box, or the position just before its first voxel in a row. */
  predicate WithinBox(b: Bounds, p: Coord)
  {
    b.minX - 1 <= p.x <= b.maxX && b.minY <= p.y <= b.maxY && b.minZ <= p.z <= b.maxZ
    && 0 <= p.t <= b.maxT && 0 <= p.i5 <= b.maxI5
  }

  predicate OnBox(b: Bounds, p: Coord)
  {
    WithinBox(b, p) && b.minX <= p.x
  }

  /** `p` is at the last x, y, z and t of the box. */
  predicate LastOf(b: Bounds, p: Coord)
  {
    p.x >= b.maxX && p.y >= b.maxY && p.z >= b.maxZ && p.t >= b.maxT
  }

  /** `p` is at the first x, y, z and t of the box. */
  predicate FirstOf(b: Bounds, p: Coord)
  {
    p.x <= b.minX && p.y <= b.minY && p.z <= b.minZ && p.t <= 0
  }

  /** A move of the cursor: the new coordinates, the new index, and whether it moved or threw. */
  datatype Step = Step(pos: Coord, index: int, moved: bool)

  /**
   * `goNext()` on values: x fastest, then y, z and t; the index steps by
   * one, plus `yskip` at the end of a row, plus `zskip` at the end of a slab,
   * and is recomputed by `getIndex` at the end of a time step. Past the last
   * voxel nothing moves but the index, which is incremented before the
   * throw.
   */
  function NextStep(e: Extents, b: Bounds, p: Coord, index: int): Step
  {
    if p.x < b.maxX then Step(p.(x := p.x + 1), index + 1, true)
    else if p.y < b.maxY then Step(p.(x := b.minX, y := p.y + 1), index + 1 + b.yskip, true)
    else if p.z < b.maxZ then Step(p.(x := b.minX, y := b.minY, z := p.z + 1), index + 1 + b.zskip, true)
    else if p.t < b.maxT then
      var q := Coord(b.minX, b.minY, b.minZ, p.t + 1, p.i5);
      Step(q, GetIndex(e, q), true)
    else Step(p, index + 1, false)
  }

  /**
   * From a tracked position in the box, `goNext()` throws exactly at the
   * box's last voxel, and otherwise lands on a voxel of the box whose
   * `getIndex` is the new index.
   */
  lemma NextStepTracks(e: Extents, b: Bounds, p: Coord, index: int)
    requires BoxIn(e, b) && SkipsFit(e, b) && WithinBox(b, p) && index == Offset(e, p)
    ensures NextStep(e, b, p, index).moved <==> !LastOf(b, p)
    ensures var s := NextStep(e, b, p, index);
      s.moved ==> OnBox(b, s.pos) && InRange(e, s.pos) && s.index == GetIndex(e, s.pos)
  {
    if p.x >= b.maxX && p.y < b.maxY {
      RowEnd(e, p, b.minX, b.maxX, b.minY, b.minZ, b.yskip);
    } else if p.x >= b.maxX && p.y >= b.maxY && p.z < b.maxZ {
      SlabEnd(e, p, b.minX, b.maxX, b.minY, b.maxY, b.minZ, b.zskip);
    }
  }

  /**
   * `goPrev()` on values, as written: the coordinates step back in reverse
   * order, but the index only ever moves by one. At the box's first voxel it
   * throws, with the index already decremented.
   */
  function PrevStep(b: Bounds, p: Coord, index: int): Step
  {
    if p.x > b.minX then Step(p.(x := p.x - 1), index - 1, true)
    else if p.y > b.minY then Step(p.(x := b.maxX, y := p.y - 1), index - 1, true)
    else if p.z > b.minZ then Step(p.(x := b.maxX, y := b.maxY, z := p.z - 1), index - 1, true)
    else if p.t > 0 then Step(p.(x := b.maxX, y := b.maxY, z := b.maxZ, t := p.t - 1), index - 1, true)
    else Step(p, index - 1, false)
  }

  /**
   * Over the whole volume, where no row or slab is skipped, `goPrev()`
   * throws exactly at the first voxel and otherwise keeps the index on the
   * coordinates.
   */
  lemma PrevStepTracksWholeVolume(e: Extents, b: Bounds, p: Coord, index: int)
    requires BoxIn(e, b) && WholeVolume(e, b) && OnBox(b, p) && index == Offset(e, p)
    ensures PrevStep(b, p, index).moved <==> !FirstOf(b, p)
    ensures var s := PrevStep(b, p, index);
      s.moved ==> OnBox(b, s.pos) && InRange(e, s.pos) && s.index == GetIndex(e, s.pos)
  {
    var s := PrevStep(b, p, index);
    if p.x <= b.minX && p.y > b.minY {
      CarryX(e, s.pos.(x := e.maxX));
    } else if p.x <= b.minX && p.y <= b.minY && p.z > b.minZ {
      CarryX(e, s.pos.(x := e.maxX));
      CarryY(e, s.pos.(x := 0, y := e.maxY));
    } else if p.x <= b.minX && p.y <= b.minY && p.z <= b.minZ && p.t > 0 {
      CarryX(e, s.pos.(x := e.maxX));
      CarryY(e, s.pos.(x := 0, y := e.maxY));
      CarryZ(e, s.pos.(x := 0, y := 0, z := e.maxZ));
    }
  }

  /**
   * `goPrev()` with the jumps of `goNext()` undone: back over `yskip` at the
   * start of a row, over `zskip` at the start of a slab, and by `getIndex`
   * at the start of a time step.
   */
  function PrevStepTracked(e: Extents, b: Bounds, p: Coord, index: int): Step
  {
    if p.x > b.minX then Step(p.(x := p.x - 1), index - 1, true)
    else if p.y > b.minY then Step(p.(x := b.maxX, y := p.y - 1), index - 1 - b.yskip, true)
    else if p.z > b.minZ then Step(p.(x := b.maxX, y := b.maxY, z := p.z - 1), index - 1 - b.zskip, true)
    else if p.t > 0 then
      var q := p.(x := b.maxX, y := b.maxY, z := b.maxZ, t := p.t - 1);
      Step(q, GetIndex(e, q), true)
    else Step(p, index - 1, false)
  }

  /** For any box, the corrected `goPrev()` keeps the index on the coordinates. */
  lemma PrevStepTrackedTracks(e: Extents, b: Bounds, p: Coord, index: int)
    requires BoxIn(e, b) && SkipsFit(e, b) && OnBox(b, p) && index == Offset(e, p)
    ensures PrevStepTracked(e, b, p, index).moved <==> !FirstOf(b, p)
    ensures var s := PrevStepTracked(e, b, p, index);
      s.moved ==> OnBox(b, s.pos) && InRange(e, s.pos) && s.index == GetIndex(e, s.pos)
  {
    var s := PrevStepTracked(e, b, p, index);
    if p.x <= b.minX && p.y > b.minY {
      RowEnd(e, s.pos, b.minX, b.maxX, b.minY, b.minZ, b.yskip);
    } else if p.x <= b.minX && p.y <= b.minY && p.z > b.minZ {
      SlabEnd(e, s.pos, b.minX, b.maxX, b.minY, b.maxY, b.minZ, b.zskip);
    }
  }

  /** The corrected `goPrev()` undoes `goNext()`. */
  lemma PrevUndoesNext(e: Extents, b: Bounds, p: Coord, index: int)
    requires BoxIn(e, b) && SkipsFit(e, b) && OnBox(b, p) && index == Offset(e, p) && !LastOf(b, p)
    ensures var s := NextStep(e, b, p, index);
      PrevStepTracked(e, b, s.pos, s.index) == Step(p, index, true)
  {
    NextStepTracks(e, b, p, index);
  }

  /** `goNext()` undoes the corrected `goPrev()`. */
  lemma NextUndoesPrev(e: Extents, b: Bounds, p: Coord, index: int)
    requires BoxIn(e, b) && SkipsFit(e, b) && OnBox(b, p) && index == Offset(e, p) && !FirstOf(b, p)
    ensures var s := PrevStepTracked(e, b, p, index);
      NextStep(e, b, s.pos, s.index) == Step(p, index, true)
  {
    PrevStepTrackedTracks(e, b, p, index);
  }

  /**
   * The whole volume fits the zero skips of a new iterator, and the box
   * `setBounds` makes fits the skips it computes.
   */
  lemma WholeVolumeSkips(e: Extents, b: Bounds)
    requires WholeVolume(e, b) && b.yskip == 0 && b.zskip == 0
    ensures SkipsFit(e, b)
  {
    Translate(e, Coord(b.maxX, 0, 0, 0, 0), Coord(0, 1, 0, 0, 0), -b.maxX, 1, 0);
    Translate(e, Coord(b.maxX, b.maxY, 0, 0, 0), Coord(0, 0, 1, 0, 0), -b.maxX, -b.maxY, 1);
  }

  /** The arguments `setBounds` accepts: a nonempty range [min, max) inside the volume on each axis. */
  predicate BoundsAccepted(e: Extents, xMin: int, xMax: int, yMin: int, yMax: int, zMin: int, zMax: int)
  {
    xMax <= e.maxX && yMax <= e.maxY && zMax <= e.maxZ
    && 0 <= xMin && 0 <= yMin && 0 <= zMin
    && xMin < xMax && yMin < yMax && zMin < zMax
  }

  /**
   * The box `setBounds` sets: inclusive maxima one below the arguments, and
   * the skips measured by `getIndex` between the end of the first row (the
   * first slab) and the start of the next.
   */
  function BoxOf(e: Extents, xMin: int, xMax: int, yMin: int, yMax: int, zMin: int, zMax: int): Bounds
  {
    var mx, my, mz := xMax - 1, yMax - 1, zMax - 1;
    Bounds(xMin, yMin, zMin, mx, my, mz, e.maxTime - 1, e.maxI5 - 1,
      GetIndex(e, Coord(xMin, yMin + 1, zMin, 0, 0)) - GetIndex(e, Coord(mx, yMin, zMin, 0, 0)) - 1,
      GetIndex(e, Coord(xMin, yMin, zMin + 1, 0, 0)) - GetIndex(e, Coord(mx, my, zMin, 0, 0)) - 1)
  }

  /**
   * On a volume with at least one time step and one i5 volume, the box of
   * accepted arguments lies in the volume, its skips fit it, and the
   * position `setBounds` leaves the cursor at is in the box, one index
   * before the box's first voxel.
   */
  lemma BoxOfStartsWalk(e: Extents, xMin: int, xMax: int, yMin: int, yMax: int, zMin: int, zMax: int)
    requires BoundsAccepted(e, xMin, xMax, yMin, yMax, zMin, zMax) && e.maxTime > 0 && e.maxI5 > 0
    ensures var b := BoxOf(e, xMin, xMax, yMin, yMax, zMin, zMax);
      BoxIn(e, b) && SkipsFit(e, b) && WithinBox(b, Coord(xMin - 1, yMin, zMin, 0, 0))
      && Offset(e, Coord(xMin - 1, yMin, zMin, 0, 0)) == GetIndex(e, Coord(xMin, yMin, zMin, 0, 0)) - 1
  {
    RowOffset(e, Coord(xMin, yMin, zMin, 0, 0), -1);
  }

  class IndexedIterator {
    /** The volume iterated over. */
    const data: IndexedVolumeArray
    const ext: Extents
    /** The index of the current voxel. */
    var index: int
    /** The coordinates x, y, z, t and i5 of the current voxel. */
    var pos: Coord
    /** The iterated box, with `maxT`, `maxI5`, `yskip` and `zskip`. */
    var box: Bounds
    /** `getIndex` of the unit vectors: the strides of the axis moves. */
    const right: int
    const down: int
    const inward: int
    const forward: int
    /** The i5 stride; the source never assigns it, so it stays 0. */
    const nextI5: int
    var maxindex: int
    var minIndex: int

    ghost predicate Valid()
      reads this, data, data.data
    {
      data.Valid() && ext == data.ext
      && box.maxT == ext.maxTime - 1 && box.maxI5 == ext.maxI5 - 1
      && right == GetIndex(ext, Coord(1, 0, 0, 0, 0)) && down == GetIndex(ext, Coord(0, 1, 0, 0, 0))
      && inward == GetIndex(ext, Coord(0, 0, 1, 0, 0)) && forward == GetIndex(ext, Coord(0, 0, 0, 1, 0))
      && nextI5 == 0
    }

    /** `maxindex` and `minIndex` are the indices of the box's last and first voxels. */
    ghost predicate Ends()
      reads this
    {
      maxindex == GetIndex(ext, Coord(box.maxX, box.maxY, box.maxZ, box.maxT, box.maxI5))
      && minIndex == GetIndex(ext, Coord(box.minX, box.minY, box.minZ, 0, 0))
    }

    /** The index is the offset of the coordinates. */
    ghost predicate Tracks()
      reads this
    {
      index == Offset(ext, pos)
    }

    /** The box is inside the volume, the skips fit it, and the cursor is in it. */
    ghost predicate Walking()
      reads this
    {
      BoxIn(ext, box) && SkipsFit(ext, box) && WithinBox(box, pos)
    }

    /**
     * `IndexedIterator(x, y, z, t, i5, data)`: the index is `getIndex` of the
     * given voxel, the box is the whole volume and both skips are 0. The i5
     * argument goes into the index but is not stored: the i5 field stays 0.
     */
    constructor(c: Coord, data: IndexedVolumeArray)
      requires data.Valid()
      ensures Valid() && Ends() && this.data == data
      ensures index == GetIndex(data.ext, c) && pos == c.(i5 := 0)
      ensures WholeVolume(ext, box) && box.yskip == 0 && box.zskip == 0 && SkipsFit(ext, box)
      ensures Positive(ext) ==> BoxIn(ext, box)
    {
      this.data := data;
      ext := data.ext;
      index := GetIndex(data.ext, c);
      pos := c.(i5 := 0);
      box := Bounds(0, 0, 0, data.ext.maxX - 1, data.ext.maxY - 1, data.ext.maxZ - 1,
        data.ext.maxTime - 1, data.ext.maxI5 - 1, 0, 0);
      nextI5 := 0;
      down := GetIndex(data.ext, Coord(0, 1, 0, 0, 0));
      right := GetIndex(data.ext, Coord(1, 0, 0, 0, 0));
      inward := GetIndex(data.ext, Coord(0, 0, 1, 0, 0));
      forward := GetIndex(data.ext, Coord(0, 0, 0, 1, 0));
      new;
      maxindex := GetIndex(ext, Coord(box.maxX, box.maxY, box.maxZ, box.maxT, box.maxI5));
      minIndex := GetIndex(ext, Coord(0, 0, 0, 0, 0));
      WholeVolumeSkips(ext, box);
    }

    /**
     * The cursor positioned just before `c`, with the index and every
     * coordinate of `c` kept: the start the iterator of a volume is meant to
     * have.
     */
    constructor Before(c: Coord, data: IndexedVolumeArray)
      requires data.Valid()
      ensures Valid() && Ends() && this.data == data
      ensures pos == c.(x := c.x - 1) && Tracks()
      ensures WholeVolume(ext, box) && box.yskip == 0 && box.zskip == 0
      ensures InRange(ext, c) ==> Walking()
    {
      this.data := data;
      ext := data.ext;
      index := Offset(data.ext, c.(x := c.x - 1));
      pos := c.(x := c.x - 1);
      box := Bounds(0, 0, 0, data.ext.maxX - 1, data.ext.maxY - 1, data.ext.maxZ - 1,
        data.ext.maxTime - 1, data.ext.maxI5 - 1, 0, 0);
      nextI5 := 0;
      down := GetIndex(data.ext, Coord(0, 1, 0, 0, 0));
      right := GetIndex(data.ext, Coord(1, 0, 0, 0, 0));
      inward := GetIndex(data.ext, Coord(0, 0, 1, 0, 0));
      forward := GetIndex(data.ext, Coord(0, 0, 0, 1, 0));
      new;
      maxindex := GetIndex(ext, Coord(box.maxX, box.maxY, box.maxZ, box.maxT, box.maxI5));
      minIndex := GetIndex(ext, Coord(0, 0, 0, 0, 0));
      WholeVolumeSkips(ext, box);
    }

    /** `goNext()`, as `NextStep` describes it; it returns the new index or throws NoSuchElement. */
    method GoNext() returns (r: Result<int>)
      requires Valid()
      modifies this
      ensures Valid() && box == old(box) && maxindex == old(maxindex) && minIndex == old(minIndex)
      ensures Step(pos, index, r.Ok?) == NextStep(ext, box, old(pos), old(index))
      ensures r.Ok? ==> r.value == index
      ensures r.Fail? ==> r.error == NoSuchElement
    {
      index := index + 1;
      if pos.x < box.maxX {
        pos := pos.(x := pos.x + 1);
      } else if pos.y < box.maxY {
        pos := pos.(x := box.minX, y := pos.y + 1);
        index := index + box.yskip;
      } else if pos.z < box.maxZ {
        pos := pos.(x := box.minX, y := box.minY, z := pos.z + 1);
        index := index + box.zskip;
      } else if pos.t < box.maxT {
        pos := pos.(x := box.minX, y := box.minY, z := box.minZ, t := pos.t + 1);
        index := GetIndex(ext, pos);
      } else {
        return Fail(NoSuchElement);
      }
      r := Ok(index);
    }

    /**
     * `nextInt()`: moves to the next voxel and reads it. On a tracked walk it
     * throws exactly at the box's last voxel, and otherwise reads the
     * volume's value at the new coordinates.
     */
    method NextInt() returns (r: Result<int>)
      requires Valid()
      modifies this
      ensures Valid() && box == old(box) && maxindex == old(maxindex) && minIndex == old(minIndex)
      ensures var s := NextStep(ext, box, old(pos), old(index));
        pos == s.pos && index == s.index
        && (s.moved ==> r == data.GetInt(index)) && (!s.moved ==> r == Fail(NoSuchElement))
      ensures old(Walking() && Tracks()) ==>
        (r.Ok? <==> !LastOf(box, old(pos)))
        && (r.Ok? ==> Walking() && Tracks() && r.value == data.GetIntAt(pos))
    {
      ghost var p, i := pos, index;
      var next := GoNext();
      if next.Fail? {
        return Fail(next.error);
      }
      if old(Walking() && Tracks()) {
        NextStepTracks(ext, box, p, i);
      }
      r := data.GetInt(next.value);
    }

    /** `goPrev()`, as `PrevStep` describes it. */
    method GoPrev() returns (r: Result<int>)
      requires Valid()
      modifies this
      ensures Valid() && box == old(box) && maxindex == old(maxindex) && minIndex == old(minIndex)
      ensures Step(pos, index, r.Ok?) == PrevStep(box, old(pos), old(index))
      ensures r.Ok? ==> r.value == index
      ensures r.Fail? ==> r.error == NoSuchElement
    {
      index := index - 1;
      if pos.x > box.minX {
        pos := pos.(x := pos.x - 1);
      } else if pos.y > box.minY {
        pos := pos.(x := box.maxX, y := pos.y - 1);
      } else if pos.z > box.minZ {
        pos := pos.(x := box.maxX, y := box.maxY, z := pos.z - 1);
      } else if pos.t > 0 {
        pos := pos.(x := box.maxX, y := box.maxY, z := box.maxZ, t := pos.t - 1);
      } else {
        return Fail(NoSuchElement);
      }
      r := Ok(index);
    }

    /** `goPrev()` corrected to undo the skips, as `PrevStepTracked` describes it. */
    method GoPrevTracked() returns (r: Result<int>)
      requires Valid()
      modifies this
      ensures Valid() && box == old(box) && maxindex == old(maxindex) && minIndex == old(minIndex)
      ensures Step(pos, index, r.Ok?) == PrevStepTracked(ext, box, old(pos), old(index))
      ensures r.Ok? ==> r.value == index
      ensures r.Fail? ==> r.error == NoSuchElement
    {
      index := index - 1;
      if pos.x > box.minX {
        pos := pos.(x := pos.x - 1);
      } else if pos.y > box.minY {
        pos := pos.(x := box.maxX, y := pos.y - 1);
        index := index - box.yskip;
      } else if pos.z > box.minZ {
        pos := pos.(x := box.maxX, y := box.maxY, z := pos.z - 1);
        index := index - box.zskip;
      } else if pos.t > 0 {
        pos := pos.(x := box.maxX, y := box.maxY, z := box.maxZ, t := pos.t - 1);
        index := GetIndex(ext, pos);
      } else {
        return Fail(NoSuchElement);
      }
      r := Ok(index);
    }

    /** `hasNext()`: the index is below that of the box's last voxel. */
    function HasNext(): bool
      reads this
    {
      index < maxindex
    }

    /**
     * On a tracked walk in the last i5 volume, `hasNext()` holds exactly
     * when `goNext()` would not throw: the cursor is not at the box's last
     * voxel.
     */
    lemma HasNextIffNotLast()
      requires Valid() && Ends() && Walking() && Tracks() && pos.i5 == box.maxI5
      ensures HasNext() <==> !LastOf(box, pos)
    {
      var last := Coord(box.maxX, box.maxY, box.maxZ, box.maxT, box.maxI5);
      assert InRange(ext, last);
      OffsetBelow(ext, pos, last);
    }

    /**
     * `setBounds(x_min, x_max, y_min, y_max, z_min, z_max)`: a maximum above
     * the volume, a negative minimum or an empty range is an illegal
     * argument and changes nothing. Otherwise the box becomes `BoxOf` the
     * arguments, and the cursor is put just before the box's first voxel of
     * time step 0, i5 volume 0.
     */
    method SetBounds(xMin: int, xMax: int, yMin: int, yMax: int, zMin: int, zMax: int) returns (out: Outcome)
      requires Valid()
      modifies this
      ensures Valid()
      ensures out == Done <==> BoundsAccepted(ext, xMin, xMax, yMin, yMax, zMin, zMax)
      ensures out != Done ==> out == Thrown(IllegalArgument) && unchanged(this)
      ensures out == Done ==>
        box == BoxOf(ext, xMin, xMax, yMin, yMax, zMin, zMax)
        && pos == Coord(xMin - 1, yMin, zMin, 0, 0) && index == minIndex - 1 && Ends()
    {
      if xMax > ext.maxX || yMax > ext.maxY || zMax > ext.maxZ {
        return Thrown(IllegalArgument);
      }
      if xMin < 0 || yMin < 0 || zMin < 0 {
        return Thrown(IllegalArgument);
      }
      if xMax <= xMin || yMax <= yMin || zMax <= zMin {
        return Thrown(IllegalArgument);
      }
      box := BoxOf(ext, xMin, xMax, yMin, yMax, zMin, zMax);
      maxindex := GetIndex(ext, Coord(box.maxX, box.maxY, box.maxZ, box.maxT, box.maxI5));
      minIndex := GetIndex(ext, Coord(box.minX, box.minY, box.minZ, 0, 0));
      index := minIndex - 1;
      pos := Coord(box.minX - 1, box.minY, box.minZ, 0, 0);
      out := Done;
    }

    /** `goRight()`: x up by one, the index by the x stride. */
    method GoRight() returns (r: int)
      requires Valid()
      modifies this
      ensures Valid() && box == old(box) && maxindex == old(maxindex) && minIndex == old(minIndex)
      ensures pos == old(pos).(x := old(pos.x) + 1) && index == old(index) + right && r == index
      ensures old(Walking() && Tracks() && OnBox(box, pos)) && old(pos.x) < box.maxX ==> Walking() && Tracks()
    {
      if Walking() && OnBox(box, pos) && pos.x < box.maxX {
        assert right == 1;
      }
      pos := pos.(x := pos.x + 1);
      index := index + right;
      r := index;
    }

    /** `goLeft()`: x down by one, the index by the x stride. */
    method GoLeft() returns (r: int)
      requires Valid()
      modifies this
      ensures Valid() && box == old(box) && maxindex == old(maxindex) && minIndex == old(minIndex)
      ensures pos == old(pos).(x := old(pos.x) - 1) && index == old(index) - right && r == index
      ensures old(Walking() && Tracks() && OnBox(box, pos)) && old(pos.x) > box.minX ==> Walking() && Tracks()
    {
      if Walking() && OnBox(box, pos) && pos.x > box.minX {
        assert right == 1;
      }
      pos := pos.(x := pos.x - 1);
      index := index - right;
      r := index;
    }

    /** `goDown()`: y up by one, the index by the y stride. */
    method GoDown() returns (r: int)
      requires Valid()
      modifies this
      ensures Valid() && box == old(box) && maxindex == old(maxindex) && minIndex == old(minIndex)
      ensures pos == old(pos).(y := old(pos.y) + 1) && index == old(index) + down && r == index
      ensures old(Walking() && Tracks() && OnBox(box, pos)) && old(pos.y) < box.maxY ==> Walking() && Tracks()
    {
      if Walking() && OnBox(box, pos) && pos.y < box.maxY {
        assert down == ext.maxX;
        Strides(ext, pos);
      }
      pos := pos.(y := pos.y + 1);
      index := index + down;
      r := index;
    }

    /** `goUp()`: y down by one, the index by the y stride. */
    method GoUp() returns (r: int)
      requires Valid()
      modifies this
      ensures Valid() && box == old(box) && maxindex == old(maxindex) && minIndex == old(minIndex)
      ensures pos == old(pos).(y := old(pos.y) - 1) && index == old(index) - down && r == index
      ensures old(Walking() && Tracks() && OnBox(box, pos)) && old(pos.y) > box.minY ==> Walking() && Tracks()
    {
      if Walking() && OnBox(box, pos) && pos.y > box.minY {
        assert down == ext.maxX;
        Strides(ext, pos.(y := pos.y - 1));
      }
      pos := pos.(y := pos.y - 1);
      index := index - down;
      r := index;
    }

    /** `goIn()`: z up by one, the index by the z stride. */
    method GoIn() returns (r: int)
      requires Valid()
      modifies this
      ensures Valid() && box == old(box) && maxindex == old(maxindex) && minIndex == old(minIndex)
      ensures pos == old(pos).(z := old(pos.z) + 1) && index == old(index) + inward && r == index
      ensures old(Walking() && Tracks() && OnBox(box, pos)) && old(pos.z) < box.maxZ ==> Walking() && Tracks()
    {
      if Walking() && OnBox(box, pos) && pos.z < box.maxZ {
        assert inward == ext.maxY * ext.maxX;
        Strides(ext, pos);
      }
      pos := pos.(z := pos.z + 1);
      index := index + inward;
      r := index;
    }

    /** `goOut()`: z down by one, the index by the z stride. */
    method GoOut() returns (r: int)
      requires Valid()
      modifies this
      ensures Valid() && box == old(box) && maxindex == old(maxindex) && minIndex == old(minIndex)
      ensures pos == old(pos).(z := old(pos.z) - 1) && index == old(index) - inward && r == index
      ensures old(Walking() && Tracks() && OnBox(box, pos)) && old(pos.z) > box.minZ ==> Walking() && Tracks()
    {
      if Walking() && OnBox(box, pos) && pos.z > box.minZ {
        assert inward == ext.maxY * ext.maxX;
        Strides(ext, pos.(z := pos.z - 1));
      }
      pos := pos.(z := pos.z - 1);
      index := index - inward;
      r := index;
    }

    /** `goForward()`: t up by one, the index by the t stride. */
    method GoForward() returns (r: int)
      requires Valid()
      modifies this
      ensures Valid() && box == old(box) && maxindex == old(maxindex) && minIndex == old(minIndex)
      ensures pos == old(pos).(t := old(pos.t) + 1) && index == old(index) + forward && r == index
      ensures old(Walking() && Tracks() && OnBox(box, pos) && HasForwardStep()) ==> Walking() && Tracks()
    {
      if Walking() && OnBox(box, pos) && HasForwardStep() {
        assert forward == ext.maxZ * ext.maxY * ext.maxX;
        Strides(ext, pos);
      }
      pos := pos.(t := pos.t + 1);
      index := index + forward;
      r := index;
    }

    /** `goBack()`: t down by one, the index by the t stride. */
    method GoBack() returns (r: int)
      requires Valid()
      modifies this
      ensures Valid() && box == old(box) && maxindex == old(maxindex) && minIndex == old(minIndex)
      ensures pos == old(pos).(t := old(pos.t) - 1) && index == old(index) - forward && r == index
      ensures old(Walking() && Tracks() && OnBox(box, pos)) && old(pos.t) > 0 ==> Walking() && Tracks()
    {
      if Walking() && OnBox(box, pos) && pos.t > 0 {
        assert forward == ext.maxZ * ext.maxY * ext.maxX;
        Strides(ext, pos.(t := pos.t - 1));
      }
      pos := pos.(t := pos.t - 1);
      index := index - forward;
      r := index;
    }

    /** `goNextI5()`: i5 up by one and the index by `nextI5`, which is 0. */
    method GoNextI5() returns (r: int)
      requires Valid()
      modifies this
      ensures Valid() && box == old(box) && maxindex == old(maxindex) && minIndex == old(minIndex)
      ensures pos == old(pos).(i5 := old(pos.i5) + 1) && index == old(index) && r == index
    {
      pos := pos.(i5 := pos.i5 + 1);
      index := index + nextI5;
      r := index;
    }

    /** `goPrevI5()`: i5 down by one and the index by `nextI5`, which is 0. */
    method GoPrevI5() returns (r: int)
      requires Valid()
      modifies this
      ensures Valid() && box == old(box) && maxindex == old(maxindex) && minIndex == old(minIndex)
      ensures pos == old(pos).(i5 := old(pos.i5) - 1) && index == old(index) && r == index
    {
      pos := pos.(i5 := pos.i5 - 1);
      index := index - nextI5;
      r := index;
    }

    /** `hasForward()`: t is at most the last time step. */
    function HasForward(): bool
      reads this
    {
      pos.t <= box.maxT
    }

    /**
     * On the last time step `hasForward()` still holds, although the voxel
     * one step forward is outside the volume.
     */
    lemma HasForwardAtLastStep()
      requires Valid() && OnBox(box, pos) && pos.t == box.maxT
      ensures HasForward() && !HasForwardStep()
      ensures !InRange(ext, pos.(t := pos.t + 1))
    {
    }

    /** Whether a time step after the current one exists. */
    function HasForwardStep(): (b: bool)
      reads this
      ensures b <==> pos.t + 1 <= box.maxT
    {
      pos.t < box.maxT
    }
  }

  /**
   * `iterator(i, j, k, time, i5)` of an indexed volume: an iterator built at
   * (i - 1, j, k, time, i5), so that the first `goNext()` lands on (i, j, k,
   * time, i5).
   */
  method Iterator(va: IndexedVolumeArray, c: Coord) returns (it: IndexedIterator)
    requires va.Valid()
    ensures fresh(it) && it.Valid() && it.data == va
    ensures it.pos == Coord(c.x - 1, c.y, c.z, c.t, 0) && it.index == GetIndex(va.ext, c.(x := c.x - 1))
  {
    it := new IndexedIterator(c.(x := c.x - 1), va);
  }

  /**
   * As `iterator(i, j, k, time, i5)` starts: for i = 0 the voxel before is
   * outside the volume, so the start index is -1 and the first `goNext()`
   * lands on index 0, which is the index of (0, j, k, time, i5) only at the
   * origin; and for i > 0 with i5 > 0 the start index counts i5 while the
   * stored i5 is 0.
   */
  lemma IteratorStartIndex(e: Extents, c: Coord)
    requires InRange(e, c)
    ensures c.x == 0 ==> GetIndex(e, c.(x := -1)) + 1 == 0
    ensures c.x == 0 ==> (GetIndex(e, c) == 0 <==> c == Coord(0, 0, 0, 0, 0))
    ensures c.x > 0 && c.i5 > 0 ==> GetIndex(e, c.(x := c.x - 1)) != Offset(e, c.(x := c.x - 1, i5 := 0))
  {
    if c.x == 0 && c != Coord(0, 0, 0, 0, 0) {
      OffsetBelow(e, Coord(0, 0, 0, 0, c.i5), c);
      assert Offset(e, Coord(0, 0, 0, 0, c.i5)) >= 0 by {
        assert c.i5 * e.maxTime >= 0;
        assert c.i5 * e.maxTime * e.maxZ >= 0;
        assert c.i5 * e.maxTime * e.maxZ * e.maxY >= 0;
      }
      if c.i5 > 0 {
        I5Stride(e, c.i5);
      }
    }
    if c.x > 0 && c.i5 > 0 {
      var d := c.(x := c.x - 1);
      I5Stride(e, c.i5);
      assert Offset(e, d) - Offset(e, d.(i5 := 0)) == Offset(e, Coord(0, 0, 0, 0, c.i5));
    }
  }

  /** The first voxel of a nonzero i5 volume has a positive offset. */
  lemma I5Stride(e: Extents, i5: int)
    requires e.maxX > 0 && e.maxY > 0 && e.maxZ > 0 && e.maxTime > 0 && i5 > 0
    ensures Offset(e, Coord(0, 0, 0, 0, i5)) > 0
  {
    assert i5 * e.maxTime > 0;
    assert i5 * e.maxTime * e.maxZ > 0;
    assert i5 * e.maxTime * e.maxZ * e.maxY > 0;
  }

  /**
   * `goPrev()` as written loses track at the start of a row of a box
   * narrower than the volume: the index it steps to is not the offset of the
   * coordinates it steps to.
   */
  lemma PrevStepLosesTrack(e: Extents, b: Bounds, p: Coord, index: int)
    requires BoxIn(e, b) && b.maxX - b.minX + 1 < e.maxX
    requires p.x == b.minX && p.y > b.minY && index == Offset(e, p)
    ensures var s := PrevStep(b, p, index); s.moved && s.index != Offset(e, s.pos)
  {
    Translate(e, p.(x := b.maxX, y := p.y - 1), p, b.minX - b.maxX, 1, 0);
  }
}
