// Volumes stored in one flat Java array, indexed by the row-major formula of
// VolumeIndex: the signed byte, unsigned byte and int storage classes, the
// region transfers (getSeries / setSeries) both as the indexed override that
// walks a running index along each row and as the generic per-voxel loops
// of the abstract volume, and the mirrored and atlas views that forward to a
// backing volume.

module Volumes {
  import opened Java
  import opened VolumeIndex
  import opened DataTypes

  /** The storage class behind a volume: `byte[]` read signed, `byte[]` read unsigned, or `int[]`. */
  datatype Storage = ByteStorage | UnsignedByteStorage | IntStorage

  /** Whether `cell` fits the element type of the backing Java array. */
  predicate Holds(s: Storage, cell: int)
  {
    if s == IntStorage then INT_MIN <= cell <= INT_MAX else -0x80 <= cell < 0x80
  }

  /** The values `getInt(index)` can return for the storage class. */
  predicate Readable(s: Storage, v: int)
  {
    match s
    case ByteStorage => -0x80 <= v < 0x80
    case UnsignedByteStorage => 0 <= v < 0x100
    case IntStorage => INT_MIN <= v <= INT_MAX
  }

  /** `getInt(index)` given the array element: the unsigned class adds 256 to a negative byte. */
  function Load(s: Storage, cell: int): (v: int)
    requires Holds(s, cell)
    ensures Readable(s, v)
  {
    if s == UnsignedByteStorage && cell < 0 then 256 + cell else cell
  }

  /**
   * The array element `setData(index, v)` stores: `(byte) v` for signed
   * bytes, `(byte) (v & 0xff)` for unsigned bytes, `v` itself for ints.
   */
  function Store(s: Storage, v: i32): (cell: int)
    ensures Holds(s, cell)
  {
    match s
    case ByteStorage => ToByte(v)
    case UnsignedByteStorage => ToByte(v % 0x100)
    case IntStorage => v
  }

  /**
   * What a write followed by a read gives back: the low byte read signed,
   * the low byte read unsigned (`v & 0xff`), or the int unchanged.
   */
  lemma LoadStore(s: Storage, v: i32)
    ensures s == ByteStorage ==> Load(s, Store(s, v)) == ToByte(v)
    ensures s == UnsignedByteStorage ==> Load(s, Store(s, v)) == v % 0x100
    ensures s == IntStorage ==> Load(s, Store(s, v)) == v
    ensures Readable(s, v) ==> Load(s, Store(s, v)) == v
  {
    if s == UnsignedByteStorage {
      var m := v % 0x100;
      assert ToByte(m) == if m >= 0x80 then m - 0x100 else m;
    }
  }

  /** Every readable value is read back from the element it is stored as, and only from it. */
  lemma StoreLoad(s: Storage, cell: int)
    requires Holds(s, cell)
    ensures Store(s, Load(s, cell)) == cell
  {
  }

  /** `getNaturalType()`: all three storage classes compute in ints. */
  function NaturalType(s: Storage): (t: DataType)
    ensures t == TYPE_INT
  {
    TYPE_INT
  }

  /** `getType()`: the element type of the backing array. */
  function StorageType(s: Storage): (t: DataType)
    ensures t.BitsPerEntry() == if s == IntStorage then 32 else 8
    ensures s == UnsignedByteStorage <==> t == TYPE_UBYTE
  {
    match s
    case ByteStorage => TYPE_BYTE
    case UnsignedByteStorage => TYPE_UBYTE
    case IntStorage => TYPE_INT
  }

  /**
   * What a region transfer left behind: the first `n` values of the region
   * are stored at their voxels, and every cell no such voxel maps to keeps
   * its old content.
   */
  ghost predicate WroteSeries(e: Extents, s: Storage, before: seq<int>, after: seq<int>, r: Region, values: seq<i32>, n: int)
  {
    NonNegative(r.box) && 0 <= n <= Size(r.box) && n <= |values| && |after| == |before|
    && (forall p :: 0 <= p < n ==> InRange(e, At(r, p)) && 0 <= GetIndex(e, At(r, p)) < |after|)
    && (forall p :: 0 <= p < n ==> after[GetIndex(e, At(r, p))] == Store(s, values[p]))
    && (forall q :: 0 <= q < |after| && (forall p :: 0 <= p < n ==> GetIndex(e, At(r, p)) != q) ==> after[q] == before[q])
  }

  /** The region's voxels before `n` are all in the volume. */
  ghost predicate AllInRange(e: Extents, r: Region, n: int)
    requires NonNegative(r.box) && n <= Size(r.box)
  {
    forall p :: 0 <= p < n ==> InRange(e, At(r, p))
  }

  /**
   * One more write keeps the account: storing the n-th value at the n-th
   * voxel disturbs none of the earlier ones, because distinct positions of a
   * region are distinct voxels.
   */
  lemma WroteSeriesStep(e: Extents, s: Storage, before: seq<int>, after: seq<int>, r: Region, values: seq<i32>, n: int)
    requires NonNegative(e) && WroteSeries(e, s, before, after, r, values, n)
    requires n < Size(r.box) && n < |values| && InRange(e, At(r, n)) && |after| == Size(e)
    ensures WroteSeries(e, s, before, after[GetIndex(e, At(r, n)) := Store(s, values[n])], r, values, n + 1)
  {
    var i := GetIndex(e, At(r, n));
    var next := after[i := Store(s, values[n])];
    forall p | 0 <= p < n
      ensures GetIndex(e, At(r, p)) != i
    {
      if GetIndex(e, At(r, p)) == i {
        GetIndexInjective(e, At(r, p), At(r, n));
        AtInjective(r, p, n);
      }
    }
    forall q | 0 <= q < |next| && (forall p :: 0 <= p < n + 1 ==> GetIndex(e, At(r, p)) != q)
      ensures next[q] == before[q]
    {
      assert GetIndex(e, At(r, n)) != q;
    }
  }


  // ---------------------------------------------------------------------
  // The flat walk of the indexed series methods. Each row starts from
  // `getIndex` of its first voxel (-1 when that voxel is outside the
  // volume) and then steps the array index by one per position, so a row
  // that overhangs the volume runs on into the cells that follow in the
  // array instead of being clipped.

  /** The array index the indexed `getSeries`/`setSeries` touch at position `p` of a region. */
  ghost function WalkIndex(e: Extents, r: Region, p: int): int
    requires NonNegative(r.box) && 0 <= p < Size(r.box)
  {
    var c := At(r, p);
    GetIndex(e, c.(x := r.origin.x)) + (c.x - r.origin.x)
  }

  /** Position `p` of the walk finds its cell in an array of `len` cells and its slot in a buffer of `room`. */
  ghost predicate Fits(e: Extents, r: Region, p: int, len: int, room: int)
    requires NonNegative(r.box) && 0 <= p < Size(r.box)
  {
    0 <= WalkIndex(e, r, p) < len && p < room
  }

  /** Every position of the walk before `n` fits. */
  ghost predicate WalkFits(e: Extents, r: Region, n: int, len: int, room: int)
  {
    NonNegative(r.box) && 0 <= n <= Size(r.box)
    && forall q :: 0 <= q < n ==> 0 <= WalkIndex(e, r, q) < len && q < room
  }

  /** The first position, from `p` on, whose access throws; the size when none does. */
  ghost function Reached(e: Extents, r: Region, len: int, room: int, p: int): (k: int)
    requires NonNegative(r.box) && 0 <= p <= Size(r.box)
    ensures p <= k <= Size(r.box)
    ensures forall q :: p <= q < k ==> 0 <= WalkIndex(e, r, q) < len && q < room
    ensures k < Size(r.box) ==> !Fits(e, r, k, len, room)
    decreases Size(r.box) - p
  {
    if p == Size(r.box) || !Fits(e, r, p, len, room) then p else Reached(e, r, len, room, p + 1)
  }

  /** A position with every earlier one fitting and itself not fitting (or the end) is where the walk stops. */
  lemma {:induction false} ReachedIs(e: Extents, r: Region, len: int, room: int, p: int, k: int)
    requires NonNegative(r.box) && 0 <= p <= k <= Size(r.box)
    requires forall q :: p <= q < k ==> Fits(e, r, q, len, room)
    requires k < Size(r.box) ==> !Fits(e, r, k, len, room)
    ensures Reached(e, r, len, room, p) == k
    decreases k - p
  {
    if p < k {
      ReachedIs(e, r, len, room, p + 1, k);
    }
  }

  /**
   * The array after the first `n` writes of the walk, in order: a cell the
   * walk reaches twice keeps the later value.
   */
  ghost function Written(e: Extents, s: Storage, before: seq<int>, r: Region, values: seq<i32>, n: int): (after: seq<int>)
    requires WalkFits(e, r, n, |before|, |values|)
    ensures |after| == |before|
    decreases n
  {
    if n == 0 then before
    else Written(e, s, before, r, values, n - 1)[WalkIndex(e, r, n - 1) := Store(s, values[n - 1])]
  }

  /**
   * A row whose first voxel is in the volume is walked at the flat offsets
   * of its voxels, even past the end of the volume's row: the overhang lands
   * on the voxels that follow in the array.
   */
  lemma WalkOffset(e: Extents, r: Region, p: int)
    requires NonNegative(r.box) && 0 <= p < Size(r.box) && InRange(e, At(r, p).(x := r.origin.x))
    ensures WalkIndex(e, r, p) == Offset(e, At(r, p))
  {
    var c := At(r, p);
    RowOffset(e, c.(x := r.origin.x), c.x - r.origin.x);
    assert c.(x := r.origin.x).(x := r.origin.x + (c.x - r.origin.x)) == c;
  }

  /** A row whose first voxel is outside the volume throws at its first position. */
  lemma WalkOutside(e: Extents, r: Region, p: int, len: int, room: int)
    requires NonNegative(r.box) && 0 <= p < Size(r.box) && At(r, p).x == r.origin.x && !InRange(e, At(r, p))
    ensures !Fits(e, r, p, len, room)
  {
    assert At(r, p).(x := r.origin.x) == At(r, p);
  }

  /** Inside the volume the walk visits exactly the region's voxels. */
  lemma WalkInside(e: Extents, r: Region, p: int)
    requires NonNegative(e) && Inside(e, r) && 0 <= p < Size(r.box)
    ensures InRange(e, At(r, p)) && WalkIndex(e, r, p) == GetIndex(e, At(r, p))
    ensures 0 <= WalkIndex(e, r, p) < Size(e)
  {
    var c := At(r, p);
    assert InRange(e, c) && 0 <= GetIndex(e, c) < Size(e) && GetIndex(e, c) == RegionIndex(e, r, p);
    assert InRange(e, c.(x := r.origin.x));
    WalkOffset(e, r, p);
  }

  /** A region inside the volume, with room for all its values, is walked to the end. */
  lemma InsideReachesEnd(e: Extents, r: Region, len: int, room: int)
    requires NonNegative(e) && Inside(e, r) && len == Size(e) && Size(r.box) <= room
    ensures Reached(e, r, len, room, 0) == Size(r.box)
  {
    forall q | 0 <= q < Size(r.box)
      ensures Fits(e, r, q, len, room)
    {
      WalkInside(e, r, q);
    }
    ReachedIs(e, r, len, room, 0, Size(r.box));
  }

  /** Inside the volume every position of the walk fits an array of the volume's size. */
  lemma InsideFits(e: Extents, r: Region, len: int, room: int, n: int)
    requires NonNegative(e) && Inside(e, r) && len == Size(e)
    requires 0 <= n <= Size(r.box) && n <= room
    ensures WalkFits(e, r, n, len, room)
  {
    forall q | 0 <= q < n
      ensures 0 <= WalkIndex(e, r, q) < len
    {
      WalkInside(e, r, q);
    }
  }

  /**
   * Inside the volume the ordered writes are the region transfer: each value
   * at its own voxel, every other cell unchanged.
   */
  lemma {:induction false} WrittenInside(e: Extents, s: Storage, before: seq<int>, r: Region, values: seq<i32>, n: int)
    requires NonNegative(e) && Inside(e, r) && |before| == Size(e)
    requires 0 <= n <= Size(r.box) && n <= |values|
    ensures WalkFits(e, r, n, |before|, |values|)
    ensures WroteSeries(e, s, before, Written(e, s, before, r, values, n), r, values, n)
    decreases n
  {
    InsideFits(e, r, |before|, |values|, n);
    if n == 0 {
      assert WroteSeries(e, s, before, before, r, values, 0);
    } else {
      var k := n - 1;
      WrittenInside(e, s, before, r, values, k);
      var prev := Written(e, s, before, r, values, k);
      WalkInside(e, r, k);
      WroteSeriesStep(e, s, before, prev, r, values, k);
      assert Written(e, s, before, r, values, k + 1) == prev[GetIndex(e, At(r, k)) := Store(s, values[k])];
    }
  }

  class IndexedVolumeArray {
    const ext: Extents
    const storage: Storage
    /** The Java array; the reference never changes, its elements do. */
    const data: array<int>

    ghost predicate Valid()
      reads this, data
    {
      NonNegative(ext) && data.Length == Size(ext)
      && forall i :: 0 <= i < data.Length ==> Holds(storage, data[i])
    }

    constructor(ext: Extents, storage: Storage, data: array<int>)
      requires NonNegative(ext) && data.Length == Size(ext)
      requires forall i :: 0 <= i < data.Length ==> Holds(storage, data[i])
      ensures Valid() && this.ext == ext && this.storage == storage && this.data == data
    {
      this.ext := ext;
      this.storage := storage;
      this.data := data;
    }

    /** `getDataArray()`: the backing array itself, not a copy. */
    function GetDataArray(): (a: array<int>)
      reads this
      ensures a == data
    {
      data
    }

    /** The first `n` entries of `rv` hold the region's values in visiting order, as `getInt(i, j, k, l, m)` reads them. */
    ghost predicate Filled(rv: array<int>, r: Region, n: int)
      reads this, data, rv
    {
      Valid() && NonNegative(r.box) && 0 <= n <= Size(r.box) && n <= rv.Length
      && forall p :: 0 <= p < n ==> rv[p] == GetIntAt(At(r, p))
    }

    /** `getInt(index)`: the element at `index` widened by the storage class; an index outside the array throws. */
    function GetInt(index: int): (r: Result<int>)
      reads this, data
      requires Valid()
      ensures r.Ok? <==> 0 <= index < data.Length
      ensures r.Fail? ==> r.error == IndexOutOfBounds
      ensures r.Ok? ==> Readable(storage, r.value)
    {
      if 0 <= index < data.Length then Ok(Load(storage, data[index])) else Fail(IndexOutOfBounds)
    }

    /** `getInt(x, y, z, t, i5)`: 0 outside the volume, otherwise the element at `getIndex`. */
    function GetIntAt(c: Coord): (v: int)
      reads this, data
      requires Valid()
      ensures !InRange(ext, c) ==> v == 0
      ensures InRange(ext, c) ==> GetInt(GetIndex(ext, c)) == Ok(v)
    {
      var index := GetIndex(ext, c);
      if index == -1 then 0 else Load(storage, data[index])
    }

    /** `setData(index, v)`: writes the stored form of `v` at `index` and nowhere else. */
    method SetData(index: int, v: i32) returns (out: Outcome)
      requires Valid()
      modifies data
      ensures Valid()
      ensures out == (if 0 <= index < data.Length then Done else Thrown(IndexOutOfBounds))
      ensures out == Done ==> data[..] == old(data[..])[index := Store(storage, v)]
      ensures out != Done ==> data[..] == old(data[..])
    {
      if 0 <= index < data.Length {
        data[index] := Store(storage, v);
        out := Done;
      } else {
        out := Thrown(IndexOutOfBounds);
      }
    }

    /** `setData(x, y, z, t, i5, v)`: a voxel outside the volume throws; otherwise only its element changes. */
    method SetDataAt(c: Coord, v: i32) returns (out: Outcome)
      requires Valid()
      modifies data
      ensures Valid()
      ensures out == (if InRange(ext, c) then Done else Thrown(IndexOutOfBounds))
      ensures out == Done ==> data[..] == old(data[..])[GetIndex(ext, c) := Store(storage, v)]
      ensures out != Done ==> data[..] == old(data[..])
    {
      var index := GetIndex(ext, c);
      if index < 0 {
        out := Thrown(IndexOutOfBounds);
      } else {
        out := SetData(index, v);
      }
    }

    /** A value the storage class can represent reads back unchanged after it is written. */
    lemma SetThenGet(c: Coord, v: i32, before: seq<int>)
      requires Valid() && InRange(ext, c) && Readable(storage, v)
      requires |before| == data.Length && data[..] == before[GetIndex(ext, c) := Store(storage, v)]
      ensures GetIntAt(c) == v
    {
      assert data[GetIndex(ext, c)] == Store(storage, v);
      LoadStore(storage, v);
    }

    /** The first `n` entries of `rv` hold what the walk read, each position from its cell of the array. */
    ghost predicate Walked(rv: array<int>, r: Region, n: int)
      reads this, data, rv
    {
      Valid() && WalkFits(ext, r, n, data.Length, rv.Length) && n <= rv.Length
      && forall p :: 0 <= p < n ==> rv[p] == Load(storage, data[WalkIndex(ext, r, p)])
    }

    /**
     * The indexed `getSeries(rv, x0, ..., i5_count)`: i5 outermost and x
     * innermost, each row read by stepping an index from
     * `getIndex(x0, j, k, l, m)`. The walk stops at the first position whose
     * index is outside the array or whose slot is past the end of `rv`,
     * throwing IndexOutOfBounds with the earlier positions already stored. A
     * negative extent leaves one of the loops empty, so nothing is read.
     */
    method GetSeries(rv: array<int>, r: Region) returns (out: Outcome)
      requires Valid() && rv != data
      modifies rv
      ensures !NonNegative(r.box) ==> out == Done && rv[..] == old(rv[..])
      ensures NonNegative(r.box) ==> out == (if Reached(ext, r, data.Length, rv.Length, 0) == Size(r.box) then Done else Thrown(IndexOutOfBounds))
      ensures NonNegative(r.box) ==> Walked(rv, r, Reached(ext, r, data.Length, rv.Length, 0))
      ensures NonNegative(r.box) ==> forall q :: Reached(ext, r, data.Length, rv.Length, 0) <= q < rv.Length ==> rv[q] == old(rv[q])
    {
      var o, b := r.origin, r.box;
      if !NonNegative(b) {
        return Done;
      }
      SizeNonNegative(b);
      var rindex := 0;
      var m := o.i5;
      while m < b.maxI5 + o.i5
        invariant o.i5 <= m <= o.i5 + b.maxI5
        invariant rindex == Offset(b, Coord(0, 0, 0, 0, m - o.i5))
        invariant Walked(rv, r, rindex)
        invariant forall q :: rindex <= q < rv.Length ==> rv[q] == old(rv[q])
      {
        var l := o.t;
        while l < b.maxTime + o.t
          invariant o.t <= l <= o.t + b.maxTime
          invariant rindex == Offset(b, Coord(0, 0, 0, l - o.t, m - o.i5))
          invariant Walked(rv, r, rindex)
          invariant forall q :: rindex <= q < rv.Length ==> rv[q] == old(rv[q])
        {
          var k := o.z;
          while k < b.maxZ + o.z
            invariant o.z <= k <= o.z + b.maxZ
            invariant rindex == Offset(b, Coord(0, 0, k - o.z, l - o.t, m - o.i5))
            invariant Walked(rv, r, rindex)
            invariant forall q :: rindex <= q < rv.Length ==> rv[q] == old(rv[q])
          {
            var j := o.y;
            while j < b.maxY + o.y
              invariant o.y <= j <= o.y + b.maxY
              invariant rindex == Offset(b, Coord(0, j - o.y, k - o.z, l - o.t, m - o.i5))
              invariant Walked(rv, r, rindex)
              invariant forall q :: rindex <= q < rv.Length ==> rv[q] == old(rv[q])
            {
              rindex, out := ReadRow(rv, r, Coord(o.x, j, k, l, m), rindex);
              if out != Done {
                ReachedIs(ext, r, data.Length, rv.Length, 0, rindex);
                return;
              }
              j := j + 1;
            }
            CarryY(b, Coord(0, j - o.y, k - o.z, l - o.t, m - o.i5));
            k := k + 1;
          }
          CarryZ(b, Coord(0, 0, k - o.z, l - o.t, m - o.i5));
          l := l + 1;
        }
        CarryT(b, Coord(0, 0, 0, l - o.t, m - o.i5));
        m := m + 1;
      }
      OffsetEnd(b);
      ReachedIs(ext, r, data.Length, rv.Length, 0, rindex);
      out := Done;
    }

    /**
     * The innermost loop of `getSeries`: one row of the region, from its
     * first voxel `c`, stopping at the position that throws.
     */
    method ReadRow(rv: array<int>, r: Region, c: Coord, start: int) returns (rindex: int, out: Outcome)
      requires rv != data && NonNegative(r.box)
      requires c.x == r.origin.x && 0 <= c.y - r.origin.y < r.box.maxY && 0 <= c.z - r.origin.z < r.box.maxZ
      requires 0 <= c.t - r.origin.t < r.box.maxTime && 0 <= c.i5 - r.origin.i5 < r.box.maxI5
      requires start == Offset(r.box, Coord(0, c.y - r.origin.y, c.z - r.origin.z, c.t - r.origin.t, c.i5 - r.origin.i5))
      requires Walked(rv, r, start)
      modifies rv
      ensures Walked(rv, r, rindex)
      ensures start <= rindex && (out == Done ==> rindex == start + r.box.maxX)
      ensures out == Done ==> rindex == Offset(r.box, Coord(0, c.y - r.origin.y + 1, c.z - r.origin.z, c.t - r.origin.t, c.i5 - r.origin.i5))
      ensures out != Done ==> out == Thrown(IndexOutOfBounds) && rindex < Size(r.box) && !Fits(ext, r, rindex, data.Length, rv.Length)
      ensures forall q :: rindex <= q < rv.Length ==> rv[q] == old(rv[q])
    {
      var o, b := r.origin, r.box;
      ghost var d := Coord(0, c.y - o.y, c.z - o.z, c.t - o.t, c.i5 - o.i5);
      var index := GetIndex(ext, c);
      rindex := start;
      var i := o.x;
      while i < b.maxX + o.x
        invariant o.x <= i <= o.x + b.maxX
        invariant rindex == start + (i - o.x)
        invariant index == GetIndex(ext, c) + (i - o.x)
        invariant Walked(rv, r, rindex)
        invariant forall q :: rindex <= q < rv.Length ==> rv[q] == old(rv[q])
      {
        assert 0 <= rindex < Size(b) && At(r, rindex) == c.(x := i) by {
          RowOffset(b, d, i - o.x);
          AtOffset(r, c.(x := i));
          assert Coord(i - o.x, c.y - o.y, c.z - o.z, c.t - o.t, c.i5 - o.i5) == d.(x := i - o.x);
        }
        assert index == WalkIndex(ext, r, rindex) by {
          assert At(r, rindex).(x := o.x) == c;
        }
        var v := GetInt(index);
        if v.Fail? || rindex >= rv.Length {
          return rindex, Thrown(IndexOutOfBounds);
        }
        rv[rindex] := v.value;
        rindex := rindex + 1;
        index := index + 1;
        i := i + 1;
      }
      assert rindex == Offset(b, d.(y := d.y + 1)) by {
        RowOffset(b, d, b.maxX);
        CarryX(b, d.(x := b.maxX));
      }
      out := Done;
    }

    /** The array holds what the first `n` writes of the walk made of `before`. */
    ghost predicate Wrote(before: seq<int>, r: Region, values: seq<i32>, n: int)
      reads this, data
    {
      Valid() && |before| == data.Length && WalkFits(ext, r, n, data.Length, |values|)
      && data[..] == Written(ext, storage, before, r, values, n)
    }

    /**
     * The indexed `setSeries(values, x0, ..., i5_count)`: stores the values
     * in the order `GetSeries` reads them, along the same walk. It stops at
     * the first position whose index is outside the array or whose value is
     * past the end of `values`, throwing IndexOutOfBounds with the earlier
     * writes kept; a cell the walk reaches twice keeps the later value.
     */
    method SetSeries(values: seq<i32>, r: Region) returns (out: Outcome)
      requires Valid()
      modifies data
      ensures Valid()
      ensures !NonNegative(r.box) ==> out == Done && data[..] == old(data[..])
      ensures NonNegative(r.box) ==> out == (if Reached(ext, r, data.Length, |values|, 0) == Size(r.box) then Done else Thrown(IndexOutOfBounds))
      ensures NonNegative(r.box) ==> Wrote(old(data[..]), r, values, Reached(ext, r, data.Length, |values|, 0))
    {
      var o, b := r.origin, r.box;
      if !NonNegative(b) {
        return Done;
      }
      SizeNonNegative(b);
      ghost var before := data[..];
      var rindex := 0;
      var m := o.i5;
      while m < b.maxI5 + o.i5
        invariant o.i5 <= m <= o.i5 + b.maxI5
        invariant rindex == Offset(b, Coord(0, 0, 0, 0, m - o.i5))
        invariant Wrote(before, r, values, rindex)
      {
        var l := o.t;
        while l < b.maxTime + o.t
          invariant o.t <= l <= o.t + b.maxTime
          invariant rindex == Offset(b, Coord(0, 0, 0, l - o.t, m - o.i5))
          invariant Wrote(before, r, values, rindex)
        {
          var k := o.z;
          while k < b.maxZ + o.z
            invariant o.z <= k <= o.z + b.maxZ
            invariant rindex == Offset(b, Coord(0, 0, k - o.z, l - o.t, m - o.i5))
            invariant Wrote(before, r, values, rindex)
          {
            var j := o.y;
            while j < b.maxY + o.y
              invariant o.y <= j <= o.y + b.maxY
              invariant rindex == Offset(b, Coord(0, j - o.y, k - o.z, l - o.t, m - o.i5))
              invariant Wrote(before, r, values, rindex)
            {
              rindex, out := WriteRow(values, r, Coord(o.x, j, k, l, m), rindex, before);
              if out != Done {
                ReachedIs(ext, r, data.Length, |values|, 0, rindex);
                return;
              }
              j := j + 1;
            }
            CarryY(b, Coord(0, j - o.y, k - o.z, l - o.t, m - o.i5));
            k := k + 1;
          }
          CarryZ(b, Coord(0, 0, k - o.z, l - o.t, m - o.i5));
          l := l + 1;
        }
        CarryT(b, Coord(0, 0, 0, l - o.t, m - o.i5));
        m := m + 1;
      }
      OffsetEnd(b);
      ReachedIs(ext, r, data.Length, |values|, 0, rindex);
      out := Done;
    }

    /** The innermost loop of `setSeries`: one row of the region, from its first voxel `c`, stopping at the position that throws. */
    method WriteRow(values: seq<i32>, r: Region, c: Coord, start: int, ghost before: seq<int>) returns (rindex: int, out: Outcome)
      requires Valid() && NonNegative(r.box) && |before| == data.Length
      requires c.x == r.origin.x && 0 <= c.y - r.origin.y < r.box.maxY && 0 <= c.z - r.origin.z < r.box.maxZ
      requires 0 <= c.t - r.origin.t < r.box.maxTime && 0 <= c.i5 - r.origin.i5 < r.box.maxI5
      requires start == Offset(r.box, Coord(0, c.y - r.origin.y, c.z - r.origin.z, c.t - r.origin.t, c.i5 - r.origin.i5))
      requires Wrote(before, r, values, start)
      modifies data
      ensures Valid()
      ensures Wrote(before, r, values, rindex)
      ensures start <= rindex && (out == Done ==> rindex == start + r.box.maxX)
      ensures out == Done ==> rindex == Offset(r.box, Coord(0, c.y - r.origin.y + 1, c.z - r.origin.z, c.t - r.origin.t, c.i5 - r.origin.i5))
      ensures out != Done ==> out == Thrown(IndexOutOfBounds) && rindex < Size(r.box) && !Fits(ext, r, rindex, data.Length, |values|)
    {
      var o, b := r.origin, r.box;
      ghost var d := Coord(0, c.y - o.y, c.z - o.z, c.t - o.t, c.i5 - o.i5);
      var index := GetIndex(ext, c);
      rindex := start;
      var i := o.x;
      while i < b.maxX + o.x
        invariant o.x <= i <= o.x + b.maxX
        invariant rindex == start + (i - o.x)
        invariant index == GetIndex(ext, c) + (i - o.x)
        invariant Wrote(before, r, values, rindex)
      {
        assert 0 <= rindex < Size(b) && At(r, rindex) == c.(x := i) by {
          RowOffset(b, d, i - o.x);
          AtOffset(r, c.(x := i));
          assert Coord(i - o.x, c.y - o.y, c.z - o.z, c.t - o.t, c.i5 - o.i5) == d.(x := i - o.x);
        }
        assert index == WalkIndex(ext, r, rindex) by {
          assert At(r, rindex).(x := o.x) == c;
        }
        if rindex >= |values| {
          return rindex, Thrown(IndexOutOfBounds);
        }
        out := SetData(index, values[rindex]);
        if out != Done {
          return;
        }
        rindex := rindex + 1;
        index := index + 1;
        i := i + 1;
      }
      assert rindex == Offset(b, d.(y := d.y + 1)) by {
        RowOffset(b, d, b.maxX);
        CarryX(b, d.(x := b.maxX));
      }
      out := Done;
    }

    /**
     * `setSeries` followed by `getSeries` over one region inside the volume:
     * each position reads back what the storage class makes of the value
     * written there, and exactly that value when the storage class can hold
     * it.
     */
    lemma SeriesReadBack(before: seq<int>, r: Region, values: seq<i32>)
      requires Valid() && Inside(ext, r) && Size(r.box) <= |values| && |before| == data.Length
      requires WalkFits(ext, r, Size(r.box), |before|, |values|)
      requires data[..] == Written(ext, storage, before, r, values, Size(r.box))
      ensures forall p :: 0 <= p < Size(r.box) ==> GetIntAt(At(r, p)) == Load(storage, Store(storage, values[p]))
      ensures forall p :: 0 <= p < Size(r.box) && Readable(storage, values[p]) ==> GetIntAt(At(r, p)) == values[p]
    {
      WrittenInside(ext, storage, before, r, values, Size(r.box));
      forall p | 0 <= p < Size(r.box)
        ensures GetIntAt(At(r, p)) == Load(storage, Store(storage, values[p]))
      {
        assert data[GetIndex(ext, At(r, p))] == Store(storage, values[p]);
      }
      forall p | 0 <= p < Size(r.box) && Readable(storage, values[p])
        ensures GetIntAt(At(r, p)) == values[p]
      {
        LoadStore(storage, values[p]);
      }
    }

    /** Reading a region inside the volume into a buffer with room for it completes and reads the region's voxels. */
    lemma SeriesInside(rv: array<int>, r: Region)
      requires Valid() && Inside(ext, r) && Size(r.box) <= rv.Length
      requires Walked(rv, r, Reached(ext, r, data.Length, rv.Length, 0))
      ensures Reached(ext, r, data.Length, rv.Length, 0) == Size(r.box)
      ensures forall p :: 0 <= p < Size(r.box) ==> rv[p] == GetIntAt(At(r, p))
    {
      InsideReachesEnd(ext, r, data.Length, rv.Length);
      forall p | 0 <= p < Size(r.box)
        ensures rv[p] == GetIntAt(At(r, p))
      {
        WalkInside(ext, r, p);
      }
    }

    /**
     * The generic `getSeries(rv, x0, ..., i5_count)` of the abstract volume:
     * the same visiting order, each voxel read through `getInt(i, j, k, l, m)`,
     * so a region reaching outside the volume reads 0 there.
     */
    method GetSeriesByVoxel(rv: array<int>, r: Region)
      requires Valid() && NonNegative(r.box) && Size(r.box) <= rv.Length && rv != data
      modifies rv
      ensures forall p :: 0 <= p < Size(r.box) ==> rv[p] == GetIntAt(At(r, p))
      ensures rv[Size(r.box)..] == old(rv[Size(r.box)..])
    {
      var o, b := r.origin, r.box;
      SizeNonNegative(b);
      ghost var n := Size(b);
      var index := 0;
      var m := o.i5;
      while m < b.maxI5 + o.i5
        invariant o.i5 <= m <= o.i5 + b.maxI5
        invariant index == Offset(b, Coord(0, 0, 0, 0, m - o.i5)) && 0 <= index <= n
        invariant Filled(rv, r, index)
        invariant rv[n..] == old(rv[n..])
      {
        var l := o.t;
        while l < b.maxTime + o.t
          invariant o.t <= l <= o.t + b.maxTime
          invariant index == Offset(b, Coord(0, 0, 0, l - o.t, m - o.i5)) && 0 <= index <= n
          invariant Filled(rv, r, index)
          invariant rv[n..] == old(rv[n..])
        {
          var k := o.z;
          while k < b.maxZ + o.z
            invariant o.z <= k <= o.z + b.maxZ
            invariant index == Offset(b, Coord(0, 0, k - o.z, l - o.t, m - o.i5)) && 0 <= index <= n
            invariant Filled(rv, r, index)
            invariant rv[n..] == old(rv[n..])
          {
            var j := o.y;
            while j < b.maxY + o.y
              invariant o.y <= j <= o.y + b.maxY
              invariant index == Offset(b, Coord(0, j - o.y, k - o.z, l - o.t, m - o.i5)) && 0 <= index <= n
              invariant Filled(rv, r, index)
              invariant rv[n..] == old(rv[n..])
            {
              index := ReadRowByVoxel(rv, r, Coord(o.x, j, k, l, m), index);
              j := j + 1;
            }
            CarryY(b, Coord(0, j - o.y, k - o.z, l - o.t, m - o.i5));
            k := k + 1;
          }
          CarryZ(b, Coord(0, 0, k - o.z, l - o.t, m - o.i5));
          l := l + 1;
        }
        CarryT(b, Coord(0, 0, 0, l - o.t, m - o.i5));
        m := m + 1;
      }
      OffsetEnd(b);
    }

    /** The innermost loop of the generic `getSeries`: one row, voxel by voxel. */
    method ReadRowByVoxel(rv: array<int>, r: Region, c: Coord, start: int) returns (index: int)
      requires Valid() && NonNegative(r.box) && Size(r.box) <= rv.Length && rv != data
      requires c.x == r.origin.x && 0 <= c.y - r.origin.y < r.box.maxY && 0 <= c.z - r.origin.z < r.box.maxZ
      requires 0 <= c.t - r.origin.t < r.box.maxTime && 0 <= c.i5 - r.origin.i5 < r.box.maxI5
      requires start == Offset(r.box, Coord(0, c.y - r.origin.y, c.z - r.origin.z, c.t - r.origin.t, c.i5 - r.origin.i5))
      requires 0 <= start <= Size(r.box)
      requires Filled(rv, r, start)
      modifies rv
      ensures index <= Size(r.box)
      ensures index == Offset(r.box, Coord(0, c.y - r.origin.y + 1, c.z - r.origin.z, c.t - r.origin.t, c.i5 - r.origin.i5))
      ensures Filled(rv, r, index)
      ensures rv[index..] == old(rv[index..])
    {
      var o, b := r.origin, r.box;
      ghost var d := Coord(0, c.y - o.y, c.z - o.z, c.t - o.t, c.i5 - o.i5);
      index := start;
      var i := o.x;
      while i < b.maxX + o.x
        invariant o.x <= i <= o.x + b.maxX
        invariant index == start + (i - o.x)
        invariant index <= Size(b)
        invariant Filled(rv, r, index)
        invariant rv[index..] == old(rv[index..])
      {
        assert 0 <= index < Size(b) && At(r, index) == c.(x := i) by {
          RowOffset(b, d, i - o.x);
          AtOffset(r, c.(x := i));
          assert Coord(i - o.x, c.y - o.y, c.z - o.z, c.t - o.t, c.i5 - o.i5) == d.(x := i - o.x);
        }
        rv[index] := GetIntAt(c.(x := i));
        index := index + 1;
        i := i + 1;
      }
      assert index == Offset(b, d.(y := d.y + 1)) by {
        RowOffset(b, d, b.maxX);
        CarryX(b, d.(x := b.maxX));
      }
    }

    /**
     * The generic `setSeries(values, x0, ..., i5_count)`: each value goes
     * through `setData(i, j, k, l, m, v)`, so the first voxel outside the
     * volume throws IndexOutOfBounds, after every value before it has been
     * stored.
     */
    method SetSeriesByVoxel(values: seq<i32>, r: Region) returns (out: Outcome)
      requires Valid() && NonNegative(r.box) && Size(r.box) <= |values|
      modifies data
      ensures Valid()
      ensures out == (if FirstOutside(ext, r, 0) == Size(r.box) then Done else Thrown(IndexOutOfBounds))
      ensures WroteSeries(ext, storage, old(data[..]), data[..], r, values, FirstOutside(ext, r, 0))
    {
      var o, b := r.origin, r.box;
      SizeNonNegative(b);
      ghost var n := Size(b);
      ghost var before := data[..];
      var index := 0;
      var m := o.i5;
      while m < b.maxI5 + o.i5
        invariant Valid()
        invariant o.i5 <= m <= o.i5 + b.maxI5
        invariant index == Offset(b, Coord(0, 0, 0, 0, m - o.i5)) && 0 <= index <= n
        invariant AllInRange(ext, r, index) && WroteSeries(ext, storage, before, data[..], r, values, index)
      {
        var l := o.t;
        while l < b.maxTime + o.t
          invariant Valid()
          invariant o.t <= l <= o.t + b.maxTime
          invariant index == Offset(b, Coord(0, 0, 0, l - o.t, m - o.i5)) && 0 <= index <= n
          invariant AllInRange(ext, r, index) && WroteSeries(ext, storage, before, data[..], r, values, index)
        {
          var k := o.z;
          while k < b.maxZ + o.z
            invariant Valid()
            invariant o.z <= k <= o.z + b.maxZ
            invariant index == Offset(b, Coord(0, 0, k - o.z, l - o.t, m - o.i5)) && 0 <= index <= n
            invariant AllInRange(ext, r, index) && WroteSeries(ext, storage, before, data[..], r, values, index)
          {
            index, out := WriteSliceByVoxel(values, r, Coord(o.x, o.y, k, l, m), index, before);
            if out != Done {
              FirstOutsideIs(ext, r, 0, index);
              return;
            }
            k := k + 1;
          }
          CarryZ(b, Coord(0, 0, k - o.z, l - o.t, m - o.i5));
          l := l + 1;
        }
        CarryT(b, Coord(0, 0, 0, l - o.t, m - o.i5));
        m := m + 1;
      }
      OffsetEnd(b);
      FirstOutsideIs(ext, r, 0, n);
      out := Done;
    }

    /** The two innermost loops of the generic `setSeries`: the rows of one slice, stopping at the first voxel that throws. */
    method WriteSliceByVoxel(values: seq<i32>, r: Region, c: Coord, start: int, ghost before: seq<int>) returns (index: int, out: Outcome)
      requires Valid() && NonNegative(r.box) && Size(r.box) <= |values|
      requires c.x == r.origin.x && c.y == r.origin.y && 0 <= c.z - r.origin.z < r.box.maxZ
      requires 0 <= c.t - r.origin.t < r.box.maxTime && 0 <= c.i5 - r.origin.i5 < r.box.maxI5
      requires start == Offset(r.box, Coord(0, 0, c.z - r.origin.z, c.t - r.origin.t, c.i5 - r.origin.i5))
      requires 0 <= start <= Size(r.box)
      requires AllInRange(ext, r, start) && WroteSeries(ext, storage, before, data[..], r, values, start)
      modifies data
      ensures Valid()
      ensures start <= index <= Size(r.box) && AllInRange(ext, r, index)
      ensures WroteSeries(ext, storage, before, data[..], r, values, index)
      ensures out == Done ==> index == Offset(r.box, Coord(0, 0, c.z - r.origin.z + 1, c.t - r.origin.t, c.i5 - r.origin.i5))
      ensures out != Done ==> out == Thrown(IndexOutOfBounds) && index < Size(r.box) && !InRange(ext, At(r, index))
    {
      var o, b := r.origin, r.box;
      index := start;
      var j := o.y;
      while j < b.maxY + o.y
        invariant Valid()
        invariant o.y <= j <= o.y + b.maxY
        invariant index == Offset(b, Coord(0, j - o.y, c.z - o.z, c.t - o.t, c.i5 - o.i5)) && start <= index <= Size(b)
        invariant AllInRange(ext, r, index) && WroteSeries(ext, storage, before, data[..], r, values, index)
      {
        index, out := WriteRowByVoxel(values, r, Coord(o.x, j, c.z, c.t, c.i5), index, before);
        if out != Done {
          return;
        }
        j := j + 1;
      }
      CarryY(b, Coord(0, j - o.y, c.z - o.z, c.t - o.t, c.i5 - o.i5));
      out := Done;
    }

    /** The innermost loop of the generic `setSeries`: one row, stopping at the first voxel that throws. */
    method WriteRowByVoxel(values: seq<i32>, r: Region, c: Coord, start: int, ghost before: seq<int>) returns (index: int, out: Outcome)
      requires Valid() && NonNegative(r.box) && Size(r.box) <= |values|
      requires c.x == r.origin.x && 0 <= c.y - r.origin.y < r.box.maxY && 0 <= c.z - r.origin.z < r.box.maxZ
      requires 0 <= c.t - r.origin.t < r.box.maxTime && 0 <= c.i5 - r.origin.i5 < r.box.maxI5
      requires start == Offset(r.box, Coord(0, c.y - r.origin.y, c.z - r.origin.z, c.t - r.origin.t, c.i5 - r.origin.i5))
      requires 0 <= start <= Size(r.box)
      requires AllInRange(ext, r, start) && WroteSeries(ext, storage, before, data[..], r, values, start)
      modifies data
      ensures Valid()
      ensures start <= index <= Size(r.box) && AllInRange(ext, r, index)
      ensures WroteSeries(ext, storage, before, data[..], r, values, index)
      ensures out == Done ==> index == Offset(r.box, Coord(0, c.y - r.origin.y + 1, c.z - r.origin.z, c.t - r.origin.t, c.i5 - r.origin.i5))
      ensures out != Done ==> out == Thrown(IndexOutOfBounds) && index < Size(r.box) && !InRange(ext, At(r, index))
    {
      var o, b := r.origin, r.box;
      ghost var d := Coord(0, c.y - o.y, c.z - o.z, c.t - o.t, c.i5 - o.i5);
      index := start;
      var i := o.x;
      while i < b.maxX + o.x
        invariant Valid()
        invariant o.x <= i <= o.x + b.maxX
        invariant index == start + (i - o.x)
        invariant index <= Size(b)
        invariant AllInRange(ext, r, index) && WroteSeries(ext, storage, before, data[..], r, values, index)
      {
        assert 0 <= index < Size(b) && At(r, index) == c.(x := i) by {
          RowOffset(b, d, i - o.x);
          AtOffset(r, c.(x := i));
          assert Coord(i - o.x, c.y - o.y, c.z - o.z, c.t - o.t, c.i5 - o.i5) == d.(x := i - o.x);
        }
        if InRange(ext, c.(x := i)) {
          WroteSeriesStep(ext, storage, before, data[..], r, values, index);
        }
        out := SetDataAt(c.(x := i), values[index]);
        if out != Done {
          return;
        }
        index := index + 1;
        i := i + 1;
      }
      assert index == Offset(b, d.(y := d.y + 1)) by {
        RowOffset(b, d, b.maxX);
        CarryX(b, d.(x := b.maxX));
      }
      out := Done;
    }
  }

  /**
   * The voxel the base class's `setSeries(double[] values, ...)` writes for
   * the p-th value as written: the row coordinate `i` is passed in the time
   * position as well as in the x position. The indexed arrays override that
   * method with the flat walk above.
   */
  ghost function DoubleSeriesTarget(r: Region, p: int): (c: Coord)
    requires NonNegative(r.box) && 0 <= p < Size(r.box)
    ensures c.t == c.x
  {
    var v := At(r, p);
    v.(t := v.x)
  }

  /**
   * Any voxel of a region inside the volume whose x coordinate is at least
   * the number of time steps (in a volume two voxels wide with one time step
   * and the whole volume as the region, the second value, at (1, 0, 0, 0, 0))
   * is sent by the double overload to a time step that does not exist, so it
   * throws where the int overload writes.
   */
  lemma DoubleSeriesTargetThrows(e: Extents, r: Region, p: int)
    requires Inside(e, r) && 0 <= p < Size(r.box) && At(r, p).x >= e.maxTime
    ensures InRange(e, At(r, p)) && !InRange(e, DoubleSeriesTarget(r, p))
  {
    var i := RegionIndex(e, r, p);
  }

  /** The interpolation modes a volume can be sampled with. */
  datatype Interpolation = LINEAR | NEAREST_NEIGHBOR

  /**
   * `getValueVoxels(x, y, z, time, i5, in)`: nearest-neighbour sampling or
   * interpolation, as `in` asks; no mode (a null `in`) is an illegal
   * argument. The two samplers work in floating point and are passed in as
   * their results.
   */
  function ValueVoxels<V>(mode: Option<Interpolation>, nearest: V, linear: V): (r: Result<V>)
    ensures r.Fail? <==> mode.None?
    ensures r.Fail? ==> r.error == IllegalArgument
    ensures mode == Some(NEAREST_NEIGHBOR) ==> r == Ok(nearest)
    ensures mode == Some(LINEAR) ==> r == Ok(linear)
  {
    match mode
    case Some(NEAREST_NEIGHBOR) => Ok(nearest)
    case Some(LINEAR) => Ok(linear)
    case None => Fail(IllegalArgument)
  }
}
