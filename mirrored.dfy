// A volume twice as wide as its backing volume, whose right half is the
// mirror image of the left: every voxel index is folded back into the
// backing volume, and all reads and writes go through the fold.

module MirroredVolumes {
  import opened Java
  import opened VolumeIndex
  import opened Volumes

  /** The backing column that mirrored column `x` shows: itself in the left half, its reflection in the right half. */
  function Fold(xx: int, x: int): (f: int)
    ensures 0 <= x < 2 * xx ==> 0 <= f < xx && (f == x || f == 2 * xx - 1 - x)
    ensures 0 <= x < 2 * xx ==> (f == x <==> x < xx)
  {
    if x < xx then x else 2 * xx - 1 - x
  }

  /**
   * `myIndex(index)` for a backing volume `xx` voxels wide: the remainder
   * modulo `2 xx` is the mirrored column, half of the rest is the backing
   * row start, and a column in the right half is reflected. A backing volume
   * of width 0 makes the remainder divide by zero.
   */
  function MyIndex(xx: int, index: int): (r: Result<int>)
    ensures r.Fail? <==> xx == 0
    ensures r.Fail? ==> r.error == Arithmetic
  {
    var xx2 := xx * 2;
    if xx2 == 0 then Fail(Arithmetic)
    else
      var mod := Rem(index, xx2);
      var base := Div(index - mod, 2);
      if mod < xx then Ok(base + mod) else Ok(base + (xx2 - mod - 1))
  }

  /** The extents of the mirrored volume: the backing extents with x doubled. */
  function Mirrored(e: Extents): (m: Extents)
    ensures m.maxX == 2 * e.maxX && m.(maxX := e.maxX) == e
  {
    e.(maxX := e.maxX * 2)
  }

  /**
   * The fold on indices agrees with the fold on coordinates: the index of an
   * in-range mirrored voxel is sent to the backing index of the same voxel
   * with its column folded.
   */
  lemma MyIndexFolds(e: Extents, c: Coord)
    requires NonNegative(e) && InRange(Mirrored(e), c)
    ensures MyIndex(e.maxX, Offset(Mirrored(e), c)) == Ok(Offset(e, c.(x := Fold(e.maxX, c.x))))
  {
    var xx := e.maxX;
    var row := ((c.i5 * e.maxTime + c.t) * e.maxZ + c.z) * e.maxY + c.y;
    assert row >= 0 by {
      assert c.i5 * e.maxTime >= 0;
      assert (c.i5 * e.maxTime + c.t) * e.maxZ >= 0;
      assert ((c.i5 * e.maxTime + c.t) * e.maxZ + c.z) * e.maxY >= 0;
    }
    assert Offset(Mirrored(e), c) == row * (xx * 2) + c.x;
    assert Offset(e, c.(x := Fold(xx, c.x))) == row * xx + Fold(xx, c.x);
    MyIndexOfRow(xx, row, c.x);
  }

  /** Column `x` of mirrored row `row` folds to the backing row start plus the folded column. */
  lemma MyIndexOfRow(xx: int, row: int, x: int)
    requires row >= 0 && 0 <= x < 2 * xx
    ensures MyIndex(xx, row * (xx * 2) + x) == Ok(row * xx + Fold(xx, x))
  {
    var m := xx * 2;
    var k := row * xx;
    assert row * m == 2 * k && m * row == 2 * k && k >= 0;
    var index := 2 * k + x;
    assert Rem(index, m) == x by {
      DivRemNonNegative(index, m);
      ModUnique(index, m, row, x);
    }
    assert Div(index - x, 2) == k by {
      DivRemNonNegative(2 * k, 2);
    }
  }

  /** Columns x and 2 xx - 1 - x of the same row share one backing index. */
  lemma MyIndexSymmetric(e: Extents, c: Coord)
    requires NonNegative(e) && InRange(Mirrored(e), c)
    ensures InRange(Mirrored(e), c.(x := 2 * e.maxX - 1 - c.x))
    ensures MyIndex(e.maxX, Offset(Mirrored(e), c)) == MyIndex(e.maxX, Offset(Mirrored(e), c.(x := 2 * e.maxX - 1 - c.x)))
  {
    MyIndexFolds(e, c);
    MyIndexFolds(e, c.(x := 2 * e.maxX - 1 - c.x));
  }

  class MirroredVolumeArray {
    /** The backing volume, `myva`. */
    const myva: IndexedVolumeArray
    const ext: Extents
    const xx: int
    const xx2: int

    ghost predicate Valid()
      reads this, myva, myva.data
    {
      myva.Valid() && xx == myva.ext.maxX && xx2 == 2 * xx && ext == Mirrored(myva.ext)
    }

    /** The extents are the backing extents with x doubled. */
    constructor(va: IndexedVolumeArray)
      requires va.Valid()
      ensures Valid() && myva == va
      ensures ext.maxX == 2 * va.ext.maxX && ext.maxY == va.ext.maxY && ext.maxZ == va.ext.maxZ
      ensures ext.maxTime == va.ext.maxTime && ext.maxI5 == va.ext.maxI5
    {
      myva := va;
      ext := Mirrored(va.ext);
      xx := va.ext.maxX;
      xx2 := va.ext.maxX * 2;
    }

    /** `getInt(index)`: the backing volume's element at `myIndex(index)`. */
    function GetInt(index: int): (r: Result<int>)
      reads this, myva, myva.data
      requires Valid()
      ensures xx == 0 ==> r == Fail(Arithmetic)
      ensures xx != 0 ==> r == myva.GetInt(MyIndex(xx, index).value)
    {
      match MyIndex(xx, index)
      case Fail(e) => Fail(e)
      case Ok(i) => myva.GetInt(i)
    }

    /**
     * `getInt(x, y, z, t, i5)`: 0 outside the mirrored volume; inside it, the
     * backing voxel in the same row with the column folded.
     */
    function GetIntAt(c: Coord): (v: int)
      reads this, myva, myva.data
      requires Valid()
      ensures !InRange(ext, c) ==> v == 0
      ensures InRange(ext, c) ==> v == myva.GetIntAt(c.(x := Fold(xx, c.x)))
    {
      var index := GetIndex(ext, c);
      if index == -1 then 0
      else
        assert GetInt(index) == Ok(myva.GetIntAt(c.(x := Fold(xx, c.x)))) by {
          FoldedIndex(c);
        }
        GetInt(index).value
    }

    /** `setData(index, v)`: the write goes to the backing volume at `myIndex(index)`. */
    method SetData(index: int, v: i32) returns (out: Outcome)
      requires Valid()
      modifies myva.data
      ensures Valid()
      ensures xx == 0 ==> out == Thrown(Arithmetic) && myva.data[..] == old(myva.data[..])
      ensures xx != 0 ==> var i := MyIndex(xx, index).value;
        out == (if 0 <= i < myva.data.Length then Done else Thrown(IndexOutOfBounds))
        && myva.data[..] == if out == Done then old(myva.data[..])[i := Store(myva.storage, v)] else old(myva.data[..])
    {
      var i := MyIndex(xx, index);
      if i.Fail? {
        out := Thrown(i.error);
      } else {
        out := myva.SetData(i.value, v);
      }
    }

    /**
     * `setData(x, y, z, t, i5, v)`: a voxel outside the mirrored volume
     * throws; otherwise the backing voxel with the column folded is written,
     * and nothing else.
     */
    method SetDataAt(c: Coord, v: i32) returns (out: Outcome)
      requires Valid()
      modifies myva.data
      ensures Valid()
      ensures out == (if InRange(ext, c) then Done else Thrown(IndexOutOfBounds))
      ensures out == Done ==> myva.data[..] == old(myva.data[..])[GetIndex(myva.ext, c.(x := Fold(xx, c.x))) := Store(myva.storage, v)]
      ensures out != Done ==> myva.data[..] == old(myva.data[..])
    {
      var index := GetIndex(ext, c);
      if index < 0 {
        out := Thrown(IndexOutOfBounds);
      } else {
        FoldedIndex(c);
        out := SetData(index, v);
      }
    }

    /** `getDataArray()`: the backing volume's own array. */
    function GetDataArray(): (a: array<int>)
      reads this
      ensures a == myva.data
    {
      myva.data
    }

    /** An in-range mirrored voxel's index folds to the index of an in-range backing voxel. */
    lemma FoldedIndex(c: Coord)
      requires Valid() && InRange(ext, c)
      ensures InRange(myva.ext, c.(x := Fold(xx, c.x)))
      ensures MyIndex(xx, GetIndex(ext, c)) == Ok(GetIndex(myva.ext, c.(x := Fold(xx, c.x))))
    {
      MyIndexFolds(myva.ext, c);
    }

    /** The mirrored volume reads the same at columns x and 2 xx - 1 - x. */
    lemma MirrorSymmetric(c: Coord)
      requires Valid()
      ensures GetIntAt(c) == GetIntAt(c.(x := xx2 - 1 - c.x))
    {
    }
  }
}
