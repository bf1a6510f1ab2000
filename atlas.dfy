// An atlas volume: an int volume of structure keys, shown through the colour
// of the structure each key stands for. Key 0 is background and reads as 0;
// keys are assigned to structures in a map, and a fresh key is found by a
// search that first tries the keys just above the map's size.

module AtlasVolumes {
  import opened Java
  import opened VolumeIndex
  import opened Volumes
  import opened DataTypes

  /** An atlas structure; of its fields only the display colour is read by the volume. */
  datatype AtlasElement = AtlasElement(color: i32)

  /** The keys 0, 1, ..., n - 1. */
  function KeysBelow(n: nat): (s: set<int>)
    ensures forall k :: k in s <==> 0 <= k < n
  {
    if n == 0 then {} else KeysBelow(n - 1) + {n - 1}
  }

  lemma {:induction false} KeysBelowSize(n: nat)
    ensures |KeysBelow(n)| == n
  {
    if n > 0 {
      var below := KeysBelow(n - 1);
      KeysBelowSize(n - 1);
      assert n - 1 !in below;
      assert KeysBelow(n) == below + {n - 1};
      assert |below + {n - 1}| == |below| + 1;
    }
  }

  /** Pigeonhole: a set of `n` keys cannot contain all of 0, 1, ..., n. */
  lemma GapAtMost(keys: set<int>)
    ensures exists k :: 0 <= k <= |keys| && k !in keys
  {
    var n := |keys|;
    if forall k :: 0 <= k <= n ==> k in keys {
      KeysBelowSize(n + 1);
      assert KeysBelow(n + 1) <= keys;
      SubsetSize(KeysBelow(n + 1), keys);
      assert false;
    }
  }

  lemma SubsetSize(a: set<int>, b: set<int>)
    requires a <= b
    ensures |a| <= |b|
  {
    assert b * a == a;
    assert |b - a| == |b| - |b * a|;
  }

  class IndexedAtlasVolumeArray {
    /** The int volume of keys. */
    const backing: IndexedVolumeArray
    /** Key to structure. */
    var atlas: map<int, AtlasElement>

    ghost predicate Valid()
      reads this, backing, backing.data
    {
      backing.Valid()
    }

    /**
     * Only a volume whose natural type is INT can back an atlas; the three
     * storage classes all compute in ints, so each of them is accepted.
     */
    constructor(backing: IndexedVolumeArray, atlas: map<int, AtlasElement>)
      requires backing.Valid() && Volumes.NaturalType(backing.storage) == TYPE_INT
      ensures Valid() && this.backing == backing && this.atlas == atlas
    {
      this.backing := backing;
      this.atlas := atlas;
    }

    /**
     * `getInt(index)`: background (key 0) reads as 0, any other key as the
     * colour of its structure; a key with no structure dereferences null, and
     * an index outside the backing array throws there.
     */
    function GetInt(index: int): (r: Result<int>)
      reads this, backing, backing.data
      requires Valid()
      ensures !(0 <= index < backing.data.Length) ==> r == Fail(IndexOutOfBounds)
      ensures 0 <= index < backing.data.Length ==>
        var key := backing.GetInt(index).value;
        r == if key == 0 then Ok(0) else if key in atlas then Ok(atlas[key].color as int) else Fail(NullPointer)
    {
      match backing.GetInt(index)
      case Fail(e) => Fail(e)
      case Ok(b) =>
        if b == 0 then Ok(0)
        else if b in atlas then Ok(atlas[b].color as int)
        else Fail(NullPointer)
    }

    /** `getInt(x, y, z, t, i5)` of the indexed volume over this `getInt(index)`: 0 outside the volume. */
    function GetIntAt(c: Coord): (r: Result<int>)
      reads this, backing, backing.data
      requires Valid()
      ensures !InRange(backing.ext, c) ==> r == Ok(0)
      ensures InRange(backing.ext, c) ==> r == GetInt(GetIndex(backing.ext, c))
    {
      var index := GetIndex(backing.ext, c);
      if index == -1 then Ok(0) else GetInt(index)
    }

    /** `setData(index, v)`: the key is written to the backing volume unchanged. */
    method SetData(index: int, v: i32) returns (out: Outcome)
      requires Valid()
      modifies backing.data
      ensures Valid()
      ensures out == (if 0 <= index < backing.data.Length then Done else Thrown(IndexOutOfBounds))
      ensures out == Done ==> backing.data[..] == old(backing.data[..])[index := Store(backing.storage, v)]
      ensures out != Done ==> backing.data[..] == old(backing.data[..])
    {
      out := backing.SetData(index, v);
    }

    /**
     * Over an int backing volume, a key written at an index is shown as its
     * structure's colour, as background, or fails if it names no structure.
     */
    lemma SetThenColor(index: int, v: i32, before: seq<int>)
      requires Valid() && backing.storage == IntStorage && 0 <= index < backing.data.Length
      requires |before| == backing.data.Length && backing.data[..] == before[index := Store(IntStorage, v)]
      ensures v == 0 ==> GetInt(index) == Ok(0)
      ensures v != 0 && v in atlas ==> GetInt(index) == Ok(atlas[v].color as int)
      ensures v != 0 && v !in atlas ==> GetInt(index) == Fail(NullPointer)
    {
      assert backing.data[index] == v;
    }

    /** `assignAtlasElement(key, ae)`: binds the key to the structure, or unbinds it when `ae` is null. */
    method AssignAtlasElement(key: i32, ae: Option<AtlasElement>)
      modifies this
      ensures ae.Some? ==> atlas == old(atlas)[key := ae.value]
      ensures ae.None? ==> atlas == old(atlas) - {key}
    {
      if ae.None? {
        atlas := atlas - {key};
      } else {
        atlas := atlas[key := ae.value];
      }
    }

    /** `getNaturalType()` and `getType()`: an atlas computes in RGB colours and is typed as an atlas. */
    function NaturalType(): (t: DataType)
      ensures t == TYPE_RGB && t.BitsPerEntry() == 32
    {
      TYPE_RGB
    }

    function GetType(): (t: DataType)
      ensures t == TYPE_ATLAS && t.Value() == -1
    {
      TYPE_ATLAS
    }

    /**
     * `getUnusedKey(max_value)`: the first key from `size + 1` up to
     * `max_value - 1` that names no structure, and failing that the first
     * such key from 0 up to `size`. Since only `size` keys are in use, the
     * second search always succeeds: the IndexOutOfBounds at the end is never
     * thrown.
     */
    method GetUnusedKey(maxValue: i32) returns (r: Result<int>)
      requires Valid()
      ensures r.Ok? && r.value !in atlas
      ensures var n := |atlas.Keys|;
        if exists k :: n + 1 <= k < maxValue && k !in atlas
        then n + 1 <= r.value < maxValue && forall k :: n + 1 <= k < r.value ==> k in atlas
        else 0 <= r.value <= n && forall k :: 0 <= k < r.value ==> k in atlas
    {
      var size := |atlas.Keys|;
      var i := size + 1;
      while i < maxValue
        invariant size + 1 <= i && (i <= maxValue || i == size + 1)
        invariant forall k :: size + 1 <= k < i ==> k in atlas
      {
        if i !in atlas {
          return Ok(i);
        }
        i := i + 1;
      }
      GapAtMost(atlas.Keys);
      i := 0;
      while i < size + 1
        invariant 0 <= i <= size + 1
        invariant forall k :: 0 <= k < i ==> k in atlas
      {
        if i !in atlas {
          return Ok(i);
        }
        i := i + 1;
      }
      assert false;
      r := Fail(IndexOutOfBounds);
    }
  }
}
