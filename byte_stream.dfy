// FastByteArrayOutputStream: an output stream that writes into a byte array
// it owns, doubling the array when it fills up, and that hands out the array
// itself rather than a copy.

module ByteStreams {
  import opened Java

  /**
   * How many bytes the copy loop of `write(bytes, offset, len)` stores: it
   * stops after `len`, at the first source index outside the `n` bytes, or
   * at the first slot past the `room` left in the array.
   */
  function CopyCount(n: nat, offset: int, len: int, room: int): (k: nat)
    ensures len > 0 ==> k <= len
    ensures len > 0 ==> (k == len <==> 0 <= offset && offset + len <= n && len <= room)
  {
    if len <= 0 then 0
    else
      var src := if 0 <= offset <= n then n - offset else 0;
      var lim := if src < room then src else room;
      if lim < 0 then 0 else if lim < len then lim else len
  }

  /**
   * After `k` bytes of `src` from `offset` are copied to slot `index` on,
   * the slots before `index` are as they were and the `k` slots after them
   * hold the copied bytes.
   */
  lemma CopiedPrefix(a: seq<i8>, before: seq<i8>, index: nat, k: nat, src: seq<i8>, offset: int)
    requires |a| == |before| && index + k <= |a|
    requires k > 0 ==> 0 <= offset && offset + k <= |src|
    requires forall q :: 0 <= q < |a| ==> a[q] == if index <= q < index + k then src[offset + q - index] else before[q]
    ensures a[..index] == before[..index]
    ensures k > 0 ==> a[..index + k] == before[..index] + src[offset..offset + k]
  {
    if k > 0 {
      assert a[..index + k] == a[..index] + a[index..index + k];
      assert a[index..index + k] == src[offset..offset + k];
    }
  }

  class FastByteArrayOutputStream {
    /** The Java field `array`. */
    var arr: array<i8>
    var index: i32

    /** The bytes written fit in the array, whose length is a Java array's. */
    predicate Valid()
      reads this
    {
      0 <= index <= arr.Length <= INT_MAX
    }

    /** The bytes written so far. */
    function Contents(): (c: seq<i8>)
      reads this, arr
      requires Valid()
      ensures |c| == index
    {
      arr[..index]
    }

    /** `new FastByteArrayOutputStream(size)` for a size `new byte[size]` accepts; `Create` takes any size. */
    constructor(size: nat)
      requires size <= INT_MAX
      ensures fresh(arr) && arr.Length == size && index == 0
      ensures forall k :: 0 <= k < size ==> arr[k] == 0
      ensures Valid() && Contents() == []
    {
      arr := new i8[size](_ => 0);
      index := 0;
    }

    /** `getSize()`: the number of bytes written. */
    function GetSize(): (n: i32)
      reads this
      requires Valid()
      ensures n <= arr.Length
    {
      index
    }

    /** `getArray()`: the array itself, whose first `getSize()` bytes were written. */
    function GetArray(): (a: array<i8>)
      reads this
      requires Valid()
      ensures a.Length >= GetSize()
    {
      arr
    }

    /**
     * `resize(size)`: nothing when the size is the array's; otherwise a new
     * zeroed array of that size takes the first `index` bytes. `new` refuses
     * a negative size and the copy an `index` beyond either array.
     */
    method Resize(size: i32) returns (out: Outcome)
      modifies this
      ensures index == old(index)
      ensures size == old(arr.Length) ==> out == Done && arr == old(arr)
      ensures size != old(arr.Length) && size < 0 ==> out == Thrown(NegativeArraySize) && arr == old(arr)
      ensures size != old(arr.Length) && 0 <= size && !(0 <= index <= old(arr.Length) && index <= size) ==>
        out == Thrown(IndexOutOfBounds) && arr == old(arr)
      ensures size != old(arr.Length) && 0 <= size && 0 <= index <= old(arr.Length) && index <= size ==>
        out == Done && fresh(arr) && arr.Length == size
      ensures size != old(arr.Length) && out == Done ==>
        forall k :: 0 <= k < size ==> arr[k] == if k < index then old(arr[k]) else 0
    {
      if size == arr.Length {
        return Done;
      }
      if size < 0 {
        return Thrown(NegativeArraySize);
      }
      if !(0 <= index <= arr.Length && index <= size) {
        return Thrown(IndexOutOfBounds);
      }
      var grown := new i8[size](_ => 0);
      forall k | 0 <= k < index {
        grown[k] := arr[k];
      }
      arr := grown;
      return Done;
    }

    /**
     * `write(v)`: a full array first doubles, in int arithmetic; then the low
     * byte of `v` (`(byte) (v & 0xff)`, the same byte as the narrowing
     * `ToByte`) goes to slot `index`, and `index` moves on even when that
     * slot is missing. An empty array does not grow, so on a stream created
     * with size 0 every write throws.
     */
    method Write(v: i32) returns (out: Outcome)
      requires Valid()
      modifies this, arr
      ensures old(index) < old(arr.Length) ==> out == Done && arr == old(arr) && index == old(index) + 1
      ensures old(index) < old(arr.Length) ==> arr[..] == old(arr[..])[old(index) := ToByte(v)]
      ensures old(index) == old(arr.Length) == 0 ==> out == Thrown(IndexOutOfBounds) && arr == old(arr) && index == 1
      ensures 0 < old(index) == old(arr.Length) && 2 * old(arr.Length) > INT_MAX ==>
        out == Thrown(NegativeArraySize) && arr == old(arr) && index == old(index)
      ensures 0 < old(index) == old(arr.Length) && 2 * old(arr.Length) <= INT_MAX ==>
        out == Done && fresh(arr) && arr.Length == 2 * old(arr.Length) && index == old(index) + 1
      ensures out == Done ==> Valid() && Contents() == old(Contents()) + [ToByte(v)]
      ensures out == Done ==> forall k :: index <= k < arr.Length ==> arr[k] == old(if k < arr.Length then arr[k] else 0)
      ensures out.Thrown? ==> arr[..] == old(arr[..])
      ensures old(arr.Length) > 0 ==> Valid() && arr.Length > 0
    {
      if index == arr.Length {
        out := Resize(ToInt(arr.Length * 2));
        if out.Thrown? {
          return;
        }
      }
      var i := index;
      index := index + 1;
      if i >= arr.Length {
        return Thrown(IndexOutOfBounds);
      }
      arr[i] := ToByte(v);
      return Done;
    }

    /**
     * The copy loop of `write(bytes, offset, len)`: byte `offset + i` of
     * `bytes` to slot `index + i`, for i from 0, until `len` bytes are copied
     * or an index is out of range. `index` is not moved.
     */
    method CopyIn(bytes: seq<i8>, offset: i32, len: i32) returns (out: Outcome, k: nat)
      requires Valid()
      modifies arr
      ensures k == CopyCount(|bytes|, offset, len, arr.Length - index)
      ensures out == Done <==> len <= 0 || k == len
      ensures out.Thrown? ==> out.error == IndexOutOfBounds
      ensures forall q :: 0 <= q < arr.Length ==>
        arr[q] == if index <= q < index + k then bytes[offset + q - index] else old(arr[q])
    {
      k := 0;
      while k < len
        invariant 0 <= k <= if len < 0 then 0 else len
        invariant k > 0 ==> 0 <= offset && offset + k <= |bytes| && index + k <= arr.Length
        invariant forall q :: 0 <= q < arr.Length ==>
          arr[q] == if index <= q < index + k then bytes[offset + q - index] else old(arr[q])
      {
        if offset + k < 0 || offset + k >= |bytes| || index + k >= arr.Length {
          return Thrown(IndexOutOfBounds), k;
        }
        arr[index + k] := bytes[offset + k];
        k := k + 1;
      }
      return Done, k;
    }

    /**
     * The first step of `write(bytes, offset, len)`: when `index + len` (in
     * int arithmetic) reaches the array's length, the array grows to twice
     * that, keeping the bytes written; a doubled length past the int range
     * is refused as a negative size.
     */
    method Grow(len: i32) returns (out: Outcome)
      requires Valid()
      modifies this
      ensures index == old(index)
      ensures var end := ToInt(old(index) + len);
        out == if end >= old(arr.Length) && ToInt(end * 2) < 0 then Thrown(NegativeArraySize) else Done
      ensures out.Thrown? || ToInt(old(index) + len) < old(arr.Length) ==> arr == old(arr)
      ensures out == Done && ToInt(old(index) + len) >= old(arr.Length) && ToInt(old(index) + len) > 0 ==>
        fresh(arr) && arr.Length == 2 * ToInt(old(index) + len)
      ensures arr == old(arr) || fresh(arr)
      ensures Valid() && arr[..index] == old(arr[..index])
    {
      var end := ToInt(index + len);
      out := Done;
      if end >= arr.Length {
        out := Resize(ToInt(end * 2));
      }
    }

    /**
     * `write(bytes, offset, len)`: when `index + len` (in int arithmetic)
     * reaches the array's length, the array first grows to twice that; then
     * `len` bytes from `offset` are copied after the written ones and
     * `index` moves on by `len`. A negative `len` copies nothing and moves
     * `index` back.
     */
    method WriteBytes(bytes: seq<i8>, offset: i32, len: i32) returns (out: Outcome)
      requires Valid() && |bytes| <= INT_MAX
      modifies this, arr
      ensures var end := ToInt(old(index) + len);
        end >= old(arr.Length) && ToInt(end * 2) < 0 ==>
        out == Thrown(NegativeArraySize) && arr == old(arr) && arr[..] == old(arr[..]) && index == old(index)
      ensures var end := ToInt(old(index) + len);
        out == Done <==> !(end >= old(arr.Length) && ToInt(end * 2) < 0)
                         && (len <= 0 || (0 <= offset && offset + len <= |bytes| && old(index) + len <= INT_MAX))
      ensures out == Done ==> index == old(index) + len
      ensures out == Done && old(index) + len >= old(arr.Length) && old(index) + len > 0 ==>
        fresh(arr) && arr.Length == 2 * (old(index) + len)
      ensures out == Done && old(index) + len < old(arr.Length) ==> arr == old(arr)
      ensures out == Done && len > 0 ==> Valid() && Contents() == old(Contents()) + bytes[offset..offset + len]
      ensures out == Done && len == 0 ==> Valid() && Contents() == old(Contents())
      ensures out == Done && len < 0 ==> arr == old(arr) && arr[..] == old(arr[..])
      ensures out.Thrown? ==> Valid() && index == old(index) && Contents() == old(Contents())
    {
      out := Grow(len);
      if out.Thrown? {
        return;
      }
      ghost var before := arr[..];
      var k;
      out, k := CopyIn(bytes, offset, len);
      CopiedPrefix(arr[..], before, index, k, bytes, offset);
      if out.Thrown? {
        return;
      }
      index := ToInt(index + len);
    }

    /** `trim()`: the array is cut (or grown) to the bytes written, which stay. */
    method Trim() returns (out: Outcome)
      requires Valid()
      modifies this
      ensures out == Done && Valid() && index == old(index) && arr.Length == GetSize()
      ensures Contents() == old(Contents())
      ensures old(index) == old(arr.Length) ==> arr == old(arr)
      ensures old(index) != old(arr.Length) ==> fresh(arr)
    {
      out := Resize(index);
    }
  }

  /** `new FastByteArrayOutputStream(size)`: `new byte[size]` refuses a negative size. */
  method Create(size: i32) returns (r: Result<FastByteArrayOutputStream>)
    ensures r.Fail? <==> size < 0
    ensures r.Fail? ==> r.error == NegativeArraySize
    ensures r.Ok? ==> fresh(r.value) && r.value.Valid() && r.value.arr.Length == size && r.value.Contents() == []
  {
    if size < 0 {
      return Fail(NegativeArraySize);
    }
    var s := new FastByteArrayOutputStream(size);
    return Ok(s);
  }
}
