// The unsigned MAT-file containers: `MatIntU8` keeps uint8 elements in a Java
// `byte[]`, `MatIntU32` keeps uint32 elements in an `int[]`; each holds an
// optional second array for the imaginary parts. Elements are addressed by a
// subscript list through the column-major `getIndex`, or directly by their
// position when a loader fills them.
//
// A double handed to `setDouble` is used only through `(int) value`; the
// model passes that integer.

module MatContainers {
  import opened Java
  import opened MatVars

  /** The data slot `getIndex(index)` selects in an array of `length` elements, or the exception. */
  function Slot(index: seq<int>, dim: seq<int>, length: int): (r: Result<int>)
    ensures r.Ok? <==> Index(index, dim).Ok? && 0 <= Index(index, dim).value < length
    ensures r.Ok? ==> r.value == Index(index, dim).value
    ensures Index(index, dim).Ok? && r.Fail? ==> r.error == IndexOutOfBounds
  {
    match Index(index, dim)
    case Fail(e) => Fail(e)
    case Ok(i) => if 0 <= i < length then Ok(i) else Fail(IndexOutOfBounds)
  }

  /** A full subscript list within the extents always selects a slot of the data array, its column-major position. */
  lemma SlotInRange(index: seq<int>, dim: seq<int>)
    requires 1 <= |index| == |dim| && InRange(index, dim) && Product(dim) <= INT_MAX
    ensures Slot(index, dim, Product(dim)) == Ok(ColumnMajor(index, dim))
  {
    ColumnMajorBounds(index, dim);
    assert dim[..|index|] == dim;
  }

  /** `(byte) (v & 0xff)` and `(byte) v` agree: narrowing depends on the low byte only. */
  lemma ToByteLowByte(a: int, b: int)
    requires (a - b) % 0x100 == 0
    ensures ToByte(a) == ToByte(b)
  {
    var k := (a - b) / 0x100;
    assert a == b + 0x100 * k;
    ModUnique(a, 0x100, b / 0x100 + k, b % 0x100);
  }

  lemma MultipleOf256(x: int, k: int)
    requires x == 0x100 * k
    ensures x % 0x100 == 0
  {
  }

  /** What `MatIntU8.setLong` stores: `(byte) (((int) v) % 256 - 256)`, which is the low byte of v. */
  function ByteOfLong(v: int): (b: i8)
    ensures b == ToByte(v)
  {
    var i := ToInt(v);
    var t := Rem(i, 0x100) - 0x100;
    var d := (v - i) / 0x1_0000_0000;
    assert v - i == 0x1_0000_0000 * d;
    MultipleOf256(t - v, -0x100_0000 * d - Div(i, 0x100) - 1);
    ToByteLowByte(t, v);
    ToByte(t)
  }

  /** `getUByte` as written: a positive byte as it is, otherwise 256 plus the byte. */
  function UByteOf(num: i8): (v: int)
    ensures 1 <= v <= 0x100 && ToByte(v) == num
  {
    if num > 0 then num else 0x100 + num
  }

  /** `getUByte` as intended: the unsigned reading of the byte, `num & 0xff`. */
  function UByteIntended(num: i8): (v: int)
    ensures 0 <= v < 0x100 && ToByte(v) == num
  {
    if num >= 0 then num else 0x100 + num
  }

  /** The two readings differ exactly on the zero byte. */
  lemma UByteDiffersAtZero(num: i8)
    ensures UByteOf(num) == UByteIntended(num) <==> num != 0
  {
  }

  /** A uint8 value stored by `setLong` reads back through the intended `getUByte`; as written 0 reads as 256. */
  lemma UByteRoundTrip(v: int)
    requires 0 <= v < 0x100
    ensures UByteIntended(ByteOfLong(v)) == v
    ensures UByteOf(ByteOfLong(v)) == if v == 0 then 0x100 else v
  {
    var b := ByteOfLong(v);
    assert (v - b) % 0x100 == 0;
    if b < 0 {
      assert v == b as int + 0x100;
    } else {
      assert v == b;
    }
  }

  /** `getUInt` as written: a positive int as it is, otherwise 2^32 plus the int. */
  function UIntOf(num: i32): (v: int)
    ensures 1 <= v <= 0x1_0000_0000 && ToInt(v) == num
  {
    if num > 0 then num else 0x1_0000_0000 + num
  }

  /** `getUInt` as intended: the unsigned reading of the int, `num & 0xffffffffL`. */
  function UIntIntended(num: i32): (v: int)
    ensures 0 <= v < 0x1_0000_0000 && ToInt(v) == num
  {
    if num >= 0 then num else 0x1_0000_0000 + num
  }

  /** A uint32 value stored by `setLong` reads back through the intended `getUInt`; as written 0 reads as 2^32. */
  lemma UIntRoundTrip(v: int)
    requires 0 <= v < 0x1_0000_0000
    ensures UIntIntended(ToInt(v)) == v
    ensures UIntOf(ToInt(v)) == if v == 0 then 0x1_0000_0000 else v
  {
  }

  class MatIntU8 {
    const name: Name
    const dim: seq<i32>
    var data: array<i8>
    var imag: array?<i8>

    /** `MatIntU8(name, dim, imagf)`: zeroed arrays of the product of the extents; the imaginary one only when `imagf`. */
    constructor(name: Name, dim: seq<i32>, imagf: bool)
      requires ToInt(Product(dim)) >= 0
      ensures this.name == name && this.dim == dim
      ensures fresh(data) && data.Length == ToInt(Product(dim))
      ensures forall k :: 0 <= k < data.Length ==> data[k] == 0
      ensures (imag != null) == imagf
      ensures imag != null ==> fresh(imag) && imag.Length == ToInt(Product(dim)) && imag != data
      ensures imag != null ==> forall k :: 0 <= k < imag.Length ==> imag[k] == 0
    {
      this.name := name;
      this.dim := dim;
      var size := DataSize(dim);
      data := new i8[size](_ => 0);
      if imagf {
        imag := new i8[size](_ => 0);
      } else {
        imag := null;
      }
    }

    /** `type()` */
    function Type(): (t: int)
      ensures ElementBytes(t) == 1 && UnsignedCode(t)
    {
      UINT8
    }

    /** `containsImaginary()`: whether the imaginary array exists. */
    predicate ContainsImaginary()
      reads this
    {
      imag != null
    }

    /** `getUByte(index)` (and `getInt`, `getDouble`, `getNumber`, `getData`) as written. */
    function GetUByte(index: seq<int>): (r: Result<int>)
      reads this, data
      ensures r.Ok? <==> Slot(index, dim, data.Length).Ok?
      ensures r.Fail? ==> r.error == IndexOutOfBounds
      ensures r.Ok? ==> 1 <= r.value <= 0x100 && ToByte(r.value) == data[Slot(index, dim, data.Length).value]
    {
      match Slot(index, dim, data.Length)
      case Fail(e) => Fail(e)
      case Ok(i) => Ok(UByteOf(data[i]))
    }

    /** `getUByte(index)` as intended: the element's unsigned value. */
    function GetUByteIntended(index: seq<int>): (r: Result<int>)
      reads this, data
      ensures r.Ok? <==> Slot(index, dim, data.Length).Ok?
      ensures r.Ok? ==> 0 <= r.value < 0x100 && ToByte(r.value) == data[Slot(index, dim, data.Length).value]
    {
      match Slot(index, dim, data.Length)
      case Fail(e) => Fail(e)
      case Ok(i) => Ok(UByteIntended(data[i]))
    }

    /** `getImag(index)`: the imaginary element, read like `getUByte`; throws without an imaginary array. */
    function GetImag(index: seq<int>): (r: Result<int>)
      reads this, imag
      ensures imag == null ==> r.Fail?
      ensures imag != null ==> (r.Ok? <==> Slot(index, dim, imag.Length).Ok?)
      ensures r.Ok? ==> imag != null && 1 <= r.value <= 0x100 && ToByte(r.value) == imag[Slot(index, dim, imag.Length).value]
    {
      match Index(index, dim)
      case Fail(e) => Fail(e)
      case Ok(i) =>
        if imag == null then Fail(NullPointer)
        else if 0 <= i < imag.Length then Ok(UByteOf(imag[i]))
        else Fail(IndexOutOfBounds)
    }

    /** `getImaginary(loc)`: 0 without an imaginary array, `getImag` otherwise. */
    function GetImaginary(index: seq<int>): (r: Result<int>)
      reads this, imag
      ensures imag == null ==> r == Ok(0)
      ensures imag != null ==> r == GetImag(index)
    {
      if imag == null then Ok(0) else GetImag(index)
    }

    /** `putAll(values)`: the array itself becomes the data. */
    method PutAll(values: array<i8>)
      modifies this
      ensures data == values && imag == old(imag)
    {
      data := values;
    }

    /** `putAllImage(values)`: the array itself becomes the imaginary data. */
    method PutAllImage(values: array<i8>)
      modifies this
      ensures imag == values && data == old(data)
    {
      imag := values;
    }

    /** `putValue(index, value)`: the byte goes to the slot `getIndex` selects. */
    method PutValue(index: seq<i32>, value: i8) returns (out: Outcome)
      modifies data
      ensures out == Done <==> Slot(index, dim, data.Length).Ok?
      ensures out.Thrown? ==> out.error == IndexOutOfBounds && data[..] == old(data[..])
      ensures out == Done ==> data[..] == old(data[..])[Slot(index, dim, data.Length).value := value]
    {
      var i := GetIndex(index, dim);
      if i.Fail? {
        return Thrown(i.error);
      }
      if i.value < 0 || i.value >= data.Length {
        return Thrown(IndexOutOfBounds);
      }
      data[i.value] := value;
      return Done;
    }

    /** `putImagValue(index, value)`: the same on the imaginary array. */
    method PutImagValue(index: seq<i32>, value: i8) returns (out: Outcome)
      modifies imag
      ensures out == Done <==> imag != null && Slot(index, dim, imag.Length).Ok?
      ensures out == Done ==> imag[..] == old(imag[..])[Slot(index, dim, imag.Length).value := value]
      ensures out.Thrown? && imag != null ==> out.error == IndexOutOfBounds && imag[..] == old(imag[..])
    {
      var i := GetIndex(index, dim);
      if i.Fail? {
        return Thrown(i.error);
      }
      if imag == null {
        return Thrown(NullPointer);
      }
      if i.value < 0 || i.value >= imag.Length {
        return Thrown(IndexOutOfBounds);
      }
      imag[i.value] := value;
      return Done;
    }

    /** `setLong(index, value)`: stores `(byte) (((int) value) % 256 - 256)` at the position. */
    method SetLong(index: i32, value: i64) returns (out: Outcome)
      modifies data
      ensures out == Done <==> 0 <= index < data.Length
      ensures out.Thrown? ==> out.error == IndexOutOfBounds && data[..] == old(data[..])
      ensures out == Done ==> data[..] == old(data[..])[index := ToByte(value)]
    {
      if index < 0 || index >= data.Length {
        return Thrown(IndexOutOfBounds);
      }
      data[index] := ByteOfLong(value);
      return Done;
    }

    /** `setDouble(index, value)`, given `(int) value`: stored like `setLong`. */
    method SetDouble(index: i32, truncated: i32) returns (out: Outcome)
      modifies data
      ensures out == Done <==> 0 <= index < data.Length
      ensures out.Thrown? ==> out.error == IndexOutOfBounds && data[..] == old(data[..])
      ensures out == Done ==> data[..] == old(data[..])[index := ToByte(truncated)]
    {
      if index < 0 || index >= data.Length {
        return Thrown(IndexOutOfBounds);
      }
      data[index] := ByteOfLong(truncated);
      return Done;
    }

    /** `setLongImag(index, value)`: the same on the imaginary array. */
    method SetLongImag(index: i32, value: i64) returns (out: Outcome)
      modifies imag
      ensures out == Done <==> imag != null && 0 <= index < imag.Length
      ensures out == Done ==> imag[..] == old(imag[..])[index := ToByte(value)]
      ensures out.Thrown? && imag != null ==> out.error == IndexOutOfBounds && imag[..] == old(imag[..])
    {
      if imag == null {
        return Thrown(NullPointer);
      }
      if index < 0 || index >= imag.Length {
        return Thrown(IndexOutOfBounds);
      }
      imag[index] := ByteOfLong(value);
      return Done;
    }

    /** `setDoubleImag(index, value)`, given `(int) value`. */
    method SetDoubleImag(index: i32, truncated: i32) returns (out: Outcome)
      modifies imag
      ensures out == Done <==> imag != null && 0 <= index < imag.Length
      ensures out == Done ==> imag[..] == old(imag[..])[index := ToByte(truncated)]
      ensures out.Thrown? && imag != null ==> out.error == IndexOutOfBounds && imag[..] == old(imag[..])
    {
      if imag == null {
        return Thrown(NullPointer);
      }
      if index < 0 || index >= imag.Length {
        return Thrown(IndexOutOfBounds);
      }
      imag[index] := ByteOfLong(truncated);
      return Done;
    }
  }

  class MatIntU32 {
    const name: Name
    const dim: seq<i32>
    var data: array<i32>
    var imag: array?<i32>

    /** `MatIntU32(name, dim, imagf)`: zeroed arrays of the product of the extents; the imaginary one only when `imagf`. */
    constructor(name: Name, dim: seq<i32>, imagf: bool)
      requires ToInt(Product(dim)) >= 0
      ensures this.name == name && this.dim == dim
      ensures fresh(data) && data.Length == ToInt(Product(dim))
      ensures forall k :: 0 <= k < data.Length ==> data[k] == 0
      ensures (imag != null) == imagf
      ensures imag != null ==> fresh(imag) && imag.Length == ToInt(Product(dim)) && imag != data
      ensures imag != null ==> forall k :: 0 <= k < imag.Length ==> imag[k] == 0
    {
      this.name := name;
      this.dim := dim;
      var size := DataSize(dim);
      data := new i32[size](_ => 0);
      if imagf {
        imag := new i32[size](_ => 0);
      } else {
        imag := null;
      }
    }

    /** `type()` as written: the code of uint16, whose elements are 2 bytes wide. */
    function Type(): (t: int)
      ensures ElementBytes(t) == 2
    {
      UINT16
    }

    /** `type()` as intended: an unsigned code whose elements are as wide as the `int[]` storage. */
    function TypeIntended(): (t: int)
      ensures ElementBytes(t) == 4 && UnsignedCode(t)
    {
      UINT32
    }

    /** `containsImaginary()`: whether the imaginary array exists. */
    predicate ContainsImaginary()
      reads this
    {
      imag != null
    }

    /** `getUInt(index)` (and `getLong`, `getDouble`, `getNumber`, `getData`) as written. */
    function GetUInt(index: seq<int>): (r: Result<int>)
      reads this, data
      ensures r.Ok? <==> Slot(index, dim, data.Length).Ok?
      ensures r.Fail? ==> r.error == IndexOutOfBounds
      ensures r.Ok? ==> 1 <= r.value <= 0x1_0000_0000 && ToInt(r.value) == data[Slot(index, dim, data.Length).value]
    {
      match Slot(index, dim, data.Length)
      case Fail(e) => Fail(e)
      case Ok(i) => Ok(UIntOf(data[i]))
    }

    /** `getUInt(index)` as intended: the element's unsigned value. */
    function GetUIntIntended(index: seq<int>): (r: Result<int>)
      reads this, data
      ensures r.Ok? <==> Slot(index, dim, data.Length).Ok?
      ensures r.Ok? ==> 0 <= r.value < 0x1_0000_0000 && ToInt(r.value) == data[Slot(index, dim, data.Length).value]
    {
      match Slot(index, dim, data.Length)
      case Fail(e) => Fail(e)
      case Ok(i) => Ok(UIntIntended(data[i]))
    }

    /** `getImag(index)`: the imaginary element, read like `getUInt`; throws without an imaginary array. */
    function GetImag(index: seq<int>): (r: Result<int>)
      reads this, imag
      ensures imag == null ==> r.Fail?
      ensures imag != null ==> (r.Ok? <==> Slot(index, dim, imag.Length).Ok?)
      ensures r.Ok? ==> imag != null && 1 <= r.value <= 0x1_0000_0000 && ToInt(r.value) == imag[Slot(index, dim, imag.Length).value]
    {
      match Index(index, dim)
      case Fail(e) => Fail(e)
      case Ok(i) =>
        if imag == null then Fail(NullPointer)
        else if 0 <= i < imag.Length then Ok(UIntOf(imag[i]))
        else Fail(IndexOutOfBounds)
    }

    /** `getImaginary(loc)`: 0 without an imaginary array, `getImag` otherwise. */
    function GetImaginary(index: seq<int>): (r: Result<int>)
      reads this, imag
      ensures imag == null ==> r == Ok(0)
      ensures imag != null ==> r == GetImag(index)
    {
      if imag == null then Ok(0) else GetImag(index)
    }

    /** `putAll(values)`: the array itself becomes the data. */
    method PutAll(values: array<i32>)
      modifies this
      ensures data == values && imag == old(imag)
    {
      data := values;
    }

    /** `putAllImage(values)`: the array itself becomes the imaginary data. */
    method PutAllImage(values: array<i32>)
      modifies this
      ensures imag == values && data == old(data)
    {
      imag := values;
    }

    /** `putValue(index, value)`: the short, sign-extended, goes to the slot `getIndex` selects. */
    method PutValue(index: seq<i32>, value: i16) returns (out: Outcome)
      modifies data
      ensures out == Done <==> Slot(index, dim, data.Length).Ok?
      ensures out.Thrown? ==> out.error == IndexOutOfBounds && data[..] == old(data[..])
      ensures out == Done ==> data[..] == old(data[..])[Slot(index, dim, data.Length).value := value]
    {
      var i := GetIndex(index, dim);
      if i.Fail? {
        return Thrown(i.error);
      }
      if i.value < 0 || i.value >= data.Length {
        return Thrown(IndexOutOfBounds);
      }
      data[i.value] := value;
      return Done;
    }

    /** `putImagValue(index, value)`: the same on the imaginary array. */
    method PutImagValue(index: seq<i32>, value: i16) returns (out: Outcome)
      modifies imag
      ensures out == Done <==> imag != null && Slot(index, dim, imag.Length).Ok?
      ensures out == Done ==> imag[..] == old(imag[..])[Slot(index, dim, imag.Length).value := value]
      ensures out.Thrown? && imag != null ==> out.error == IndexOutOfBounds && imag[..] == old(imag[..])
    {
      var i := GetIndex(index, dim);
      if i.Fail? {
        return Thrown(i.error);
      }
      if imag == null {
        return Thrown(NullPointer);
      }
      if i.value < 0 || i.value >= imag.Length {
        return Thrown(IndexOutOfBounds);
      }
      imag[i.value] := value;
      return Done;
    }

    /** `setLong(index, value)`: stores `(int) value`. */
    method SetLong(index: i32, value: i64) returns (out: Outcome)
      modifies data
      ensures out == Done <==> 0 <= index < data.Length
      ensures out.Thrown? ==> out.error == IndexOutOfBounds && data[..] == old(data[..])
      ensures out == Done ==> data[..] == old(data[..])[index := ToInt(value)]
    {
      if index < 0 || index >= data.Length {
        return Thrown(IndexOutOfBounds);
      }
      data[index] := ToInt(value);
      return Done;
    }

    /** `setDouble(index, value)`, given `(int) value`: stored as it is. */
    method SetDouble(index: i32, truncated: i32) returns (out: Outcome)
      modifies data
      ensures out == Done <==> 0 <= index < data.Length
      ensures out.Thrown? ==> out.error == IndexOutOfBounds && data[..] == old(data[..])
      ensures out == Done ==> data[..] == old(data[..])[index := truncated]
    {
      if index < 0 || index >= data.Length {
        return Thrown(IndexOutOfBounds);
      }
      data[index] := truncated;
      return Done;
    }

    /** `setLongImag(index, value)`: the same on the imaginary array. */
    method SetLongImag(index: i32, value: i64) returns (out: Outcome)
      modifies imag
      ensures out == Done <==> imag != null && 0 <= index < imag.Length
      ensures out == Done ==> imag[..] == old(imag[..])[index := ToInt(value)]
      ensures out.Thrown? && imag != null ==> out.error == IndexOutOfBounds && imag[..] == old(imag[..])
    {
      if imag == null {
        return Thrown(NullPointer);
      }
      if index < 0 || index >= imag.Length {
        return Thrown(IndexOutOfBounds);
      }
      imag[index] := ToInt(value);
      return Done;
    }

    /** `setDoubleImag(index, value)`, given `(int) value`. */
    method SetDoubleImag(index: i32, truncated: i32) returns (out: Outcome)
      modifies imag
      ensures out == Done <==> imag != null && 0 <= index < imag.Length
      ensures out == Done ==> imag[..] == old(imag[..])[index := truncated]
      ensures out.Thrown? && imag != null ==> out.error == IndexOutOfBounds && imag[..] == old(imag[..])
    {
      if imag == null {
        return Thrown(NullPointer);
      }
      if index < 0 || index >= imag.Length {
        return Thrown(IndexOutOfBounds);
      }
      imag[index] := truncated;
      return Done;
    }
  }

  /**
   * A variable a loader hands back: one of the two modelled containers, or a
   * container of another class, kept as its name and class code only.
   */
  datatype Loaded =
    | U8Var(u8: MatIntU8)
    | U32Var(u32: MatIntU32)
    | OtherVar(name: Name, code: int)

  /** `getName()` of a loaded variable. */
  function NameOf(v: Loaded): Name
  {
    match v
    case U8Var(u) => u.name
    case U32Var(u) => u.name
    case OtherVar(n, _) => n
  }
}
