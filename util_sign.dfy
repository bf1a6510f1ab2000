// The `sign` helpers of the NIFTI reader: arrays of unsigned integers read
// into Java's signed types are widened to the next larger type, each element
// replaced by its unsigned value.
//
// Java's `x & 0xFF` (and the wider masks) on a two's-complement value is the
// value modulo 2^8 (2^16, 2^32), which is what Dafny's Euclidean `%` gives for
// a positive modulus; the loops below use that.

module Signing {
  import opened Java

  /** The unsigned value of a Java short: `s & 0xFFFF`. */
  function UnsignedShort(s: i16): (r: u16)
    ensures ToShort(r) == s
  {
    if s < 0 then s + 0x1_0000 else s
  }

  /** The unsigned value of a Java long, as an exact number. */
  function UnsignedLong(v: i64): (r: int)
    ensures 0 <= r < 0x1_0000_0000_0000_0000
    ensures (r - v) % 0x1_0000_0000_0000_0000 == 0
  {
    if v < 0 then v + 0x1_0000_0000_0000_0000 else v
  }

  /** The unsigned reading of a byte is the one value in [0, 256) that narrows back to it. */
  lemma UnsignedByteUnique(x: int, v: i8)
    requires 0 <= x < 0x100
    ensures ToByte(x) == v <==> x == UnsignedByte(v)
  {
    if ToByte(x) == v {
      assert (x - v) % 0x100 == 0;
    }
  }

  /** The unsigned reading of a short is the one value in [0, 65536) that narrows back to it. */
  lemma UnsignedShortUnique(x: int, s: i16)
    requires 0 <= x < 0x1_0000
    ensures ToShort(x) == s <==> x == UnsignedShort(s)
  {
    if ToShort(x) == s {
      assert (x - s) % 0x1_0000 == 0;
    }
  }

  /** The unsigned reading of an int is the one value in [0, 2^32) that narrows back to it. */
  lemma UnsignedIntUnique(x: int, v: i32)
    requires 0 <= x < 0x1_0000_0000
    ensures ToInt(x) == v <==> x == UnsignedInt(v)
  {
    if ToInt(x) == v {
      assert (x - v) % 0x1_0000_0000 == 0;
    }
  }

  /** The unsigned reading of a long is the one value in [0, 2^64) congruent to it. */
  lemma UnsignedLongUnique(x: int, v: i64)
    requires 0 <= x < 0x1_0000_0000_0000_0000
    ensures (x - v) % 0x1_0000_0000_0000_0000 == 0 <==> x == UnsignedLong(v)
  {
    if (x - v) % 0x1_0000_0000_0000_0000 == 0 {
      var d := (x - v) / 0x1_0000_0000_0000_0000;
      assert x - v == d * 0x1_0000_0000_0000_0000;
    }
  }

  /** `sign(byte[])`: a new short array of the same length holding each byte's unsigned value. */
  method SignBytes(unsigned: array<i8>) returns (signed: array<i16>)
    ensures fresh(signed) && signed.Length == unsigned.Length
    ensures forall i :: 0 <= i < signed.Length ==> signed[i] == UnsignedByte(unsigned[i])
  {
    signed := new i16[unsigned.Length];
    for i := 0 to unsigned.Length
      invariant forall j :: 0 <= j < i ==> signed[j] == UnsignedByte(unsigned[j])
    {
      signed[i] := ToShort(unsigned[i] as int % 0x100);
    }
  }

  /** `sign(short[])`: a new char array of the same length holding each short's unsigned value. */
  method SignShorts(unsigned: array<i16>) returns (signed: array<u16>)
    ensures fresh(signed) && signed.Length == unsigned.Length
    ensures forall i :: 0 <= i < signed.Length ==> signed[i] == UnsignedShort(unsigned[i])
  {
    signed := new u16[unsigned.Length];
    for i := 0 to unsigned.Length
      invariant forall j :: 0 <= j < i ==> signed[j] == UnsignedShort(unsigned[j])
    {
      signed[i] := ToChar(unsigned[i] as int % 0x1_0000);
    }
  }

  /** `sign(int[])`: a new long array of the same length holding each int's unsigned value. */
  method SignInts(unsigned: array<i32>) returns (signed: array<i64>)
    ensures fresh(signed) && signed.Length == unsigned.Length
    ensures forall i :: 0 <= i < signed.Length ==> signed[i] == UnsignedInt(unsigned[i])
  {
    signed := new i64[unsigned.Length];
    for i := 0 to unsigned.Length
      invariant forall j :: 0 <= j < i ==> signed[j] == UnsignedInt(unsigned[j])
    {
      signed[i] := unsigned[i] as int % 0x1_0000_0000;
    }
  }

  /**
   * `sign(long[])`: a new double array of the same length; a negative long
   * has 2^64 added. The doubles are modelled as the exact numbers, before
   * the rounding to 53 significant bits.
   */
  method SignLongs(unsigned: array<i64>) returns (signed: array<int>)
    ensures fresh(signed) && signed.Length == unsigned.Length
    ensures forall i :: 0 <= i < signed.Length ==> signed[i] == UnsignedLong(unsigned[i])
  {
    signed := new int[unsigned.Length];
    for i := 0 to unsigned.Length
      invariant forall j :: 0 <= j < i ==> signed[j] == UnsignedLong(unsigned[j])
    {
      if unsigned[i] < 0 {
        signed[i] := unsigned[i] as int + 18446744073709551616;
      } else {
        signed[i] := unsigned[i];
      }
    }
  }

  /** The object handed to `sign(Object)`: one of the integer array types, or anything else. */
  datatype ArrayObject =
    | CharArray(chars: array<u16>)
    | ByteArray(bytes: array<i8>)
    | ShortArray(shorts: array<i16>)
    | IntArray(ints: array<i32>)
    | LongArray(longs: array<i64>)
    | OtherObject

  /** What `sign(Object)` returns: the array of the next type up. */
  datatype SignedArray =
    | Chars(chars: array<u16>)
    | Shorts(shorts: array<i16>)
    | Longs(longs: array<i64>)
    | Doubles(doubles: array<int>)

  /**
   * `sign(Object)`: a char array is returned as it is, the other integer
   * arrays go to their `sign`, and anything else is an illegal argument.
   */
  method Sign(unsigned: ArrayObject) returns (r: Result<SignedArray>)
    ensures unsigned.CharArray? ==> r == Ok(Chars(unsigned.chars))
    ensures unsigned.OtherObject? ==> r == Fail(IllegalArgument)
    ensures unsigned.ByteArray? ==> (r.Ok? && r.value.Shorts? && fresh(r.value.shorts)
      && r.value.shorts.Length == unsigned.bytes.Length
      && (forall i :: 0 <= i < unsigned.bytes.Length ==> r.value.shorts[i] == UnsignedByte(unsigned.bytes[i])))
    ensures unsigned.ShortArray? ==> (r.Ok? && r.value.Chars? && fresh(r.value.chars)
      && r.value.chars.Length == unsigned.shorts.Length
      && (forall i :: 0 <= i < unsigned.shorts.Length ==> r.value.chars[i] == UnsignedShort(unsigned.shorts[i])))
    ensures unsigned.IntArray? ==> (r.Ok? && r.value.Longs? && fresh(r.value.longs)
      && r.value.longs.Length == unsigned.ints.Length
      && (forall i :: 0 <= i < unsigned.ints.Length ==> r.value.longs[i] == UnsignedInt(unsigned.ints[i])))
    ensures unsigned.LongArray? ==> (r.Ok? && r.value.Doubles? && fresh(r.value.doubles)
      && r.value.doubles.Length == unsigned.longs.Length
      && (forall i :: 0 <= i < unsigned.longs.Length ==> r.value.doubles[i] == UnsignedLong(unsigned.longs[i])))
  {
    match unsigned
    case CharArray(a) =>
      r := Ok(Chars(a));
    case ByteArray(a) =>
      var s := SignBytes(a);
      r := Ok(Shorts(s));
    case ShortArray(a) =>
      var s := SignShorts(a);
      r := Ok(Chars(s));
    case IntArray(a) =>
      var s := SignInts(a);
      r := Ok(Longs(s));
    case LongArray(a) =>
      var s := SignLongs(a);
      r := Ok(Doubles(s));
    case OtherObject =>
      r := Fail(IllegalArgument);
  }
}
