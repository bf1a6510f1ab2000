// Java language semantics the rest of the model relies on: the primitive
// integer types, the narrowing casts (two's complement truncation), integer
// division and remainder rounding toward zero, and the unchecked exceptions
// the modelled code can raise.

module Java {

  type i8 = x: int | -0x80 <= x < 0x80
  type i16 = x: int | -0x8000 <= x < 0x8000
  type i32 = x: int | -0x8000_0000 <= x < 0x8000_0000
  type i64 = x: int | -0x8000_0000_0000_0000 <= x < 0x8000_0000_0000_0000
  /** The unsigned view of one byte, as it sits in a buffer or a stream. */
  type u8 = x: int | 0 <= x < 0x100
  /** Java `char`: unsigned 16 bits. */
  type u16 = x: int | 0 <= x < 0x1_0000

  const INT_MIN: int := -0x8000_0000
  const INT_MAX: int := 0x7fff_ffff
  const LONG_MIN: int := -0x8000_0000_0000_0000
  const LONG_MAX: int := 0x7fff_ffff_ffff_ffff

  /** The exceptions raised by the modelled code. */
  datatype Error =
    | IllegalArgument
    | IndexOutOfBounds
    | Unsupported
    | NoSuchElement
    | NullPointer
    | Arithmetic
    | NumberFormat
    | BufferUnderflow
    | NegativeArraySize
    | ClassCast
    /** The call never returns: it loops, or runs out of memory. */
    | NoReturn

  /** A value, or the exception that was thrown instead. */
  datatype Result<T> = Ok(value: T) | Fail(error: Error)
  {
    predicate IsFailure() { Fail? }

    function PropagateFailure<U>(): Result<U>
      requires Fail?
    {
      Fail(error)
    }

    function Extract(): T
      requires Ok?
    {
      value
    }
  }

  /** Normal completion of a `void` method, or the exception thrown. */
  datatype Outcome = Done | Thrown(error: Error)

  datatype Option<T> = None | Some(value: T)

  /** `(byte) v` */
  function ToByte(v: int): (r: i8)
    ensures (v - r) % 0x100 == 0
    ensures -0x80 <= v < 0x80 ==> r == v
  {
    var m := v % 0x100;
    if m >= 0x80 then m - 0x100 else m
  }

  /** `(short) v` */
  function ToShort(v: int): (r: i16)
    ensures (v - r) % 0x1_0000 == 0
    ensures -0x8000 <= v < 0x8000 ==> r == v
  {
    var m := v % 0x1_0000;
    if m >= 0x8000 then m - 0x1_0000 else m
  }

  /** `(int) v` for an integral `v` */
  function ToInt(v: int): (r: i32)
    ensures (v - r) % 0x1_0000_0000 == 0
    ensures INT_MIN <= v <= INT_MAX ==> r == v
  {
    var m := v % 0x1_0000_0000;
    if m >= 0x8000_0000 then m - 0x1_0000_0000 else m
  }

  /** `(long) v` for an integral `v`: the value modulo 2^64 in the signed range. */
  function ToLong(v: int): (r: i64)
    ensures (v - r) % 0x1_0000_0000_0000_0000 == 0
    ensures LONG_MIN <= v <= LONG_MAX ==> r == v
  {
    var m := v % 0x1_0000_0000_0000_0000;
    if m >= 0x8000_0000_0000_0000 then m - 0x1_0000_0000_0000_0000 else m
  }

  /** `(char) v`, equivalently `v & 0xFFFF` */
  function ToChar(v: int): (r: u16)
    ensures (v - r) % 0x1_0000 == 0
  {
    v % 0x1_0000
  }

  /** `v & 0xFF` on a value widened to int: the unsigned reading of a byte. */
  function UnsignedByte(v: i8): (r: u8)
    ensures r == v || r == v + 0x100
  {
    if v < 0 then v + 0x100 else v
  }

  /** The Java byte whose unsigned reading is `u`. */
  function SignedByte(u: u8): (r: i8)
    ensures UnsignedByte(r) == u
  {
    if u >= 0x80 then u - 0x100 else u
  }

  /** `v & 0xffffffffL` on a Java int. */
  function UnsignedInt(v: i32): (r: int)
    ensures 0 <= r < 0x1_0000_0000
    ensures ToInt(r) == v
  {
    if v < 0 then v + 0x1_0000_0000 else v
  }

  function Abs(a: int): nat
  {
    if a < 0 then -a else a
  }

  /** Java `a / b`: the quotient rounded toward zero. */
  function Div(a: int, b: int): int
    requires b != 0
  {
    var q := Abs(a) / Abs(b);
    if (a < 0) == (b < 0) then q else -q
  }

  /** Java `a % b`: the remainder takes the sign of `a`. */
  function Rem(a: int, b: int): int
    requires b != 0
  {
    a - b * Div(a, b)
  }

  /** For a positive divisor, Java's remainder has the dividend's sign and lies below the divisor. */
  lemma RemBounds(a: int, b: int)
    requires b > 0
    ensures a >= 0 ==> 0 <= Rem(a, b) < b && Div(a, b) == a / b
    ensures a < 0 ==> -b < Rem(a, b) <= 0 && Div(a, b) == -((-a) / b)
  {
    if a < 0 {
      var q := (-a) / b;
      assert -a == b * q + (-a) % b;
      assert Rem(a, b) == -((-a) % b);
    }
  }

  /** On non-negative operands Java's operators agree with Dafny's. */
  lemma DivRemNonNegative(a: int, b: int)
    requires a >= 0 && b > 0
    ensures Div(a, b) == a / b && Rem(a, b) == a % b
  {
  }

  lemma MulAtLeast(d: int, x: int)
    requires d > 0 && x >= 1
    ensures d * x >= d
  {
  }

  /** `v = d*k + m` with `0 <= m < d` determines Dafny's quotient and remainder. */
  lemma ModUnique(v: int, d: int, k: int, m: int)
    requires d > 0 && 0 <= m < d && v == d * k + m
    ensures v % d == m && v / d == k
  {
    var q, r := v / d, v % d;
    assert v == d * q + r;
    assert d * (q - k) == m - r by {
      assert d * (q - k) == d * q - d * k;
    }
    if q > k {
      MulAtLeast(d, q - k);
    } else if q < k {
      MulAtLeast(d, k - q);
    }
  }
}
