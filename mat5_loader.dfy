// MAT-file level 5 loading (Matfile5Loader, continued): a miMATRIX element's
// sub-elements become a container (`setArray`), a miCOMPRESSED element is
// inflated and its content processed (`process`, `deCompress`), and the
// loader walks the elements after the 128-byte header (`loadNext`).
//
// The `GZIPInputStream` is a parameter: it maps the compressed bytes to the
// bytes the stream delivers, or to nothing when reading them throws an
// IOException, and says how many reads deliver them.

module Mat5Loader {
  import opened Java
  import opened ByteBuffers
  import opened Ieee
  import opened MatVars
  import opened MatContainers
  import opened Mat5

  // ---------------------------------------------------------------------
  // The values setArray hands to the container

  /** The element types `setArray` copies into the container; a part of any other type is left unset. */
  predicate Copied(t: int)
  {
    t == miDOUBLE || t == miSINGLE || t == miINT8 || t == miUINT8 || t == miINT16
    || t == miUINT16 || t == miINT32 || t == miUINT32 || t == miINT64 || t == miUINT64
  }

  /** One call on the container: `setLong(i, v)`, or `setDouble(i, x)` given `(int) x`. */
  datatype Setter = LongArg(v: i64) | DoubleArg(truncated: i32)

  /**
   * The call for one element of the real part: doubles and floats go through
   * `setDouble`; uint8 and uint32 are widened to their unsigned value; a
   * uint64 becomes the double `l + 2^64` when negative, so only values up to
   * the largest int survive the `(int)` of `setDouble`.
   */
  function RealArg(t: int, v: int): Setter
    requires Copied(t) && InKind(KindOf(t), v)
  {
    if t == miDOUBLE then DoubleArg(Truncate(v, Double, INT_MIN, INT_MAX))
    else if t == miSINGLE then DoubleArg(FloatToInt(v))
    else if t == miUINT8 then LongArg(UnsignedByte(v))
    else if t == miUINT32 then LongArg(UnsignedInt(v))
    else if t == miUINT64 then DoubleArg(if 0 <= v <= INT_MAX then v else INT_MAX)
    else LongArg(v)
  }

  /**
   * The call for one element of the imaginary part, as written: a uint8 gets
   * 0x100 added and a uint32 2^32, whatever its sign, and a uint64 always gets
   * 2^64 added, which no int can hold. (A uint16 part throws before any call.)
   */
  function ImagArg(t: int, v: int): Setter
    requires Copied(t) && t != miUINT16 && InKind(KindOf(t), v)
  {
    if t == miUINT8 then LongArg(v + 0x100)
    else if t == miUINT32 then LongArg(v + 0x1_0000_0000)
    else if t == miUINT64 then DoubleArg(INT_MAX)
    else RealArg(t, v)
  }

  /** The unsigned value a file element of an unsigned integer type stands for. */
  function FileUnsigned(t: int, v: int): int
    requires t == miUINT8 || t == miUINT16 || t == miUINT32
    requires InKind(KindOf(t), v)
  {
    if t == miUINT8 then UnsignedByte(v)
    else if t == miUINT32 then UnsignedInt(v)
    else v
  }

  /** What a MatIntU8 stores for a call. */
  function StoreU8(s: Setter): i8
  {
    match s
    case LongArg(v) => ToByte(v)
    case DoubleArg(x) => ToByte(x)
  }

  /** What a MatIntU32 stores for a call. */
  function StoreU32(s: Setter): i32
  {
    match s
    case LongArg(v) => ToInt(v)
    case DoubleArg(x) => x
  }

  /**
   * The real part of an unsigned file type lands in the container so that
   * the unsigned readers give the file's value back: a uint8, uint16 or
   * uint32 element through the intended `getUInt`, a uint8 element through
   * the intended `getUByte`.
   */
  lemma RealReadsBack(t: int, v: int)
    requires t == miUINT8 || t == miUINT16 || t == miUINT32
    requires InKind(KindOf(t), v)
    ensures UIntIntended(StoreU32(RealArg(t, v))) == FileUnsigned(t, v)
    ensures t == miUINT8 ==> UByteIntended(StoreU8(RealArg(t, v))) == FileUnsigned(t, v)
  {
    UIntRoundTrip(FileUnsigned(t, v));
    if t == miUINT8 {
      UByteRoundTrip(UnsignedByte(v));
    }
  }

  /**
   * The imaginary widening as written: a uint8 element below 0x80 lands in a
   * MatIntU32 as its value plus 256, and a uint64 element lands as the
   * largest int whatever it holds, where the real part keeps it.
   */
  lemma ImagWideningAsWritten(v: int, w: i64)
    requires 0 <= v < 0x80
    ensures StoreU32(ImagArg(miUINT8, v)) == v + 0x100
    ensures UIntIntended(StoreU32(ImagArg(miUINT8, v))) != FileUnsigned(miUINT8, v)
    ensures StoreU32(ImagArg(miUINT64, w)) == INT_MAX
    ensures 0 <= w < INT_MAX ==> StoreU32(RealArg(miUINT64, w)) == w != StoreU32(ImagArg(miUINT64, w))
  {
  }

  /** The imaginary widening as intended: the same call as for the real part. */
  function ImagArgIntended(t: int, v: int): (s: Setter)
    requires Copied(t) && InKind(KindOf(t), v)
    ensures t == miUINT8 || t == miUINT16 || t == miUINT32 ==> UIntIntended(StoreU32(s)) == FileUnsigned(t, v)
  {
    if t == miUINT8 || t == miUINT16 || t == miUINT32 then RealReadsBack(t, v); RealArg(t, v)
    else RealArg(t, v)
  }

  /** The calls `setArray` makes on the real part, in index order. */
  function RealSetters(e: ArrayElement): (r: seq<Setter>)
    requires WellFormed(e)
    ensures Copied(e.realType) ==> |r| == |e.realData.value.values|
    ensures !Copied(e.realType) ==> r == []
  {
    if Copied(e.realType) then
      var vs := e.realData.value.values;
      seq(|vs|, k requires 0 <= k < |vs| => RealArg(e.realType, vs[k]))
    else []
  }

  /** The calls `setArray` makes on the imaginary part: none unless the array is complex. */
  function ImagSetters(e: ArrayElement): (r: seq<Setter>)
    requires WellFormed(e)
    ensures e.flags.complex && Copied(e.imagType) && e.imagType != miUINT16 ==> |r| == |e.imagData.value.values|
    ensures !e.flags.complex ==> r == []
  {
    if e.flags.complex && Copied(e.imagType) && e.imagType != miUINT16 then
      var vs := e.imagData.value.values;
      seq(|vs|, k requires 0 <= k < |vs| => ImagArg(e.imagType, vs[k]))
    else []
  }

  /** Element `k` of a MatIntU8 array after the calls `s` on a zeroed one. */
  function U8At(s: seq<Setter>, k: int): i8
  {
    if 0 <= k < |s| then StoreU8(s[k]) else 0
  }

  /** Element `k` of a MatIntU32 array after the calls `s` on a zeroed one. */
  function U32At(s: seq<Setter>, k: int): i32
  {
    if 0 <= k < |s| then StoreU32(s[k]) else 0
  }

  /**
   * A uint8 array read from a uint8 element: every file byte reads back
   * through the intended `getUByte`; through `getUByte` as written, the zero
   * byte reads as 256.
   */
  lemma U8ElementReadsBack(e: ArrayElement, k: nat)
    requires WellFormed(e) && e.realType == miUINT8
    requires k < |e.realData.value.values|
    ensures var v := e.realData.value.values[k];
      UByteIntended(U8At(RealSetters(e), k)) == UnsignedByte(v)
      && UByteOf(U8At(RealSetters(e), k)) == if v == 0 then 0x100 else UnsignedByte(v)
  {
    var v := e.realData.value.values[k];
    assert RealSetters(e)[k] == RealArg(miUINT8, v);
    RealReadsBack(miUINT8, v);
    UByteRoundTrip(UnsignedByte(v));
  }

  // ---------------------------------------------------------------------
  // setArray

  /** The classes `setArray` builds a container for: double up to uint32. */
  predicate Built(c: int)
  {
    mxDOUBLE_CLASS <= c <= mxUINT32_CLASS
  }

  /**
   * The exception the copying loops end with in a container of `size`
   * elements: a part longer than the container, or a uint16 imaginary part,
   * whose array `setArray` casts to `short[]`.
   */
  function FillError(e: ArrayElement, size: int): Option<Error>
    requires WellFormed(e)
  {
    if |RealSetters(e)| > size then Some(IndexOutOfBounds)
    else if e.flags.complex && e.imagType == miUINT16 then Some(ClassCast)
    else if |ImagSetters(e)| > size then Some(IndexOutOfBounds)
    else None
  }

  /** The exception `setArray` throws, if any. */
  function SetArrayError(e: ArrayElement): (r: Option<Error>)
    requires WellFormed(e)
    ensures r.None? ==> Built(e.flags.classId) && e.dim.Some? && ToInt(Product(e.dim.value)) >= 0
    ensures r.None? ==> |RealSetters(e)| <= ToInt(Product(e.dim.value))
    ensures r.None? ==> |ImagSetters(e)| <= ToInt(Product(e.dim.value))
    ensures r.None? && e.flags.complex ==> e.imagType != miUINT16
    ensures !Built(e.flags.classId) ==> r == Some(Unsupported)
  {
    if !Built(e.flags.classId) then Some(Unsupported)
    else if e.dim.None? then Some(NullPointer)
    else if ToInt(Product(e.dim.value)) < 0 then Some(NegativeArraySize)
    else FillError(e, ToInt(Product(e.dim.value)))
  }

  /** A MatIntU8 holds the array element: its name, extents, and both parts as `setArray` copies them. */
  predicate HoldsU8(u: MatIntU8, e: ArrayElement)
    requires WellFormed(e)
    reads u, u.data, u.imag
  {
    && e.dim.Some? && u.name == e.name && u.dim == e.dim.value
    && u.data.Length == ToInt(Product(e.dim.value))
    && (forall k :: 0 <= k < u.data.Length ==> u.data[k] == U8At(RealSetters(e), k))
    && (u.imag != null <==> e.flags.complex)
    && (u.imag != null ==> u.imag.Length == u.data.Length)
    && (u.imag != null ==> forall k :: 0 <= k < u.imag.Length ==> u.imag[k] == U8At(ImagSetters(e), k))
  }

  /** A MatIntU32 holds the array element. */
  predicate HoldsU32(u: MatIntU32, e: ArrayElement)
    requires WellFormed(e)
    reads u, u.data, u.imag
  {
    && e.dim.Some? && u.name == e.name && u.dim == e.dim.value
    && u.data.Length == ToInt(Product(e.dim.value))
    && (forall k :: 0 <= k < u.data.Length ==> u.data[k] == U32At(RealSetters(e), k))
    && (u.imag != null <==> e.flags.complex)
    && (u.imag != null ==> u.imag.Length == u.data.Length)
    && (u.imag != null ==> forall k :: 0 <= k < u.imag.Length ==> u.imag[k] == U32At(ImagSetters(e), k))
  }

  /**
   * One copying loop of `setArray` on a MatIntU8's real part: call after
   * call, until the calls run out or an index falls off the end of the array,
   * where the elements before it are already set.
   */
  method PutU8(u: MatIntU8, s: seq<Setter>) returns (out: Outcome)
    requires u.data.Length <= INT_MAX
    modifies u.data
    ensures out == Done <==> |s| <= u.data.Length
    ensures out.Thrown? ==> out.error == IndexOutOfBounds
    ensures forall k :: 0 <= k < u.data.Length ==> u.data[k] == if k < |s| then StoreU8(s[k]) else old(u.data[k])
  {
    var i := 0;
    while i < |s|
      invariant i <= |s| && i <= u.data.Length
      invariant forall k :: 0 <= k < u.data.Length ==> u.data[k] == if k < i then StoreU8(s[k]) else old(u.data[k])
    {
      var o: Outcome;
      match s[i] {
        case LongArg(v) => o := u.SetLong(i, v);
        case DoubleArg(x) => o := u.SetDouble(i, x);
      }
      if o.Thrown? {
        return o;
      }
      i := i + 1;
    }
    return Done;
  }

  /** The copying loop on a MatIntU8's imaginary part. */
  method PutU8Imag(u: MatIntU8, s: seq<Setter>) returns (out: Outcome)
    requires u.imag != null && u.imag.Length <= INT_MAX
    modifies u.imag
    ensures out == Done <==> |s| <= u.imag.Length
    ensures out.Thrown? ==> out.error == IndexOutOfBounds
    ensures forall k :: 0 <= k < u.imag.Length ==> u.imag[k] == if k < |s| then StoreU8(s[k]) else old(u.imag[k])
  {
    var i := 0;
    while i < |s|
      invariant i <= |s| && i <= u.imag.Length
      invariant forall k :: 0 <= k < u.imag.Length ==> u.imag[k] == if k < i then StoreU8(s[k]) else old(u.imag[k])
    {
      var o: Outcome;
      match s[i] {
        case LongArg(v) => o := u.SetLongImag(i, v);
        case DoubleArg(x) => o := u.SetDoubleImag(i, x);
      }
      if o.Thrown? {
        return o;
      }
      i := i + 1;
    }
    return Done;
  }

  /** The copying loop on a MatIntU32's real part. */
  method PutU32(u: MatIntU32, s: seq<Setter>) returns (out: Outcome)
    requires u.data.Length <= INT_MAX
    modifies u.data
    ensures out == Done <==> |s| <= u.data.Length
    ensures out.Thrown? ==> out.error == IndexOutOfBounds
    ensures forall k :: 0 <= k < u.data.Length ==> u.data[k] == if k < |s| then StoreU32(s[k]) else old(u.data[k])
  {
    var i := 0;
    while i < |s|
      invariant i <= |s| && i <= u.data.Length
      invariant forall k :: 0 <= k < u.data.Length ==> u.data[k] == if k < i then StoreU32(s[k]) else old(u.data[k])
    {
      var o: Outcome;
      match s[i] {
        case LongArg(v) => o := u.SetLong(i, v);
        case DoubleArg(x) => o := u.SetDouble(i, x);
      }
      if o.Thrown? {
        return o;
      }
      i := i + 1;
    }
    return Done;
  }

  /** The copying loop on a MatIntU32's imaginary part. */
  method PutU32Imag(u: MatIntU32, s: seq<Setter>) returns (out: Outcome)
    requires u.imag != null && u.imag.Length <= INT_MAX
    modifies u.imag
    ensures out == Done <==> |s| <= u.imag.Length
    ensures out.Thrown? ==> out.error == IndexOutOfBounds
    ensures forall k :: 0 <= k < u.imag.Length ==> u.imag[k] == if k < |s| then StoreU32(s[k]) else old(u.imag[k])
  {
    var i := 0;
    while i < |s|
      invariant i <= |s| && i <= u.imag.Length
      invariant forall k :: 0 <= k < u.imag.Length ==> u.imag[k] == if k < i then StoreU32(s[k]) else old(u.imag[k])
    {
      var o: Outcome;
      match s[i] {
        case LongArg(v) => o := u.SetLongImag(i, v);
        case DoubleArg(x) => o := u.SetDoubleImag(i, x);
      }
      if o.Thrown? {
        return o;
      }
      i := i + 1;
    }
    return Done;
  }

  /** `setArray` for the uint8 class: a fresh MatIntU8 filled from both parts. */
  method SetU8(e: ArrayElement) returns (r: Result<MatIntU8>)
    requires WellFormed(e) && e.dim.Some? && ToInt(Product(e.dim.value)) >= 0
    ensures r.Fail? <==> FillError(e, ToInt(Product(e.dim.value))).Some?
    ensures r.Fail? ==> r.error == FillError(e, ToInt(Product(e.dim.value))).value
    ensures r.Ok? ==> fresh(r.value) && fresh(r.value.data) && HoldsU8(r.value, e)
    ensures r.Ok? && r.value.imag != null ==> fresh(r.value.imag)
  {
    var u := new MatIntU8(e.name, e.dim.value, e.flags.complex);
    var out := PutU8(u, RealSetters(e));
    if out.Thrown? {
      return Fail(out.error);
    }
    if e.flags.complex && e.imagType == miUINT16 {
      return Fail(ClassCast);
    }
    if e.flags.complex {
      out := PutU8Imag(u, ImagSetters(e));
      if out.Thrown? {
        return Fail(out.error);
      }
    }
    return Ok(u);
  }

  /** `setArray` for the uint32 class: a fresh MatIntU32 filled from both parts. */
  method SetU32(e: ArrayElement) returns (r: Result<MatIntU32>)
    requires WellFormed(e) && e.dim.Some? && ToInt(Product(e.dim.value)) >= 0
    ensures r.Fail? <==> FillError(e, ToInt(Product(e.dim.value))).Some?
    ensures r.Fail? ==> r.error == FillError(e, ToInt(Product(e.dim.value))).value
    ensures r.Ok? ==> fresh(r.value) && fresh(r.value.data) && HoldsU32(r.value, e)
    ensures r.Ok? && r.value.imag != null ==> fresh(r.value.imag)
  {
    var u := new MatIntU32(e.name, e.dim.value, e.flags.complex);
    var out := PutU32(u, RealSetters(e));
    if out.Thrown? {
      return Fail(out.error);
    }
    if e.flags.complex && e.imagType == miUINT16 {
      return Fail(ClassCast);
    }
    if e.flags.complex {
      out := PutU32Imag(u, ImagSetters(e));
      if out.Thrown? {
        return Fail(out.error);
      }
    }
    return Ok(u);
  }

  /**
   * `setArray`: the cell, struct, object, char and sparse classes and unknown
   * classes are unsupported; the uint8 and uint32 classes get their
   * containers; the other numeric classes are kept as name and class only,
   * with the exceptions their copying loops would end with.
   */
  method SetArray(e: ArrayElement) returns (r: Result<Loaded>)
    requires WellFormed(e)
    ensures r.Fail? <==> SetArrayError(e).Some?
    ensures r.Fail? ==> r.error == SetArrayError(e).value
    ensures r.Ok? ==> NameOf(r.value) == e.name
    ensures r.Ok? ==> (r.value.U8Var? <==> e.flags.classId == mxUINT8_CLASS)
    ensures r.Ok? ==> (r.value.U32Var? <==> e.flags.classId == mxUINT32_CLASS)
    ensures r.Ok? && r.value.OtherVar? ==> r.value.code == e.flags.classId
    ensures r.Ok? && r.value.U8Var? ==> fresh(r.value.u8) && HoldsU8(r.value.u8, e)
    ensures r.Ok? && r.value.U32Var? ==> fresh(r.value.u32) && HoldsU32(r.value.u32, e)
  {
    var c := e.flags.classId;
    if !Built(c) {
      return Fail(Unsupported);
    }
    if e.dim.None? {
      return Fail(NullPointer);
    }
    var size := DataSize(e.dim.value);
    if size < 0 {
      return Fail(NegativeArraySize);
    }
    if c == mxUINT8_CLASS {
      var u :- SetU8(e);
      return Ok(U8Var(u));
    } else if c == mxUINT32_CLASS {
      var u :- SetU32(e);
      return Ok(U32Var(u));
    } else {
      var err := FillError(e, size);
      if err.Some? {
        return Fail(err.value);
      }
      return Ok(OtherVar(e.name, c));
    }
  }

  // ---------------------------------------------------------------------
  // deCompress and process

  /** `n` zero bytes: a fresh Java byte array. */
  function Zeros(n: nat): (r: seq<u8>)
    ensures |r| == n && forall k :: 0 <= k < n ==> r[k] == 0
  {
    seq(n, _ => 0)
  }

  /**
   * The `GZIPInputStream` over a compressed element's bytes: what it
   * delivers (None when reading throws an IOException) and how many reads
   * deliver it.
   */
  datatype Gzip = Gzip(output: seq<u8> -> Option<seq<u8>>, readCalls: seq<u8> -> nat)

  /**
   * The reads that deliver bytes before the stream reports its end: none for
   * an empty stream, otherwise at least one and at most one per byte.
   */
  function ReadCount(gzip: Gzip, input: seq<u8>): (n: nat)
    requires gzip.output(input).Some?
    ensures n == 0 <==> |gzip.output(input).value| == 0
    ensures n <= |gzip.output(input).value|
  {
    var size := |gzip.output(input).value|;
    if size == 0 then 0
    else if gzip.readCalls(input) < 1 then 1
    else if gzip.readCalls(input) > size then size
    else gzip.readCalls(input)
  }

  /**
   * `deCompress(buf, byteSize)` as written: the `byteSize` bytes at `at` are
   * inflated into an array of twice that size, read until the stream reports
   * its end, and every read that delivers bytes grows the array by
   * `byteSize` zeros (throwing NegativeArraySize once the length wraps past
   * the largest int). Once the array's first `2 * byteSize` bytes are full,
   * every further read asks for no bytes and gets none, never the end of the
   * stream, so the loop does not return normally. A shorter stream comes
   * back followed by zeros.
   */
  function Decompress(buf: seq<u8>, at: nat, byteSize: i32, gzip: Gzip): (r: Result<seq<u8>>)
    ensures r.Ok? ==> 0 <= byteSize && at + byteSize <= |buf| && gzip.output(buf[at..at + byteSize]).Some?
    ensures r.Ok? ==> var out := gzip.output(buf[at..at + byteSize]).value;
      |out| < 2 * byteSize
      && |r.value| == 2 * byteSize + ReadCount(gzip, buf[at..at + byteSize]) * byteSize <= INT_MAX
      && r.value[..|out|] == out
    ensures r.Ok? ==> forall k :: |gzip.output(buf[at..at + byteSize]).value| <= k < |r.value| ==> r.value[k] == 0
  {
    if byteSize < 0 || ToInt(byteSize * 2) < 0 then Fail(NegativeArraySize)
    else if at + byteSize > |buf| then Fail(BufferUnderflow)
    else
      var input := buf[at..at + byteSize];
      match gzip.output(input)
      case None => Fail(IllegalArgument)
      case Some(out) =>
        if |out| >= 2 * byteSize then Fail(NoReturn)
        else if 2 * byteSize + ReadCount(gzip, input) * byteSize > INT_MAX then Fail(NegativeArraySize)
        else
          var r := out + Zeros(2 * byteSize + ReadCount(gzip, input) * byteSize - |out|);
          assert r[..|out|] == out;
          Ok(r)
  }

  /** `new byte[byteSize * 2]` is refused exactly when the doubled size wraps past the largest int. */
  lemma DoubledSize(byteSize: i32)
    ensures 0 <= byteSize ==> (ToInt(byteSize * 2) < 0 <==> byteSize >= 0x4000_0000)
  {
    if 0 <= byteSize {
      assert (byteSize * 2) % 0x1_0000_0000 == byteSize * 2;
    }
  }

  /** `deCompress` as intended: the whole inflated stream, however long. */
  function DecompressIntended(buf: seq<u8>, at: nat, byteSize: i32, gzip: Gzip): (r: Result<seq<u8>>)
    ensures r.Ok? <==> 0 <= byteSize < 0x4000_0000 && at + byteSize <= |buf| && gzip.output(buf[at..at + byteSize]).Some?
    ensures r.Ok? ==> r.value == gzip.output(buf[at..at + byteSize]).value
  {
    DoubledSize(byteSize);
    if byteSize < 0 || ToInt(byteSize * 2) < 0 then Fail(NegativeArraySize)
    else if at + byteSize > |buf| then Fail(BufferUnderflow)
    else
      match gzip.output(buf[at..at + byteSize])
      case None => Fail(IllegalArgument)
      case Some(out) => Ok(out)
  }

  /**
   * A stream that inflates to at least twice its compressed size, the usual
   * case for numeric data, makes `deCompress` as written never return
   * normally (it keeps growing the array until the length wraps or memory
   * runs out), where the intended one returns the inflated bytes.
   */
  lemma DecompressStalls(buf: seq<u8>, at: nat, byteSize: i32, gzip: Gzip)
    requires 0 <= byteSize < 0x4000_0000 && at + byteSize <= |buf|
    requires gzip.output(buf[at..at + byteSize]).Some?
    requires |gzip.output(buf[at..at + byteSize]).value| >= 2 * byteSize
    ensures Decompress(buf, at, byteSize, gzip) == Fail(NoReturn)
    ensures DecompressIntended(buf, at, byteSize, gzip) == Ok(gzip.output(buf[at..at + byteSize]).value)
  {
    DoubledSize(byteSize);
  }

  /** The order the inflated bytes are read in, as written: `ByteBuffer.wrap` starts big-endian. */
  function InflatedOrder(order: ByteOrder): ByteOrder
  {
    BigEndian
  }

  /** The order the inflated bytes are read in, as intended: the file's own. */
  function InflatedOrderIntended(order: ByteOrder): ByteOrder
  {
    order
  }

  /**
   * `process` on the inflated bytes: a miMATRIX element is read as an array;
   * a nested compressed element is not followed; any other element is
   * rejected.
   */
  function InflatedMatrix(bytes: seq<u8>, order: ByteOrder): (r: Result<ArrayElement>)
    ensures r.Ok? ==> WellFormed(r.value)
    ensures ReadTag(bytes, 0, order).Ok? && ReadTag(bytes, 0, order).value.dataType !in {miMATRIX, miCOMPRESSED}
      ==> r == Fail(IllegalArgument)
  {
    var tag :- ReadTag(bytes, 0, order);
    if tag.dataType == miMATRIX then ParseArray(bytes, tag.tagSize, order)
    else if tag.dataType == miCOMPRESSED then Fail(Unsupported)
    else Fail(IllegalArgument)
  }

  /** The bytes of a full miMATRIX tag of `size` bytes written in `order`. */
  function MatrixTag(size: i32, order: ByteOrder): (r: seq<u8>)
    ensures |r| == 8
  {
    Encode(miMATRIX, 4, order) + Encode(size, 4, order)
  }

  /**
   * As written, the inflated bytes of a little-endian file are read
   * big-endian: the miMATRIX tag at their start reads as a small tag of type
   * 0x0E00 and size 0, and the element is rejected.
   */
  lemma InflatedMatrixMisread(bytes: seq<u8>, size: i32)
    requires |bytes| >= 8 && bytes[..8] == MatrixTag(size, LittleEndian)
    ensures ReadTag(bytes, 0, InflatedOrder(LittleEndian)) == Ok(Tag(0x0E00, 0, 4))
    ensures InflatedMatrix(bytes, InflatedOrder(LittleEndian)) == Fail(IllegalArgument)
  {
    MatrixTypeBytes();
    assert bytes[0..4] == bytes[..8][..4];
    WordAt(bytes, 0, SmallTagWord(0, 0x0E00), BigEndian);
    ShortsOfSmallWord(bytes, 0, 0, 0x0E00, BigEndian);
    ReadSmallTag(bytes, 0, BigEndian);
  }

  /** The little-endian miMATRIX type word has the bytes of the big-endian word 0x0E00_0000. */
  lemma MatrixTypeBytes()
    ensures Encode(miMATRIX, 4, LittleEndian) == Encode(SmallTagWord(0, 0x0E00), 4, BigEndian)
  {
    assert LittleBytes(0, 3) == [0, 0, 0] by {
      assert LittleBytes(0, 1) == [0] && LittleBytes(0, 2) == [0, 0];
    }
    assert LittleBytes(0x0E00_0000, 4) == [0, 0, 0, 14] by {
      assert LittleBytes(0x0E, 1) == [14];
      assert LittleBytes(0x0E00, 2) == [0, 14];
      assert LittleBytes(0x0E_0000, 3) == [0, 0, 14];
    }
    var r := Reverse([0, 0, 0, 14]);
    assert r == [14, 0, 0, 0];
  }

  /** As intended, a miMATRIX tag at the start of the inflated bytes reads back in the file's order. */
  lemma InflatedMatrixRead(bytes: seq<u8>, size: i32, order: ByteOrder)
    requires |bytes| >= 8 && bytes[..8] == MatrixTag(size, order)
    ensures ReadTag(bytes, 0, InflatedOrderIntended(order)) == Ok(Tag(miMATRIX, size, 8))
  {
    assert bytes[0..8] == bytes[..8];
    FullTagRoundTrip(bytes, 0, miMATRIX, size, order);
  }

  /** An array element located in the file, and the position after its element. */
  datatype Located = Located(element: ArrayElement, next: nat)

  /**
   * `process(buf)` up to `setArray`: the tag at `at`, then for a miMATRIX
   * element the array read from its data, for a miCOMPRESSED element the
   * array in its inflated bytes, read big-endian; any other element is
   * rejected. A matrix element ends where its last sub-element ends, a
   * compressed one after its compressed bytes.
   */
  function MatrixAt(buf: seq<u8>, at: nat, order: ByteOrder, gzip: Gzip): (r: Result<Located>)
    requires at <= |buf|
    ensures r.Ok? ==> at < r.value.next <= |buf| && WellFormed(r.value.element)
  {
    var tag :- ReadTag(buf, at, order);
    var start := at + tag.tagSize;
    if tag.dataType == miMATRIX then
      var e :- ParseArray(buf, start, order);
      Ok(Located(e, e.next))
    else if tag.dataType == miCOMPRESSED then CompressedAt(buf, start, tag.size, order, gzip)
    else Fail(IllegalArgument)
  }

  /** A miCOMPRESSED element whose `size` compressed bytes start at `start`. */
  function CompressedAt(buf: seq<u8>, start: nat, size: i32, order: ByteOrder, gzip: Gzip): (r: Result<Located>)
    ensures r.Ok? ==> start <= r.value.next <= |buf| && WellFormed(r.value.element)
  {
    var bytes :- Decompress(buf, start, size, gzip);
    var e :- InflatedMatrix(bytes, InflatedOrder(order));
    Ok(Located(e, start + size))
  }

  /** `process` on the inflated bytes, reading the array with its loops. */
  method ReadInflated(bytes: seq<u8>, order: ByteOrder) returns (r: Result<ArrayElement>)
    ensures r == InflatedMatrix(bytes, order)
  {
    var tag :- ReadTag(bytes, 0, order);
    if tag.dataType == miMATRIX {
      r := ReadArray(bytes, tag.tagSize, order);
    } else if tag.dataType == miCOMPRESSED {
      r := Fail(Unsupported);
    } else {
      r := Fail(IllegalArgument);
    }
  }

  /** A miCOMPRESSED element: `deCompress`, then `process` on the inflated bytes. */
  method ReadCompressed(buf: seq<u8>, start: nat, size: i32, order: ByteOrder, gzip: Gzip)
    returns (r: Result<Located>)
    ensures r == CompressedAt(buf, start, size, order, gzip)
  {
    var bytes :- Decompress(buf, start, size, gzip);
    var e :- ReadInflated(bytes, InflatedOrder(order));
    return Ok(Located(e, start + size));
  }

  /** `process` up to `setArray`, reading each array with its loops. */
  method LocateMatrix(buf: seq<u8>, at: nat, order: ByteOrder, gzip: Gzip) returns (r: Result<Located>)
    requires at <= |buf|
    ensures r == MatrixAt(buf, at, order, gzip)
  {
    var tag :- ReadTag(buf, at, order);
    var start := at + tag.tagSize;
    if tag.dataType == miMATRIX {
      var e :- ReadArray(buf, start, order);
      return Ok(Located(e, e.next));
    } else if tag.dataType == miCOMPRESSED {
      r := ReadCompressed(buf, start, tag.size, order, gzip);
    } else {
      return Fail(IllegalArgument);
    }
  }

  /**
   * `process(buf)`: the array element at `at` becomes a variable; `next` is
   * where the following element starts.
   */
  method Process(buf: seq<u8>, at: nat, order: ByteOrder, gzip: Gzip)
    returns (r: Result<Loaded>, next: nat)
    requires at <= |buf|
    ensures var m := MatrixAt(buf, at, order, gzip);
      m.Fail? ==> r == Fail(m.error)
    ensures var m := MatrixAt(buf, at, order, gzip);
      m.Ok? ==> next == m.value.next && (r.Fail? <==> SetArrayError(m.value.element).Some?)
    ensures var m := MatrixAt(buf, at, order, gzip);
      m.Ok? && r.Ok? ==> NameOf(r.value) == m.value.element.name
    ensures r.Ok? ==> at < next <= |buf|
  {
    var m := LocateMatrix(buf, at, order, gzip);
    if m.Fail? {
      return Fail(m.error), at;
    }
    r := SetArray(m.value.element);
    next := m.value.next;
  }

  // ---------------------------------------------------------------------
  // The loader

  /** A level 5 file being read: its bytes, what the header says, and where the next element starts. */
  class Matfile5Loader {
    const buf: seq<u8>
    const description: seq<u8>
    const version: i16
    const order: ByteOrder
    var position: nat

    predicate Valid()
      reads this
    {
      HEADER_SIZE <= position <= |buf|
    }

    /** The loader after `checkEndianAndType()` has read the header `h`. */
    constructor(buf: seq<u8>, h: Header5)
      requires |buf| >= HEADER_SIZE
      ensures this.buf == buf && description == h.description && version == h.version && order == h.order
      ensures position == HEADER_SIZE && Valid()
    {
      this.buf := buf;
      description := h.description;
      version := h.version;
      order := h.order;
      position := HEADER_SIZE;
    }

    /**
     * `loadNext()`: nothing once the elements are used up; otherwise the
     * element at the position, after which the position moves past it.
     */
    method LoadNext(gzip: Gzip) returns (r: Result<Option<Loaded>>)
      requires Valid()
      modifies this
      ensures Valid()
      ensures old(position) >= |buf| ==> r == Ok(None) && position == old(position)
      ensures old(position) < |buf| ==> r.Fail? || r.value.Some?
      ensures var m := MatrixAt(buf, old(position), order, gzip);
        old(position) < |buf| ==> (r.Fail? <==> m.Fail? || SetArrayError(m.value.element).Some?)
      ensures var m := MatrixAt(buf, old(position), order, gzip);
        old(position) < |buf| && r.Ok? ==> position == m.value.next && NameOf(r.value.value) == m.value.element.name
      ensures r.Ok? && r.value.Some? ==> old(position) < position
      ensures r.Fail? ==> position == old(position)
    {
      if position >= |buf| {
        return Ok(None);
      }
      var v, next := Process(buf, position, order, gzip);
      if v.Fail? {
        return Fail(v.error);
      }
      position := next;
      return Ok(Some(v.value));
    }
  }

  /** `new Matfile5Loader(buf)`: the header is read first; a short buffer throws. */
  method Open(buf: seq<u8>, initial: ByteOrder) returns (r: Result<Matfile5Loader>)
    ensures r.Fail? <==> |buf| < HEADER_SIZE
    ensures r.Fail? ==> r == Fail(ReadHeader(buf, initial).error)
    ensures r.Ok? ==> fresh(r.value) && r.value.Valid() && r.value.position == HEADER_SIZE && r.value.buf == buf
    ensures r.Ok? ==> var h := ReadHeader(buf, initial).value;
      r.value.order == h.order && r.value.version == h.version && r.value.description == h.description
  {
    var h :- ReadHeader(buf, initial);
    var loader := new Matfile5Loader(buf, h);
    return Ok(loader);
  }
}
