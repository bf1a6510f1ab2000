// MAT-file level 4 loading (Matfile4Loader): a level 4 file is a run of
// matrices, each behind a 20-byte header of five ints (MOPT, rows, columns,
// imaginary flag, name length), followed by the NUL-terminated name and the
// real and then the imaginary elements in column-major order. The decimal
// digits of MOPT give the byte order (M), the precision (P) and the matrix
// type (T). The byte order of the whole file is decided once, from the first
// MOPT (`setEndian`).

module Mat4 {
  import opened Java
  import opened ByteBuffers
  import opened MatVars
  import opened MatContainers

  // Byte orders (the M digit)
  const LITTLE_ENDIAN: int := 0
  const BIG_ENDIAN: int := 1
  const VAX_D_FLOAT: int := 2
  const VAX_G_FLOAT: int := 3
  const CRAY: int := 4
  // Precisions (the P digit)
  const P_DOUBLE: int := 0
  const P_SINGLE: int := 1
  const P_32: int := 2
  const P_16: int := 3
  const P_U16: int := 4
  const P_8: int := 5
  // Matrix types (the T digit)
  const T_FULL: int := 0
  const T_TEXT: int := 1
  const T_SPARSE: int := 2

  /** The largest MOPT `setEndian` accepts when reading little-endian. */
  const MAX_TYPE: int := 4052

  /** The bytes of a header: five ints. */
  const HEADER_BYTES: nat := 20

  // ---------------------------------------------------------------------
  // The byte order

  /**
   * `setEndian()` as written: the first int read little-endian; above 4052
   * the file must be big-endian (M digit 1), otherwise little-endian (M
   * digit 0). Anything else, and a file shorter than one int, throws.
   */
  function Endian(buf: seq<u8>): (r: Result<ByteOrder>)
    ensures r.Fail? <==> |buf| < 4 || (GetInt(buf, 0, LittleEndian) > MAX_TYPE && Div(GetInt(buf, 0, BigEndian), 1000) != BIG_ENDIAN)
                                   || (GetInt(buf, 0, LittleEndian) <= MAX_TYPE && Div(GetInt(buf, 0, LittleEndian), 1000) != LITTLE_ENDIAN)
    ensures r == Ok(BigEndian) ==> GetInt(buf, 0, LittleEndian) > MAX_TYPE
  {
    if |buf| < 4 then Fail(BufferUnderflow)
    else
      var little := GetInt(buf, 0, LittleEndian);
      if little > MAX_TYPE then
        if Div(GetInt(buf, 0, BigEndian), 1000) != BIG_ENDIAN then Fail(IllegalArgument) else Ok(BigEndian)
      else if Div(little, 1000) != LITTLE_ENDIAN then Fail(IllegalArgument)
      else Ok(LittleEndian)
  }

  /**
   * `setEndian()` as intended: a little-endian reading outside [0, 4052]
   * means the file is big-endian, whether the stray value came out large or
   * negative.
   */
  function EndianIntended(buf: seq<u8>): (r: Result<ByteOrder>)
    ensures r.Ok? ==> |buf| >= 4 && Div(GetInt(buf, 0, r.value), 1000) == (if r.value == BigEndian then BIG_ENDIAN else LITTLE_ENDIAN)
  {
    if |buf| < 4 then Fail(BufferUnderflow)
    else
      var little := GetInt(buf, 0, LittleEndian);
      if little < 0 || little > MAX_TYPE then
        if Div(GetInt(buf, 0, BigEndian), 1000) != BIG_ENDIAN then Fail(IllegalArgument) else Ok(BigEndian)
      else if Div(little, 1000) != LITTLE_ENDIAN then Fail(IllegalArgument)
      else Ok(LittleEndian)
  }

  /** A MOPT below 2^16 stored in four bytes: two zero bytes and its two low bytes, in the file's order. */
  lemma SmallWordBytes(mopt: nat, order: ByteOrder)
    requires mopt < 0x1_0000
    ensures order == BigEndian ==> Encode(mopt, 4, order) == [0, 0, mopt / 0x100, mopt % 0x100]
    ensures order == LittleEndian ==> Encode(mopt, 4, order) == [mopt % 0x100, mopt / 0x100, 0, 0]
  {
    var lo, hi := mopt % 0x100, mopt / 0x100;
    assert (mopt / 0x100) % 0x100 == hi && (mopt / 0x100) / 0x100 == 0;
    assert LittleBytes(mopt, 4) == [lo, hi, 0, 0];
  }

  /** Four bytes read little-endian: the first is the least significant. */
  lemma LittleFour(a: u8, b: u8, c: u8, d: u8)
    ensures Decode([a, b, c, d], LittleEndian) == a + 0x100 * b + 0x1_0000 * c + 0x100_0000 * d
  {
    assert [d][1..] == [];
    assert LittleValue([d]) == d;
    assert [c, d][1..] == [d];
    assert LittleValue([c, d]) == c + 0x100 * d;
    assert [b, c, d][1..] == [c, d];
    assert LittleValue([b, c, d]) == b + 0x100 * c + 0x1_0000 * d;
    assert [a, b, c, d][1..] == [b, c, d];
  }

  /** Four bytes read big-endian: the first is the most significant. */
  lemma BigFour(a: u8, b: u8, c: u8, d: u8)
    ensures Decode([a, b, c, d], BigEndian) == d + 0x100 * c + 0x1_0000 * b + 0x100_0000 * a
  {
    assert Reverse([a, b, c, d]) == [d, c, b, a];
    LittleFour(d, c, b, a);
  }

  /**
   * The first int of a big-endian file whose MOPT is `mopt`, read both ways:
   * big-endian it is the MOPT, little-endian its low byte lands in the sign
   * position.
   */
  lemma BigEndianMopt(buf: seq<u8>, mopt: nat)
    requires mopt < 0x1_0000 && |buf| >= 4 && buf[..4] == Encode(mopt, 4, BigEndian)
    ensures GetInt(buf, 0, BigEndian) == mopt
    ensures GetInt(buf, 0, LittleEndian) == ToInt(0x1_0000 * (mopt / 0x100) + 0x100_0000 * (mopt % 0x100))
  {
    SmallWordBytes(mopt, BigEndian);
    assert buf[0..4] == [0, 0, mopt / 0x100, mopt % 0x100];
    BigFour(0, 0, mopt / 0x100, mopt % 0x100);
    LittleFour(0, 0, mopt / 0x100, mopt % 0x100);
  }

  /** The first int of a little-endian file whose MOPT is `mopt`, read little-endian. */
  lemma LittleEndianMopt(buf: seq<u8>, mopt: nat)
    requires mopt < 0x1_0000 && |buf| >= 4 && buf[..4] == Encode(mopt, 4, LittleEndian)
    ensures GetInt(buf, 0, LittleEndian) == mopt
  {
    SmallWordBytes(mopt, LittleEndian);
    assert buf[0..4] == [mopt % 0x100, mopt / 0x100, 0, 0];
    LittleFour(mopt % 0x100, mopt / 0x100, 0, 0);
  }

  /** A little-endian file (M digit 0) is recognised, as written and as intended. */
  lemma EndianLittle(buf: seq<u8>, mopt: nat)
    requires mopt < 1000 && |buf| >= 4 && buf[..4] == Encode(mopt, 4, LittleEndian)
    ensures Endian(buf) == Ok(LittleEndian) && EndianIntended(buf) == Ok(LittleEndian)
  {
    LittleEndianMopt(buf, mopt);
  }

  /**
   * As written, a big-endian file is rejected when the low byte of its MOPT
   * is 0x80 or more: read little-endian the first int is negative, so it is
   * taken for a little-endian MOPT and fails the M digit check. MOPT 1000
   * (a full double matrix) is one such file.
   */
  lemma EndianRejectsBigEndian(buf: seq<u8>, mopt: nat)
    requires 1000 <= mopt < 2000 && mopt % 0x100 >= 0x80
    requires |buf| >= 4 && buf[..4] == Encode(mopt, 4, BigEndian)
    ensures Endian(buf) == Fail(IllegalArgument)
  {
    BigEndianMopt(buf, mopt);
    var little := GetInt(buf, 0, LittleEndian);
    var u := 0x1_0000 * (mopt / 0x100) + 0x100_0000 * (mopt % 0x100);
    assert 0x8000_0000 <= u < 0x1_0000_0000;
    assert little == u - 0x1_0000_0000;
    RemBounds(little, 1000);
  }

  /** MOPT 1000 stored big-endian, the case above. */
  lemma EndianRejectsDoubleMatrix(buf: seq<u8>)
    requires |buf| >= 4 && buf[..4] == Encode(1000, 4, BigEndian)
    ensures Endian(buf) == Fail(IllegalArgument) && EndianIntended(buf) == Ok(BigEndian)
  {
    EndianRejectsBigEndian(buf, 1000);
    EndianBig(buf, 1000);
  }

  /** As written, a big-endian file whose MOPT has a low byte below 0x80 is recognised. */
  lemma EndianAcceptsBigEndian(buf: seq<u8>, mopt: nat)
    requires 1000 <= mopt < 2000 && mopt % 0x100 < 0x80
    requires |buf| >= 4 && buf[..4] == Encode(mopt, 4, BigEndian)
    ensures Endian(buf) == Ok(BigEndian)
  {
    BigEndianMopt(buf, mopt);
    assert mopt / 0x100 >= 3;
    assert GetInt(buf, 0, LittleEndian) == 0x1_0000 * (mopt / 0x100) + 0x100_0000 * (mopt % 0x100);
    RemBounds(mopt, 1000);
  }

  /** As intended, every big-endian file (M digit 1) is recognised. */
  lemma EndianBig(buf: seq<u8>, mopt: nat)
    requires 1000 <= mopt < 2000 && |buf| >= 4 && buf[..4] == Encode(mopt, 4, BigEndian)
    ensures EndianIntended(buf) == Ok(BigEndian)
  {
    BigEndianMopt(buf, mopt);
    var u := 0x1_0000 * (mopt / 0x100) + 0x100_0000 * (mopt % 0x100);
    assert mopt / 0x100 >= 3;
    if mopt % 0x100 >= 0x80 {
      assert GetInt(buf, 0, LittleEndian) == u - 0x1_0000_0000;
    } else {
      assert GetInt(buf, 0, LittleEndian) == u;
    }
    RemBounds(mopt, 1000);
  }

  // ---------------------------------------------------------------------
  // The MOPT digits

  /** The precision: the tens digit, `(MOPT / 10) % 10` in Java arithmetic. */
  function Precision(mopt: i32): (p: int)
    ensures -10 < p < 10
  {
    RemBounds(Div(mopt, 10), 10);
    Rem(Div(mopt, 10), 10)
  }

  /** The matrix type: the units digit, `MOPT % 10` in Java arithmetic. */
  function MatrixType(mopt: i32): (t: int)
    ensures -10 < t < 10
  {
    RemBounds(mopt, 10);
    Rem(mopt, 10)
  }

  /** A MOPT written from its four digits gives back its precision and type digits. */
  lemma MoptDigits(m: nat, o: nat, p: nat, t: nat)
    requires m < 10 && o < 10 && p < 10 && t < 10
    ensures var mopt := 1000 * m + 100 * o + 10 * p + t;
      Precision(mopt) == p && MatrixType(mopt) == t
  {
    var mopt := 1000 * m + 100 * o + 10 * p + t;
    ModUnique(mopt, 10, 100 * m + 10 * o + p, t);
    ModUnique(100 * m + 10 * o + p, 10, 10 * m + o, p);
    DivRemNonNegative(mopt, 10);
    DivRemNonNegative(mopt / 10, 10);
  }

  // ---------------------------------------------------------------------
  // One matrix

  /** A matrix header, the name after it, and where the elements start. */
  datatype Entry = Entry(mopt: i32, rows: i32, cols: i32, imagf: i32, name: Name, data: nat)

  /**
   * `loadNext()` up to the elements: five ints, then `namLength - 1` name
   * bytes (a negative count throws) and the terminating NUL, which is
   * skipped. Each name byte becomes one character.
   */
  function EntryAt(buf: seq<u8>, at: nat, order: ByteOrder): (r: Result<Entry>)
    requires at + HEADER_BYTES <= |buf|
    ensures r.Ok? ==> at + HEADER_BYTES < r.value.data <= |buf|
    ensures r.Ok? ==> r.value.name == buf[at + HEADER_BYTES..r.value.data - 1]
    ensures r.Fail? ==> r.error == NegativeArraySize || r.error == BufferUnderflow
  {
    var count := ToInt(GetInt(buf, at + 16, order) - 1);
    if count < 0 then Fail(NegativeArraySize)
    else if at + HEADER_BYTES + count + 1 > |buf| then Fail(BufferUnderflow)
    else
      Ok(Entry(GetInt(buf, at, order), GetInt(buf, at + 4, order), GetInt(buf, at + 8, order),
               GetInt(buf, at + 12, order), buf[at + HEADER_BYTES..at + HEADER_BYTES + count],
               at + HEADER_BYTES + count + 1))
  }

  /** The bytes of a header and name as a writer lays them out: five ints, the name, a NUL. */
  function EntryBytes(mopt: i32, rows: i32, cols: i32, imagf: i32, name: seq<u8>, order: ByteOrder): (r: seq<u8>)
    ensures |r| == HEADER_BYTES + |name| + 1
  {
    IntBytes([mopt, rows, cols, imagf, |name| + 1], order) + name + [0]
  }

  /** A header and name written out read back as themselves, whatever follows them. */
  lemma EntryRoundTrip(buf: seq<u8>, at: nat, mopt: i32, rows: i32, cols: i32, imagf: i32, name: seq<u8>, order: ByteOrder)
    requires |name| < INT_MAX
    requires at + HEADER_BYTES + |name| + 1 <= |buf|
    requires buf[at..at + HEADER_BYTES + |name| + 1] == EntryBytes(mopt, rows, cols, imagf, name, order)
    ensures EntryAt(buf, at, order) == Ok(Entry(mopt, rows, cols, imagf, name, at + HEADER_BYTES + |name| + 1))
  {
    var end := at + HEADER_BYTES + |name| + 1;
    var bytes := buf[at..end];
    assert bytes[..HEADER_BYTES] == IntBytes([mopt, rows, cols, imagf, |name| + 1], order);
    HeaderFields(buf, at, end, [mopt, rows, cols, imagf, |name| + 1], order);
    assert buf[at + HEADER_BYTES..at + HEADER_BYTES + |name|] == name by {
      assert bytes[HEADER_BYTES..HEADER_BYTES + |name|] == name;
      SliceWithin(buf, at, end, HEADER_BYTES, HEADER_BYTES + |name|);
    }
    EntryOfFields(buf, at, order, name);
  }

  /** Header ints and name bytes in place make the entry. */
  lemma EntryOfFields(buf: seq<u8>, at: nat, order: ByteOrder, name: seq<u8>)
    requires |name| < INT_MAX && at + HEADER_BYTES + |name| + 1 <= |buf|
    requires GetInt(buf, at + 16, order) == |name| + 1
    requires buf[at + HEADER_BYTES..at + HEADER_BYTES + |name|] == name
    ensures EntryAt(buf, at, order) == Ok(Entry(GetInt(buf, at, order), GetInt(buf, at + 4, order), GetInt(buf, at + 8, order),
      GetInt(buf, at + 12, order), name, at + HEADER_BYTES + |name| + 1))
  {
  }

  /** The five header ints laid out from `at` read back. */
  lemma HeaderFields(buf: seq<u8>, at: nat, end: nat, fields: seq<int>, order: ByteOrder)
    requires at + HEADER_BYTES <= end <= |buf| && |fields| == 5
    requires forall f :: 0 <= f < 5 ==> INT_MIN <= fields[f] <= INT_MAX
    requires buf[at..end][..HEADER_BYTES] == IntBytes(fields, order)
    ensures GetInt(buf, at, order) == fields[0] && GetInt(buf, at + 4, order) == fields[1]
    ensures GetInt(buf, at + 8, order) == fields[2] && GetInt(buf, at + 12, order) == fields[3]
    ensures GetInt(buf, at + 16, order) == fields[4]
  {
    FieldAt(buf, at, end, fields, 0, order);
    FieldAt(buf, at, end, fields, 1, order);
    FieldAt(buf, at, end, fields, 2, order);
    FieldAt(buf, at, end, fields, 3, order);
    FieldAt(buf, at, end, fields, 4, order);
  }

  /** Field `f` of the five header ints laid out from `at` reads back. */
  lemma FieldAt(buf: seq<u8>, at: nat, end: nat, fields: seq<int>, f: nat, order: ByteOrder)
    requires at + HEADER_BYTES <= end <= |buf| && |fields| == 5 && f < 5 && INT_MIN <= fields[f] <= INT_MAX
    requires buf[at..end][..HEADER_BYTES] == IntBytes(fields, order)
    ensures GetInt(buf, at + 4 * f, order) == fields[f]
  {
    IntBytesAt(fields, order, f);
    assert buf[at..end][4 * f..4 * f + 4] == Encode(fields[f], 4, order) by {
      assert buf[at..end][4 * f..4 * f + 4] == buf[at..end][..HEADER_BYTES][4 * f..4 * f + 4];
    }
    SliceWithin(buf, at, end, 4 * f, 4 * f + 4);
    GetIntAt(buf, at + 4 * f, fields[f], order);
  }

  /** The bytes of one element of precision `p`; none for an unknown precision. */
  function ElementWidth(p: int): nat
  {
    if p == P_DOUBLE then 8
    else if p == P_SINGLE || p == P_32 then 4
    else if p == P_16 || p == P_U16 then 2
    else if p == P_8 then 1
    else 0
  }

  /** The class of the container a matrix is read into: characters for text, otherwise by precision. */
  function ClassOf(t: int, p: int): int
  {
    if t == T_TEXT then mxCHAR_CLASS
    else if p == P_DOUBLE then mxDOUBLE_CLASS
    else if p == P_SINGLE then mxSINGLE_CLASS
    else if p == P_32 then mxINT32_CLASS
    else if p == P_16 then mxINT16_CLASS
    else if p == P_U16 then mxUINT16_CLASS
    else mxUINT8_CLASS
  }

  /** The number of elements the nested loops read: `rows * cols` when both are positive, else none. */
  function Iterations(rows: i32, cols: i32): nat
  {
    if rows > 0 && cols > 0 then rows * cols else 0
  }

  /** The length of a container's arrays: `rows * cols` in Java int arithmetic. */
  function Size(rows: i32, cols: i32): (s: i32)
    ensures s == ToInt(Product([rows, cols]))
  {
    ProductPair(rows, cols);
    ToInt(rows * cols)
  }

  lemma ProductPair(a: int, b: int)
    ensures Product([a, b]) == a * b
  {
    assert Product([b]) == b by {
      assert [b][1..] == [];
    }
    assert [a, b][1..] == [b];
  }

  /**
   * A loop of `n` reads of `width` bytes from `at`, each value put in the
   * next slot of an array of `size` slots: the position after the last
   * read, or the first exception, which is the buffer running out before a
   * read or a slot past the end of the array after one.
   */
  function LoopEnd(buf: seq<u8>, at: nat, width: nat, size: nat, n: nat): (r: Result<nat>)
    requires at <= |buf| && width > 0
    ensures r.Ok? ==> n <= size && r.value == at + n * width <= |buf|
    ensures r.Fail? && r.error == BufferUnderflow ==> n > (|buf| - at) / width
    ensures r.Fail? ==> r.error == BufferUnderflow || (r.error == IndexOutOfBounds && size < n)
  {
    var avail := (|buf| - at) / width;
    if n <= avail && n <= size then
      assert n * width <= avail * width <= |buf| - at by {
        MulLeft(n, avail, width);
      }
      Ok(at + n * width)
    else if avail <= size then Fail(BufferUnderflow)
    else Fail(IndexOutOfBounds)
  }

  lemma MulLeft(a: nat, b: nat, w: nat)
    requires a <= b
    ensures a * w <= b * w
  {
  }

  /** A loop over enough buffer and a large enough array always completes. */
  lemma LoopEndCompletes(buf: seq<u8>, at: nat, width: nat, size: nat, n: nat)
    requires at <= |buf| && width > 0 && n <= size && at + n * width <= |buf|
    ensures LoopEnd(buf, at, width, size, n) == Ok(at + n * width)
  {
    var avail := (|buf| - at) / width;
    DivRemNonNegative(|buf| - at, width);
    if n > avail {
      MulLeft(avail + 1, n, width);
    }
  }

  /**
   * `readFullArray`: an unknown precision throws before anything is built;
   * otherwise the container is built (a negative size throws), then the
   * real elements are read, and then the imaginary ones when the flag is set.
   */
  function FullArrayEnd(buf: seq<u8>, e: Entry): (r: Result<nat>)
    requires e.data <= |buf|
    ensures r.Ok? ==> e.data <= r.value <= |buf|
  {
    var w := ElementWidth(Precision(e.mopt));
    var size := Size(e.rows, e.cols);
    if w == 0 then Fail(Unsupported)
    else if size < 0 then Fail(NegativeArraySize)
    else
      var n := Iterations(e.rows, e.cols);
      var next :- LoopEnd(buf, e.data, w, size, n);
      if e.imagf != 0 then LoopEnd(buf, next, w, size, n) else Ok(next)
  }

  /**
   * `readTextArray`: the container is built first (a negative size throws);
   * only double and single precision text is read, one element per character.
   */
  function TextArrayEnd(buf: seq<u8>, e: Entry): (r: Result<nat>)
    requires e.data <= |buf|
    ensures r.Ok? ==> e.data <= r.value <= |buf|
  {
    var p := Precision(e.mopt);
    var size := Size(e.rows, e.cols);
    if size < 0 then Fail(NegativeArraySize)
    else if p != P_DOUBLE && p != P_SINGLE then Fail(Unsupported)
    else LoopEnd(buf, e.data, ElementWidth(p), size, Iterations(e.rows, e.cols))
  }

  /** A matrix in the file: its header, the class of its container, and where the next header starts. */
  datatype Matrix = Matrix(entry: Entry, classId: int, next: nat)

  /**
   * `loadNext()` on a buffer with more than 20 bytes left: the header and
   * name, then a full or text matrix; a sparse matrix and any other type throw.
   */
  function MatrixAt(buf: seq<u8>, at: nat, order: ByteOrder): (r: Result<Matrix>)
    requires at + HEADER_BYTES <= |buf|
    ensures r.Ok? ==> at + HEADER_BYTES < r.value.next <= |buf|
    ensures r.Ok? ==> var t := MatrixType(r.value.entry.mopt);
      (t == T_FULL || t == T_TEXT) && r.value.classId == ClassOf(t, Precision(r.value.entry.mopt))
    ensures r.Ok? ==> EntryAt(buf, at, order) == Ok(r.value.entry)
    ensures EntryAt(buf, at, order).Fail? ==> r == Fail(EntryAt(buf, at, order).error)
    ensures EntryAt(buf, at, order).Ok? && MatrixType(EntryAt(buf, at, order).value.mopt) !in {T_FULL, T_TEXT} ==> r == Fail(Unsupported)
  {
    var e :- EntryAt(buf, at, order);
    var t := MatrixType(e.mopt);
    if t == T_FULL then
      var next :- FullArrayEnd(buf, e);
      Ok(Matrix(e, ClassOf(t, Precision(e.mopt)), next))
    else if t == T_TEXT then
      var next :- TextArrayEnd(buf, e);
      Ok(Matrix(e, ClassOf(t, Precision(e.mopt)), next))
    else Fail(Unsupported)
  }

  // ---------------------------------------------------------------------
  // Reading a uint8 matrix

  /**
   * The first `n` slots of `data` hold the bytes from `at` as Java bytes;
   * the other slots are as in `before`.
   */
  predicate Stored(data: seq<i8>, before: seq<i8>, buf: seq<u8>, at: nat, n: nat)
  {
    |data| == |before| && n <= |data| && at + n <= |buf|
    && (forall k :: 0 <= k < n ==> data[k] == SignedByte(buf[at + k]))
    && (forall k :: n <= k < |data| ==> data[k] == before[k])
  }

  /** Element (j, i) sits in slot `j + rows * i`, the column-major position of the pair, here `base + j`. */
  lemma SlotOfPair(j: int, i: int, rows: int, cols: int, length: int, base: int)
    requires rows > 0 && base == i * rows && INT_MIN <= base + j <= INT_MAX
    ensures Slot([j, i], [rows, cols], length) ==
      if 0 <= base + j < length then Ok(base + j) else Fail(IndexOutOfBounds)
  {
    assert [j, i][1..] == [i] && [rows, cols][1..] == [cols];
    assert ColumnMajor([j, i], [rows, cols]) == j + rows * i;
  }

  /** Column `i < cols` ends within the `rows * cols` elements. */
  lemma ColumnBeforeEnd(i: int, rows: i32, cols: i32)
    requires 0 <= i < cols
    ensures i * Height(rows) + Height(rows) <= Iterations(rows, cols)
  {
    if rows > 0 {
      MulLeft(i + 1, cols, rows);
      assert cols * rows == rows * cols;
    }
  }

  /** Storing the next byte in slot `k` extends the stored prefix by one. */
  lemma StoreNext(data: seq<i8>, prev: seq<i8>, before: seq<i8>, buf: seq<u8>, at: nat, k: nat)
    requires Stored(prev, before, buf, at, k) && k < |prev| && at + k < |buf|
    requires data == prev[k := SignedByte(buf[at + k])]
    ensures Stored(data, before, buf, at, k + 1)
  {
  }

  /** The buffer running out before read `k` of `n`, with the earlier slots all in the array. */
  lemma UnderflowEnd(buf: seq<u8>, at: nat, size: nat, n: nat, k: nat)
    requires at + k == |buf| && k < n && k <= size
    ensures LoopEnd(buf, at, 1, size, n) == Fail(BufferUnderflow)
  {
  }

  /** Read `k` of `n` succeeding but its slot lying past the array's end. */
  lemma OverflowEnd(buf: seq<u8>, at: nat, size: nat, n: nat, k: nat)
    requires at + k < |buf| && k == size && k < n
    ensures LoopEnd(buf, at, 1, size, n) == Fail(IndexOutOfBounds)
  {
  }

  /** After a full column the count of elements read is the next multiple of the column height. */
  lemma NextColumn(i: int, r: int)
    ensures i * r + r == (i + 1) * r
  {
  }

  /** The rows of a column the inner loop visits: all of them, or none when the count is not positive. */
  function Height(rows: i32): nat
  {
    if rows > 0 then rows else 0
  }

  /** Once the outer loop has passed every column, all `rows * cols` elements have been visited. */
  lemma ColumnsDone(i: int, rows: i32, cols: i32)
    requires 0 <= i && (i <= cols || i == 0) && !(i < cols)
    ensures i * Height(rows) == Iterations(rows, cols)
  {
    if i > 0 && rows > 0 {
      assert i == cols;
      assert cols * rows == rows * cols;
    }
  }

  /**
   * One column of the real loop: for each row, one byte from the buffer goes
   * to `putValue` at (row, column). The bytes before
   * this column are stored already; on success the column's bytes follow.
   */
  method RealColumn(u: MatIntU8, buf: seq<u8>, at: nat, p0: nat, i: i32, rows: i32, cols: i32, ghost before: seq<i8>)
    returns (out: Outcome, p: nat)
    requires at <= p0 <= |buf| && u.dim == [rows, cols] && 0 <= i < cols
    requires p0 - at == i * Height(rows) <= u.data.Length && p0 - at + Height(rows) <= Iterations(rows, cols)
    requires u.data.Length <= INT_MAX
    requires Stored(u.data[..], before, buf, at, p0 - at)
    modifies u.data
    ensures out == Done ==> p - at == p0 - at + Height(rows) <= u.data.Length
    ensures out == Done ==> p <= |buf| && Stored(u.data[..], before, buf, at, p - at)
    ensures out.Thrown? ==> LoopEnd(buf, at, 1, u.data.Length, Iterations(rows, cols)).Fail?
    ensures out.Thrown? ==> out == Thrown(LoopEnd(buf, at, 1, u.data.Length, Iterations(rows, cols)).error)
  {
    ghost var n := Iterations(rows, cols);
    ghost var base := p0 - at;
    p := p0;
    var j: i32 := 0;
    while j < rows
      invariant 0 <= j <= Height(rows)
      invariant p - at == base + j <= u.data.Length && p <= |buf|
      invariant Stored(u.data[..], before, buf, at, p - at)
    {
      ghost var k := p - at;
      if p >= |buf| {
        UnderflowEnd(buf, at, u.data.Length, n, k);
        return Thrown(BufferUnderflow), p;
      }
      var b := SignedByte(buf[p]);
      p := p + 1;
      SlotOfPair(j, i, rows, cols, u.data.Length, base);
      ghost var prev := u.data[..];
      var o := u.PutValue([j, i], b);
      if o.Thrown? {
        OverflowEnd(buf, at, u.data.Length, n, k);
        return o, p;
      }
      StoreNext(u.data[..], prev, before, buf, at, k);
      j := j + 1;
    }
    return Done, p;
  }

  /**
   * The real loop of `readFullArray` for precision P_8: for each column,
   * for each row, one byte from the buffer goes to `putValue` at (row,
   * column). On success the bytes fill the data in file order.
   */
  method FillReal(u: MatIntU8, buf: seq<u8>, at: nat, rows: i32, cols: i32) returns (out: Outcome, next: nat)
    requires at <= |buf| && u.dim == [rows, cols] && u.data.Length <= INT_MAX
    modifies u.data
    ensures var end := LoopEnd(buf, at, 1, u.data.Length, Iterations(rows, cols));
      (out == Done <==> end.Ok?) && (out.Thrown? ==> out.error == end.error) && (end.Ok? ==> next == end.value)
    ensures out == Done ==> Stored(u.data[..], old(u.data[..]), buf, at, Iterations(rows, cols))
  {
    ghost var before := u.data[..];
    var p := at;
    var i: i32 := 0;
    while i < cols
      invariant 0 <= i && (i <= cols || i == 0)
      invariant p - at == i * Height(rows) <= u.data.Length && p <= |buf|
      invariant Stored(u.data[..], before, buf, at, p - at)
    {
      ColumnBeforeEnd(i, rows, cols);
      out, p := RealColumn(u, buf, at, p, i, rows, cols, before);
      if out.Thrown? {
        return out, p;
      }
      NextColumn(i, Height(rows));
      i := i + 1;
    }
    ColumnsDone(i, rows, cols);
    LoopEndCompletes(buf, at, 1, u.data.Length, Iterations(rows, cols));
    return Done, p;
  }

  /**
   * One column of the imaginary loop, through `putImagValue`. The bytes before
   * this column are stored already; on success the column's bytes follow.
   */
  method ImagColumn(u: MatIntU8, buf: seq<u8>, at: nat, p0: nat, i: i32, rows: i32, cols: i32, ghost before: seq<i8>)
    returns (out: Outcome, p: nat)
    requires at <= p0 <= |buf| && u.dim == [rows, cols] && 0 <= i < cols && u.imag != null
    requires p0 - at == i * Height(rows) <= u.imag.Length && p0 - at + Height(rows) <= Iterations(rows, cols)
    requires u.imag.Length <= INT_MAX
    requires Stored(u.imag[..], before, buf, at, p0 - at)
    modifies u.imag
    ensures out == Done ==> p - at == p0 - at + Height(rows) <= u.imag.Length
    ensures out == Done ==> p <= |buf| && Stored(u.imag[..], before, buf, at, p - at)
    ensures out.Thrown? ==> LoopEnd(buf, at, 1, u.imag.Length, Iterations(rows, cols)).Fail?
    ensures out.Thrown? ==> out == Thrown(LoopEnd(buf, at, 1, u.imag.Length, Iterations(rows, cols)).error)
  {
    ghost var n := Iterations(rows, cols);
    ghost var base := p0 - at;
    p := p0;
    var j: i32 := 0;
    while j < rows
      invariant 0 <= j <= Height(rows)
      invariant p - at == base + j <= u.imag.Length && p <= |buf|
      invariant Stored(u.imag[..], before, buf, at, p - at)
    {
      ghost var k := p - at;
      if p >= |buf| {
        UnderflowEnd(buf, at, u.imag.Length, n, k);
        return Thrown(BufferUnderflow), p;
      }
      var b := SignedByte(buf[p]);
      p := p + 1;
      SlotOfPair(j, i, rows, cols, u.imag.Length, base);
      ghost var prev := u.imag[..];
      var o := u.PutImagValue([j, i], b);
      if o.Thrown? {
        OverflowEnd(buf, at, u.imag.Length, n, k);
        return o, p;
      }
      StoreNext(u.imag[..], prev, before, buf, at, k);
      j := j + 1;
    }
    return Done, p;
  }

  /** The imaginary loop of `readFullArray` for precision P_8: the same, through `putImagValue`. */
  method FillImag(u: MatIntU8, buf: seq<u8>, at: nat, rows: i32, cols: i32) returns (out: Outcome, next: nat)
    requires at <= |buf| && u.dim == [rows, cols] && u.imag != null && u.imag.Length <= INT_MAX
    modifies u.imag
    ensures var end := LoopEnd(buf, at, 1, u.imag.Length, Iterations(rows, cols));
      (out == Done <==> end.Ok?) && (out.Thrown? ==> out.error == end.error) && (end.Ok? ==> next == end.value)
    ensures out == Done ==> Stored(u.imag[..], old(u.imag[..]), buf, at, Iterations(rows, cols))
  {
    ghost var before := u.imag[..];
    var p := at;
    var i: i32 := 0;
    while i < cols
      invariant 0 <= i && (i <= cols || i == 0)
      invariant p - at == i * Height(rows) <= u.imag.Length && p <= |buf|
      invariant Stored(u.imag[..], before, buf, at, p - at)
    {
      ColumnBeforeEnd(i, rows, cols);
      out, p := ImagColumn(u, buf, at, p, i, rows, cols, before);
      if out.Thrown? {
        return out, p;
      }
      NextColumn(i, Height(rows));
      i := i + 1;
    }
    ColumnsDone(i, rows, cols);
    LoopEndCompletes(buf, at, 1, u.imag.Length, Iterations(rows, cols));
    return Done, p;
  }

  // ---------------------------------------------------------------------
  // Reading a matrix

  /**
   * The header part of `loadNext()`: five ints, then `namLength - 1` name
   * bytes read one at a time, then the terminating byte, which is skipped.
   */
  method ReadEntry(buf: seq<u8>, at: nat, order: ByteOrder) returns (r: Result<Entry>)
    requires at + HEADER_BYTES <= |buf|
    ensures r == EntryAt(buf, at, order)
  {
    var mopt := GetInt(buf, at, order);
    var rows := GetInt(buf, at + 4, order);
    var cols := GetInt(buf, at + 8, order);
    var imagf := GetInt(buf, at + 12, order);
    var namLength: int := GetInt(buf, at + 16, order);
    var count := ToInt(namLength - 1);
    if count < 0 {
      return Fail(NegativeArraySize);
    }
    var name: Name := [];
    var p := at + HEADER_BYTES;
    for i := 0 to count
      invariant p == at + HEADER_BYTES + i <= |buf|
      invariant name == buf[at + HEADER_BYTES..p]
    {
      if p >= |buf| {
        return Fail(BufferUnderflow);
      }
      name := name + [buf[p]];
      p := p + 1;
    }
    if p >= |buf| {
      return Fail(BufferUnderflow);
    }
    return Ok(Entry(mopt, rows, cols, imagf, name, p + 1));
  }

  /** An array as the P_8 loops leave a zeroed one: slot k < n holds byte k from `at`, the other slots 0. */
  predicate FilledFrom(a: seq<i8>, buf: seq<u8>, at: nat, n: nat)
  {
    n <= |a| && at + n <= |buf|
    && forall k :: 0 <= k < |a| ==> a[k] == if k < n then SignedByte(buf[at + k]) else 0
  }

  /** The stored prefix over a zeroed array is the filled array. */
  lemma StoredFilled(a: seq<i8>, before: seq<i8>, buf: seq<u8>, at: nat, n: nat)
    requires Stored(a, before, buf, at, n) && forall k :: 0 <= k < |before| ==> before[k] == 0
    ensures FilledFrom(a, buf, at, n)
  {
  }

  /**
   * A MatIntU8 read from the P_8 matrix `e`: its name and extents, the real
   * elements from the bytes after the name and, for a complex matrix, the
   * imaginary elements from the bytes after the real ones.
   */
  predicate HoldsU8(u: MatIntU8, buf: seq<u8>, e: Entry)
    reads u, u.data, u.imag
  {
    var n := Iterations(e.rows, e.cols);
    u.name == e.name && u.dim == [e.rows, e.cols] && u.data.Length == Size(e.rows, e.cols)
    && FilledFrom(u.data[..], buf, e.data, n)
    && (u.imag != null <==> e.imagf != 0)
    && (u.imag != null ==> u.imag.Length == u.data.Length && FilledFrom(u.imag[..], buf, e.data + n, n))
  }

  /**
   * `readFullArray` for precision P_8: a MatIntU8 of the header's extents
   * (`new` refuses a negative size), filled by the real loop and, when
   * `imagf` is not 0, by the imaginary loop. It fails exactly where the
   * layout of the matrix says, and otherwise holds the file's bytes.
   */
  method ReadU8(buf: seq<u8>, e: Entry) returns (r: Result<MatIntU8>, next: nat)
    requires e.data <= |buf| && Precision(e.mopt) == P_8
    ensures r.Fail? <==> FullArrayEnd(buf, e).Fail?
    ensures r.Fail? ==> r.error == FullArrayEnd(buf, e).error
    ensures r.Ok? ==> next == FullArrayEnd(buf, e).value && fresh(r.value) && HoldsU8(r.value, buf, e)
  {
    var size := DataSize([e.rows, e.cols]);
    ProductPair(e.rows, e.cols);
    if size < 0 {
      return Fail(NegativeArraySize), e.data;
    }
    var u := new MatIntU8(e.name, [e.rows, e.cols], e.imagf != 0);
    var n := Iterations(e.rows, e.cols);
    assert ElementWidth(Precision(e.mopt)) == 1;
    ghost var zeros := u.data[..];
    var out, p := FillReal(u, buf, e.data, e.rows, e.cols);
    if out.Thrown? {
      return Fail(out.error), p;
    }
    StoredFilled(u.data[..], zeros, buf, e.data, n);
    if e.imagf != 0 {
      ghost var imagZeros := u.imag[..];
      ghost var realPart := u.data[..];
      out, p := FillImag(u, buf, p, e.rows, e.cols);
      if out.Thrown? {
        return Fail(out.error), p;
      }
      assert u.data[..] == realPart;
      StoredFilled(u.imag[..], imagZeros, buf, e.data + n, n);
    }
    return Ok(u), p;
  }

  /**
   * The file stores a matrix column by column: in a uint8 matrix read from
   * it, element (j, i) is the file byte `j + rows * i` after the name.
   */
  lemma U8ElementFromFile(u: MatIntU8, buf: seq<u8>, e: Entry, j: int, i: int)
    requires HoldsU8(u, buf, e) && 0 <= j < e.rows && 0 <= i < e.cols
    ensures e.data + j + e.rows * i < |buf|
    ensures u.GetUByteIntended([j, i]) == Ok(buf[e.data + j + e.rows * i] as int)
  {
    var k, n := j + e.rows * i, Iterations(e.rows, e.cols);
    assert k < n by {
      ColumnBeforeEnd(i, e.rows, e.cols);
      assert i * e.rows == e.rows * i;
    }
    assert u.data[..][k] == SignedByte(buf[e.data + k]);
    assert u.dim == [e.rows, e.cols];
    SlotOfPair(j, i, e.rows, e.cols, u.data.Length, e.rows * i);
  }

  // ---------------------------------------------------------------------
  // The loader

  /** A level 4 file being read: its bytes, the byte order `setEndian()` chose, and where the next header starts. */
  class Matfile4Loader {
    const buf: seq<u8>
    const order: ByteOrder
    var position: nat

    predicate Valid()
      reads this
    {
      position <= |buf|
    }

    /** The loader once `setEndian()` has chosen `order`: reading starts again at the first byte. */
    constructor(buf: seq<u8>, order: ByteOrder)
      ensures this.buf == buf && this.order == order
      ensures position == 0 && Valid()
    {
      this.buf := buf;
      this.order := order;
      position := 0;
    }

    /**
     * `loadNext()`: nothing once 20 bytes or fewer are left; otherwise the
     * matrix at the position, read into a MatIntU8 for a full uint8 matrix
     * and otherwise known by its name and the class of its container. The
     * position moves past the matrix.
     */
    method LoadNext() returns (r: Result<Option<Loaded>>)
      requires Valid()
      modifies this
      ensures Valid()
      ensures |buf| - old(position) <= HEADER_BYTES ==> r == Ok(None) && position == old(position)
      ensures r.Fail? ==> position == old(position)
      ensures old(position) + HEADER_BYTES < |buf| ==> var m := MatrixAt(buf, old(position), order);
        (r.Fail? <==> m.Fail?) && (r.Fail? ==> r.error == m.error)
      ensures old(position) + HEADER_BYTES < |buf| && r.Ok? ==> var m := MatrixAt(buf, old(position), order);
        m.Ok? && r.value.Some? && position == m.value.next && NameOf(r.value.value) == m.value.entry.name
      ensures old(position) + HEADER_BYTES < |buf| && r.Ok? ==> var m := MatrixAt(buf, old(position), order);
        if m.value.classId == mxUINT8_CLASS && MatrixType(m.value.entry.mopt) == T_FULL
        then r.value.value.U8Var? && fresh(r.value.value.u8) && HoldsU8(r.value.value.u8, buf, m.value.entry)
        else r.value.value == OtherVar(m.value.entry.name, m.value.classId)
    {
      if |buf| - position <= HEADER_BYTES {
        return Ok(None);
      }
      var e :- ReadEntry(buf, position, order);
      var t := MatrixType(e.mopt);
      var p := Precision(e.mopt);
      if t == T_FULL && p == P_8 {
        var u, next := ReadU8(buf, e);
        if u.Fail? {
          return Fail(u.error);
        }
        position := next;
        return Ok(Some(U8Var(u.value)));
      }
      if t != T_FULL && t != T_TEXT {
        return Fail(Unsupported);
      }
      var next :- if t == T_FULL then FullArrayEnd(buf, e) else TextArrayEnd(buf, e);
      position := next;
      return Ok(Some(OtherVar(e.name, ClassOf(t, p))));
    }
  }

  /** `new Matfile4Loader(bBuf)`: `setEndian()` picks the byte order or throws. */
  method Open(buf: seq<u8>) returns (r: Result<Matfile4Loader>)
    ensures r.Fail? <==> Endian(buf).Fail?
    ensures r.Fail? ==> r.error == Endian(buf).error
    ensures r.Ok? ==> fresh(r.value) && r.value.Valid() && r.value.buf == buf && r.value.position == 0
    ensures r.Ok? ==> r.value.order == Endian(buf).value
  {
    var order :- Endian(buf);
    var loader := new Matfile4Loader(buf, order);
    return Ok(loader);
  }
}
