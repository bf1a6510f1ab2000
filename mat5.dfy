// MAT-file level 5 reading (Matfile5Loader): the 128-byte header with its
// byte-order indicator, data element tags in their full (8-byte) and small
// (4-byte) forms, element data padded to a multiple of 8 bytes, and numeric
// arrays (miMATRIX elements) of the classes uint8 and uint32, which fill a
// MatIntU8 or a MatIntU32. A buffer is the file's bytes; every read takes the
// read position and hands back the position after it.

module Mat5 {
  import opened Java
  import opened ByteBuffers
  import opened Ieee
  import opened MatVars
  import opened MatContainers

  // Data types of data elements.
  const miINT8: int := 1
  const miUINT8: int := 2
  const miINT16: int := 3
  const miUINT16: int := 4
  const miINT32: int := 5
  const miUINT32: int := 6
  const miSINGLE: int := 7
  const miDOUBLE: int := 9
  const miINT64: int := 12
  const miUINT64: int := 13
  const miMATRIX: int := 14
  const miCOMPRESSED: int := 15
  const miUTF8: int := 16
  const miUTF16: int := 17
  const miUTF32: int := 18

  /** The size of the descriptive text at the start of the header. */
  const DESCRIPTION_SIZE: nat := 116
  /** Where the first data element starts. */
  const HEADER_SIZE: nat := 128

  // ---------------------------------------------------------------------
  // Header

  /** The two indicator bytes 126..127: "MI" selects big-endian, "IM" little-endian, anything else keeps `current`. */
  function IndicatedOrder(e1: u8, e2: u8, current: ByteOrder): ByteOrder
  {
    if e1 == 'M' as int && e2 == 'I' as int then BigEndian
    else if e1 == 'I' as int && e2 == 'M' as int then LittleEndian
    else current
  }

  /**
   * A writer stores the characters 'M' and 'I' as the 16-bit value
   * ('M' << 8) | 'I' in its own byte order; reading the indicator recovers that
   * order, whatever order the buffer started with.
   */
  lemma IndicatorGivesOrder(order: ByteOrder, current: ByteOrder)
    ensures var bs := Encode('M' as int * 0x100 + 'I' as int, 2, order);
      IndicatedOrder(bs[0], bs[1], current) == order
  {
    var bs := Encode('M' as int * 0x100 + 'I' as int, 2, order);
    assert LittleBytes('M' as int * 0x100 + 'I' as int, 2) == ['I' as int, 'M' as int];
    if order == BigEndian {
      assert bs == ['M' as int, 'I' as int];
    }
  }

  datatype Header5 = Header5(description: seq<u8>, version: i16, order: ByteOrder)

  /**
   * `checkEndianAndType()`: 116 bytes of description, 8 skipped bytes, the
   * version (read in the order the buffer arrived with) and the indicator.
   */
  function ReadHeader(buf: seq<u8>, initial: ByteOrder): (r: Result<Header5>)
    ensures r.Ok? <==> |buf| >= HEADER_SIZE
    ensures r.Fail? && |buf| < DESCRIPTION_SIZE ==> r.error == BufferUnderflow
    ensures r.Ok? ==> |r.value.description| == DESCRIPTION_SIZE && r.value.description == buf[..DESCRIPTION_SIZE]
    ensures r.Ok? && buf[126] == 'M' as int && buf[127] == 'I' as int ==> r.value.order == BigEndian
    ensures r.Ok? && buf[126] == 'I' as int && buf[127] == 'M' as int ==> r.value.order == LittleEndian
  {
    if |buf| < DESCRIPTION_SIZE then Fail(BufferUnderflow)
    else if |buf| < DESCRIPTION_SIZE + 8 then Fail(IllegalArgument)
    else if |buf| < HEADER_SIZE then Fail(BufferUnderflow)
    else Ok(Header5(buf[..DESCRIPTION_SIZE], GetShort(buf, 124, initial), IndicatedOrder(buf[126], buf[127], initial)))
  }

  // ---------------------------------------------------------------------
  // Tags

  /** A data element tag: the data type, the number of data bytes, and the size of the tag itself. */
  datatype Tag = Tag(dataType: int, size: i32, tagSize: nat)

  /**
   * `readDataElementTags()`: a first int above 0xFFFF marks a small tag, read
   * again as two shorts (type, then size); otherwise the int is the type and
   * the next int the size.
   */
  function ReadTag(buf: seq<u8>, at: nat, order: ByteOrder): (r: Result<Tag>)
    ensures r.Fail? ==> r.error == BufferUnderflow
    ensures r.Ok? ==> (r.value.tagSize == 4 || r.value.tagSize == 8) && at + r.value.tagSize <= |buf|
    ensures r.Ok? ==> (r.value.tagSize == 4 <==> GetInt(buf, at, order) > 0xFFFF)
    ensures r.Ok? && r.value.tagSize == 8 ==> r.value.dataType == GetInt(buf, at, order)
  {
    if at + 4 > |buf| then Fail(BufferUnderflow)
    else if GetInt(buf, at, order) > 0xFFFF then
      Ok(Tag(GetShort(buf, at, order), GetShort(buf, at + 2, order), 4))
    else if at + 8 > |buf| then Fail(BufferUnderflow)
    else Ok(Tag(GetInt(buf, at, order), GetInt(buf, at + 4, order), 8))
  }

  /** A first int of at most 0xFFFF makes a full tag of the two ints. */
  lemma ReadFullTag(buf: seq<u8>, at: nat, order: ByteOrder)
    requires at + 8 <= |buf| && GetInt(buf, at, order) <= 0xFFFF
    ensures ReadTag(buf, at, order) == Ok(Tag(GetInt(buf, at, order), GetInt(buf, at + 4, order), 8))
  {
  }

  /** A full tag as a writer lays it out, type then size, reads back as itself. */
  lemma FullTagRoundTrip(buf: seq<u8>, at: nat, dataType: int, size: i32, order: ByteOrder)
    requires 0 <= dataType <= 0xFFFF && at + 8 <= |buf|
    requires buf[at..at + 8] == Encode(dataType, 4, order) + Encode(size, 4, order)
    ensures ReadTag(buf, at, order) == Ok(Tag(dataType, size, 8))
  {
    assert buf[at..at + 4] == Encode(dataType, 4, order) by {
      SliceWithin(buf, at, at + 8, 0, 4);
    }
    assert buf[at + 4..at + 8] == Encode(size, 4, order) by {
      SliceWithin(buf, at, at + 8, 4, 8);
    }
    GetIntAt(buf, at, dataType, order);
    GetIntAt(buf, at + 4, size, order);
    ReadFullTag(buf, at, order);
  }

  /** The value of two little-endian bytes. */
  lemma LittleValue2(xs: seq<u8>)
    requires |xs| == 2
    ensures LittleValue(xs) == xs[0] as int + 0x100 * xs[1] as int
  {
    assert xs[1..][1..] == [];
  }

  /** The value of four little-endian bytes. */
  lemma LittleValue4(xs: seq<u8>)
    requires |xs| == 4
    ensures LittleValue(xs) == xs[0] as int + 0x100 * (xs[1] as int + 0x100 * (xs[2] as int + 0x100 * xs[3] as int))
  {
    assert xs[1..][1..] == xs[2..];
    LittleValue2(xs[2..]);
  }

  /** The four bytes of a 32-bit word, split into its low and high 16-bit halves. */
  lemma WordHalves(bs: seq<u8>, order: ByteOrder)
    requires |bs| == 4
    ensures order == LittleEndian ==> Decode(bs, order) == Decode(bs[..2], order) + 0x1_0000 * Decode(bs[2..], order)
    ensures order == BigEndian ==> Decode(bs, order) == Decode(bs[2..], order) + 0x1_0000 * Decode(bs[..2], order)
  {
    if order == LittleEndian {
      LittleValue4(bs);
      LittleValue2(bs[..2]);
      LittleValue2(bs[2..]);
    } else {
      var rs, lo, hi := Reverse(bs), Reverse(bs[..2]), Reverse(bs[2..]);
      assert rs[0] == bs[3] && rs[1] == bs[2] && rs[2] == bs[1] && rs[3] == bs[0];
      assert lo[0] == bs[1] && lo[1] == bs[0] && hi[0] == bs[3] && hi[1] == bs[2];
      LittleValue4(rs);
      LittleValue2(lo);
      LittleValue2(hi);
    }
  }

  /** Two numbers written with 16-bit digits are equal only digit by digit. */
  lemma DigitsUnique(a: int, b: int, c: int, d: int)
    requires 0 <= a < 0x1_0000 && 0 <= c < 0x1_0000
    requires a + 0x1_0000 * b == c + 0x1_0000 * d
    ensures a == c && b == d
  {
    ModUnique(a + 0x1_0000 * b, 0x1_0000, b, a);
    ModUnique(c + 0x1_0000 * d, 0x1_0000, d, c);
  }

  /** The 16-bit halves of four bytes that decode to `high * 0x10000 + low`. */
  lemma HalvesOfWord(bs: seq<u8>, low: int, high: int, order: ByteOrder)
    requires |bs| == 4 && 0 <= low < 0x1_0000 && 0 <= high < 0x1_0000
    requires Decode(bs, order) == high * 0x1_0000 + low
    ensures order == LittleEndian ==> Decode(bs[..2], order) == low && Decode(bs[2..], order) == high
    ensures order == BigEndian ==> Decode(bs[..2], order) == high && Decode(bs[2..], order) == low
  {
    var first, second := Decode(bs[..2], order), Decode(bs[2..], order);
    assert first < 0x1_0000 && second < 0x1_0000 by {
      assert Pow256(2) == 0x1_0000;
    }
    WordHalves(bs, order);
    if order == LittleEndian {
      DigitsUnique(first, second, low, high);
    } else {
      DigitsUnique(second, first, low, high);
    }
  }

  /** A short read from two bytes that decode below 0x8000 is their value. */
  lemma GetShortSmall(buf: seq<u8>, at: nat, order: ByteOrder)
    requires at + 2 <= |buf| && Decode(buf[at..at + 2], order) < 0x8000
    ensures GetShort(buf, at, order) == Decode(buf[at..at + 2], order)
  {
  }

  /** The 16-bit halves of a word below 2^31 that holds `high * 0x10000 + low`. */
  lemma ShortsOfSmallWord(buf: seq<u8>, at: nat, low: int, high: int, order: ByteOrder)
    requires 0 <= low < 0x8000 && 1 <= high < 0x8000 && at + 4 <= |buf|
    requires Decode(buf[at..at + 4], order) == high * 0x1_0000 + low
    ensures GetInt(buf, at, order) == high * 0x1_0000 + low
    ensures order == LittleEndian ==> GetShort(buf, at, order) == low && GetShort(buf, at + 2, order) == high
    ensures order == BigEndian ==> GetShort(buf, at, order) == high && GetShort(buf, at + 2, order) == low
  {
    var bs := buf[at..at + 4];
    assert bs[..2] == buf[at..at + 2] && bs[2..] == buf[at + 2..at + 4] by {
      SliceWithin(buf, at, at + 4, 0, 2);
      SliceWithin(buf, at, at + 4, 2, 4);
    }
    HalvesOfWord(bs, low, high, order);
    GetShortSmall(buf, at, order);
    GetShortSmall(buf, at + 2, order);
  }

  /** Four bytes written as a word decode to it. */
  lemma WordAt(buf: seq<u8>, at: nat, w: int, order: ByteOrder)
    requires 0 <= w < 0x1_0000_0000 && at + 4 <= |buf| && buf[at..at + 4] == Encode(w, 4, order)
    ensures Decode(buf[at..at + 4], order) == w
  {
    DecodeAt(buf, at, w, 4, order);
    assert Pow256(4) == 0x1_0000_0000;
  }

  /** A first int above 0xFFFF makes a small tag of the two shorts. */
  lemma ReadSmallTag(buf: seq<u8>, at: nat, order: ByteOrder)
    requires at + 4 <= |buf| && GetInt(buf, at, order) > 0xFFFF
    ensures ReadTag(buf, at, order) == Ok(Tag(GetShort(buf, at, order), GetShort(buf, at + 2, order), 4))
  {
  }

  /** The layout of a small data element tag: size in the high half and type in the low half of one word. */
  function SmallTagWord(dataType: int, size: int): int
  {
    size * 0x1_0000 + dataType
  }

  /**
   * As written, a small tag is read back correctly from a little-endian file,
   * but from a big-endian file type and size come out swapped.
   */
  lemma SmallTagAsWritten(buf: seq<u8>, at: nat, dataType: int, size: int, order: ByteOrder)
    requires 0 <= dataType < 0x8000 && 1 <= size <= 4 && at + 4 <= |buf|
    requires buf[at..at + 4] == Encode(SmallTagWord(dataType, size), 4, order)
    ensures order == LittleEndian ==> ReadTag(buf, at, order) == Ok(Tag(dataType, size, 4))
    ensures order == BigEndian ==> ReadTag(buf, at, order) == Ok(Tag(size, dataType, 4))
  {
    WordAt(buf, at, SmallTagWord(dataType, size), order);
    ShortsOfSmallWord(buf, at, dataType, size, order);
    ReadSmallTag(buf, at, order);
  }

  /**
   * The two-character name "ab" as a small miINT8 element of a big-endian file
   * is read as one miUINT8 byte: the name loses its second character.
   */
  lemma SmallTagNameTruncated(buf: seq<u8>, at: nat)
    requires at + 8 <= |buf|
    requires buf[at..at + 4] == Encode(SmallTagWord(miINT8, 2), 4, BigEndian)
    ensures ReadTag(buf, at, BigEndian) == Ok(Tag(miUINT8, 1, 4))
  {
    SmallTagAsWritten(buf, at, miINT8, 2, BigEndian);
  }

  /** `readDataElementTags()` corrected: a small tag's type is the low half of the word and its size the high half, in either byte order. */
  function ReadTagIntended(buf: seq<u8>, at: nat, order: ByteOrder): (r: Result<Tag>)
    ensures r.Fail? <==> ReadTag(buf, at, order).Fail?
    ensures r.Ok? && r.value.tagSize == 8 ==> r == ReadTag(buf, at, order)
    ensures r.Ok? ==> r.value.tagSize == ReadTag(buf, at, order).value.tagSize
  {
    if at + 4 > |buf| then Fail(BufferUnderflow)
    else
      var first := GetInt(buf, at, order);
      if first > 0xFFFF then Ok(Tag(first % 0x1_0000, first / 0x1_0000, 4))
      else if at + 8 > |buf| then Fail(BufferUnderflow)
      else Ok(Tag(first, GetInt(buf, at + 4, order), 8))
  }

  /** The corrected reading recovers type and size of a small tag in both byte orders. */
  lemma SmallTagIntended(buf: seq<u8>, at: nat, dataType: int, size: int, order: ByteOrder)
    requires 0 <= dataType < 0x8000 && 1 <= size < 0x8000 && at + 4 <= |buf|
    requires buf[at..at + 4] == Encode(SmallTagWord(dataType, size), 4, order)
    ensures ReadTagIntended(buf, at, order) == Ok(Tag(dataType, size, 4))
  {
    var w := SmallTagWord(dataType, size);
    assert GetInt(buf, at, order) == w by {
      WordAt(buf, at, w, order);
      ShortsOfSmallWord(buf, at, dataType, size, order);
    }
    assert w % 0x1_0000 == dataType && w / 0x1_0000 == size by {
      ModUnique(w, 0x1_0000, size, dataType);
    }
  }

  // ---------------------------------------------------------------------
  // Element data

  /** The bytes per element `readData` reads for a data type; 0 for the types it does not read. */
  function Width(t: int): nat
  {
    if t == miINT8 || t == miUINT8 || t == miUTF8 then 1
    else if t == miINT16 || t == miUINT16 || t == miUTF16 then 2
    else if t == miINT32 || t == miUINT32 || t == miSINGLE || t == miUTF32 then 4
    else if t == miDOUBLE || t == miINT64 || t == miUINT64 then 8
    else 0
  }

  /** The Java array type `readData` returns. */
  datatype Kind = Doubles | Floats | Bytes | Shorts | Chars | Ints | Longs

  function KindOf(t: int): Kind
    requires Width(t) > 0
  {
    if t == miDOUBLE then Doubles
    else if t == miSINGLE then Floats
    else if t == miINT8 || t == miUINT8 then Bytes
    else if t == miINT16 then Shorts
    else if t == miUINT16 || t == miUTF8 || t == miUTF16 || t == miUTF32 then Chars
    else if t == miINT32 || t == miUINT32 then Ints
    else Longs
  }

  /** `v` is a value of the Java element type; floats and doubles are held as their bit patterns. */
  predicate InKind(k: Kind, v: int)
  {
    match k
    case Doubles => 0 <= v < 0x1_0000_0000_0000_0000
    case Floats => 0 <= v < 0x1_0000_0000
    case Bytes => -0x80 <= v < 0x80
    case Shorts => -0x8000 <= v < 0x8000
    case Chars => 0 <= v < 0x1_0000
    case Ints => INT_MIN <= v <= INT_MAX
    case Longs => LONG_MIN <= v <= LONG_MAX
  }

  /** One element of type `t` from its bytes read as an unsigned number in the buffer's order. */
  function Value(t: int, word: nat): (v: int)
    requires Width(t) > 0 && word < Pow256(Width(t))
    ensures InKind(KindOf(t), v)
  {
    assert Pow256(1) == 0x100 && Pow256(2) == 0x1_0000 && Pow256(4) == 0x1_0000_0000;
    assert Pow256(8) == 0x1_0000_0000_0000_0000;
    if t == miDOUBLE || t == miSINGLE || t == miUINT16 || t == miUTF16 then word
    else if t == miINT8 || t == miUINT8 then ToByte(word)
    else if t == miINT16 then ToShort(word)
    else if t == miINT32 || t == miUINT32 then ToInt(word)
    else if t == miUTF8 then ToChar(ToByte(word))
    else if t == miUTF32 then ToChar(ToInt(word))
    else ToLong(word)
  }

  /** The element of type `t` in slot `j` of `Width(t)` bytes from `at`; 0 for a slot past the end of the buffer. */
  function Element(buf: seq<u8>, at: nat, j: nat, t: int, order: ByteOrder): (v: int)
    requires Width(t) > 0
    ensures InKind(KindOf(t), v)
  {
    var w := Width(t);
    var p := at + j * w;
    if p + w <= |buf| then Value(t, Decode(buf[p..p + w], order)) else 0
  }

  /** The first `n` elements of type `t` stored from `at`, slot after slot. */
  function Run(buf: seq<u8>, at: nat, n: nat, t: int, order: ByteOrder): (r: seq<int>)
    requires Width(t) > 0 && at + n * Width(t) <= |buf|
    ensures |r| == n
    ensures forall j :: 0 <= j < n ==> InKind(KindOf(t), r[j])
  {
    seq(n, j requires 0 <= j => Element(buf, at, j, t, order))
  }

  lemma MulLeft(a: nat, b: nat, w: nat)
    requires a <= b
    ensures a * w <= b * w
  {
  }

  /** Element `i + 1` ends one width after element `i`; the buffer that lacks it lacks the whole run of `count`. */
  lemma NextSlot(at: nat, i: nat, count: nat, w: nat, size: nat)
    requires i < count
    ensures at + (i + 1) * w == at + i * w + w
    ensures at + i * w + w > size ==> at + count * w > size
  {
    MulLeft(i + 1, count, w);
  }

  /** The padding `(8 - (byteSize + tagSize) % 8) % 8` after an element's data, in Java int arithmetic. */
  function Padding(byteSize: int, tagSize: int): (p: int)
    ensures 0 <= p < 8
  {
    RemBounds(ToInt(byteSize + tagSize), 8);
    var q := 8 - Rem(ToInt(byteSize + tagSize), 8);
    RemBounds(q, 8);
    Rem(q, 8)
  }

  /** Tag, data and padding together end on a multiple of 8 bytes. */
  lemma PaddingAligns(byteSize: int, tagSize: int)
    requires 0 <= byteSize + tagSize <= INT_MAX
    ensures (tagSize + byteSize + Padding(byteSize, tagSize)) % 8 == 0
  {
    var s := byteSize + tagSize;
    DivRemNonNegative(s, 8);
    DivRemNonNegative(8 - s % 8, 8);
    if s % 8 == 0 {
      assert Padding(byteSize, tagSize) == 0;
    } else {
      assert Padding(byteSize, tagSize) == 8 - s % 8;
      assert s + (8 - s % 8) == 8 * (s / 8 + 1);
    }
  }

  datatype Data = Data(kind: Kind, values: seq<int>)

  /** The result of `readData`: the array (none for an unknown type) and the position after the padding. */
  datatype Read = Read(data: Option<Data>, next: nat)

  /**
   * `readData(type, byteSize, tagSize)`: `byteSize / width` elements (Java
   * division) and the padding after them; an unknown type reads nothing and
   * leaves the position.
   */
  function ReadDataOf(buf: seq<u8>, at: nat, t: int, byteSize: int, tagSize: int, order: ByteOrder): (r: Result<Read>)
    requires at <= |buf|
    ensures r.Ok? ==> (r.value.data.None? <==> Width(t) == 0)
    ensures r.Ok? && r.value.data.Some? ==> Width(t) > 0 && r.value.data.value.kind == KindOf(t)
    ensures r.Ok? && r.value.data.Some? ==> forall j :: 0 <= j < |r.value.data.value.values| ==> InKind(KindOf(t), r.value.data.value.values[j])
    ensures r.Ok? ==> at <= r.value.next <= |buf|
  {
    var w := Width(t);
    if w == 0 then Ok(Read(None, at))
    else ReadKnown(buf, at, t, Div(byteSize, w), Padding(byteSize, tagSize), order)
  }

  /** `readData` of a known type, given the element count and the padding: the elements, then the position after the padding. */
  function ReadKnown(buf: seq<u8>, at: nat, t: int, count: int, pad: nat, order: ByteOrder): (r: Result<Read>)
    requires at <= |buf| && Width(t) > 0
    ensures r.Ok? ==> r.value.data.Some? && r.value.data.value.kind == KindOf(t)
    ensures r.Ok? ==> forall j :: 0 <= j < |r.value.data.value.values| ==> InKind(KindOf(t), r.value.data.value.values[j])
    ensures r.Ok? ==> at <= r.value.next <= |buf|
  {
    if count < 0 then Fail(NegativeArraySize)
    else if at + count * Width(t) > |buf| then Fail(BufferUnderflow)
    else if at + count * Width(t) + pad > |buf| then Fail(IllegalArgument)
    else Ok(Read(Some(Data(KindOf(t), Run(buf, at, count, t, order))), at + count * Width(t) + pad))
  }

  /** An unknown type yields no array and leaves the position; a known one yields `byteSize / width` elements read in order. */
  lemma ReadDataContents(buf: seq<u8>, at: nat, t: int, byteSize: int, tagSize: int, order: ByteOrder, j: nat)
    requires at <= |buf| && ReadDataOf(buf, at, t, byteSize, tagSize, order).Ok?
    ensures var r := ReadDataOf(buf, at, t, byteSize, tagSize, order).value;
      r.data.None? ==> r.next == at
    ensures var r := ReadDataOf(buf, at, t, byteSize, tagSize, order).value;
      r.data.Some? ==> |r.data.value.values| == Div(byteSize, Width(t))
    ensures var r := ReadDataOf(buf, at, t, byteSize, tagSize, order).value;
      r.data.Some? && j < |r.data.value.values| ==>
        at + j * Width(t) + Width(t) <= |buf| &&
        r.data.value.values[j] == Value(t, Decode(buf[at + j * Width(t)..at + j * Width(t) + Width(t)], order))
  {
    var w := Width(t);
    if w > 0 {
      var count := Div(byteSize, w);
      if j < count {
        NextSlot(at, j, count, w, |buf|);
      }
    }
  }

  /**
   * `readData` of a known type succeeds exactly when the element count is
   * not negative and the data and its padding lie within the buffer.
   */
  lemma ReadDataSucceeds(buf: seq<u8>, at: nat, t: int, byteSize: int, tagSize: int, order: ByteOrder)
    requires at <= |buf| && Width(t) > 0
    ensures var count := Div(byteSize, Width(t));
      ReadDataOf(buf, at, t, byteSize, tagSize, order).Ok? <==>
        count >= 0 && at + count * Width(t) + Padding(byteSize, tagSize) <= |buf|
  {
    var w, count := Width(t), Div(byteSize, Width(t));
    var pad := Padding(byteSize, tagSize);
    assert 0 <= pad;
    if count >= 0 {
      var end := at + count * w;
      assert ReadDataOf(buf, at, t, byteSize, tagSize, order).Ok? <==> end <= |buf| && end + pad <= |buf|;
    }
  }

  /**
   * When the data holds a whole number of elements, `readData` ends after
   * the data and its padding, and tag, data and padding together span a
   * multiple of 8 bytes.
   */
  lemma ReadDataAligned(buf: seq<u8>, at: nat, t: int, byteSize: int, tagSize: int, order: ByteOrder)
    requires at <= |buf| && Width(t) > 0
    requires byteSize >= 0 && Div(byteSize, Width(t)) * Width(t) == byteSize && tagSize >= 0 && byteSize + tagSize <= INT_MAX
    requires ReadDataOf(buf, at, t, byteSize, tagSize, order).Ok?
    ensures ReadDataOf(buf, at, t, byteSize, tagSize, order).value.next == at + byteSize + Padding(byteSize, tagSize)
    ensures (tagSize + byteSize + Padding(byteSize, tagSize)) % 8 == 0
  {
    ReadDataEnd(buf, at, t, byteSize, tagSize, order);
    PaddingAligns(byteSize, tagSize);
  }

  lemma ReadDataEnd(buf: seq<u8>, at: nat, t: int, byteSize: int, tagSize: int, order: ByteOrder)
    requires at <= |buf| && Width(t) > 0 && Div(byteSize, Width(t)) * Width(t) == byteSize
    requires ReadDataOf(buf, at, t, byteSize, tagSize, order).Ok?
    ensures ReadDataOf(buf, at, t, byteSize, tagSize, order).value.next == at + byteSize + Padding(byteSize, tagSize)
  {
    ReadKnownNext(buf, at, t, Div(byteSize, Width(t)), Padding(byteSize, tagSize), order);
  }

  lemma ReadKnownNext(buf: seq<u8>, at: nat, t: int, count: int, pad: nat, order: ByteOrder)
    requires at <= |buf| && Width(t) > 0 && ReadKnown(buf, at, t, count, pad, order).Ok?
    ensures ReadKnown(buf, at, t, count, pad, order).value.next == at + count * Width(t) + pad
  {
  }

  /** `readData`'s loop: `count` elements one after another, or the underflow when the buffer runs out. */
  method ReadRun(buf: seq<u8>, at: nat, count: nat, t: int, order: ByteOrder) returns (r: Result<seq<int>>)
    requires at <= |buf| && Width(t) > 0
    ensures r.Ok? <==> at + count * Width(t) <= |buf|
    ensures r.Fail? ==> r.error == BufferUnderflow
    ensures r.Ok? ==> r.value == Run(buf, at, count, t, order)
  {
    var w := Width(t);
    var values: seq<int> := [];
    var p := at;
    for i := 0 to count
      invariant p == at + i * w && p <= |buf|
      invariant |values| == i && forall k :: 0 <= k < i ==> values[k] == Element(buf, at, k, t, order)
    {
      NextSlot(at, i, count, w, |buf|);
      if p + w > |buf| {
        return Fail(BufferUnderflow);
      }
      values := values + [Value(t, Decode(buf[p..p + w], order))];
      p := p + w;
    }
    return Ok(values);
  }

  /** `readData(type, byteSize, tagSize)`: the element loop, then the position moved past the padding. */
  method ReadData(buf: seq<u8>, at: nat, t: int, byteSize: int, tagSize: int, order: ByteOrder) returns (r: Result<Read>)
    requires at <= |buf|
    ensures r == ReadDataOf(buf, at, t, byteSize, tagSize, order)
  {
    var w := Width(t);
    if w == 0 {
      return Ok(Read(None, at));
    }
    var count := Div(byteSize, w);
    if count < 0 {
      return Fail(NegativeArraySize);
    }
    var values := ReadRun(buf, at, count, t, order);
    if values.Fail? {
      return Fail(values.error);
    }
    var next := at + count * w + Padding(byteSize, tagSize);
    if next > |buf| {
      return Fail(IllegalArgument);
    }
    return Ok(Read(Some(Data(KindOf(t), values.value)), next));
  }

  // ---------------------------------------------------------------------
  // Arrays

  /** The flags of an array: complex, global and logical bits and the class. */
  datatype ArrayFlags = ArrayFlags(complex: bool, global: bool, logical: bool, classId: int)

  /** The first word of the flags element: `word >> 8` holds the flag bits 0x8, 0x4 and 0x2, `word & 0xFF` the class. */
  function DecodeFlags(word: int): (f: ArrayFlags)
    ensures 0 <= f.classId < 0x100
  {
    var flags := word / 0x100;
    ArrayFlags((flags / 8) % 2 == 1, (flags / 4) % 2 == 1, (flags / 2) % 2 == 1, word % 0x100)
  }

  /** The flags word a writer builds from the flag bits and the class. */
  function EncodeFlags(f: ArrayFlags): int
  {
    (if f.complex then 0x800 else 0) + (if f.global then 0x400 else 0) + (if f.logical then 0x200 else 0) + f.classId
  }

  /** Decoding a flags word gives back the bits and the class it was built from. */
  lemma FlagsRoundTrip(f: ArrayFlags)
    requires 0 <= f.classId < 0x100
    ensures DecodeFlags(EncodeFlags(f)) == f
  {
    var c, g, l := (if f.complex then 1 else 0), (if f.global then 1 else 0), (if f.logical then 1 else 0);
    var bits := 8 * c + 4 * g + 2 * l;
    assert EncodeFlags(f) == 0x100 * bits + f.classId;
    ModUnique(EncodeFlags(f), 0x100, bits, f.classId);
    ModUnique(bits, 8, c, 4 * g + 2 * l);
    assert (bits / 8) % 2 == c;
    assert (bits / 4) % 2 == g by {
      ModUnique(bits, 4, 2 * c + g, 2 * l);
      ModUnique(2 * c + g, 2, c, g);
    }
    assert (bits / 2) % 2 == l by {
      ModUnique(bits, 2, 4 * c + 2 * g + l, 0);
      ModUnique(4 * c + 2 * g + l, 2, 2 * c + g, l);
    }
  }

  /** The elements are values of their Java type. */
  predicate DataFits(d: Option<Data>)
  {
    d.Some? ==> forall j :: 0 <= j < |d.value.values| ==> InKind(d.value.kind, d.value.values[j])
  }

  /** `d` is what `readData` returns for type `t`: an array of the type's kind, or none for an unknown type. */
  predicate Typed(d: Option<Data>, t: int)
  {
    (d.Some? <==> Width(t) > 0) && (d.Some? ==> d.value.kind == KindOf(t)) && DataFits(d)
  }

  /** `((int[]) flags)[0]`: a missing array, an array of another type or an empty one throws. */
  function FlagsWord(d: Option<Data>): (r: Result<i32>)
    requires DataFits(d)
    ensures r.Ok? <==> d.Some? && d.value.kind == Ints && |d.value.values| > 0
  {
    match d
    case None => Fail(NullPointer)
    case Some(Data(k, vs)) =>
      if k != Ints then Fail(ClassCast)
      else if |vs| == 0 then Fail(IndexOutOfBounds)
      else Ok(vs[0])
  }

  /** `(int[]) dims`: none stays none, an array of another type throws. */
  function DimsOf(d: Option<Data>): (r: Result<Option<seq<i32>>>)
    requires DataFits(d)
    ensures r.Ok? <==> d.None? || d.value.kind == Ints
    ensures r.Ok? && d.Some? ==> r.value == Some(d.value.values)
  {
    match d
    case None => Ok(None)
    case Some(Data(k, vs)) =>
      if k != Ints then Fail(ClassCast)
      else
        assert forall j :: 0 <= j < |vs| ==> InKind(Ints, vs[j]);
        var dims: seq<i32> := vs;
        Ok(Some(dims))
  }

  /**
   * The name: a char array as it is, otherwise the array taken as bytes, each
   * byte one character; no array throws, one of another type too.
   */
  function NameOfData(d: Option<Data>): (r: Result<Name>)
    requires DataFits(d)
    ensures r.Ok? <==> d.Some? && (d.value.kind == Chars || d.value.kind == Bytes)
    ensures r.Ok? ==> |r.value| == |d.value.values|
    ensures r.Ok? ==> forall j :: 0 <= j < |r.value| ==> 0 <= r.value[j] < 0x1_0000
  {
    match d
    case None => Fail(NullPointer)
    case Some(Data(k, vs)) =>
      if k == Chars then Ok(vs)
      else if k == Bytes then Ok(seq(|vs|, j requires 0 <= j < |vs| => UnsignedByte(vs[j])))
      else Fail(ClassCast)
  }

  /** A data element: its tag, the array read, and the position after its padding. */
  datatype DataElement = DataElement(tag: Tag, data: Option<Data>, next: nat)

  /** The tag at `at` followed by `readData` of its data. */
  function ReadElementOf(buf: seq<u8>, at: nat, order: ByteOrder): (r: Result<DataElement>)
    requires at <= |buf|
    ensures r.Ok? ==> at + r.value.tag.tagSize <= r.value.next <= |buf|
    ensures r.Ok? ==> Typed(r.value.data, r.value.tag.dataType)
  {
    var tag :- ReadTag(buf, at, order);
    var read :- ReadDataOf(buf, at + tag.tagSize, tag.dataType, tag.size, tag.tagSize, order);
    Ok(DataElement(tag, read.data, read.next))
  }

  /** The first three sub-elements of a miMATRIX element: flags, dimensions, name. */
  datatype ArrayHead = ArrayHead(flags: ArrayFlags, dim: Option<seq<i32>>, name: Name, next: nat)

  /** A miMATRIX element's sub-elements as `readArray` reads them, before the container is built. */
  datatype ArrayElement = ArrayElement(
    flags: ArrayFlags, dim: Option<seq<i32>>, name: Name,
    realData: Option<Data>, realType: int, imagData: Option<Data>, imagType: int, next: nat)

  predicate WellFormed(e: ArrayElement)
  {
    Typed(e.realData, e.realType) && Typed(e.imagData, e.imagType)
  }

  /** `readArray`'s flags, dimensions and name, each a data element of its own. */
  function ParseHead(buf: seq<u8>, at: nat, order: ByteOrder): (r: Result<ArrayHead>)
    requires at <= |buf|
    ensures r.Ok? ==> at + 12 <= r.value.next <= |buf|
  {
    var flagsElement :- ReadElementOf(buf, at, order);
    var word :- FlagsWord(flagsElement.data);
    var dimElement :- ReadElementOf(buf, flagsElement.next, order);
    var dim :- DimsOf(dimElement.data);
    var nameElement :- ReadElementOf(buf, dimElement.next, order);
    var name :- NameOfData(nameElement.data);
    Ok(ArrayHead(DecodeFlags(word), dim, name, nameElement.next))
  }

  /** The imaginary part, read only for a complex array; otherwise none, with type -1. */
  function ParseImag(buf: seq<u8>, at: nat, complex: bool, order: ByteOrder): (r: Result<DataElement>)
    requires at <= |buf|
    ensures r.Ok? ==> at <= r.value.next <= |buf| && Typed(r.value.data, r.value.tag.dataType)
    ensures r.Ok? && !complex ==> r.value.data.None? && r.value.tag.dataType == -1 && r.value.next == at
  {
    if complex then ReadElementOf(buf, at, order) else Ok(DataElement(Tag(-1, 0, 0), None, at))
  }

  /**
   * `readArray`: flags, dimensions, name, real part and, for a complex array,
   * the imaginary part. The byte count of the enclosing tag is not consulted.
   */
  function ParseArray(buf: seq<u8>, at: nat, order: ByteOrder): (r: Result<ArrayElement>)
    requires at <= |buf|
    ensures r.Ok? ==> WellFormed(r.value) && at + 16 <= r.value.next <= |buf|
    ensures r.Ok? && !r.value.flags.complex ==> r.value.imagData.None? && r.value.imagType == -1
  {
    var head :- ParseHead(buf, at, order);
    var realPart :- ReadElementOf(buf, head.next, order);
    var imagPart :- ParseImag(buf, realPart.next, head.flags.complex, order);
    Ok(ArrayElement(head.flags, head.dim, head.name, realPart.data, realPart.tag.dataType,
                    imagPart.data, imagPart.tag.dataType, imagPart.next))
  }

  /** A tag followed by its data, read with the `readData` loop. */
  method ReadElement(buf: seq<u8>, at: nat, order: ByteOrder) returns (r: Result<DataElement>)
    requires at <= |buf|
    ensures r == ReadElementOf(buf, at, order)
  {
    var tag :- ReadTag(buf, at, order);
    var read :- ReadData(buf, at + tag.tagSize, tag.dataType, tag.size, tag.tagSize, order);
    return Ok(DataElement(tag, read.data, read.next));
  }

  /** `readArray`'s first three elements. */
  method ReadHead(buf: seq<u8>, at: nat, order: ByteOrder) returns (r: Result<ArrayHead>)
    requires at <= |buf|
    ensures r == ParseHead(buf, at, order)
  {
    var flagsElement :- ReadElement(buf, at, order);
    var word :- FlagsWord(flagsElement.data);
    var dimElement :- ReadElement(buf, flagsElement.next, order);
    var dim :- DimsOf(dimElement.data);
    var nameElement :- ReadElement(buf, dimElement.next, order);
    var name :- NameOfData(nameElement.data);
    return Ok(ArrayHead(DecodeFlags(word), dim, name, nameElement.next));
  }

  /** The imaginary part when the array is complex. */
  method ReadImag(buf: seq<u8>, at: nat, complex: bool, order: ByteOrder) returns (r: Result<DataElement>)
    requires at <= |buf|
    ensures r == ParseImag(buf, at, complex, order)
  {
    if complex {
      r := ReadElement(buf, at, order);
    } else {
      r := Ok(DataElement(Tag(-1, 0, 0), None, at));
    }
  }

  /** `readArray`, element after element. */
  method ReadArray(buf: seq<u8>, at: nat, order: ByteOrder) returns (r: Result<ArrayElement>)
    requires at <= |buf|
    ensures r == ParseArray(buf, at, order)
  {
    var head :- ReadHead(buf, at, order);
    var realPart :- ReadElement(buf, head.next, order);
    var imagPart :- ReadImag(buf, realPart.next, head.flags.complex, order);
    return Ok(ArrayElement(head.flags, head.dim, head.name, realPart.data, realPart.tag.dataType,
                           imagPart.data, imagPart.tag.dataType, imagPart.next));
  }
}
