// The image side of a NIFTI or Analyze dataset: the extents read from the
// header's dim field, the number of voxels and bytes, where the image data
// starts in the stream, the chunked reading of the stream and the decoding
// of its bytes into the array that `sample` indexes.
//
// Array elements are kept as mathematical integers; a float or double
// element is its IEEE bit pattern. The stream is the byte sequence left
// after the skip; a stream read delivers at least one byte per call until
// it is exhausted.

module NiftiFiles {
  import opened Java
  import opened ByteBuffers
  import opened VolumeIndex
  import opened Ieee
  import opened NiftiHeaders

  // ---------------------------------------------------------------------
  // Extents and counts

  /** The extents the constructor takes from `dim`: axis k is dim[k] when dim[0] >= k, else 1. */
  function ExtentsOf(dim: seq<i16>): Extents
    requires |dim| == 8
  {
    Extents(
      if dim[0] >= 1 then dim[1] else 1,
      if dim[0] >= 2 then dim[2] else 1,
      if dim[0] >= 3 then dim[3] else 1,
      if dim[0] >= 4 then dim[4] else 1,
      if dim[0] >= 5 then dim[5] else 1)
  }

  /** dim[1] * ... * dim[n], exactly. */
  function DimProduct(dim: seq<i16>, n: nat): int
    requires |dim| == 8 && n <= 7
  {
    if n == 0 then 1 else DimProduct(dim, n - 1) * dim[n]
  }

  /** The same product in Java int arithmetic: each step wraps to 32 bits. */
  function WrappedProduct(dim: seq<i16>, n: nat): i32
    requires |dim| == 8 && n <= 7
  {
    if n == 0 then 1 else ToInt(WrappedProduct(dim, n - 1) * dim[n])
  }

  /** The axes dim[1..n] are all at least one. */
  predicate PositiveDims(dim: seq<i16>, n: nat)
    requires |dim| == 8 && n <= 7
  {
    forall k :: 1 <= k <= n ==> dim[k] >= 1
  }

  /**
   * `getNumVoxels()`: the product of dim[1..dim[0]] in int arithmetic. A
   * dim[0] above 7 runs off the end of the eight-entry array.
   */
  method GetNumVoxels(dim: seq<i16>) returns (r: Result<i32>)
    requires |dim| == 8
    ensures r == NumVoxels(dim)
  {
    var v: i32 := 1;
    var size := dim[0];
    var i := 1;
    while i <= size
      invariant 1 <= i <= 8
      invariant i == 1 || i <= size + 1
      invariant v == WrappedProduct(dim, i - 1)
    {
      if i >= 8 {
        return Fail(IndexOutOfBounds);
      }
      v := ToInt(v * dim[i]);
      i := i + 1;
    }
    return Ok(v);
  }

  /** With positive axes whose product fits an int, the wrapped product is the true one. */
  lemma {:induction false} WrappedIsProduct(dim: seq<i16>, n: nat)
    requires |dim| == 8 && n <= 7 && PositiveDims(dim, n) && DimProduct(dim, n) <= INT_MAX
    ensures DimProduct(dim, n) >= 1
    ensures WrappedProduct(dim, n) == DimProduct(dim, n)
  {
    if n > 0 {
      var p := DimProduct(dim, n - 1);
      assert PositiveDims(dim, n - 1);
      assert p <= DimProduct(dim, n) by {
        ProductGrows(dim, n);
      }
      WrappedIsProduct(dim, n - 1);
      MulAtLeast(p, dim[n]);
    }
  }

  /** Multiplying by one more positive axis does not shrink a positive product. */
  lemma {:induction false} ProductGrows(dim: seq<i16>, n: nat)
    requires |dim| == 8 && 1 <= n <= 7 && PositiveDims(dim, n)
    ensures 1 <= DimProduct(dim, n - 1) <= DimProduct(dim, n)
  {
    if n > 1 {
      assert PositiveDims(dim, n - 1);
      ProductGrows(dim, n - 1);
    }
    MulAtLeast(DimProduct(dim, n - 1), dim[n]);
  }

  /**
   * For a volume of at most five axes, the voxel count is the number of
   * voxels the extents address, so every index `getIndex` returns lies below it.
   */
  lemma NumVoxelsIsSize(dim: seq<i16>)
    requires |dim| == 8 && 0 <= dim[0] <= 5
    ensures DimProduct(dim, dim[0]) == Size(ExtentsOf(dim))
  {
    var e := ExtentsOf(dim);
    var a, b, c, d, f := dim[1] as int, dim[2] as int, dim[3] as int, dim[4] as int, dim[5] as int;
    assert DimProduct(dim, 1) == a;
    assert DimProduct(dim, 2) == a * b;
    assert DimProduct(dim, 3) == a * b * c;
    assert DimProduct(dim, 4) == a * b * c * d;
    assert DimProduct(dim, 5) == a * b * c * d * f;
    assert Size(e) == e.maxX * e.maxY * e.maxZ * e.maxTime * e.maxI5;
  }

  /** `header.getBitpix() / 8`, at least one. */
  function BytesPerVoxel(bitpix: i16): (r: int)
    ensures r >= 1
    ensures bitpix >= 8 ==> r == bitpix / 8
  {
    var est := Div(bitpix, 8);
    if est <= 0 then 1 else est
  }

  /**
   * `getNumBytes()`: bytes per voxel times the voxel count, plus
   * `(int) (voxOffset + 348)` given as `dataEnd`, in int arithmetic.
   */
  function NumBytes(bitpix: i16, voxels: i32, dataEnd: i32): i32
  {
    ToInt(BytesPerVoxel(bitpix) * voxels + dataEnd)
  }

  /**
   * For a datatype the decoder handles, with the bitpix `setDatatype`
   * records, the byte estimate covers one element width per voxel, and is
   * exactly the element width per voxel plus `dataEnd` when that fits an int.
   */
  lemma NumBytesCoversData(code: int, voxels: i32, dataEnd: i32)
    requires KindOf(code).Ok? && voxels >= 0 && dataEnd >= 0
    requires Width(code) * voxels + dataEnd <= INT_MAX
    ensures BitpixOf(code).Some? && -0x8000 <= BitpixOf(code).value < 0x8000
    ensures NumBytes(BitpixOf(code).value, voxels, dataEnd) == Width(code) * voxels + dataEnd
    ensures NumBytes(BitpixOf(code).value, voxels, dataEnd) >= Width(code) * voxels
  {
    ReadWidthIsBitpix(code);
  }

  // ---------------------------------------------------------------------
  // Where the data starts

  /**
   * The skip `getImageStream()` applies: `(int) voxOffset`, raised to 348
   * in a single file and to 0 in a header/image pair.
   */
  function SkipOffset(voxOffset: i32, singleFile: bool): (r: int)
    ensures singleFile ==> r >= HEADER_SIZE && (voxOffset >= HEADER_SIZE ==> r == voxOffset)
    ensures !singleFile ==> r >= 0 && (voxOffset >= 0 ==> r == voxOffset)
  {
    if singleFile then (if voxOffset < HEADER_SIZE then HEADER_SIZE else voxOffset)
    else if voxOffset < 0 then 0 else voxOffset
  }

  /**
   * Reading back what `write` produced: in a single file the stream is
   * positioned just past the header and its extension records; in a pair
   * at the start of the image file.
   */
  lemma SkipOfWritten(h: seq<u8>, ext: seq<seq<u8>>, order: ByteOrder)
    requires BLANK_SIZE + RecordsLength(ext) < 0x100_0000
    ensures SkipOffset(FloatToInt(WrittenVoxOffset(ext, true)), true) == |Image(h) + Records(ext, order)|
    ensures SkipOffset(FloatToInt(WrittenVoxOffset(ext, false)), false) == 0
  {
    VoxOffsetIsImageStart(h, ext, order);
  }

  /**
   * The offset `sample` skips to when the data is not cached: the voxel's
   * byte position plus `(int) voxOffset` in a single file, and plus nothing
   * in a pair; no clamp is applied.
   */
  function SampleOffset(index: i32, bitpix: i16, voxOffset: i32, singleFile: bool): i32
  {
    ToInt(Div(ToInt(index * bitpix), 8) + (if singleFile then voxOffset else 0))
  }

  /** The offset the bulk reader decodes voxel `index` from: the skip plus the voxel's byte position. */
  function SampleOffsetIntended(index: i32, bitpix: i16, voxOffset: i32, singleFile: bool): int
  {
    SkipOffset(voxOffset, singleFile) + index * BytesPerVoxel(bitpix)
  }

  /**
   * The single-voxel path and the bulk reader disagree for a pair whose
   * vox_offset is positive, and for a single file whose vox_offset is below
   * 348; they agree on a single file with a sound vox_offset.
   */
  lemma SampleOffsetMisses(bitpix: i16, voxOffset: i32)
    requires voxOffset > 0
    ensures SampleOffset(0, bitpix, voxOffset, false) == 0 != SampleOffsetIntended(0, bitpix, voxOffset, false)
    ensures SampleOffset(0, bitpix, 0, true) == 0 && SampleOffsetIntended(0, bitpix, 0, true) == HEADER_SIZE
  {
  }

  /** For whole-byte voxels in a single file with vox_offset >= 348, the two offsets are the same. */
  lemma SampleOffsetAgrees(index: i32, bitpix: i16, voxOffset: i32)
    requires index >= 0 && bitpix >= 8 && bitpix % 8 == 0 && voxOffset >= HEADER_SIZE
    requires index * bitpix + 8 * voxOffset <= INT_MAX
    ensures SampleOffset(index, bitpix, voxOffset, true) == SampleOffsetIntended(index, bitpix, voxOffset, true)
  {
    var k := bitpix / 8;
    assert BytesPerVoxel(bitpix) == k;
    ScaleByEight(index, k);
    WholeByteOffset(index * bitpix, index * k, voxOffset);
  }

  lemma ScaleByEight(index: int, k: int)
    ensures index * (8 * k) == 8 * (index * k)
  {
  }

  /** A bit position that is a whole number of bytes converts to that byte position. */
  lemma WholeByteOffset(bits: int, bytes: int, voxOffset: int)
    requires bits == 8 * bytes && 0 <= bits && bits + 8 * voxOffset <= INT_MAX && voxOffset >= 0
    ensures ToInt(Div(ToInt(bits), 8) + voxOffset) == bytes + voxOffset
  {
    DivRemNonNegative(bits, 8);
    ModUnique(bits, 8, bytes, 0);
  }

  // ---------------------------------------------------------------------
  // Array kinds and elements

  /** The Java array `getData()` allocates. */
  datatype ArrayKind = ShortArray | CharArray | IntArray | FloatArray | DoubleArray | ByteArray

  /**
   * The array kind for a datatype: UINT8 and INT16 into short[], UINT16 into
   * char[], INT32 and RGB24 into int[], FLOAT32 into float[], FLOAT64 into
   * double[], INT8 into byte[]; any other code is an illegal argument.
   */
  function KindOf(code: int): (r: Result<ArrayKind>)
    ensures r.Fail? <==> code !in {DT_UINT8, DT_INT16, DT_UINT16, DT_INT32, DT_FLOAT32, DT_FLOAT64, DT_INT8, DT_RGB24}
    ensures r.Fail? ==> r.error == IllegalArgument
    ensures r.Ok? ==> ReadWidth(code).Some?
  {
    if code == DT_UINT8 || code == DT_INT16 then Ok(ShortArray)
    else if code == DT_UINT16 then Ok(CharArray)
    else if code == DT_INT32 || code == DT_RGB24 then Ok(IntArray)
    else if code == DT_FLOAT32 then Ok(FloatArray)
    else if code == DT_FLOAT64 then Ok(DoubleArray)
    else if code == DT_INT8 then Ok(ByteArray)
    else Fail(IllegalArgument)
  }

  /** The bytes one element takes in the stream. */
  function Width(code: int): (w: nat)
    requires KindOf(code).Ok?
    ensures w >= 1 && ReadWidth(code) == Some(w)
  {
    ReadWidth(code).value
  }

  /** The values an array of kind `k` can hold. */
  predicate Holds(k: ArrayKind, v: int)
  {
    match k
    case ShortArray => -0x8000 <= v < 0x8000
    case CharArray => 0 <= v < 0x1_0000
    case IntArray => INT_MIN <= v <= INT_MAX
    case FloatArray => 0 <= v < 0x1_0000_0000
    case DoubleArray => 0 <= v < 0x1_0000_0000_0000_0000
    case ByteArray => -0x80 <= v < 0x80
  }

  /**
   * One element as the fill loops of `getData()` store it: `get()` for
   * UINT8 and INT8, `getShort()`, `getChar()`, `getInt()`, the bits of
   * `getFloat()` and `getDouble()`, and `assembleRGB` for RGB24.
   */
  function Element(code: int, bs: seq<u8>, order: ByteOrder): (v: int)
    requires KindOf(code).Ok? && |bs| == Width(code)
    ensures Holds(KindOf(code).value, v)
  {
    assert Pow256(2) == 0x1_0000 && Pow256(4) == 0x1_0000_0000 && Pow256(8) == 0x1_0000_0000_0000_0000;
    if code == DT_UINT8 || code == DT_INT8 then SignedByte(bs[0]) as int
    else if code == DT_INT16 then ToShort(Decode(bs, order)) as int
    else if code == DT_UINT16 then Decode(bs, order)
    else if code == DT_INT32 then ToInt(Decode(bs, order)) as int
    else if code == DT_FLOAT32 || code == DT_FLOAT64 then Decode(bs, order)
    else ToInt(AssembleRGB(SignedByte(bs[0]), SignedByte(bs[1]), SignedByte(bs[2])) as int) as int
  }

  /** An unsigned byte stored the way the header's reader returns it: 0..255. */
  function ElementIntended(code: int, bs: seq<u8>, order: ByteOrder): (v: int)
    requires KindOf(code).Ok? && |bs| == Width(code)
    ensures Holds(KindOf(code).value, v)
  {
    if code == DT_UINT8 then bs[0] else Element(code, bs, order)
  }

  /**
   * As `getData()` fills a UINT8 volume: a byte of 128 or more is stored
   * negative, while `readNextInteger` reads the same byte as 128..255.
   */
  lemma Uint8SignExtended(b: u8, order: ByteOrder)
    requires b >= 0x80
    ensures Element(DT_UINT8, [b], order) == b - 0x100 < 0
    ensures ReadInteger(DT_UINT8, [b], 0, order) == Ok(Read(b, 1))
  {
  }

  /**
   * With the unsigned reading of UINT8, every integer element the bulk
   * reader stores is the value the header's single-value reader returns for
   * the same bytes.
   */
  lemma ElementIntendedIsReader(code: int, img: seq<u8>, pos: nat, order: ByteOrder)
    requires KindOf(code).Ok? && code != DT_FLOAT32 && code != DT_FLOAT64
    requires pos + Width(code) <= |img|
    ensures ReadInteger(code, img, pos, order).Ok?
    ensures ElementIntended(code, img[pos..pos + Width(code)], order) == ReadInteger(code, img, pos, order).value.value
  {
  }

  /** The number of whole `w`-byte elements in `n` bytes. */
  function Groups(n: nat, w: nat): nat
    requires w >= 1
    decreases n
  {
    if n < w then 0 else 1 + Groups(n - w, w)
  }

  /** The bytes left over after the whole elements. */
  function Leftover(n: nat, w: nat): nat
    requires w >= 1
    decreases n
  {
    if n < w then n else Leftover(n - w, w)
  }

  lemma LeftoverBelow(n: nat, w: nat)
    requires w >= 1
    ensures n < w ==> Leftover(n, w) == n && Groups(n, w) == 0
    ensures n >= w ==> Leftover(n, w) == Leftover(n - w, w) && Groups(n, w) == 1 + Groups(n - w, w)
  {
  }

  /** Counting elements one by one is division with remainder. */
  lemma {:induction false} GroupsDivide(n: nat, w: nat)
    requires w >= 1
    ensures Groups(n, w) == n / w && Leftover(n, w) == n % w
    decreases n
  {
    if n < w {
      ModUnique(n, w, 0, n);
    } else {
      GroupsDivide(n - w, w);
      StepDown(n, w);
    }
  }

  /** Taking one element's width off a length takes one off its quotient and keeps its remainder. */
  lemma StepDown(n: nat, w: nat)
    requires 1 <= w <= n
    ensures (n - w) / w == n / w - 1 && (n - w) % w == n % w
  {
    var q, m := (n - w) / w, (n - w) % w;
    assert n == w * (q + 1) + m by {
      assert n - w == w * q + m;
    }
    ModUnique(n, w, q + 1, m);
  }

  /** Cutting `n` bytes after `k`, both whole elements, leaves whole elements, and the counts add up. */
  lemma {:induction false} GroupsSplit(n: nat, k: nat, w: nat)
    requires w >= 1 && k <= n && Leftover(k, w) == 0 && Leftover(n, w) == 0
    ensures Leftover(n - k, w) == 0 && Groups(k, w) + Groups(n - k, w) == Groups(n, w)
    ensures k > 0 ==> w <= k && Groups(k, w) >= 1
    decreases k
  {
    if k > 0 {
      LeftoverBelow(k, w);
      LeftoverBelow(n, w);
      GroupsSplit(n - w, k - w, w);
    }
  }

  /**
   * The bulk reader's decoder for datatype `code` in byte order `order`:
   * `Element` on byte groups of the datatype's width.
   */
  function Decoder(code: int, order: ByteOrder): seq<u8> -> int
    requires KindOf(code).Ok?
  {
    bs => if |bs| == Width(code) then Element(code, bs, order) else 0
  }

  /** The elements `dec` decodes from the whole `w`-byte groups of `s[from..to]`, in order. */
  function Elements(dec: seq<u8> -> int, w: nat, s: seq<u8>, from: nat, to: nat): (r: seq<int>)
    requires w >= 1 && from <= to <= |s|
    ensures |r| == Groups(to - from, w)
    decreases |s| - from
  {
    if to - from < w then []
    else [dec(s[from..from + w])] + Elements(dec, w, s, from + w, to)
  }

  /** The elements of the whole groups of `Width(code)` bytes in `bs`. */
  function Voxels(code: int, bs: seq<u8>, order: ByteOrder): (r: seq<int>)
    requires KindOf(code).Ok?
    ensures |r| == |bs| / Width(code)
  {
    GroupsDivide(|bs|, Width(code));
    Elements(Decoder(code, order), Width(code), bs, 0, |bs|)
  }

  /** Where group `j` of a run of `w`-byte groups starting at `from` begins. */
  function GroupStart(from: nat, w: nat, j: nat): nat
  {
    from + w * j
  }

  lemma NextGroupStart(from: nat, w: nat, j: nat)
    requires j > 0
    ensures GroupStart(from + w, w, j - 1) == GroupStart(from, w, j)
  {
    assert w * (j - 1) == w * j - w;
  }

  /** Element j of a run is decoded from the group starting `j` widths after the run. */
  lemma {:induction false} ElementsAt(dec: seq<u8> -> int, w: nat, s: seq<u8>, from: nat, to: nat, j: nat)
    requires w >= 1 && from <= to <= |s| && j < Groups(to - from, w)
    ensures GroupStart(from, w, j) + w <= to
    ensures Elements(dec, w, s, from, to)[j] == dec(s[GroupStart(from, w, j)..GroupStart(from, w, j) + w])
    decreases j
  {
    LeftoverBelow(to - from, w);
    if j > 0 {
      ElementsAt(dec, w, s, from + w, to, j - 1);
      NextGroupStart(from, w, j);
    }
  }

  /** Voxel j of a stream is decoded from bytes w*j up to w*(j+1), w being the datatype's width. */
  lemma VoxelLayout(code: int, bs: seq<u8>, order: ByteOrder, j: nat)
    requires KindOf(code).Ok? && j < |bs| / Width(code)
    ensures GroupStart(0, Width(code), j) + Width(code) <= |bs|
    ensures var at := GroupStart(0, Width(code), j);
      Voxels(code, bs, order)[j] == Element(code, bs[at..at + Width(code)], order)
  {
    var w := Width(code);
    GroupsDivide(|bs|, w);
    ElementsAt(Decoder(code, order), w, bs, 0, |bs|, j);
    DecoderIsElement(code, order, bs[GroupStart(0, w, j)..GroupStart(0, w, j) + w]);
  }

  /** On a group of the datatype's width, the decoder is `Element`. */
  lemma DecoderIsElement(code: int, order: ByteOrder, g: seq<u8>)
    requires KindOf(code).Ok? && |g| == Width(code)
    ensures Decoder(code, order)(g) == Element(code, g, order)
  {
  }

  /** Cutting a run after a whole number of elements cuts its elements there. */
  lemma {:induction false} ElementsSplit(dec: seq<u8> -> int, w: nat, s: seq<u8>, a: nat, b: nat, c: nat)
    requires w >= 1 && a <= b <= c <= |s| && Leftover(b - a, w) == 0
    ensures Elements(dec, w, s, a, c) == Elements(dec, w, s, a, b) + Elements(dec, w, s, b, c)
    decreases b - a
  {
    if a < b {
      assert b - a >= w;
      ElementsSplit(dec, w, s, a + w, b, c);
      var e := dec(s[a..a + w]);
      var front, back := Elements(dec, w, s, a + w, b), Elements(dec, w, s, b, c);
      assert Elements(dec, w, s, a, c) == [e] + (front + back);
      assert Elements(dec, w, s, a, b) == [e] + front;
      assert [e] + (front + back) == ([e] + front) + back;
    }
  }

  // ---------------------------------------------------------------------
  // Decoding the stream

  /** `n` zeros: the elements of a fresh Java array. */
  function Zeros(n: nat): (r: seq<int>)
    ensures |r| == n && forall j :: 0 <= j < n ==> r[j] == 0
  {
    seq(n, _ => 0)
  }

  lemma AppendAssoc(xs: seq<int>, ys: seq<int>, zs: seq<int>)
    ensures xs + ys + zs == xs + (ys + zs)
  {
  }

  /** `xs` stored ahead of what the rest of a chunk stores, unless the rest throws. */
  function Join(xs: seq<int>, r: Result<seq<int>>): Result<seq<int>>
  {
    if r.Ok? then Ok(xs + r.value) else r
  }

  lemma JoinNothing(r: Result<seq<int>>)
    ensures Join([], r) == r
  {
    if r.Ok? {
      assert [] + r.value == r.value;
    }
  }

  lemma JoinAppend(xs: seq<int>, y: int, r: Result<seq<int>>)
    ensures Join(xs, Join([y], r)) == Join(xs + [y], r)
  {
    if r.Ok? {
      assert xs + ([y] + r.value) == xs + [y] + r.value;
    }
  }

  /**
   * The chunk `s[from..to]` decoded with `room` array slots left, element
   * by element: each element first reads its bytes (buffer underflow when
   * fewer remain), then is stored (out of bounds when no slot is left). It
   * succeeds exactly when the chunk is whole elements that fit, and then
   * stores the chunk's elements.
   */
  function ChunkOutcome(dec: seq<u8> -> int, w: nat, s: seq<u8>, from: nat, to: nat, room: nat): (r: Result<seq<int>>)
    requires w >= 1 && from <= to <= |s|
    decreases |s| - from
  {
    if from == to then Ok([])
    else if to - from < w then Fail(BufferUnderflow)
    else if room == 0 then Fail(IndexOutOfBounds)
    else Join([dec(s[from..from + w])], ChunkOutcome(dec, w, s, from + w, to, room - 1))
  }

  /**
   * A chunk decodes exactly when it is whole elements that fit in the free
   * slots, and then stores its elements in order; otherwise a partial
   * element underflows the buffer, or the elements overrun the array.
   */
  lemma {:induction false} ChunkOutcomeCases(dec: seq<u8> -> int, w: nat, s: seq<u8>, from: nat, to: nat, room: nat)
    requires w >= 1 && from <= to <= |s|
    ensures var r := ChunkOutcome(dec, w, s, from, to, room);
      && (r.Ok? <==> Leftover(to - from, w) == 0 && Groups(to - from, w) <= room)
      && (r.Ok? ==> r.value == Elements(dec, w, s, from, to))
      && (r.Fail? && Groups(to - from, w) <= room ==> r.error == BufferUnderflow)
      && (r.Fail? && Groups(to - from, w) > room ==> r.error == IndexOutOfBounds)
    decreases |s| - from
  {
    if from < to && to - from >= w && room > 0 {
      ChunkOutcomeCases(dec, w, s, from + w, to, room - 1);
    }
  }

  function Min(a: int, b: int): int
  {
    if a < b then a else b
  }

  /**
   * The fill loop of `getData()` from stream position `at`, with `done`
   * elements stored: while the array is not full, read a chunk of up to
   * `chunk` bytes, stop on an empty one, otherwise decode it after `done`.
   */
  function Fill(dec: seq<u8> -> int, w: nat, s: seq<u8>, at: nat, chunk: nat, numVoxels: int, done: seq<int>): (r: Result<seq<int>>)
    requires w >= 1 && at <= |s|
    decreases |s| - at
  {
    if |done| >= numVoxels then Ok(done)
    else
      var k := Min(chunk, |s| - at);
      if k == 0 then Ok(done)
      else
        match ChunkOutcome(dec, w, s, at, at + k, numVoxels - |done|)
        case Fail(e) => Fail(e)
        case Ok(es) =>
          Fill(dec, w, s, at + k, chunk, numVoxels, done + es)
  }

  /** The fill keeps what was stored before it and never stores more than the array holds. */
  lemma {:induction false} FillWithin(dec: seq<u8> -> int, w: nat, s: seq<u8>, at: nat, chunk: nat, numVoxels: int, done: seq<int>)
    requires w >= 1 && at <= |s| && |done| <= numVoxels
    ensures var r := Fill(dec, w, s, at, chunk, numVoxels, done);
      r.Ok? ==> |done| <= |r.value| <= numVoxels && r.value[..|done|] == done
    decreases |s| - at
  {
    var k := Min(chunk, |s| - at);
    if |done| < numVoxels && k > 0 {
      var c := ChunkOutcome(dec, w, s, at, at + k, numVoxels - |done|);
      ChunkOutcomeCases(dec, w, s, at, at + k, numVoxels - |done|);
      if c.Ok? {
        FillWithin(dec, w, s, at + k, chunk, numVoxels, done + c.value);
        var r := Fill(dec, w, s, at + k, chunk, numVoxels, done + c.value);
        if r.Ok? {
          assert r.value[..|done|] == (r.value[..|done + c.value|])[..|done|];
        }
      }
    }
  }

  /** The chunk buffer `getData()` allocates holds bitpix * 1024 * 100 bytes. */
  const CHUNK_PER_BITPIX: int := 1024 * 100

  /**
   * `getData()` on the stream after the skip, for datatype `code`, the
   * header's bitpix and the outcome of counting the voxels: the chunk
   * buffer is allocated first, then the voxels are counted, then an unknown
   * datatype is an illegal argument, then the array is allocated (negative
   * sizes throw), and the slots the stream does not reach stay zero.
   */
  function DataSpec(code: int, bitpix: i16, stream: seq<u8>, order: ByteOrder, count: Result<i32>): Result<seq<int>>
  {
    var chunk := ToInt(bitpix * CHUNK_PER_BITPIX);
    if chunk < 0 then Fail(NegativeArraySize)
    else if count.Fail? then Fail(count.error)
    else if KindOf(code).Fail? then Fail(KindOf(code).error)
    else if count.value < 0 then Fail(NegativeArraySize)
    else
      match Fill(Decoder(code, order), Width(code), stream, 0, chunk, count.value, [])
      case Fail(e) => Fail(e)
      case Ok(d) =>
        FillWithin(Decoder(code, order), Width(code), stream, 0, chunk, count.value, []);
        Ok(d + Zeros(count.value - |d|))
  }

  /**
   * The inner loop of `getData()`: the elements of the chunk
   * `stream[at..end]` stored into `arr` from slot `i0` on. The result is the
   * first slot left free, or the exception the chunk throws.
   */
  method StoreElements(dec: seq<u8> -> int, w: nat, stream: seq<u8>, at: nat, end: nat, arr: array<int>, i0: nat)
    returns (r: Result<nat>)
    requires w >= 1 && at <= end <= |stream| && i0 <= arr.Length
    modifies arr
    ensures r.Fail? ==> ChunkOutcome(dec, w, stream, at, end, arr.Length - i0) == Fail(r.error)
    ensures r.Ok? ==> i0 <= r.value <= arr.Length && ChunkOutcome(dec, w, stream, at, end, arr.Length - i0) == Ok(arr[i0..r.value])
    ensures r.Ok? ==> arr[..i0] == old(arr[..i0]) && forall j :: r.value <= j < arr.Length ==> arr[j] == old(arr[j])
  {
    var pos, i := at, i0;
    assert arr[i0..i] == [];
    JoinNothing(ChunkOutcome(dec, w, stream, at, end, arr.Length - i0));
    while pos < end
      invariant i0 <= i <= arr.Length && at <= pos <= end
      invariant arr[..i0] == old(arr[..i0])
      invariant forall j :: i <= j < arr.Length ==> arr[j] == old(arr[j])
      invariant ChunkOutcome(dec, w, stream, at, end, arr.Length - i0)
             == Join(arr[i0..i], ChunkOutcome(dec, w, stream, pos, end, arr.Length - i))
      decreases end - pos
    {
      if pos + w > end {
        return Fail(BufferUnderflow);
      }
      if i >= arr.Length {
        return Fail(IndexOutOfBounds);
      }
      ghost var stored := arr[i0..i];
      var e := dec(stream[pos..pos + w]);
      ghost var rest := ChunkOutcome(dec, w, stream, pos + w, end, arr.Length - i - 1);
      ChunkStep(dec, w, stream, pos, end, arr.Length - i);
      JoinAppend(stored, e, rest);
      arr[i] := e;
      assert arr[i0..i + 1] == stored + [e];
      i := i + 1;
      pos := pos + w;
    }
    assert arr[i0..i] + [] == arr[i0..i];
    return Ok(i);
  }

  /**
   * One round of the outer loop of `getData()`: the chunk
   * `stream[at..end]` stored after the `i0` slots filled so far. The result
   * is the first slot left free, or the exception the chunk throws.
   */
  method StoreChunk(dec: seq<u8> -> int, w: nat, stream: seq<u8>, at: nat, end: nat, arr: array<int>, i0: nat, ghost chunk: nat)
    returns (r: Result<nat>)
    requires w >= 1 && at < end <= |stream| && i0 < arr.Length
    requires end == at + Min(chunk, |stream| - at)
    modifies arr
    ensures r.Fail? ==> Fill(dec, w, stream, at, chunk, arr.Length, old(arr[..i0])) == Fail(r.error)
    ensures r.Ok? ==> i0 <= r.value <= arr.Length
    ensures r.Ok? ==> Fill(dec, w, stream, at, chunk, arr.Length, old(arr[..i0])) == Fill(dec, w, stream, end, chunk, arr.Length, arr[..r.value])
    ensures r.Ok? ==> forall j :: r.value <= j < arr.Length ==> arr[j] == old(arr[j])
  {
    ghost var done := arr[..i0];
    FillStep(dec, w, stream, at, chunk, arr.Length, done);
    r := StoreElements(dec, w, stream, at, end, arr, i0);
    if r.Ok? {
      assert arr[..r.value] == done + arr[i0..r.value];
    }
  }

  /** A chunk with a whole element at its front and a free slot stores that element first. */
  lemma ChunkStep(dec: seq<u8> -> int, w: nat, s: seq<u8>, from: nat, to: nat, room: nat)
    requires w >= 1 && from + w <= to <= |s| && room >= 1
    ensures ChunkOutcome(dec, w, s, from, to, room) == Join([dec(s[from..from + w])], ChunkOutcome(dec, w, s, from + w, to, room - 1))
  {
  }

  /**
   * The outer loop of `getData()`: chunks of the stream stored into `arr`
   * until it is full or the stream is spent. The result is the number of
   * slots filled, or the exception a chunk throws.
   */
  method FillArray(dec: seq<u8> -> int, w: nat, stream: seq<u8>, chunk: nat, arr: array<int>) returns (r: Result<nat>)
    requires w >= 1
    modifies arr
    ensures r.Fail? ==> Fill(dec, w, stream, 0, chunk, arr.Length, []) == Fail(r.error)
    ensures r.Ok? ==> r.value <= arr.Length && Fill(dec, w, stream, 0, chunk, arr.Length, []) == Ok(arr[..r.value])
    ensures r.Ok? ==> forall j :: r.value <= j < arr.Length ==> arr[j] == old(arr[j])
  {
    ghost var target := Fill(dec, w, stream, 0, chunk, arr.Length, []);
    var at, i := 0, 0;
    assert arr[..i] == [];
    while i < arr.Length
      invariant 0 <= i <= arr.Length && 0 <= at <= |stream|
      invariant forall j :: i <= j < arr.Length ==> arr[j] == old(arr[j])
      invariant Fill(dec, w, stream, at, chunk, arr.Length, arr[..i]) == target
      decreases |stream| - at
    {
      var k := Min(chunk, |stream| - at);
      if k == 0 {
        break;
      }
      var step := StoreChunk(dec, w, stream, at, at + k, arr, i, chunk);
      if step.Fail? {
        return Fail(step.error);
      }
      i := step.value;
      at := at + k;
    }
    return Ok(i);
  }

  /**
   * The decoding part of `getData()`: the checks and allocations in the
   * order the source makes them, then the fill of a fresh array.
   */
  method DecodeStream(code: int, bitpix: i16, stream: seq<u8>, order: ByteOrder, count: Result<i32>) returns (r: Result<seq<int>>)
    ensures r == DataSpec(code, bitpix, stream, order, count)
  {
    var chunk := ToInt(bitpix * CHUNK_PER_BITPIX);
    if chunk < 0 {
      return Fail(NegativeArraySize);
    }
    if count.Fail? {
      return Fail(count.error);
    }
    var numVoxels := count.value;
    var kind := KindOf(code);
    if kind.Fail? {
      return Fail(kind.error);
    }
    if numVoxels < 0 {
      return Fail(NegativeArraySize);
    }
    var arr := new int[numVoxels](_ => 0);
    var filled := FillArray(Decoder(code, order), Width(code), stream, chunk, arr);
    if filled.Fail? {
      return Fail(filled.error);
    }
    ghost var d := arr[..filled.value];
    assert arr[..] == d + Zeros(numVoxels - filled.value) by {
      assert forall j :: filled.value <= j < arr.Length ==> arr[j] == 0;
    }
    return Ok(arr[..]);
  }

  /** One round of the fill: the chunk's exception, or the fill from the end of the chunk after its elements. */
  lemma FillStep(dec: seq<u8> -> int, w: nat, s: seq<u8>, at: nat, chunk: nat, numVoxels: int, done: seq<int>)
    requires w >= 1 && at <= |s| && |done| < numVoxels && Min(chunk, |s| - at) > 0
    ensures var k := Min(chunk, |s| - at);
      var c := ChunkOutcome(dec, w, s, at, at + k, numVoxels - |done|);
      Fill(dec, w, s, at, chunk, numVoxels, done) == if c.Fail? then Fail(c.error) else Fill(dec, w, s, at + k, chunk, numVoxels, done + c.value)
  {
  }

  /**
   * A stream of whole elements, no more than the array holds, read in chunks
   * that are a multiple of the element width, fills the array with its
   * elements in order.
   */
  lemma {:induction false} FillWhole(dec: seq<u8> -> int, w: nat, s: seq<u8>, at: nat, chunk: nat, numVoxels: int, done: seq<int>)
    requires w >= 1 && at <= |s| && chunk > 0 && Leftover(chunk, w) == 0
    requires Leftover(|s| - at, w) == 0 && |done| + Groups(|s| - at, w) <= numVoxels
    ensures Fill(dec, w, s, at, chunk, numVoxels, done) == Ok(done + Elements(dec, w, s, at, |s|))
    decreases |s| - at
  {
    if at == |s| {
      assert done + Elements(dec, w, s, at, |s|) == done;
    } else {
      var k := Min(chunk, |s| - at);
      var front, back := Elements(dec, w, s, at, at + k), Elements(dec, w, s, at + k, |s|);
      WholeChunk(dec, w, s, at, k, chunk, numVoxels, done);
      FillWhole(dec, w, s, at + k, chunk, numVoxels, done + front);
      AppendAssoc(done, front, back);
    }
  }

  /**
   * One round of `FillWhole`: a whole chunk `s[at..at + k]` is stored, what
   * follows is whole elements that fit, and the elements split there.
   */
  lemma WholeChunk(dec: seq<u8> -> int, w: nat, s: seq<u8>, at: nat, k: nat, chunk: nat, numVoxels: int, done: seq<int>)
    requires w >= 1 && at < |s| && chunk > 0 && Leftover(chunk, w) == 0 && k == Min(chunk, |s| - at)
    requires Leftover(|s| - at, w) == 0 && |done| + Groups(|s| - at, w) <= numVoxels
    ensures Leftover(|s| - (at + k), w) == 0
    ensures |done + Elements(dec, w, s, at, at + k)| + Groups(|s| - (at + k), w) <= numVoxels
    ensures Fill(dec, w, s, at, chunk, numVoxels, done) == Fill(dec, w, s, at + k, chunk, numVoxels, done + Elements(dec, w, s, at, at + k))
    ensures Elements(dec, w, s, at, |s|) == Elements(dec, w, s, at, at + k) + Elements(dec, w, s, at + k, |s|)
  {
    assert Leftover(k, w) == 0;
    GroupsSplit(|s| - at, k, w);
    var c := ChunkOutcome(dec, w, s, at, at + k, numVoxels - |done|);
    assert c == Ok(Elements(dec, w, s, at, at + k)) by {
      ChunkOutcomeCases(dec, w, s, at, at + k, numVoxels - |done|);
    }
    FillStep(dec, w, s, at, chunk, numVoxels, done);
    ElementsSplit(dec, w, s, at, at + k, |s|);
  }

  /**
   * A file written with the datatype's own bitpix and holding whole
   * elements for at most the declared voxel count decodes to its elements
   * in order, followed by zeros for the voxels it lacks.
   */
  lemma DataDecodes(code: int, stream: seq<u8>, order: ByteOrder, numVoxels: i32)
    requires KindOf(code).Ok?
    requires |stream| % Width(code) == 0 && |stream| / Width(code) <= numVoxels
    ensures BitpixOf(code) == Some(8 * Width(code))
    ensures DataSpec(code, 8 * Width(code), stream, order, Ok(numVoxels))
         == Ok(Voxels(code, stream, order) + Zeros(numVoxels - |stream| / Width(code)))
  {
    ReadWidthIsBitpix(code);
    var w := Width(code);
    var dec := Decoder(code, order);
    var chunk := 8 * w * CHUNK_PER_BITPIX;
    assert ToInt(chunk) == chunk && chunk > 0 && Leftover(chunk, w) == 0 by {
      ModUnique(chunk, w, 8 * CHUNK_PER_BITPIX, 0);
      GroupsDivide(chunk, w);
    }
    assert Leftover(|stream|, w) == 0 && Groups(|stream|, w) <= numVoxels by {
      GroupsDivide(|stream|, w);
    }
    FillAll(dec, w, stream, chunk, numVoxels);
    assert Voxels(code, stream, order) == Elements(dec, w, stream, 0, |stream|);
  }

  /** `FillWhole` from the start of the stream with nothing stored yet. */
  lemma FillAll(dec: seq<u8> -> int, w: nat, s: seq<u8>, chunk: nat, numVoxels: int)
    requires w >= 1 && chunk > 0 && Leftover(chunk, w) == 0
    requires Leftover(|s|, w) == 0 && Groups(|s|, w) <= numVoxels
    ensures Fill(dec, w, s, 0, chunk, numVoxels, []) == Ok(Elements(dec, w, s, 0, |s|))
  {
    FillWhole(dec, w, s, 0, chunk, numVoxels, []);
    assert [] + Elements(dec, w, s, 0, |s|) == Elements(dec, w, s, 0, |s|);
  }

  /**
   * More whole elements than the array holds, all within the first chunk,
   * run off the end of the array.
   */
  lemma DataOverflows(code: int, stream: seq<u8>, order: ByteOrder, numVoxels: i32)
    requires KindOf(code).Ok? && 0 < numVoxels < |stream| / Width(code)
    requires |stream| <= 8 * Width(code) * CHUNK_PER_BITPIX
    ensures DataSpec(code, 8 * Width(code), stream, order, Ok(numVoxels)) == Fail(IndexOutOfBounds)
  {
    var w := Width(code);
    assert ToInt(8 * w * CHUNK_PER_BITPIX) == 8 * w * CHUNK_PER_BITPIX;
    GroupsDivide(|stream|, w);
    ChunkOutcomeCases(Decoder(code, order), w, stream, 0, |stream|, numVoxels);
  }

  // ---------------------------------------------------------------------
  // Reading a chunk

  /** An input stream: the bytes not yet delivered, at most `block` per read. */
  class InputStream {
    var rest: seq<u8>
    const block: nat

    constructor(bytes: seq<u8>, block: nat)
      requires block >= 1
      ensures rest == bytes && this.block == block
    {
      rest := bytes;
      this.block := block;
    }

    /**
     * `read(buf, off, len)`: 0 for an empty request, -1 at the end of the
     * stream, otherwise between 1 and `len` bytes copied into `buf` at `off`.
     */
    method Read(buf: array<u8>, off: nat, len: nat) returns (n: int)
      requires block >= 1 && off + len <= buf.Length
      modifies this, buf
      ensures len == 0 ==> n == 0
      ensures len > 0 && old(rest) == [] ==> n == -1
      ensures len > 0 && old(rest) != [] ==> n == Min(Min(len, |old(rest)|), block) && n >= 1
      ensures n >= 0 ==> rest == old(rest)[n..] && buf[off..off + n] == old(rest)[..n]
      ensures n < 0 ==> rest == old(rest)
      ensures forall j :: 0 <= j < buf.Length && !(off <= j < off + (if n > 0 then n else 0)) ==> buf[j] == old(buf[j])
    {
      if len == 0 {
        return 0;
      }
      if rest == [] {
        return -1;
      }
      n := Min(Min(len, |rest|), block);
      forall j | 0 <= j < n {
        buf[off + j] := rest[j];
      }
      rest := rest[n..];
    }
  }

  /**
   * `readChunk(stream, buf)`: reads until the buffer is full or the stream
   * ends, so fewer bytes than the buffer holds means the stream is exhausted.
   */
  method ReadChunk(stream: InputStream, buf: array<u8>) returns (len: int)
    requires stream.block >= 1
    modifies stream, buf
    ensures len == Min(buf.Length, |old(stream.rest)|)
    ensures buf[..len] == old(stream.rest)[..len]
    ensures stream.rest == old(stream.rest)[len..]
    ensures len < buf.Length ==> stream.rest == []
    ensures forall j :: len <= j < buf.Length ==> buf[j] == old(buf[j])
  {
    ghost var all := stream.rest;
    len := 0;
    while len < buf.Length
      invariant 0 <= len <= buf.Length && len <= |all|
      invariant buf[..len] == all[..len] && stream.rest == all[len..]
      invariant forall j :: len <= j < buf.Length ==> buf[j] == old(buf[j])
      invariant stream.block >= 1
      decreases buf.Length - len
    {
      var read := stream.Read(buf, len, buf.Length - len);
      if read < 0 {
        return len;
      }
      assert buf[..len + read] == all[..len + read] by {
        assert buf[len..len + read] == all[len..len + read];
        assert forall j :: 0 <= j < len ==> buf[j] == all[j];
      }
      len := len + read;
    }
  }

  // ---------------------------------------------------------------------
  // The file object

  /** `getBitpix()` */
  function Bitpix(h: seq<u8>, order: ByteOrder): i16
    requires |h| >= HEADER_SIZE
  {
    GetShort(h, BITPIX_AT, order)
  }

  /** `getImageStream()`: the image file's bytes after the skip; skipping past the end leaves nothing. */
  function ImageStream(h: seq<u8>, order: ByteOrder, singleFile: bool, file: seq<u8>): (s: seq<u8>)
    requires |h| >= HEADER_SIZE
    ensures s == file[Min(SkipOffset(FloatToInt(Decode(h[VOX_OFFSET_AT..VOX_OFFSET_AT + 4], order)), singleFile), |file|)..]
  {
    var skip := SkipOffset(FloatToInt(Decode(h[VOX_OFFSET_AT..VOX_OFFSET_AT + 4], order)), singleFile);
    file[Min(skip, |file|)..]
  }

  /**
   * The 32 bytes `sample` reads after skipping `offset` bytes of the image
   * file: a skip of zero or less skips nothing, a skip past the end leaves
   * nothing to read, and the bytes the file does not supply stay 0.
   */
  function SampleWindow(file: seq<u8>, offset: int): (b: seq<u8>)
    ensures |b| == SAMPLE_BYTES
    ensures 0 <= offset && offset + SAMPLE_BYTES <= |file| ==> b == file[offset..offset + SAMPLE_BYTES]
    ensures forall k :: 0 <= k < SAMPLE_BYTES && !(0 <= (if offset < 0 then 0 else offset) + k < |file|) ==> b[k] == 0
  {
    var from := Min(if offset < 0 then 0 else offset, |file|);
    var got := file[from..][..Min(SAMPLE_BYTES, |file| - from)];
    got + seq(SAMPLE_BYTES - |got|, _ => 0)
  }

  const SAMPLE_BYTES: nat := 32

  /**
   * The uncached branch of `sample`: the voxel's offset into the image
   * file (`SampleOffset`, with `(int) getVoxOffset()`), the 32-byte window
   * there, and `readNext` on it in the header's byte order.
   */
  function SampleRead(code: int, h: seq<u8>, order: ByteOrder, singleFile: bool, file: seq<u8>, index: int): (r: Result<int>)
    requires |h| >= HEADER_SIZE
    ensures r.Fail? <==> ReadWidth(code).None?
    ensures r.Fail? ==> r.error == IllegalArgument
  {
    var voxOffset := FloatToInt(Decode(h[VOX_OFFSET_AT..VOX_OFFSET_AT + 4], order));
    var window := SampleWindow(file, SampleOffset(ToInt(index), Bitpix(h, order), voxOffset, singleFile));
    match ReadNextValue(code, window, 0, order)
    case Fail(e) => Fail(e)
    case Ok(rd) => Ok(rd.value)
  }

  /**
   * In a single file with a sound vox_offset, whole-byte voxels of `w` bytes
   * and a voxel the image holds (at byte `at == index * w` of the image), the
   * window `sample` reads starts with exactly the bytes the bulk reader
   * decodes for that voxel.
   */
  lemma SampleWindowIsVoxel(h: seq<u8>, order: ByteOrder, file: seq<u8>, index: i32, w: nat, at: nat)
    requires |h| >= HEADER_SIZE && 1 <= w <= 8 && Bitpix(h, order) == 8 * w
    requires FloatToInt(Decode(h[VOX_OFFSET_AT..VOX_OFFSET_AT + 4], order)) >= HEADER_SIZE
    requires index >= 0 && index * Bitpix(h, order) + 8 * FloatToInt(Decode(h[VOX_OFFSET_AT..VOX_OFFSET_AT + 4], order)) <= INT_MAX
    requires at == index * w && at + w <= |ImageStream(h, order, true, file)|
    ensures var off := SampleOffset(index, Bitpix(h, order), FloatToInt(Decode(h[VOX_OFFSET_AT..VOX_OFFSET_AT + 4], order)), true);
      off >= 0 && SampleWindow(file, off)[..w] == ImageStream(h, order, true, file)[at..at + w]
  {
    var voxOffset := FloatToInt(Decode(h[VOX_OFFSET_AT..VOX_OFFSET_AT + 4], order));
    SampleOffsetBytes(index, Bitpix(h, order), voxOffset, w);
    WindowAt(file, voxOffset, at, w);
  }

  /** With whole-byte voxels of `w` bytes, the single-voxel offset is the voxel's byte position after the skip. */
  lemma SampleOffsetBytes(index: i32, bitpix: i16, voxOffset: i32, w: nat)
    requires 1 <= w <= 8 && bitpix == 8 * w && voxOffset >= HEADER_SIZE
    requires index >= 0 && index * bitpix + 8 * voxOffset <= INT_MAX
    ensures SampleOffset(index, bitpix, voxOffset, true) == voxOffset + index * w
  {
    SampleOffsetAgrees(index, bitpix, voxOffset);
    assert BytesPerVoxel(bitpix) == w;
  }

  /** The window after `skip + p` bytes starts with bytes `p` to `p + w` of the file after `skip`. */
  lemma WindowAt(file: seq<u8>, skip: int, p: int, w: nat)
    requires 0 <= skip && 0 <= p && 1 <= w <= SAMPLE_BYTES && p + w <= |file[Min(skip, |file|)..]|
    ensures SampleWindow(file, skip + p)[..w] == file[Min(skip, |file|)..][p..p + w]
  {
    var off := skip + p;
    assert off + w <= |file|;
    var got := file[off..][..Min(SAMPLE_BYTES, |file| - off)];
    assert SampleWindow(file, off)[..w] == got[..w] == file[off..off + w];
    assert file[skip..][p..p + w] == file[off..off + w];
  }

  /** `getNumVoxels()` as a value: the wrapped product, or the exception for dim[0] > 7. */
  function NumVoxels(dim: seq<i16>): Result<i32>
    requires |dim| == 8
  {
    if dim[0] > 7 then Fail(IndexOutOfBounds)
    else Ok(WrappedProduct(dim, if dim[0] < 0 then 0 else dim[0]))
  }

  class NiftiFile {
    const header: AnalyzeNiftiSpmHeader
    const ext: Extents
    /** The decoded image, once `getData()` has run. */
    var data: Option<seq<int>>

    ghost predicate Valid()
      reads this, header
    {
      header.Valid()
    }

    /** `NiftiFile(hdr, img)`: the extents come from the header's dim. */
    constructor(h: AnalyzeNiftiSpmHeader)
      requires h.Valid()
      ensures Valid() && header == h && ext == ExtentsOf(h.Dim()) && data == None
    {
      header := h;
      ext := ExtentsOf(h.Dim());
      data := None;
    }

    /**
     * `getIndex(x, y, z, t, i5)`: -1 outside the extents, otherwise the
     * voxel's row-major position, which lies below the voxel count.
     */
    function GetIndex(c: Coord): (r: int)
      ensures r == -1 <==> !InRange(ext, c)
      ensures InRange(ext, c) ==> 0 <= r < Size(ext) && r == Offset(ext, c)
    {
      VolumeIndex.GetIndex(ext, c)
    }

    /**
     * `sample(x, y, z, t, i5)`: 0 outside the volume. With the data cached,
     * the cached element, out of bounds past its end; otherwise one value is
     * read straight from the image file through `SampleRead`, with the
     * datatype `getDatatype()` gives.
     */
    method Sample(c: Coord, file: seq<u8>) returns (r: Result<int>)
      requires Valid()
      modifies header
      ensures Valid() && header.header == old(header.header) && header.order == old(header.order)
      ensures header.niiFile == old(header.niiFile) && header.CacheCoherent() == old(header.CacheCoherent())
      ensures !InRange(ext, c) ==> r == Ok(0)
      ensures InRange(ext, c) && data.Some? ==> (r.Ok? <==> Offset(ext, c) < |data.value|)
      ensures InRange(ext, c) && data.Some? && r.Ok? ==> r.value == data.value[Offset(ext, c)]
      ensures InRange(ext, c) && data.Some? && r.Fail? ==> r.error == IndexOutOfBounds
      ensures InRange(ext, c) && data.None? ==> r == SampleRead(header.dt, header.header, header.order, header.niiFile, file, Offset(ext, c))
      ensures InRange(ext, c) && data.None? && old(header.CacheCoherent()) ==>
                r == SampleRead(DatatypeField(header.header, header.order), header.header, header.order, header.niiFile, file, Offset(ext, c))
    {
      var index := GetIndex(c);
      if index < 0 {
        return Ok(0);
      }
      if data.Some? {
        if index >= |data.value| {
          return Fail(IndexOutOfBounds);
        }
        return Ok(data.value[index]);
      }
      var d := header.GetDatatype();
      r := SampleRead(d, header.header, header.order, header.niiFile, file, index);
    }

    /**
     * `getData()` on the bytes of the image file: skip to the data, count
     * the voxels, decode, and cache the decoded array.
     */
    method GetData(file: seq<u8>) returns (r: Result<seq<int>>)
      requires Valid()
      modifies this, header
      ensures Valid() && header.header == old(header.header) && header.order == old(header.order)
      ensures header.niiFile == old(header.niiFile)
      ensures header.CacheCoherent() == old(header.CacheCoherent())
      ensures r == DataSpec(header.dt, Bitpix(header.header, header.order), ImageStream(header.header, header.order, header.niiFile, file),
                            header.order, NumVoxels(header.Dim()))
      ensures old(header.CacheCoherent()) ==>
                r == DataSpec(DatatypeField(header.header, header.order), Bitpix(header.header, header.order),
                              ImageStream(header.header, header.order, header.niiFile, file), header.order, NumVoxels(header.Dim()))
      ensures data == (if r.Ok? then Some(r.value) else old(data))
    {
      var stream := ImageStream(header.header, header.order, header.niiFile, file);
      var bitpix := Bitpix(header.header, header.order);
      var chunk := ToInt(bitpix * CHUNK_PER_BITPIX);
      if chunk < 0 {
        return Fail(NegativeArraySize);
      }
      var count := GetNumVoxels(header.Dim());
      var code := header.GetDatatype();
      r := DecodeStream(code, bitpix, stream, header.order, count);
      if r.Ok? {
        data := Some(r.value);
      }
    }
  }
}
