// The Analyze 7.5 / NIFTI-1 header: a 348-byte record (352 bytes with the
// NIFTI extension flag word) at fixed offsets in a byte buffer. The byte
// order is found from dim[0], the NIFTI version and the single-file layout
// from the magic at 344. Setters write into the buffer in place; floats are
// kept as their 32-bit patterns.

module NiftiHeaders {
  import opened Java
  import opened ByteBuffers
  import opened Ieee
  import Colors

  /** Byte offsets of the fields the model touches. */
  const SIZEOF_HDR_AT := 0
  const DIM_AT := 40
  const DATATYPE_AT := 70
  const BITPIX_AT := 72
  const PIXDIM_AT := 76
  const VOX_OFFSET_AT := 108
  const QFORM_CODE_AT := 252
  const ORIGIN_AT := 253
  const SFORM_CODE_AT := 254
  const SROW_AT := 280
  const MAGIC_AT := 344
  /** The first byte after the header proper: the extension flag. */
  const HEADER_SIZE := 348
  /** The header with its extension flag word, as written. */
  const BLANK_SIZE := 352

  /** The NIFTI datatype codes. */
  const DT_NONE := 0
  const DT_BINARY := 1
  const DT_UINT8 := 2
  const DT_INT16 := 4
  const DT_INT32 := 8
  const DT_FLOAT32 := 16
  const DT_COMPLEX64 := 32
  const DT_FLOAT64 := 64
  const DT_RGB24 := 128
  const DT_INT8 := 256
  const DT_UINT16 := 512
  const DT_UINT32 := 768
  const DT_INT64 := 1024
  const DT_UINT64 := 1280
  const DT_FLOAT128 := 1536
  const DT_COMPLEX128 := 1792
  const DT_COMPLEX256 := 2048

  const NIFTI_XFORM_SCANNER_ANAT := 1

  /** "n+1\0" and "ni1\0". */
  const MAGIC_SINGLE: seq<u8> := [0x6e, 0x2b, 0x31, 0]
  const MAGIC_PAIR: seq<u8> := [0x6e, 0x69, 0x31, 0]

  function Magic(singleFile: bool): (m: seq<u8>)
    ensures |m| == 4
  {
    if singleFile then MAGIC_SINGLE else MAGIC_PAIR
  }

  // ---------------------------------------------------------------------
  // Detection

  /**
   * dim[0] read little-endian: a value outside 0..7 means the header was
   * written big-endian.
   */
  function OrderOf(b: seq<u8>): ByteOrder
    requires |b| >= DIM_AT + 2
  {
    var d := GetShort(b, DIM_AT, LittleEndian);
    if d < 0 || d > 7 then BigEndian else LittleEndian
  }

  /** A dim[0] of 1..7 written in either byte order is read back in that order. */
  lemma OrderOfWritten(b: seq<u8>, d: int, order: ByteOrder)
    requires |b| >= DIM_AT + 2 && 1 <= d <= 7
    ensures OrderOf(PutShort(b, DIM_AT, d, order)) == order
  {
    var r := PutShort(b, DIM_AT, d, order);
    var w := Encode(d, 2, order);
    assert r[DIM_AT..DIM_AT + 2] == w by {
      PutSlice(b, DIM_AT, w, 0, 2);
      assert w[0..2] == w;
    }
    SmallLittleBytes(d);
    if order == BigEndian {
      assert w == [0, d];
      LittleValueTwo(0, d);
    } else {
      LittleValueTwo(d, 0);
    }
  }

  /** A byte value as two little-endian bytes is itself then 0. */
  lemma SmallLittleBytes(d: int)
    requires 0 <= d < 256
    ensures LittleBytes(d, 2) == [d, 0]
  {
    assert LittleBytes(d / 256, 1) == [0];
  }

  /** Two little-endian bytes are the number `x + 256 * y`. */
  lemma LittleValueTwo(x: u8, y: u8)
    ensures LittleValue([x, y]) == x + 256 * y
  {
    assert [x, y][1..] == [y];
    assert LittleValue([y]) == y by {
      assert [y][1..] == [];
    }
  }

  /** The NIFTI magic: 'n', then '+' or 'i', then the version, then NUL. */
  predicate NiftiMagic(m: seq<u8>)
    requires |m| == 4
  {
    m[0] == 0x6e && m[3] == 0 && (m[1] == 0x2b || m[1] == 0x69)
  }

  /** `Integer.parseInt` of a one-character string. */
  function ParseDigit(c: u8): (r: Result<int>)
    ensures r.Ok? <==> 0x30 <= c <= 0x39
    ensures r.Ok? ==> 0 <= r.value <= 9 && c == 0x30 + r.value
    ensures r.Fail? ==> r.error == NumberFormat
  {
    if 0x30 <= c <= 0x39 then Ok(c - 0x30) else Fail(NumberFormat)
  }

  /** What the constructor finds: byte order, NIFTI version (0 if not NIFTI) and single-file layout. */
  datatype Detected = Detected(order: ByteOrder, niftiVersion: int, niiFile: bool)

  /**
   * The detection done by `AnalyzeNiftiSpmHeader(header, 0, spm, file)`. A
   * buffer too short for dim[0] throws in `getShort`; one too short for the
   * magic throws when positioned at 344 (past its limit) or when the four
   * bytes are read; a NIFTI magic whose version character is not a digit
   * throws NumberFormat.
   */
  function Detect(b: seq<u8>): (r: Result<Detected>)
    ensures |b| < DIM_AT + 2 ==> r == Fail(IndexOutOfBounds)
    ensures DIM_AT + 2 <= |b| < MAGIC_AT ==> r == Fail(IllegalArgument)
    ensures MAGIC_AT <= |b| < HEADER_SIZE ==> r == Fail(BufferUnderflow)
    ensures |b| >= HEADER_SIZE ==>
      var m := b[MAGIC_AT..MAGIC_AT + 4];
      && (r.Fail? <==> NiftiMagic(m) && !(0x30 <= m[2] <= 0x39))
      && (r.Fail? ==> r.error == NumberFormat)
      && (r.Ok? ==> r.value.order == OrderOf(b))
      && (r.Ok? ==> (r.value.niiFile <==> NiftiMagic(m) && m[1] == 0x2b))
      && (r.Ok? && NiftiMagic(m) ==> m[2] == 0x30 + r.value.niftiVersion)
      && (r.Ok? && !NiftiMagic(m) ==> r.value.niftiVersion == 0)
  {
    if |b| < DIM_AT + 2 then Fail(IndexOutOfBounds)
    else if |b| < MAGIC_AT then Fail(IllegalArgument)
    else if |b| < HEADER_SIZE then Fail(BufferUnderflow)
    else
      var m := b[MAGIC_AT..MAGIC_AT + 4];
      if NiftiMagic(m) then
        match ParseDigit(m[2])
        case Fail(e) => Fail(e)
        case Ok(v) => Ok(Detected(OrderOf(b), v, m[1] == 0x2b))
      else Ok(Detected(OrderOf(b), 0, false))
  }

  /** The magic `setMagic` writes is detected as NIFTI version 1, in the layout it names. */
  lemma DetectMagic(b: seq<u8>, singleFile: bool)
    requires |b| >= HEADER_SIZE
    ensures Detect(Put(b, MAGIC_AT, Magic(singleFile))) == Ok(Detected(OrderOf(b), 1, singleFile))
  {
    var r := Put(b, MAGIC_AT, Magic(singleFile));
    assert r[DIM_AT..DIM_AT + 2] == b[DIM_AT..DIM_AT + 2];
  }

  // ---------------------------------------------------------------------
  // Field tables

  /** The bitpix `setDatatype` records for a datatype code; None for a code it does not know. */
  function BitpixOf(code: int): Option<int>
  {
    if code == DT_NONE then Some(0)
    else if code == DT_BINARY then Some(1)
    else if code == DT_UINT8 || code == DT_INT8 then Some(8)
    else if code == DT_INT16 || code == DT_UINT16 then Some(16)
    else if code == DT_INT32 || code == DT_FLOAT32 || code == DT_UINT32 then Some(32)
    else if code == DT_COMPLEX64 || code == DT_FLOAT64 || code == DT_INT64 || code == DT_UINT64 then Some(64)
    else if code == DT_RGB24 then Some(24)
    else if code == DT_FLOAT128 || code == DT_COMPLEX128 then Some(128)
    else if code == DT_COMPLEX256 then Some(256)
    else None
  }

  /**
   * The known codes are exactly 0, 1 and the powers of two and their
   * multiples the NIFTI standard lists; every known bitpix is 0, 1 or a
   * whole number of bytes.
   */
  lemma BitpixKnown(code: int)
    ensures BitpixOf(code).Some? <==> code in {0, 1, 2, 4, 8, 16, 32, 64, 128, 256, 512, 768, 1024, 1280, 1536, 1792, 2048}
    ensures BitpixOf(code).Some? && code > 1 ==> BitpixOf(code).value % 8 == 0 && BitpixOf(code).value >= 8
  {
  }

  /** The 8 entries of dim: the given ones, then zeros. */
  function Padded(dim: seq<int>): (p: seq<int>)
    requires |dim| <= 8
    ensures |p| == 8
    ensures forall k :: 0 <= k < 8 ==> p[k] == if k < |dim| then dim[k] else 0
  {
    dim + seq(8 - |dim|, _ => 0)
  }

  /** The 8 shorts of dim, from offset 40. */
  function DimOf(b: seq<u8>, order: ByteOrder): (d: seq<i16>)
    requires |b| >= DIM_AT + 16
    ensures |d| == 8
  {
    seq(8, k requires 0 <= k < 8 => GetShort(b, DIM_AT + 2 * k, order))
  }

  /** The dim written by a run of 8 shorts reads back as those shorts. */
  lemma DimOfPut(b: seq<u8>, order: ByteOrder, dim: seq<i16>)
    requires |b| >= DIM_AT + 16 && |dim| <= 8
    ensures DimOf(Put(b, DIM_AT, ShortBytes(Padded(dim), order)), order) == Padded(dim)
  {
    var p := Padded(dim);
    var d := DimOf(Put(b, DIM_AT, ShortBytes(p, order)), order);
    assert d == p by {
      forall k | 0 <= k < 8
        ensures d[k] == p[k]
      {
        GetShortOfRun(b, DIM_AT, p, order, k);
      }
    }
  }

  // ---------------------------------------------------------------------
  // Extension records and the writer

  /** `getLength16(len)`: `len` rounded up to a multiple of 16. */
  function Length16(len: int): (r: int)
  {
    if Rem(len, 16) == 0 then len else 16 * (Div(len, 16) + 1)
  }

  /** For a non-negative length, `getLength16` is the least multiple of 16 at or above it. */
  lemma Length16Least(len: int)
    requires len >= 0
    ensures Length16(len) % 16 == 0 && len <= Length16(len) < len + 16
    ensures forall m :: m % 16 == 0 && m >= len ==> m >= Length16(len)
  {
    DivRemNonNegative(len, 16);
  }

  /** A padded length is a multiple of 16 that adds fewer than 16 bytes. */
  lemma Length16Bounds(len: int)
    requires len >= 0
    ensures Length16(len) % 16 == 0 && len <= Length16(len) < len + 16
  {
    DivRemNonNegative(len, 16);
  }

  /**
   * One extension record as `write` emits it: its padded length and a zero
   * code (both as 4-byte ints in the header's byte order), the payload, then
   * zeros up to the padded length.
   */
  function Record(e: seq<u8>, order: ByteOrder): (r: seq<u8>)
    ensures |r| == Length16(8 + |e|)
  {
    Length16Least(8 + |e|);
    var len := Length16(8 + |e|);
    Encode(len, 4, order) + Encode(0, 4, order) + e + seq(len - 8 - |e|, _ => 0)
  }

  /** The padded lengths of the records, added up. */
  function RecordsLength(ext: seq<seq<u8>>): int
  {
    if |ext| == 0 then 0 else RecordsLength(ext[..|ext| - 1]) + Length16(8 + |ext[|ext| - 1]|)
  }

  function Records(ext: seq<seq<u8>>, order: ByteOrder): seq<u8>
  {
    if |ext| == 0 then [] else Records(ext[..|ext| - 1], order) + Record(ext[|ext| - 1], order)
  }

  /**
   * A record starts with its padded length (cut to an int) and the code 0,
   * carries the payload at 8 and is zero after it; its length is a multiple
   * of 16 with fewer than 16 bytes of padding.
   */
  lemma RecordLayout(e: seq<u8>, order: ByteOrder)
    ensures var r := Record(e, order);
      && |r| % 16 == 0 && 8 + |e| <= |r| < 8 + |e| + 16
      && Decode(r[..4], order) == Length16(8 + |e|) % 0x1_0000_0000
      && Decode(r[4..8], order) == 0
      && r[8..8 + |e|] == e
      && forall i :: 8 + |e| <= i < |r| ==> r[i] == 0
  {
    Length16Least(8 + |e|);
    var len := Length16(8 + |e|);
    var head := Encode(len, 4, order);
    var code := Encode(0, 4, order);
    var pad: seq<u8> := seq(len - 8 - |e|, _ => 0);
    assert Record(e, order) == head + code + e + pad;
    FourPieces(head, code, e, pad);
    HeadWords(len, order);
  }

  /** The pieces of `a + b + c + d` sit one after another. */
  lemma FourPieces(a: seq<u8>, b: seq<u8>, c: seq<u8>, d: seq<u8>)
    requires |a| == 4 && |b| == 4
    ensures var r := a + b + c + d;
      && r[..4] == a && r[4..8] == b && r[8..8 + |c|] == c
      && forall i :: 8 + |c| <= i < |r| ==> r[i] == d[i - 8 - |c|]
  {
  }

  /** The length word and the zero code of a record decode to the length cut to 32 bits and to 0. */
  lemma HeadWords(len: int, order: ByteOrder)
    ensures Decode(Encode(len, 4, order), order) == len % 0x1_0000_0000
    ensures Decode(Encode(0, 4, order), order) == 0
  {
    DecodeEncode(len, 4, order);
    DecodeEncode(0, 4, order);
    assert Pow256(4) == 0x1_0000_0000;
  }

  /** The records take exactly their padded lengths, each a multiple of 16. */
  lemma {:induction false} RecordsLayout(ext: seq<seq<u8>>, order: ByteOrder)
    ensures |Records(ext, order)| == RecordsLength(ext)
    ensures RecordsLength(ext) % 16 == 0 && RecordsLength(ext) >= 8 * |ext|
  {
    RecordsLengthBounds(ext);
    if |ext| > 0 {
      var k := |ext| - 1;
      RecordsLayout(ext[..k], order);
      assert |Records(ext, order)| == |Records(ext[..k], order)| + |Record(ext[k], order)|;
    }
  }

  /** The padded lengths add up to a multiple of 16, at least 8 bytes per record. */
  lemma {:induction false} RecordsLengthBounds(ext: seq<seq<u8>>)
    ensures RecordsLength(ext) % 16 == 0 && RecordsLength(ext) >= 8 * |ext|
  {
    if |ext| > 0 {
      var k := |ext| - 1;
      RecordsLengthBounds(ext[..k]);
      Length16Bounds(8 + |ext[k]|);
      SumOfMultiples(RecordsLength(ext[..k]), Length16(8 + |ext[k]|));
    }
  }

  lemma SumOfMultiples(a: int, b: int)
    requires a % 16 == 0 && b % 16 == 0
    ensures (a + b) % 16 == 0
  {
    assert a == 16 * (a / 16) && b == 16 * (b / 16);
    assert a + b == 16 * (a / 16 + b / 16);
  }

  /**
   * The 352 header bytes `write` emits: as many of the buffer's bytes as it
   * has, zeros after them.
   */
  function Image(h: seq<u8>): (r: seq<u8>)
    ensures |r| == BLANK_SIZE
  {
    if |h| >= BLANK_SIZE then h[..BLANK_SIZE] else h + seq(BLANK_SIZE - |h|, _ => 0)
  }

  // ---------------------------------------------------------------------
  // The blank header

  /** The srow_x, srow_y and srow_z rows of the identity, as float patterns. */
  const IDENTITY_ROWS: seq<int> := [FLOAT_ONE, 0, 0, 0, 0, FLOAT_ONE, 0, 0, 0, 0, FLOAT_ONE, 0]
  /** pixdim {1, 0, 0, 0, 0, 0, 0, 0}, as float patterns. */
  const BLANK_PIXDIM: seq<int> := [FLOAT_ONE, 0, 0, 0, 0, 0, 0, 0]

  /** The pattern of the float vox_offset a blank header gets. */
  function BlankVoxOffset(singleFile: bool): int
  {
    if singleFile then FloatBitsOfInt(BLANK_SIZE) else FloatBitsOfInt(0)
  }

  /**
   * The puts of `resetBuffer(endian, singleFile)`, in order: the magic,
   * sizeof_hdr 348, vox_offset, the identity sform rows, sform_code 1 and
   * pixdim.
   */
  function BlankWrites(order: ByteOrder, singleFile: bool): (ws: seq<Write>)
    ensures |ws| == 6 && Fits(ws, BLANK_SIZE)
    ensures forall j :: 0 <= j < 6 ==> ws[j].at == BLANK_SPANS[j].0 && |ws[j].bytes| == BLANK_SPANS[j].1
  {
    [ Write(MAGIC_AT, Magic(singleFile)),
      Write(SIZEOF_HDR_AT, Encode(HEADER_SIZE, 4, order)),
      Write(VOX_OFFSET_AT, Encode(BlankVoxOffset(singleFile), 4, order)),
      Write(SROW_AT, IntBytes(IDENTITY_ROWS, order)),
      Write(SFORM_CODE_AT, Encode(NIFTI_XFORM_SCANNER_ANAT, 2, order)),
      Write(PIXDIM_AT, IntBytes(BLANK_PIXDIM, order)) ]
  }

  /** Where each put of `resetBuffer` starts and how many bytes it writes. */
  const BLANK_SPANS: seq<(nat, nat)> :=
    [(MAGIC_AT, 4), (SIZEOF_HDR_AT, 4), (VOX_OFFSET_AT, 4), (SROW_AT, 48), (SFORM_CODE_AT, 2), (PIXDIM_AT, 32)]

  /** The bytes `resetBuffer(endian, singleFile)` leaves: its puts done on 352 zero bytes. */
  function BlankBuffer(order: ByteOrder, singleFile: bool): (r: seq<u8>)
    ensures |r| == BLANK_SIZE
  {
    PutAll(seq(BLANK_SIZE, _ => 0), BlankWrites(order, singleFile))
  }

  /** The float 352.0 (or 0.0) of a blank vox_offset, and its value as an int. */
  lemma BlankVoxOffsetValue(singleFile: bool)
    ensures 0 <= BlankVoxOffset(singleFile) < 0x1_0000_0000
    ensures FloatToInt(BlankVoxOffset(singleFile)) == if singleFile then BLANK_SIZE else 0
  {
    if singleFile {
      var e, scale, m := SmallLayout(BLANK_SIZE);
      SmallBits(BLANK_SIZE, e, m);
      ExactFloat(BLANK_SIZE);
    } else {
      ExactFloat(0);
    }
  }

  /** No two puts of `resetBuffer` overlap, so each put's bytes are still in place at the end. */
  lemma BlankField(order: ByteOrder, singleFile: bool, k: nat)
    requires k < 6
    ensures var w := BlankWrites(order, singleFile)[k];
      BlankBuffer(order, singleFile)[w.at..w.at + |w.bytes|] == w.bytes
  {
    var ws := BlankWrites(order, singleFile);
    forall j | k < j < |ws|
      ensures Apart(ws[k].at, ws[k].at + |ws[k].bytes|, ws[j].at, |ws[j].bytes|)
    {
    }
    PutAllField(seq(BLANK_SIZE, _ => 0), ws, k);
  }

  /** The bytes no put of `resetBuffer` writes: everything but magic, sizeof_hdr, vox_offset, srow, sform_code and pixdim. */
  predicate BlankUnwritten(i: int)
  {
    4 <= i < BLANK_SIZE && !(PIXDIM_AT <= i < VOX_OFFSET_AT + 4) && !(SFORM_CODE_AT <= i < SFORM_CODE_AT + 2)
    && !(SROW_AT <= i < SROW_AT + 48) && !(MAGIC_AT <= i < MAGIC_AT + 4)
  }

  /** A byte no put of `resetBuffer` writes stays zero. */
  lemma BlankUntouched(order: ByteOrder, singleFile: bool, i: nat)
    requires BlankUnwritten(i)
    ensures BlankBuffer(order, singleFile)[i] == 0
  {
    var ws := BlankWrites(order, singleFile);
    forall j | 0 <= j < |ws|
      ensures Apart(i, i + 1, ws[j].at, |ws[j].bytes|)
    {
    }
    PutAllUntouched(seq(BLANK_SIZE, _ => 0), ws, i);
  }

  /** A blank header has sizeof_hdr 348 and the magic of its layout. */
  lemma BlankSizeAndMagic(order: ByteOrder, singleFile: bool)
    ensures GetInt(BlankBuffer(order, singleFile), SIZEOF_HDR_AT, order) == HEADER_SIZE
    ensures BlankBuffer(order, singleFile)[MAGIC_AT..MAGIC_AT + 4] == Magic(singleFile)
  {
    BlankField(order, singleFile, 0);
    BlankField(order, singleFile, 1);
    DecodeWord(HEADER_SIZE, order);
  }

  /** A blank header's vox_offset is the float 352 for a single file and 0 otherwise. */
  lemma BlankVoxOffsetField(order: ByteOrder, singleFile: bool)
    ensures FloatToInt(Decode(BlankBuffer(order, singleFile)[VOX_OFFSET_AT..VOX_OFFSET_AT + 4], order))
      == if singleFile then BLANK_SIZE else 0
  {
    BlankField(order, singleFile, 2);
    BlankVoxOffsetValue(singleFile);
    DecodeWord(BlankVoxOffset(singleFile), order);
  }

  /** A blank header has sform_code 1. */
  lemma BlankSform(order: ByteOrder, singleFile: bool)
    ensures GetShort(BlankBuffer(order, singleFile), SFORM_CODE_AT, order) == NIFTI_XFORM_SCANNER_ANAT
  {
    BlankField(order, singleFile, 4);
    DecodeShort(NIFTI_XFORM_SCANNER_ANAT, order);
  }

  /** A blank header has the identity sform rows, as float patterns. */
  lemma BlankRows(order: ByteOrder, singleFile: bool, k: nat)
    requires k < 12
    ensures var b := BlankBuffer(order, singleFile);
      Decode(b[SROW_AT + 4 * k..SROW_AT + 4 * k + 4], order) == IDENTITY_ROWS[k]
  {
    BlankField(order, singleFile, 3);
    PatternsAreWords(IDENTITY_ROWS);
    WordOfField(BlankBuffer(order, singleFile), SROW_AT, IDENTITY_ROWS, order, k);
  }

  /** A blank header has pixdim {1, 0, 0, 0, 0, 0, 0, 0}, as float patterns. */
  lemma BlankPixdim(order: ByteOrder, singleFile: bool, k: nat)
    requires k < 8
    ensures var b := BlankBuffer(order, singleFile);
      Decode(b[PIXDIM_AT + 4 * k..PIXDIM_AT + 4 * k + 4], order) == BLANK_PIXDIM[k]
  {
    BlankField(order, singleFile, 5);
    PatternsAreWords(BLANK_PIXDIM);
    WordOfField(BlankBuffer(order, singleFile), PIXDIM_AT, BLANK_PIXDIM, order, k);
  }

  /** The float patterns of a blank header are 32-bit words. */
  lemma PatternsAreWords(vs: seq<int>)
    requires vs == IDENTITY_ROWS || vs == BLANK_PIXDIM
    ensures forall j :: 0 <= j < |vs| ==> 0 <= vs[j] < 0x1_0000_0000
  {
  }

  lemma ModSmall(v: int, m: int)
    requires 0 <= v < m
    ensures v % m == v
  {
  }

  /** A blank header has an all-zero dim. */
  lemma BlankDim(order: ByteOrder, singleFile: bool)
    ensures DimOf(BlankBuffer(order, singleFile), order) == [0, 0, 0, 0, 0, 0, 0, 0]
  {
    var d := DimOf(BlankBuffer(order, singleFile), order);
    forall k | 0 <= k < 8
      ensures d[k] == 0
    {
      ZeroShortAt(order, singleFile, DIM_AT + 2 * k);
    }
  }

  /** A blank header has qform_code 0 and no extension flag. */
  lemma BlankNoQform(order: ByteOrder, singleFile: bool)
    ensures GetShort(BlankBuffer(order, singleFile), QFORM_CODE_AT, order) == 0
    ensures BlankBuffer(order, singleFile)[HEADER_SIZE] == 0
  {
    BlankUntouched(order, singleFile, HEADER_SIZE);
    ZeroShortAt(order, singleFile, QFORM_CODE_AT);
  }

  /** The dim entries, qform_code and the datatype read as 0 from a blank header, in either byte order. */
  lemma ZeroShortAt(order: ByteOrder, singleFile: bool, at: nat)
    requires (DIM_AT <= at && at + 2 <= DIM_AT + 16) || at == QFORM_CODE_AT || at == DATATYPE_AT
    ensures at + 2 <= BLANK_SIZE && GetShort(BlankBuffer(order, singleFile), at, order) == 0
    ensures GetShort(BlankBuffer(order, singleFile), at, LittleEndian) == 0
  {
    var r := BlankBuffer(order, singleFile);
    BlankUntouched(order, singleFile, at);
    BlankUntouched(order, singleFile, at + 1);
    ZeroShort(r, at, order);
    ZeroShort(r, at, LittleEndian);
  }

  /** Two zero bytes read as the short 0 in either order. */
  lemma ZeroShort(b: seq<u8>, at: nat, order: ByteOrder)
    requires at + 2 <= |b| && b[at] == 0 && b[at + 1] == 0
    ensures GetShort(b, at, order) == 0
  {
    assert b[at..at + 2] == [0, 0];
    assert Encode(0, 2, order) == [0, 0] by {
      assert LittleBytes(0, 2) == [0, 0] by {
        assert LittleBytes(0, 1) == [0];
      }
    }
    DecodeAt(b, at, 0, 2, order);
  }

  /** A blank header read back by the constructor is little-endian (dim[0] is 0) NIFTI version 1 in its layout. */
  lemma BlankDetected(order: ByteOrder, singleFile: bool)
    ensures Detect(BlankBuffer(order, singleFile)) == Ok(Detected(LittleEndian, 1, singleFile))
  {
    BlankSizeAndMagic(order, singleFile);
    ZeroShortAt(order, singleFile, DIM_AT);
  }

  // ---------------------------------------------------------------------
  // Transforms

  /** Which transform `getTransform` builds. */
  datatype TransformSource = QForm | SForm | SpmMat | OldAnalyze

  /**
   * The precedence of `getTransform(standard)`: a NIFTI header uses the
   * qform when a standard space is asked for and a qform exists, or when
   * there is no sform; else the sform if there is one. Only a header that is
   * not NIFTI looks at the SPM flag; everything else falls back to the
   * Analyze transform.
   */
  function TransformPolicy(nifti: bool, spm: bool, standard: bool, qform: int, sform: int): (s: TransformSource)
    ensures nifti ==> s != SpmMat
    ensures s == QForm ==> nifti && ((standard && qform > 0) || sform == 0)
    ensures s == SForm ==> nifti && sform > 0 && !(standard && qform > 0)
    ensures !nifti ==> s != QForm && s != SForm && (s == SpmMat <==> spm)
    ensures nifti && sform >= 0 ==> s == QForm || s == SForm
    ensures nifti && sform > 0 && !standard ==> s == SForm
  {
    if nifti then
      if (standard && qform > 0) || sform == 0 then QForm
      else if sform > 0 then SForm
      else OldAnalyze
    else if spm then SpmMat
    else OldAnalyze
  }

  /**
   * `getOldTrans()` on the entries of pixdim: pixdim[1] at row 0, column 0;
   * pixdim[2] at row 0, column 3; pixdim[3] at row 2, column 2; 1 at row 3,
   * column 3; zero elsewhere. The float entries stay abstract.
   */
  function OldTrans<T>(pixdim: seq<T>, zero: T, one: T): (m: seq<T>)
    requires |pixdim| == 8
    ensures |m| == 16
  {
    seq(16, i => if i == 0 then pixdim[1] else if i == 3 then pixdim[2]
      else if i == 10 then pixdim[3] else if i == 15 then one else zero)
  }

  /**
   * As written, the y spacing lands in the x translation and the y row of
   * the matrix is all zero: the transform flattens every volume onto a plane.
   */
  lemma OldTransLosesY<T>(pixdim: seq<T>, zero: T, one: T)
    requires |pixdim| == 8
    ensures OldTrans(pixdim, zero, one)[4..8] == [zero, zero, zero, zero]
    ensures OldTrans(pixdim, zero, one)[3] == pixdim[2]
  {
  }

  /** The Analyze transform with the y spacing on the diagonal. */
  function OldTransDiagonal<T>(pixdim: seq<T>, zero: T, one: T): (m: seq<T>)
    requires |pixdim| == 8
    ensures |m| == 16
    ensures forall i :: 0 <= i < 16 && i % 5 != 0 ==> m[i] == zero
    ensures m[0] == pixdim[1] && m[5] == pixdim[2] && m[10] == pixdim[3] && m[15] == one
  {
    seq(16, i => if i == 0 then pixdim[1] else if i == 5 then pixdim[2]
      else if i == 10 then pixdim[3] else if i == 15 then one else zero)
  }

  /**
   * The voxel `getDefaultSPMTrans` centres the volume on: the SPM origin,
   * or when it is all zero, (dim - 1) / 2 on each of the first three axes,
   * rounded toward zero and cut to a short.
   */
  function CentreVoxel(origin: seq<i16>, dim: seq<i16>): (c: seq<i16>)
    requires |origin| == 3 && |dim| == 8
    ensures |c| == 3
  {
    if origin[0] == 0 && origin[1] == 0 && origin[2] == 0 then
      [ToShort(Div(dim[1] as int - 1, 2)), ToShort(Div(dim[2] as int - 1, 2)), ToShort(Div(dim[3] as int - 1, 2))]
    else origin
  }

  /**
   * A set origin is kept; otherwise on an axis of at least one voxel the
   * centre is the middle voxel rounded down, inside the axis, and on an
   * empty axis it is 0.
   */
  lemma CentreVoxelInside(origin: seq<i16>, dim: seq<i16>, k: nat)
    requires |origin| == 3 && |dim| == 8 && k < 3
    ensures origin != [0, 0, 0] ==> CentreVoxel(origin, dim) == origin
    ensures origin == [0, 0, 0] && dim[k + 1] >= 1 ==>
      var c := CentreVoxel(origin, dim)[k];
      0 <= c < dim[k + 1] && 2 * c <= dim[k + 1] - 1 <= 2 * c + 1
    ensures origin == [0, 0, 0] && dim[k + 1] == 0 ==> CentreVoxel(origin, dim)[k] == 0
  {
    if origin == [0, 0, 0] {
      assert origin[0] == 0 && origin[1] == 0 && origin[2] == 0;
      var d := dim[k + 1] as int;
      if d >= 1 {
        DivRemNonNegative(d - 1, 2);
      }
    }
  }

  // ---------------------------------------------------------------------
  // Reading voxel values

  /** The low 8 bits of a Java byte. */
  function Byte8(v: i8): bv8
  {
    UnsignedByte(v) as bv8
  }

  /** Two bytes with the same bits are the same byte. */
  lemma Byte8Injective(v: i8, w: i8)
    requires Byte8(v) == Byte8(w)
    ensures v == w
  {
    BitsRoundTrip(UnsignedByte(v));
    BitsRoundTrip(UnsignedByte(w));
    assert UnsignedByte(v) == UnsignedByte(w);
  }

  lemma BitsRoundTrip(u: u8)
    ensures (u as bv8) as int == u
  {
    assert u % 256 == u;
  }

  /** A byte widened to int: sign extension copies bit 7 into bits 8-31. */
  function Widen(v: i8): bv32
  {
    if v < 0 then 0xffff_ff00 | (Byte8(v) as bv32) else Byte8(v) as bv32
  }

  /**
   * `assembleRGB` as written: the three bytes are shifted into place
   * without masking, so a negative byte's sign extension covers the bytes
   * above it.
   */
  function AssembleRGB(r: i8, g: i8, b: i8): bv32
  {
    0xff00_0000 | (Widen(r) << 16) | (Widen(g) << 8) | Widen(b)
  }

  /**
   * A blue byte of 128 or more fills red, green and the alpha byte with
   * ones, so different colours assemble to the same word.
   */
  lemma AssembleRGBSignSmear(r: i8, g: i8, b: i8)
    requires b < 0
    ensures AssembleRGB(r, g, b) == 0xffff_ff00 | (Byte8(b) as bv32)
    ensures AssembleRGB(0, 0, -1) == AssembleRGB(5, 7, -1) == 0xffff_ffff
  {
    var x := Widen(r) << 16;
    var y := Widen(g) << 8;
    var z := Byte8(b) as bv32;
    assert x & 0xff == 0 && y & 0xff == 0;
    assert Byte8(-1) == 0xff;
  }

  /** `assembleRGB` with each byte masked to its unsigned value before shifting. */
  function AssembleRGBMasked(r: i8, g: i8, b: i8): (w: bv32)
    ensures w == Colors.PackARGB(0xff, Byte8(r), Byte8(g), Byte8(b))
  {
    0xff00_0000 | ((Byte8(r) as bv32) << 16) | ((Byte8(g) as bv32) << 8) | (Byte8(b) as bv32)
  }

  /** The masked assembly keeps every channel: different bytes give different colours. */
  lemma AssembleRGBMaskedInjective(r: i8, g: i8, b: i8, r': i8, g': i8, b': i8)
    requires AssembleRGBMasked(r, g, b) == AssembleRGBMasked(r', g', b')
    ensures r == r' && g == g' && b == b'
  {
    Colors.PackARGBInjective(0xff, Byte8(r), Byte8(g), Byte8(b), 0xff, Byte8(r'), Byte8(g'), Byte8(b'));
    Byte8Injective(r, r');
    Byte8Injective(g, g');
    Byte8Injective(b, b');
  }

  /** On bytes below 128 the two assemblies agree. */
  lemma AssembleRGBAgrees(r: i8, g: i8, b: i8)
    requires r >= 0 && g >= 0 && b >= 0
    ensures AssembleRGB(r, g, b) == AssembleRGBMasked(r, g, b)
  {
  }

  /** A value read from an image buffer, and the position after it. */
  datatype Read = Read(value: int, next: nat)

  /** The bytes `readNextInteger` consumes for a datatype code it maps; None for the others. */
  function ReadWidth(code: int): Option<nat>
  {
    if code == DT_FLOAT64 || code == DT_INT64 then Some(8)
    else if code == DT_FLOAT32 || code == DT_INT32 || code == DT_UINT32 then Some(4)
    else if code == DT_INT16 || code == DT_UINT16 then Some(2)
    else if code == DT_INT8 || code == DT_UINT8 then Some(1)
    else if code == DT_RGB24 then Some(3)
    else None
  }

  /** Every datatype the reader maps is in the bitpix table, with bitpix eight times the bytes read. */
  lemma ReadWidthIsBitpix(code: int)
    requires ReadWidth(code).Some?
    ensures BitpixOf(code).Some? && BitpixOf(code).value == 8 * ReadWidth(code).value
  {
  }

  /**
   * `readNextInteger(img)` for datatype `code`, reading at `pos` in the
   * image buffer's own byte order: floats and doubles are cut to a long,
   * signed types are read as they are, unsigned ones widened, RGB assembled.
   * An unmapped datatype is an illegal argument; too few bytes left is a
   * buffer underflow.
   */
  function ReadInteger(code: int, img: seq<u8>, pos: nat, order: ByteOrder): (r: Result<Read>)
    requires pos <= |img|
    ensures ReadWidth(code).None? ==> r == Fail(IllegalArgument)
    ensures ReadWidth(code).Some? ==> (r.Ok? <==> pos + ReadWidth(code).value <= |img|)
    ensures ReadWidth(code).Some? && r.Fail? ==> r.error == BufferUnderflow
    ensures r.Ok? ==> r.value.next == pos + ReadWidth(code).value
    ensures r.Ok? ==> LONG_MIN <= r.value.value <= LONG_MAX
    ensures r.Ok? && code == DT_UINT8 ==> 0 <= r.value.value < 0x100 && r.value.value == img[pos]
    ensures r.Ok? && code == DT_INT8 ==> -0x80 <= r.value.value < 0x80 && UnsignedByte(r.value.value) == img[pos]
    ensures r.Ok? && code == DT_UINT16 ==> 0 <= r.value.value < 0x1_0000
    ensures r.Ok? && code == DT_UINT32 ==> 0 <= r.value.value < 0x1_0000_0000
    ensures r.Ok? && (code == DT_INT16 || code == DT_INT32 || code == DT_RGB24) ==> INT_MIN <= r.value.value <= INT_MAX
  {
    match ReadWidth(code)
    case None => Fail(IllegalArgument)
    case Some(w) =>
      if pos + w > |img| then Fail(BufferUnderflow)
      else
        var v :=
          if code == DT_FLOAT64 then Truncate(Decode(img[pos..pos + 8], order), Double, LONG_MIN, LONG_MAX)
          else if code == DT_FLOAT32 then Truncate(Decode(img[pos..pos + 4], order), Single, LONG_MIN, LONG_MAX)
          else if code == DT_INT8 then SignedByte(img[pos]) as int
          else if code == DT_INT16 then GetShort(img, pos, order) as int
          else if code == DT_INT32 then GetInt(img, pos, order) as int
          else if code == DT_INT64 then GetLong(img, pos, order) as int
          else if code == DT_UINT8 then img[pos] as int
          else if code == DT_UINT16 then GetChar(img, pos, order) as int
          else if code == DT_UINT32 then UnsignedInt(GetInt(img, pos, order))
          else ToInt(AssembleRGB(SignedByte(img[pos]), SignedByte(img[pos + 1]), SignedByte(img[pos + 2])) as int) as int;
        Ok(Read(v, pos + w))
  }

  /**
   * `readNext(img)`: the same switch as `readNextInteger`, except that a
   * float or a double is returned as itself rather than cut to a long; so
   * `readNextInteger` is `readNext` truncated, and the two agree on every
   * integer datatype.
   */
  function ReadNextValue(code: int, img: seq<u8>, pos: nat, order: ByteOrder): (r: Result<Read>)
    requires pos <= |img|
    ensures r.Ok? <==> ReadInteger(code, img, pos, order).Ok?
    ensures r.Fail? ==> r == ReadInteger(code, img, pos, order)
    ensures r.Ok? ==> r.value.next == ReadInteger(code, img, pos, order).value.next
    ensures r.Ok? && code != DT_FLOAT32 && code != DT_FLOAT64 ==> r.value == ReadInteger(code, img, pos, order).value
    ensures r.Ok? && code == DT_FLOAT32 ==> ReadInteger(code, img, pos, order).value.value == Truncate(r.value.value, Single, LONG_MIN, LONG_MAX)
    ensures r.Ok? && code == DT_FLOAT64 ==> ReadInteger(code, img, pos, order).value.value == Truncate(r.value.value, Double, LONG_MIN, LONG_MAX)
  {
    if code == DT_FLOAT64 && pos + 8 <= |img| then Ok(Read(Decode(img[pos..pos + 8], order), pos + 8))
    else if code == DT_FLOAT32 && pos + 4 <= |img| then Ok(Read(Decode(img[pos..pos + 4], order), pos + 4))
    else ReadInteger(code, img, pos, order)
  }

  // ---------------------------------------------------------------------
  // The header object

  /** `isSingleNIFTIFile()`, `getDatatype()` and the transform use these derived views of the buffer. */
  function DatatypeField(b: seq<u8>, order: ByteOrder): i16
    requires |b| >= HEADER_SIZE
  {
    GetShort(b, DATATYPE_AT, order)
  }

  /**
   * The float `vox_offset` that `write` records: the byte count of the
   * header and its extension records as a Java int converted to float.
   */
  function WrittenVoxOffset(ext: seq<seq<u8>>, singleFile: bool): int
  {
    if singleFile then FloatBitsOfInt(ToInt(BLANK_SIZE + RecordsLength(ext))) else FloatBitsOfInt(0)
  }

  /**
   * For a single file whose header and extensions take fewer than 2^24
   * bytes, the recorded vox_offset is exactly where the written bytes end,
   * that is where the image data starts.
   */
  lemma VoxOffsetIsImageStart(h: seq<u8>, ext: seq<seq<u8>>, order: ByteOrder)
    requires BLANK_SIZE + RecordsLength(ext) < 0x100_0000
    ensures FloatToInt(WrittenVoxOffset(ext, true)) == |Image(h) + Records(ext, order)|
    ensures FloatToInt(WrittenVoxOffset(ext, false)) == 0
  {
    RecordsLayout(ext, order);
    var total := BLANK_SIZE + RecordsLength(ext);
    assert ToInt(total) == total;
    ExactFloat(total);
    ExactFloat(0);
  }

  class AnalyzeNiftiSpmHeader {
    /** The header bytes, from offset 0 of the buffer. */
    var header: seq<u8>
    /** The buffer's byte order. */
    var order: ByteOrder
    /** 0 for a header that is not NIFTI. */
    var niftiVersion: int
    var niiFile: bool
    var spm: bool
    /** The cached datatype; DT_NONE means not yet read. */
    var dt: i16

    ghost predicate Valid()
      reads this
    {
      |header| >= HEADER_SIZE
    }

    /** The cache agrees with the buffer, or is empty. */
    ghost predicate CacheCoherent()
      reads this
      requires Valid()
    {
      dt == DT_NONE || dt == DatatypeField(header, order)
    }

    /** `AnalyzeNiftiSpmHeader(header, 0, spm, file)` on a buffer the detection accepts. */
    constructor Parse(b: seq<u8>, spm: bool)
      requires Detect(b).Ok?
      ensures Valid() && CacheCoherent()
      ensures header == b && this.spm == spm && dt == DT_NONE
      ensures order == Detect(b).value.order && niftiVersion == Detect(b).value.niftiVersion
      ensures niiFile == Detect(b).value.niiFile
    {
      var d := Detect(b).value;
      header := b;
      this.spm := spm;
      order := d.order;
      niftiVersion := d.niftiVersion;
      niiFile := d.niiFile;
      dt := DT_NONE;
    }

    /**
     * `AnalyzeNiftiSpmHeader(endian, singleFile)`: a blank header by
     * `resetBuffer`. The NIFTI version keeps its initial 0.
     */
    constructor Blank(order: ByteOrder, singleFile: bool)
      ensures Valid() && CacheCoherent()
      ensures header == BlankBuffer(order, singleFile) && this.order == order
      ensures niiFile == singleFile && niftiVersion == 0 && !spm && dt == DT_NONE
    {
      header := BlankBuffer(order, singleFile);
      this.order := order;
      niiFile := singleFile;
      niftiVersion := 0;
      spm := false;
      dt := DT_NONE;
    }

    /** `isNIFTI()` */
    function IsNIFTI(): (r: bool)
      reads this
      ensures r <==> niftiVersion > 0
    {
      niftiVersion > 0
    }

    /** `hasExtended()`: a byte at 348 that is not zero. */
    function HasExtended(): (r: bool)
      reads this
      ensures r <==> |header| > HEADER_SIZE && header[HEADER_SIZE] != 0
    {
      if |header| > HEADER_SIZE then header[HEADER_SIZE] != 0 else false
    }

    function SformCode(): i16
      reads this
      requires Valid()
    {
      GetShort(header, SFORM_CODE_AT, order)
    }

    function QformCode(): i16
      reads this
      requires Valid()
    {
      GetShort(header, QFORM_CODE_AT, order)
    }

    /** `getDim()` */
    function Dim(): (d: seq<i16>)
      reads this
      requires Valid()
      ensures |d| == 8 && d == DimOf(header, order)
    {
      DimOf(header, order)
    }

    /** Which transform `getTransform(standard)` builds for this header. */
    function Transform(standard: bool): (s: TransformSource)
      reads this
      requires Valid()
      ensures s == TransformPolicy(IsNIFTI(), spm, standard, QformCode(), SformCode())
    {
      TransformPolicy(IsNIFTI(), spm, standard, QformCode(), SformCode())
    }

    /** `getDatatype()`: reads the field at 70 unless a datatype is cached, and caches it. */
    method GetDatatype() returns (d: i16)
      requires Valid()
      modifies this
      ensures Valid() && CacheCoherent() == old(CacheCoherent())
      ensures d == dt && d == (if old(dt) == DT_NONE then DatatypeField(header, order) else old(dt))
      ensures old(CacheCoherent()) ==> d == DatatypeField(header, order)
      ensures header == old(header) && order == old(order) && niftiVersion == old(niftiVersion)
      ensures niiFile == old(niiFile) && spm == old(spm)
    {
      if dt == DT_NONE {
        dt := DatatypeField(header, order);
      }
      d := dt;
    }

    /** `setDatatype(datatype)`: caches and stores the code, and the bitpix of a known code. */
    method SetDatatype(code: i16)
      requires Valid()
      modifies this
      ensures Valid() && CacheCoherent() && dt == code
      ensures DatatypeField(header, order) == code
      ensures BitpixOf(code).Some? ==> GetShort(header, BITPIX_AT, order) == BitpixOf(code).value
      ensures BitpixOf(code).None? ==> GetShort(header, BITPIX_AT, order) == GetShort(old(header), BITPIX_AT, order)
      ensures header == (var h := PutShort(old(header), DATATYPE_AT, code, order);
        if BitpixOf(code).Some? then PutShort(h, BITPIX_AT, BitpixOf(code).value, order) else h)
      ensures order == old(order) && niftiVersion == old(niftiVersion) && niiFile == old(niiFile) && spm == old(spm)
    {
      dt := code;
      header := PutShort(header, DATATYPE_AT, code, order);
      GetPutShort(old(header), DATATYPE_AT, code, order);
      var h := header;
      match BitpixOf(code)
      case Some(bitpix) =>
        header := PutShort(header, BITPIX_AT, bitpix, order);
        GetPutShort(h, BITPIX_AT, bitpix, order);
        PutOutside(h, BITPIX_AT, Encode(bitpix, 2, order), DATATYPE_AT, DATATYPE_AT + 2);
      case None =>
        PutOutside(old(header), DATATYPE_AT, Encode(code, 2, order), BITPIX_AT, BITPIX_AT + 2);
    }

    /**
     * `setDim(dim)`: more than 8 entries are an illegal argument; otherwise
     * the entries are written from 40 on and the rest of the 8 shorts zeroed.
     */
    method SetDim(dim: seq<i16>) returns (out: Outcome)
      requires Valid()
      modifies this
      ensures Valid()
      ensures out == (if |dim| > 8 then Thrown(IllegalArgument) else Done)
      ensures out.Thrown? ==> header == old(header)
      ensures out == Done ==> header == Put(old(header), DIM_AT, ShortBytes(Padded(dim), order))
      ensures out == Done ==> Dim() == Padded(dim)
      ensures order == old(order) && niftiVersion == old(niftiVersion) && niiFile == old(niiFile)
      ensures spm == old(spm) && dt == old(dt)
    {
      if |dim| > 8 {
        return Thrown(IllegalArgument);
      }
      var p := Padded(dim);
      ghost var h0 := header;
      var i := 0;
      while i < |dim|
        invariant 0 <= i <= |dim| && |header| == |h0|
        invariant header == Put(h0, DIM_AT, ShortBytes(p[..i], order))
        invariant order == old(order) && niftiVersion == old(niftiVersion) && niiFile == old(niiFile)
        invariant spm == old(spm) && dt == old(dt)
      {
        header := PutShort(header, DIM_AT + i * 2, dim[i], order);
        ShortStep(h0, p, i, order);
        i := i + 1;
      }
      while i < 8
        invariant |dim| <= i <= 8 && |header| == |h0|
        invariant header == Put(h0, DIM_AT, ShortBytes(p[..i], order))
        invariant order == old(order) && niftiVersion == old(niftiVersion) && niiFile == old(niiFile)
        invariant spm == old(spm) && dt == old(dt)
      {
        header := PutShort(header, DIM_AT + i * 2, 0, order);
        ShortStep(h0, p, i, order);
        i := i + 1;
      }
      assert p[..8] == p;
      DimOfPut(h0, order, dim);
      out := Done;
    }

    /**
     * `setMagic(singleFile)`: writes the magic of the layout and records
     * it; the NIFTI version field is left as it was.
     */
    method SetMagic(singleFile: bool)
      requires Valid()
      modifies this
      ensures Valid() && niiFile == singleFile
      ensures header == Put(old(header), MAGIC_AT, Magic(singleFile))
      ensures Detect(header) == Ok(Detected(OrderOf(old(header)), 1, singleFile))
      ensures order == old(order) && niftiVersion == old(niftiVersion) && spm == old(spm) && dt == old(dt)
    {
      niiFile := singleFile;
      header := Put(header, MAGIC_AT, Magic(singleFile));
      DetectMagic(old(header), singleFile);
    }

    /**
     * `setExtended(length)`: 0 leaves the buffer alone; otherwise the byte
     * goes to 348, or, in a buffer of only 348 bytes, is an illegal argument.
     */
    method SetExtended(length: i8) returns (out: Outcome)
      modifies this
      ensures out == (if length != 0 && |old(header)| <= HEADER_SIZE then Thrown(IllegalArgument) else Done)
      ensures length != 0 && out == Done ==> header == old(header)[HEADER_SIZE := UnsignedByte(length)] && HasExtended()
      ensures length == 0 || out.Thrown? ==> header == old(header)
      ensures |header| == |old(header)|
      ensures order == old(order) && niftiVersion == old(niftiVersion) && niiFile == old(niiFile)
      ensures spm == old(spm) && dt == old(dt)
    {
      if length == 0 {
        return Done;
      } else if |header| > HEADER_SIZE {
        header := header[HEADER_SIZE := UnsignedByte(length)];
        return Done;
      } else {
        return Thrown(IllegalArgument);
      }
    }

    /** `setVoxOffset(f)`, given the bit pattern of `f`. */
    method SetVoxOffset(bits: int)
      requires Valid()
      modifies this
      ensures Valid() && header == PutInt(old(header), VOX_OFFSET_AT, bits, order)
      ensures order == old(order) && niftiVersion == old(niftiVersion) && niiFile == old(niiFile)
      ensures spm == old(spm) && dt == old(dt)
    {
      header := PutInt(header, VOX_OFFSET_AT, bits, order);
    }

    /**
     * `setPixdim(pixDim)`, given the bit patterns: anything but 8 entries is
     * an illegal argument; otherwise the 8 floats are written from 76.
     */
    method SetPixdim(pixdim: seq<int>) returns (out: Outcome)
      requires Valid()
      modifies this
      ensures Valid()
      ensures out == (if |pixdim| != 8 then Thrown(IllegalArgument) else Done)
      ensures out.Thrown? ==> header == old(header)
      ensures out == Done ==> header == Put(old(header), PIXDIM_AT, IntBytes(pixdim, order))
      ensures out == Done ==> forall k :: 0 <= k < 8 && 0 <= pixdim[k] < 0x1_0000_0000 ==>
        Decode(header[PIXDIM_AT + 4 * k..PIXDIM_AT + 4 * k + 4], order) == pixdim[k]
      ensures order == old(order) && niftiVersion == old(niftiVersion) && niiFile == old(niiFile)
      ensures spm == old(spm) && dt == old(dt)
    {
      if |pixdim| != 8 {
        return Thrown(IllegalArgument);
      }
      ghost var h0 := header;
      var i := 0;
      while i < 8
        invariant 0 <= i <= 8 && |header| == |h0|
        invariant header == Put(h0, PIXDIM_AT, IntBytes(pixdim[..i], order))
        invariant order == old(order) && niftiVersion == old(niftiVersion) && niiFile == old(niiFile)
        invariant spm == old(spm) && dt == old(dt)
      {
        header := PutInt(header, PIXDIM_AT + i * 4, pixdim[i], order);
        IntStep(h0, pixdim, i, order);
        i := i + 1;
      }
      assert pixdim[..8] == pixdim;
      forall k | 0 <= k < 8 && 0 <= pixdim[k] < 0x1_0000_0000
        ensures Decode(header[PIXDIM_AT + 4 * k..PIXDIM_AT + 4 * k + 4], order) == pixdim[k]
      {
        WordOfRun(h0, PIXDIM_AT, pixdim, order, k);
      }
      out := Done;
    }

    /**
     * `resetBuffer(endian, singleFile)` as written: a blank 352-byte buffer;
     * the NIFTI version and the datatype cache keep their old values, so a
     * header that was not NIFTI still says so, and a cached datatype no
     * longer matches the zero in the buffer.
     */
    method ResetBuffer(order: ByteOrder, singleFile: bool)
      modifies this
      ensures Valid() && header == BlankBuffer(order, singleFile) && this.order == order
      ensures niiFile == singleFile && !spm
      ensures niftiVersion == old(niftiVersion) && dt == old(dt)
      ensures CacheCoherent() <==> dt == DT_NONE
    {
      BlankDatatype(order, singleFile);
      header := BlankBuffer(order, singleFile);
      this.order := order;
      spm := false;
      niiFile := singleFile;
    }

    /**
     * `resetBuffer` as intended: the blank header is NIFTI version 1, as the
     * magic it writes says, and the datatype cache is emptied.
     */
    method ResetBufferAsNifti(order: ByteOrder, singleFile: bool)
      modifies this
      ensures Valid() && header == BlankBuffer(order, singleFile) && this.order == order
      ensures niiFile == singleFile && !spm && CacheCoherent()
      ensures IsNIFTI() && niftiVersion == 1
    {
      header := BlankBuffer(order, singleFile);
      this.order := order;
      spm := false;
      niiFile := singleFile;
      niftiVersion := 1;
      dt := DT_NONE;
    }

    /**
     * `write(dest, ext)`: records the vox_offset (the total length for a
     * single file, 0 otherwise) and the extension count, then emits the 352
     * header bytes and the records. If the count cannot be recorded, the
     * vox_offset is already set and nothing is emitted.
     */
    method Write(ext: seq<seq<u8>>) returns (out: seq<u8>, r: Outcome)
      requires Valid()
      modifies this
      ensures Valid()
      ensures r == (if ToByte(|ext|) != 0 && |old(header)| <= HEADER_SIZE then Thrown(IllegalArgument) else Done)
      ensures r.Thrown? || ToByte(|ext|) == 0 ==>
        header == PutInt(old(header), VOX_OFFSET_AT, WrittenVoxOffset(ext, old(niiFile)), order)
      ensures r == Done && ToByte(|ext|) != 0 ==>
        header == PutInt(old(header), VOX_OFFSET_AT, WrittenVoxOffset(ext, old(niiFile)), order)[HEADER_SIZE := UnsignedByte(ToByte(|ext|))]
      ensures r == Done ==> out == Image(header) + Records(ext, order)
      ensures r.Thrown? ==> out == []
      ensures order == old(order) && niftiVersion == old(niftiVersion) && niiFile == old(niiFile)
      ensures spm == old(spm) && dt == old(dt)
    {
      var total := TotalLength(ext);
      var vox := if niiFile then FloatBitsOfInt(ToInt(total)) else FloatBitsOfInt(0);
      assert vox == WrittenVoxOffset(ext, niiFile);
      SetVoxOffset(vox);
      r := SetExtended(ToByte(|ext|));
      if r.Thrown? {
        return [], r;
      }
      out := EmitRecords(Image(header), ext, order);
    }

    /**
     * `readNextInteger(img)`: the cached (or freshly read) datatype decides
     * how the bytes at `pos` of the image, in the image's own byte order, are
     * read.
     */
    method ReadNextInteger(img: seq<u8>, pos: nat, imgOrder: ByteOrder) returns (r: Result<Read>)
      requires Valid() && pos <= |img|
      modifies this
      ensures Valid() && header == old(header) && order == old(order)
      ensures niftiVersion == old(niftiVersion) && niiFile == old(niiFile) && spm == old(spm)
      ensures old(CacheCoherent()) ==> r == ReadInteger(DatatypeField(header, order), img, pos, imgOrder)
      ensures r == ReadInteger(dt, img, pos, imgOrder)
    {
      var d := GetDatatype();
      r := ReadInteger(d, img, pos, imgOrder);
    }
  }

  /**
   * The public constructor over a buffer: the detection's exception, or a
   * header with what it found.
   */
  method Open(b: seq<u8>, spm: bool) returns (r: Result<AnalyzeNiftiSpmHeader>)
    ensures r.Fail? <==> Detect(b).Fail?
    ensures r.Fail? ==> r.error == Detect(b).error
    ensures r.Ok? ==> (fresh(r.value) && r.value.Valid() && r.value.header == b
      && r.value.order == Detect(b).value.order && r.value.niftiVersion == Detect(b).value.niftiVersion)
  {
    if Detect(b).Fail? {
      r := Fail(Detect(b).error);
    } else {
      var h := new AnalyzeNiftiSpmHeader.Parse(b, spm);
      r := Ok(h);
    }
  }

  /** The datatype field of a blank header is 0: a cached code other than DT_NONE is stale there. */
  lemma BlankDatatype(order: ByteOrder, singleFile: bool)
    ensures DatatypeField(BlankBuffer(order, singleFile), order) == 0
  {
    ZeroShortAt(order, singleFile, DATATYPE_AT);
  }

  /**
   * The blank constructor's header is not NIFTI, though its buffer, read
   * back by the parsing constructor, is NIFTI version 1; so the transform
   * of the blank header ignores the sform it wrote.
   */
  lemma BlankHeaderNotNifti(order: ByteOrder, singleFile: bool, standard: bool)
    ensures Detect(BlankBuffer(order, singleFile)).Ok? && Detect(BlankBuffer(order, singleFile)).value.niftiVersion == 1
    ensures TransformPolicy(false, false, standard, 0, NIFTI_XFORM_SCANNER_ANAT) == OldAnalyze
    ensures TransformPolicy(true, false, false, 0, NIFTI_XFORM_SCANNER_ANAT) == SForm
  {
    BlankDetected(order, singleFile);
  }

  /** The first loop of `write`: the header and the padded records, added up. */
  method TotalLength(ext: seq<seq<u8>>) returns (total: int)
    ensures total == BLANK_SIZE + RecordsLength(ext)
    ensures total % 16 == 0 && total >= BLANK_SIZE + 8 * |ext|
  {
    total := BLANK_SIZE;
    var i := 0;
    while i < |ext|
      invariant 0 <= i <= |ext| && total == BLANK_SIZE + RecordsLength(ext[..i])
    {
      RecordsLengthStep(ext, i);
      total := total + Length16(8 + |ext[i]|);
      i := i + 1;
    }
    assert ext[..|ext|] == ext;
    RecordsLengthBounds(ext);
    assert BLANK_SIZE % 16 == 0;
  }

  /** The padded lengths of one more extension. */
  lemma RecordsLengthStep(ext: seq<seq<u8>>, i: nat)
    requires i < |ext|
    ensures RecordsLength(ext[..i + 1]) == RecordsLength(ext[..i]) + Length16(8 + |ext[i]|)
  {
    assert ext[..i + 1][..i] == ext[..i];
  }

  /**
   * The second loop of `write`: after the header image, each record; the
   * result is as long as the total of the first loop.
   */
  method EmitRecords(image: seq<u8>, ext: seq<seq<u8>>, order: ByteOrder) returns (out: seq<u8>)
    ensures out == image + Records(ext, order)
    ensures |out| == |image| + RecordsLength(ext)
  {
    out := image;
    var i := 0;
    while i < |ext|
      invariant 0 <= i <= |ext| && out == image + Records(ext[..i], order)
    {
      RecordsStep(ext, i, order);
      AppendAssociates(image, Records(ext[..i], order), Record(ext[i], order));
      out := out + Record(ext[i], order);
      i := i + 1;
    }
    assert ext[..|ext|] == ext;
    RecordsLayout(ext, order);
  }

  lemma AppendAssociates(a: seq<u8>, b: seq<u8>, c: seq<u8>)
    ensures (a + b) + c == a + (b + c)
  {
  }

  /** The records of one more extension. */
  lemma RecordsStep(ext: seq<seq<u8>>, i: nat, order: ByteOrder)
    requires i < |ext|
    ensures Records(ext[..i + 1], order) == Records(ext[..i], order) + Record(ext[i], order)
  {
    assert ext[..i + 1][..i] == ext[..i];
  }

  /**
   * A blank header read as NIFTI, as the intended `resetBuffer` leaves it,
   * takes its transform from the identity sform it wrote unless a standard
   * space is asked for.
   */
  lemma BlankNiftiUsesSform(order: ByteOrder, singleFile: bool)
    ensures var b := BlankBuffer(order, singleFile);
      TransformPolicy(true, false, false, GetShort(b, QFORM_CODE_AT, order), GetShort(b, SFORM_CODE_AT, order)) == SForm
  {
    BlankSform(order, singleFile);
  }

  /** One more short of the run: the step of `setDim`'s loops. */
  lemma ShortStep(h0: seq<u8>, p: seq<int>, i: nat, order: ByteOrder)
    requires i < |p| && DIM_AT + 2 * |p| <= |h0|
    ensures PutShort(Put(h0, DIM_AT, ShortBytes(p[..i], order)), DIM_AT + i * 2, p[i], order)
      == Put(h0, DIM_AT, ShortBytes(p[..i + 1], order))
  {
    assert p[..i + 1][..i] == p[..i];
    PutThenPut(h0, DIM_AT, ShortBytes(p[..i], order), Encode(p[i], 2, order));
  }

  /** One more int of the run: the step of `setPixdim`'s loop. */
  lemma IntStep(h0: seq<u8>, p: seq<int>, i: nat, order: ByteOrder)
    requires i < |p| && PIXDIM_AT + 4 * |p| <= |h0|
    ensures PutInt(Put(h0, PIXDIM_AT, IntBytes(p[..i], order)), PIXDIM_AT + i * 4, p[i], order)
      == Put(h0, PIXDIM_AT, IntBytes(p[..i + 1], order))
  {
    assert p[..i + 1][..i] == p[..i];
    PutThenPut(h0, PIXDIM_AT, IntBytes(p[..i], order), Encode(p[i], 4, order));
  }
}
