// The binary OFF writer of SimpleOff: a header line naming the optional
// per-vertex normals and colours, three counts, one record per vertex and one
// per triangle, every number a big-endian 32-bit int. Streams are modelled by
// their bytes: what was written so far, or what is left to read.

module SimpleOff {
  import opened Java
  import opened ByteBuffers
  import opened Surfaces

  // ---------------------------------------------------------------------
  // Words

  /** `writeInt(i, o)`: `i >>> 24`, `i >>> 16`, `i >>> 8` and `i`, each cut to its low byte by `write`. */
  function WriteInt(i: i32): (r: seq<u8>)
    ensures |r| == 4
  {
    var u := UnsignedInt(i);
    [u / 0x100_0000 % 0x100, u / 0x1_0000 % 0x100, u / 0x100 % 0x100, u % 0x100]
  }

  /** The bytes of `writeInt(i)` are the bits of `i`, most significant byte first. */
  lemma WriteIntBigEndian(i: i32)
    ensures WriteInt(i) == Encode(UnsignedInt(i), 4, BigEndian)
  {
    var u := UnsignedInt(i);
    assert u / 0x100 / 0x100 == u / 0x1_0000 && u / 0x1_0000 / 0x100 == u / 0x100_0000;
  }

  /** `in.read()`: the next byte, or -1 at the end of the stream. */
  function Read(input: seq<u8>, pos: nat): (r: int)
    ensures -1 <= r < 0x100
    ensures r == -1 <==> pos >= |input|
  {
    if pos < |input| then input[pos] else -1
  }

  /**
   * `readInt(in)`: four reads OR-ed together at shifts 24, 16, 8 and 0, and
   * the position after them; a read at the end of the stream does not move
   * it. A last read of -1 sets every bit, so the int is -1; otherwise all
   * four reads were bytes.
   */
  function ReadInt(input: seq<u8>, pos: nat): (r: (i32, nat))
    requires pos <= |input|
    ensures r.1 == if pos + 4 <= |input| then pos + 4 else |input|
  {
    if Read(input, pos + 3) == -1 then (-1, |input|)
    else
      (Signed(input[pos] as int * 0x100_0000 + input[pos + 1] as int * 0x1_0000 + input[pos + 2] as int * 0x100 + input[pos + 3]), pos + 4)
  }

  /** The int whose 32 bits read unsigned are `u`. */
  function Signed(u: nat): (r: i32)
    requires u < 0x1_0000_0000
    ensures r == ToInt(u)
  {
    if u < 0x8000_0000 then u else u - 0x1_0000_0000
  }

  /** Where four bytes are left, `readInt` is `getInt` of a big-endian buffer. */
  lemma ReadIntWhole(input: seq<u8>, pos: nat)
    requires pos + 4 <= |input|
    ensures ReadInt(input, pos).0 == GetInt(input, pos, BigEndian)
  {
    var w := input[pos..pos + 4];
    assert Decode(w, BigEndian) == w[0] as int * 0x100_0000 + w[1] as int * 0x1_0000 + w[2] as int * 0x100 + w[3] by {
      var r1, r2, r3 := [w[0]], [w[1], w[0]], [w[2], w[1], w[0]];
      assert Reverse(w) == [w[3]] + r3;
      assert r1[1..] == [] && r2[1..] == r1 && r3[1..] == r2 && ([w[3]] + r3)[1..] == r3;
      assert LittleValue(r1) == w[0];
      assert LittleValue(r2) == w[1] as int + 256 * (w[0] as int);
      assert LittleValue(r3) == w[2] + 256 * LittleValue(r2);
    }
  }

  /** With fewer than four bytes left, `readInt` gives -1, just as for a stored -1: a short file goes unnoticed. */
  lemma ReadIntPastEnd(input: seq<u8>, pos: nat)
    requires pos <= |input| < pos + 4
    ensures ReadInt(input, pos) == (-1, |input|)
    ensures ReadInt(input[..pos] + WriteInt(-1), pos).0 == -1
  {
    ReadWriteInt(input[..pos], -1, []);
    assert input[..pos] + WriteInt(-1) + [] == input[..pos] + WriteInt(-1);
  }

  /** Four bytes that `writeInt(i)` wrote read back as `i`. */
  lemma ReadIntAt(input: seq<u8>, pos: nat, i: i32)
    requires pos + 4 <= |input| && input[pos..pos + 4] == WriteInt(i)
    ensures ReadInt(input, pos) == (i, pos + 4)
  {
    ReadIntWhole(input, pos);
    WriteIntBigEndian(i);
    DecodeAt(input, pos, UnsignedInt(i), 4, BigEndian);
    assert Pow256(4) == 0x1_0000_0000;
  }

  /** An int written by `writeInt` reads back by `readInt`, whatever comes before and after it. */
  lemma ReadWriteInt(before: seq<u8>, i: i32, after: seq<u8>)
    ensures ReadInt(before + WriteInt(i) + after, |before|) == (i, |before| + 4)
  {
    var input := before + WriteInt(i) + after;
    assert input[|before|..|before| + 4] == WriteInt(i);
    ReadIntAt(input, |before|, i);
  }

  // ---------------------------------------------------------------------
  // Floats

  /**
   * The bit pattern is a NaN: above the bits of positive infinity
   * (0x7f800000), or, with the sign bit set, above those of negative
   * infinity (0xff800000).
   */
  predicate IsNaN(f: FloatBits)
  {
    0x7f80_0000 < f || -0x80_0000 < f < 0
  }

  /** A NaN is a pattern whose eight exponent bits are all set and whose 23 fraction bits are not all clear. */
  lemma NaNFields(f: FloatBits)
    ensures var u := UnsignedInt(f);
      IsNaN(f) <==> u / 0x80_0000 % 0x100 == 0xff && u % 0x80_0000 != 0
  {
    var u := UnsignedInt(f);
    var e := u / 0x80_0000;
    assert u == e * 0x80_0000 + u % 0x80_0000;
    assert e < 0x200;
  }

  /** The canonical NaN, 0x7fc00000. */
  const CANONICAL_NAN: i32 := 0x7fc0_0000

  /** The bits of `1f`, the alpha written after every colour. */
  const ONE_BITS: i32 := 0x3f80_0000

  /** `Float.floatToIntBits(f)`: the bits of `f`, every NaN collapsed to the canonical one. */
  function FloatToIntBits(f: FloatBits): (r: i32)
    ensures IsNaN(r) <==> IsNaN(f)
    ensures !IsNaN(f) ==> r == f
    ensures IsNaN(f) ==> r == CANONICAL_NAN
  {
    if IsNaN(f) then CANONICAL_NAN else f
  }

  /** Collapsing NaNs twice is collapsing them once. */
  lemma FloatToIntBitsTwice(f: FloatBits)
    ensures FloatToIntBits(FloatToIntBits(f)) == FloatToIntBits(f)
  {
  }

  // ---------------------------------------------------------------------
  // Layout

  /** The characters of an ASCII string, as `getBytes("UTF-8")` encodes them. */
  function Ascii(s: string): (r: seq<u8>)
    requires forall k :: 0 <= k < |s| ==> s[k] < 128 as char
    ensures |r| == |s| && forall k :: 0 <= k < |s| ==> r[k] == s[k] as int
  {
    seq(|s|, k requires 0 <= k < |s| => s[k] as int)
  }

  /** The header line: "OFF BINARY\n", then "N" put in front when there are normals, then "C" when there are colours. */
  function HeaderText(normals: bool, colors: bool): (h: string)
    ensures |h| == 11 + (if normals then 1 else 0) + (if colors then 1 else 0)
    ensures forall k :: 0 <= k < |h| ==> h[k] < 128 as char
  {
    var header := "OFF BINARY\n";
    var header := if normals then "N" + header else header;
    if colors then "C" + header else header
  }

  function Header(normals: bool, colors: bool): (r: seq<u8>)
    ensures |r| == |HeaderText(normals, colors)|
  {
    Ascii(HeaderText(normals, colors))
  }

  /** The bytes `writeInt` puts out for each int of `xs` in turn. */
  function Words(xs: seq<i32>): (r: seq<u8>)
    ensures |r| == 4 * |xs|
  {
    if |xs| == 0 then [] else Words(xs[..|xs| - 1]) + WriteInt(xs[|xs| - 1])
  }

  lemma WordsSnoc(xs: seq<i32>, x: i32)
    ensures Words(xs + [x]) == Words(xs) + WriteInt(x)
  {
    assert (xs + [x])[..|xs|] == xs;
  }

  /** The ints after the header are read back one after another. */
  lemma {:induction false} WordsAt(xs: seq<i32>, k: nat)
    requires k < |xs|
    ensures Words(xs)[4 * k..4 * k + 4] == WriteInt(xs[k])
  {
    var init := xs[..|xs| - 1];
    assert Words(xs) == Words(init) + WriteInt(xs[|xs| - 1]);
    if k < |xs| - 1 {
      WordsAt(init, k);
      assert Words(xs)[4 * k..4 * k + 4] == Words(init)[4 * k..4 * k + 4];
    }
  }

  /** Int `k` of ints written after `prefix` reads back from `4 * k` bytes past it. */
  lemma ReadWords(prefix: seq<u8>, xs: seq<i32>, k: nat)
    requires k < |xs|
    ensures ReadInt(prefix + Words(xs), |prefix| + 4 * k) == (xs[k], |prefix| + 4 * k + 4)
  {
    WordsAt(xs, k);
    ReadIntAfter(prefix, Words(xs), k, xs[k]);
  }

  /** Four bytes `writeInt(i)` wrote at `4 * k` into what follows `prefix` read back as `i`. */
  lemma ReadIntAfter(prefix: seq<u8>, w: seq<u8>, k: nat, i: i32)
    requires 4 * k + 4 <= |w| && w[4 * k..4 * k + 4] == WriteInt(i)
    ensures ReadInt(prefix + w, |prefix| + 4 * k) == (i, |prefix| + 4 * k + 4)
  {
    SliceAfter(prefix, w, |prefix| + 4 * k, 4 * k, 4);
    ReadIntAt(prefix + w, |prefix| + 4 * k, i);
  }

  /** A slice of the first part of `a + b`. */
  lemma SliceBefore<T>(a: seq<T>, b: seq<T>, lo: nat, hi: nat)
    requires lo <= hi <= |a|
    ensures (a + b)[lo..hi] == a[lo..hi]
  {
  }

  /** The slice of `a + b` from `lo`, which is `at` into `b`. */
  lemma SliceAfter<T>(a: seq<T>, b: seq<T>, lo: nat, at: nat, n: nat)
    requires at + n <= |b| && lo == |a| + at
    ensures lo + n <= |a + b| && (a + b)[lo..lo + n] == b[at..at + n]
  {
  }

  /** The first `v` vertices' floats are there in the points, normals and colours. */
  predicate Fits(points: seq<FloatBits>, normals: Option<seq<FloatBits>>, colors: Option<seq<FloatBits>>, v: nat)
  {
    3 * v <= |points| && (normals.Some? ==> 3 * v <= |normals.value|) && (colors.Some? ==> 3 * v <= |colors.value|)
  }

  /** The ints of one vertex record. */
  function RecordInts(normals: bool, colors: bool): nat
  {
    3 + (if normals then 3 else 0) + (if colors then 4 else 0)
  }

  /** The ints of vertex `v`: its three coordinates, then its normal, then its colour and an alpha of 1. */
  function VertexRecord(points: seq<FloatBits>, normals: Option<seq<FloatBits>>, colors: Option<seq<FloatBits>>, v: nat): (r: seq<i32>)
    requires Fits(points, normals, colors, v + 1)
    ensures |r| == RecordInts(normals.Some?, colors.Some?)
  {
    Triple(points, 3 * v) + NormalPart(normals, 3 * v) + ColorPart(colors, 3 * v)
  }

  /** The normal of the vertex at `i`, when the surface has normals. */
  function NormalPart(normals: Option<seq<FloatBits>>, i: nat): (r: seq<i32>)
    requires normals.Some? ==> i + 3 <= |normals.value|
    ensures |r| == if normals.Some? then 3 else 0
  {
    match normals
    case Some(n) => Triple(n, i)
    case None => []
  }

  /** The colour of the vertex at `i` and an alpha of 1.0, when the surface has colours. */
  function ColorPart(colors: Option<seq<FloatBits>>, i: nat): (r: seq<i32>)
    requires colors.Some? ==> i + 3 <= |colors.value|
  {
    match colors
    case Some(c) => Triple(c, i) + [ONE_BITS]
    case None => []
  }

  /** The bits of the three floats from index `i`, as `writeInt(floatToIntBits(…))` writes them. */
  function Triple(a: seq<FloatBits>, i: nat): (r: seq<i32>)
    requires i + 3 <= |a|
    ensures |r| == 3 && forall j :: 0 <= j < 3 ==> r[j] == FloatToIntBits(a[i + j])
  {
    [FloatToIntBits(a[i]), FloatToIntBits(a[i + 1]), FloatToIntBits(a[i + 2])]
  }

  /** The records of the first `n` vertices. */
  function VertexRecords(points: seq<FloatBits>, normals: Option<seq<FloatBits>>, colors: Option<seq<FloatBits>>, n: nat): (r: seq<i32>)
    requires Fits(points, normals, colors, n)
  {
    if n == 0 then []
    else VertexRecords(points, normals, colors, n - 1) + VertexRecord(points, normals, colors, n - 1)
  }

  /** The ints of the first `n` vertex records, counted one record at a time. */
  function RecordsSpan(n: nat, normals: bool, colors: bool): nat
  {
    if n == 0 then 0 else RecordsSpan(n - 1, normals, colors) + RecordInts(normals, colors)
  }

  /** The first `n` vertex records span `n` times `RecordInts` ints. */
  lemma {:induction false} RecordsSpanProduct(n: nat, normals: bool, colors: bool)
    ensures RecordsSpan(n, normals, colors) == n * RecordInts(normals, colors)
  {
    if n > 0 {
      RecordsSpanProduct(n - 1, normals, colors);
    }
  }

  /** `n` vertex records of `RecordInts` ints each. */
  lemma {:induction false} VertexRecordsLength(points: seq<FloatBits>, normals: Option<seq<FloatBits>>, colors: Option<seq<FloatBits>>, n: nat)
    requires Fits(points, normals, colors, n)
    ensures |VertexRecords(points, normals, colors, n)| == RecordsSpan(n, normals.Some?, colors.Some?)
  {
    if n > 0 {
      VertexRecordsLength(points, normals, colors, n - 1);
    }
  }

  /** The ints of triangle `t`: a corner count of 3, the corners, and a face colour count of 0. */
  function FaceRecord(faces: seq<i32>, t: nat): (r: seq<i32>)
    requires 3 * t + 3 <= |faces|
  {
    [3, faces[3 * t], faces[3 * t + 1], faces[3 * t + 2], 0]
  }

  /** The records of the first `n` triangles. */
  function FaceRecords(faces: seq<i32>, n: nat): (r: seq<i32>)
    requires 3 * n <= |faces|
    ensures |r| == 5 * n
  {
    if n == 0 then [] else FaceRecords(faces, n - 1) + FaceRecord(faces, n - 1)
  }

  /** The vertex count, the triangle count, and an edge count that is always 0. */
  function Counts(faces: seq<i32>, points: seq<FloatBits>): seq<i32>
    requires |points| <= INT_MAX && |faces| <= INT_MAX
  {
    [|points| / 3, |faces| / 3, 0]
  }

  /** What `saveOff` can write in full: whole vertices, whole triangles, and a normal and a colour (where there are any) for every vertex. */
  predicate Savable(faces: seq<i32>, points: seq<FloatBits>, normals: Option<seq<FloatBits>>, colors: Option<seq<FloatBits>>)
  {
    |points| % 3 == 0 && |faces| % 3 == 0 && Fits(points, normals, colors, |points| / 3)
  }

  /** The ints `saveOff` writes after the header. */
  function OffInts(faces: seq<i32>, points: seq<FloatBits>, normals: Option<seq<FloatBits>>, colors: Option<seq<FloatBits>>): (r: seq<i32>)
    requires |points| <= INT_MAX && |faces| <= INT_MAX && Savable(faces, points, normals, colors)
    ensures |r| == 3 + RecordsSpan(|points| / 3, normals.Some?, colors.Some?) + 5 * (|faces| / 3)
  {
    VertexRecordsLength(points, normals, colors, |points| / 3);
    Counts(faces, points) + VertexRecords(points, normals, colors, |points| / 3) + FaceRecords(faces, |faces| / 3)
  }

  /** Everything `saveOff` writes for a surface whose arrays it can read to the end. */
  function OffBytes(faces: seq<i32>, points: seq<FloatBits>, normals: Option<seq<FloatBits>>, colors: Option<seq<FloatBits>>): (r: seq<u8>)
    requires |points| <= INT_MAX && |faces| <= INT_MAX && Savable(faces, points, normals, colors)
    ensures |r| == |Header(normals.Some?, colors.Some?)| + 4 * |OffInts(faces, points, normals, colors)|
  {
    Header(normals.Some?, colors.Some?) + Words(OffInts(faces, points, normals, colors))
  }

  // ---------------------------------------------------------------------
  // Writing

  /** The floats of an optional array, as `saveOff` sees them. */
  function Optional(a: array?<FloatBits>): (r: Option<seq<FloatBits>>)
    reads a
    ensures r.Some? <==> a != null
    ensures a != null ==> r.value == a[..]
  {
    if a == null then None else Some(a[..])
  }

  /** `floatToIntBits` of the three floats of `a` from index `i`, in order. */
  method GetTriple(a: array<FloatBits>, i: nat) returns (r: seq<i32>)
    requires i + 3 <= a.Length
    ensures r == Triple(a[..], i)
  {
    r := [FloatToIntBits(a[i]), FloatToIntBits(a[i + 1]), FloatToIntBits(a[i + 2])];
  }

  /**
   * `saveOff`'s vertex loop, as the ints it hands to `writeInt`: a record
   * per three points until the points run out. A vertex cut short, or
   * normals or colours shorter than the points, end it with an index out
   * of bounds.
   */
  method PutVertices(s: Surface) returns (ints: seq<i32>, out: Outcome)
    ensures out == Done <==> s.points.Length % 3 == 0 && Fits(s.points[..], Optional(s.normals), Optional(s.colors), s.points.Length / 3)
    ensures out == Done ==> ints == VertexRecords(s.points[..], Optional(s.normals), Optional(s.colors), s.points.Length / 3)
    ensures out.Thrown? ==> out.error == IndexOutOfBounds
  {
    ghost var points, normals, colors := s.points[..], Optional(s.normals), Optional(s.colors);
    ints := [];
    var i := 0;
    ghost var v := 0;
    while i < s.points.Length
      invariant i == 3 * v <= s.points.Length
      invariant Fits(points, normals, colors, v)
      invariant ints == VertexRecords(points, normals, colors, v)
    {
      if i + 2 >= s.points.Length || (s.normals != null && i + 2 >= s.normals.Length) || (s.colors != null && i + 2 >= s.colors.Length) {
        Thirds(v, |points|);
        return ints, Thrown(IndexOutOfBounds);
      }
      var xyz := GetTriple(s.points, i);
      var nrm: seq<i32>, col: seq<i32> := [], [];
      if s.normals != null {
        nrm := GetTriple(s.normals, i);
      }
      if s.colors != null {
        col := GetTriple(s.colors, i);
        col := col + [ONE_BITS];
      }
      assert nrm == NormalPart(normals, i) && col == ColorPart(colors, i);
      ints := ints + (xyz + nrm + col);
      i := i + 3;
      v := v + 1;
    }
    Thirds(v, |points|);
    return ints, Done;
  }

  /** `saveOff`'s face loop, as the ints it hands to `writeInt`: a record per three corners; a triangle cut short ends it with an index out of bounds. */
  method PutFaces(s: Surface) returns (ints: seq<i32>, out: Outcome)
    ensures out == Done <==> s.faces.Length % 3 == 0
    ensures out == Done ==> ints == FaceRecords(s.faces[..], s.faces.Length / 3)
    ensures out.Thrown? ==> out.error == IndexOutOfBounds
  {
    ghost var faces := s.faces[..];
    ints := [];
    var i := 0;
    ghost var t := 0;
    while i < s.faces.Length
      invariant i == 3 * t <= s.faces.Length
      invariant ints == FaceRecords(faces, t)
    {
      if i + 2 >= s.faces.Length {
        Thirds(t, |faces|);
        return ints, Thrown(IndexOutOfBounds);
      }
      ints := ints + [3, s.faces[i], s.faces[i + 1], s.faces[i + 2], 0];
      i := i + 3;
      t := t + 1;
    }
    Thirds(t, |faces|);
    return ints, Done;
  }

  lemma Assoc<T>(a: seq<T>, b: seq<T>, c: seq<T>)
    ensures a + b + c == a + (b + c)
  {
  }

  /** Writing two runs of ints is writing them as one. */
  lemma {:induction false} WordsAppend(xs: seq<i32>, ys: seq<i32>)
    ensures Words(xs + ys) == Words(xs) + Words(ys)
    decreases |ys|
  {
    if |ys| == 0 {
      assert xs + ys == xs;
    } else {
      var init := ys[..|ys| - 1];
      WordsAppend(xs, init);
      assert (xs + ys)[..|xs + ys| - 1] == xs + init;
      assert init + [ys[|ys| - 1]] == ys;
    }
  }

  /**
   * `saveOff(s, o)`, with the bytes written as its result: the header, then
   * through `writeInt` the counts, a record per vertex and one per
   * triangle. The header and the counts are written even when a loop
   * throws.
   */
  method SaveOff(s: Surface) returns (bytes: seq<u8>, out: Outcome)
    requires s.points.Length <= INT_MAX && s.faces.Length <= INT_MAX
    ensures out == Done <==> Savable(s.faces[..], s.points[..], Optional(s.normals), Optional(s.colors))
    ensures out == Done ==> bytes == OffBytes(s.faces[..], s.points[..], Optional(s.normals), Optional(s.colors))
    ensures out.Thrown? ==> out.error == IndexOutOfBounds
    ensures Header(s.normals != null, s.colors != null) + Words(Counts(s.faces[..], s.points[..])) <= bytes
  {
    var saveColor := s.colors != null;
    var saveNormals := s.normals != null;
    var header := "OFF BINARY\n";
    if saveNormals {
      header := "N" + header;
    }
    if saveColor {
      header := "C" + header;
    }
    var counts: seq<i32> := [s.points.Length / 3, s.faces.Length / 3, 0];
    var vertices, triangles := [], [];
    vertices, out := PutVertices(s);
    if out.Done? {
      triangles, out := PutFaces(s);
    }
    var ints := counts + vertices + triangles;
    assert header == HeaderText(saveNormals, saveColor);
    bytes := Ascii(header) + Words(ints);
    assert counts == Counts(s.faces[..], s.points[..]);
    assert Ascii(header) + Words(counts) <= bytes by {
      Assoc(counts, vertices, triangles);
      WordsAppend(counts, vertices + triangles);
      Assoc(Ascii(header), Words(counts), Words(vertices + triangles));
    }
  }

  // ---------------------------------------------------------------------
  // Reading the layout back

  /** `readOff`'s test `head.matches(".{0,2}OFF.+BINARY.*")` on the header line without its newline. */
  predicate MatchesBinary(head: string)
  {
    NoLineBreak(head) && exists p, q :: 0 <= p <= 2 && p + 3 < q <= |head| && WordAt(head, p, "OFF") && WordAt(head, q, "BINARY")
  }

  /** `word` stands in `s` from index `p` on. */
  predicate WordAt(s: string, p: nat, word: string)
  {
    p + |word| <= |s| && s[p..p + |word|] == word
  }

  /** `.` in a Java regular expression matches every character but a line terminator. */
  predicate NoLineBreak(s: string)
  {
    forall k :: 0 <= k < |s| ==> s[k] !in {'\n', '\r', '\U{85}', '\U{2028}', '\U{2029}'}
  }

  /** "OFF BINARY" after at most two ordinary characters is a binary header line. */
  lemma BinaryHead(prefix: string)
    requires |prefix| <= 2 && NoLineBreak(prefix)
    ensures MatchesBinary(prefix + "OFF BINARY")
  {
    var head := prefix + "OFF BINARY";
    var p := |prefix|;
    assert head[p..] == "OFF BINARY";
    assert head[p..p + 3] == head[p..][..3];
    assert head[p + 4..p + 10] == head[p..][4..10];
    assert WordAt(head, p, "OFF") && WordAt(head, p + 4, "BINARY");
    forall k | 0 <= k < |head|
      ensures head[k] !in {'\n', '\r', '\U{85}', '\U{2028}', '\U{2029}'}
    {
      if k >= p {
        assert head[k] == head[p..][k - p];
      }
    }
  }

  /**
   * The header line is one `readOff` takes for binary, and the flags it reads
   * from it are the ones `saveOff` wrote: colours when the line starts with
   * 'C', normals when its first or second character is 'N'.
   */
  lemma HeaderFlags(normals: bool, colors: bool)
    ensures var h := HeaderText(normals, colors);
      && h[|h| - 1] == '\n' && MatchesBinary(h[..|h| - 1])
      && (h[0] == 'C' <==> colors)
      && (h[0] == 'N' || h[1] == 'N' <==> normals)
  {
    var prefix := (if colors then "C" else "") + (if normals then "N" else "");
    var h := HeaderText(normals, colors);
    assert h == prefix + "OFF BINARY\n";
    assert h[..|h| - 1] == prefix + "OFF BINARY";
    BinaryHead(prefix);
  }

  /** Record `t` sits 5 ints per triangle into the triangle records. */
  lemma {:induction false} FaceRecordAt(faces: seq<i32>, n: nat, t: nat)
    requires 3 * n <= |faces| && t < n
    ensures FaceRecords(faces, n)[5 * t..5 * t + 5] == FaceRecord(faces, t)
  {
    var rest, last := FaceRecords(faces, n - 1), FaceRecord(faces, n - 1);
    if t < n - 1 {
      FaceRecordAt(faces, n - 1, t);
      SliceBefore(rest, last, 5 * t, 5 * t + 5);
    } else {
      SliceAfter(rest, last, 5 * t, 0, 5);
    }
  }

  /** The records of fewer vertices come first in the records of more. */
  lemma VertexRecordsPrefix(points: seq<FloatBits>, normals: Option<seq<FloatBits>>, colors: Option<seq<FloatBits>>, m: nat, n: nat)
    requires Fits(points, normals, colors, n) && m <= n
    ensures VertexRecords(points, normals, colors, m) <= VertexRecords(points, normals, colors, n)
  {
    var k := m;
    while k < n
      invariant m <= k <= n
      invariant VertexRecords(points, normals, colors, m) <= VertexRecords(points, normals, colors, k)
    {
      VertexRecordsStep(points, normals, colors, k + 1);
      PrefixTrans(VertexRecords(points, normals, colors, m), VertexRecords(points, normals, colors, k),
                  VertexRecords(points, normals, colors, k + 1));
      k := k + 1;
    }
  }

  /** The records of `n - 1` vertices begin the records of `n`. */
  lemma VertexRecordsStep(points: seq<FloatBits>, normals: Option<seq<FloatBits>>, colors: Option<seq<FloatBits>>, n: nat)
    requires Fits(points, normals, colors, n) && n > 0
    ensures VertexRecords(points, normals, colors, n - 1) <= VertexRecords(points, normals, colors, n)
  {
    var before := VertexRecords(points, normals, colors, n - 1);
    assert VertexRecords(points, normals, colors, n)[..|before|] == before;
  }

  lemma PrefixTrans<T>(a: seq<T>, b: seq<T>, c: seq<T>)
    requires a <= b && b <= c
    ensures a <= c
  {
    assert c[..|a|] == b[..|a|];
  }

  /** Record `v` follows the records before it, in the records of all `n` vertices. */
  lemma VertexRecordAt(points: seq<FloatBits>, normals: Option<seq<FloatBits>>, colors: Option<seq<FloatBits>>, n: nat, v: nat)
    requires Fits(points, normals, colors, n) && v < n
    ensures VertexRecords(points, normals, colors, v) + VertexRecord(points, normals, colors, v)
            <= VertexRecords(points, normals, colors, n)
  {
    VertexRecordsPrefix(points, normals, colors, v + 1, n);
  }

  /** Element `j` of `b`, where `a + b` begins `r`, is element `at` of `c + r + f`. */
  lemma IndexInPrefix<T>(c: seq<T>, a: seq<T>, b: seq<T>, r: seq<T>, f: seq<T>, j: nat, at: nat)
    requires a + b <= r && j < |b| && at == |c| + |a| + j
    ensures at < |c + r + f| && (c + r + f)[at] == b[j]
  {
    assert (a + b)[|a| + j] == b[j];
  }

  /** Where int `k` after the header starts. */
  function IntOffset(normals: bool, colors: bool, k: nat): nat
  {
    |Header(normals, colors)| + 4 * k
  }

  /** `readOff` reads every int `saveOff` wrote after the header from its place. */
  lemma OffRead(faces: seq<i32>, points: seq<FloatBits>, normals: Option<seq<FloatBits>>, colors: Option<seq<FloatBits>>, k: nat)
    requires |points| <= INT_MAX && |faces| <= INT_MAX && Savable(faces, points, normals, colors)
    requires k < |OffInts(faces, points, normals, colors)|
    ensures var at := IntOffset(normals.Some?, colors.Some?, k);
      ReadInt(OffBytes(faces, points, normals, colors), at) == (OffInts(faces, points, normals, colors)[k], at + 4)
  {
    ReadWords(Header(normals.Some?, colors.Some?), OffInts(faces, points, normals, colors), k);
  }

  /** After the header line come the vertex count, the triangle count and an edge count of 0. */
  lemma CountsAt(faces: seq<i32>, points: seq<FloatBits>, normals: Option<seq<FloatBits>>, colors: Option<seq<FloatBits>>)
    requires |points| <= INT_MAX && |faces| <= INT_MAX && Savable(faces, points, normals, colors)
    ensures OffInts(faces, points, normals, colors)[..3] == [|points| / 3, |faces| / 3, 0]
  {
    var rest := VertexRecords(points, normals, colors, |points| / 3) + FaceRecords(faces, |faces| / 3);
    assert OffInts(faces, points, normals, colors) == Counts(faces, points) + rest;
  }

  /** The record of vertex `v` follows the three counts and the records of the vertices before it. */
  lemma VertexAt(faces: seq<i32>, points: seq<FloatBits>, normals: Option<seq<FloatBits>>, colors: Option<seq<FloatBits>>, v: nat, j: nat)
    requires |points| <= INT_MAX && |faces| <= INT_MAX && Savable(faces, points, normals, colors)
    requires v < |points| / 3 && j < RecordInts(normals.Some?, colors.Some?)
    ensures var at := 3 + RecordsSpan(v, normals.Some?, colors.Some?) + j;
      Fits(points, normals, colors, v + 1) && at < |OffInts(faces, points, normals, colors)| &&
      OffInts(faces, points, normals, colors)[at] == VertexRecord(points, normals, colors, v)[j]
  {
    var all := VertexRecords(points, normals, colors, |points| / 3);
    VertexRecordsLength(points, normals, colors, v);
    VertexRecordAt(points, normals, colors, |points| / 3, v);
    IndexInPrefix(Counts(faces, points), VertexRecords(points, normals, colors, v), VertexRecord(points, normals, colors, v),
                  all, FaceRecords(faces, |faces| / 3), j, 3 + RecordsSpan(v, normals.Some?, colors.Some?) + j);
  }

  /**
   * Int `j` of the record of vertex `v`, as `readOff` reads it: the bits of
   * its three coordinates, then of its normal, then of its colour and an
   * alpha of 1, every NaN written as the canonical one.
   */
  lemma VertexField(points: seq<FloatBits>, normals: Option<seq<FloatBits>>, colors: Option<seq<FloatBits>>, v: nat, j: nat)
    requires Fits(points, normals, colors, v + 1) && j < RecordInts(normals.Some?, colors.Some?)
    ensures var n := if normals.Some? then 3 else 0;
      VertexRecord(points, normals, colors, v)[j] ==
        if j < 3 then FloatToIntBits(points[3 * v + j])
        else if j < 3 + n then FloatToIntBits(normals.value[3 * v + j - 3])
        else if j < 6 + n then FloatToIntBits(colors.value[3 * v + j - 3 - n])
        else ONE_BITS
  {
    var i := 3 * v;
    var xyz, nrm, col := Triple(points, i), NormalPart(normals, i), ColorPart(colors, i);
    assert VertexRecord(points, normals, colors, v) == xyz + nrm + col;
    if j < 3 {
      assert (xyz + nrm + col)[j] == xyz[j];
    } else if j < 3 + |nrm| {
      assert (xyz + nrm + col)[j] == nrm[j - 3];
    } else {
      assert (xyz + nrm + col)[j] == col[j - 3 - |nrm|];
    }
  }

  /** The record of triangle `t` is a corner count of 3, its three corners, and a colour count of 0. */
  lemma FaceAt(faces: seq<i32>, points: seq<FloatBits>, normals: Option<seq<FloatBits>>, colors: Option<seq<FloatBits>>, t: nat)
    requires |points| <= INT_MAX && |faces| <= INT_MAX && Savable(faces, points, normals, colors)
    requires t < |faces| / 3
    ensures var at := 3 + RecordsSpan(|points| / 3, normals.Some?, colors.Some?) + 5 * t;
      && at + 5 <= |OffInts(faces, points, normals, colors)|
      && OffInts(faces, points, normals, colors)[at..at + 5] == [3, faces[3 * t], faces[3 * t + 1], faces[3 * t + 2], 0]
  {
    VertexRecordsLength(points, normals, colors, |points| / 3);
    FaceAfter(Counts(faces, points) + VertexRecords(points, normals, colors, |points| / 3), faces, |faces| / 3, t,
              3 + RecordsSpan(|points| / 3, normals.Some?, colors.Some?) + 5 * t);
  }

  /** Record `t` of the triangle records, placed after `before`, starts `|before| + 5 * t` ints in. */
  lemma FaceAfter(before: seq<i32>, faces: seq<i32>, n: nat, t: nat, lo: nat)
    requires 3 * n <= |faces| && t < n && lo == |before| + 5 * t
    ensures lo + 5 <= |before + FaceRecords(faces, n)| && (before + FaceRecords(faces, n))[lo..lo + 5] == FaceRecord(faces, t)
  {
    FaceRecordAt(faces, n, t);
    SliceAfter(before, FaceRecords(faces, n), lo, 5 * t, 5);
  }
}
