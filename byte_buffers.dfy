// The part of java.nio.ByteBuffer the modelled code uses: absolute get and put
// of 1, 2, 4 and 8 byte words in either byte order. A buffer is the sequence of
// its bytes (unsigned view); words are encoded as the low-order bytes of the
// value, least significant first for little-endian.

module ByteBuffers {
  import opened Java

  datatype ByteOrder = LittleEndian | BigEndian

  function Pow256(n: nat): (r: nat)
    ensures r >= 1
  {
    if n == 0 then 1 else 256 * Pow256(n - 1)
  }

  /** The `n` low-order bytes of `v`, least significant first. */
  function LittleBytes(v: int, n: nat): (r: seq<u8>)
    ensures |r| == n
    decreases n
  {
    if n == 0 then [] else [v % 256] + LittleBytes(v / 256, n - 1)
  }

  /** The unsigned number whose little-endian bytes are `bs`. */
  function LittleValue(bs: seq<u8>): (r: nat)
    ensures r < Pow256(|bs|)
  {
    if |bs| == 0 then 0 else bs[0] + 256 * LittleValue(bs[1..])
  }

  function Reverse(s: seq<u8>): (r: seq<u8>)
    ensures |r| == |s|
    ensures forall i :: 0 <= i < |s| ==> r[i] == s[|s| - 1 - i]
  {
    if |s| == 0 then [] else Reverse(s[1..]) + [s[0]]
  }

  lemma ReverseReverse(s: seq<u8>)
    ensures Reverse(Reverse(s)) == s
  {
    assert Reverse(Reverse(s)) == s;
  }

  /** The `n`-byte encoding of `v` in byte order `order`. */
  function Encode(v: int, n: nat, order: ByteOrder): (r: seq<u8>)
    ensures |r| == n
  {
    if order == LittleEndian then LittleBytes(v, n) else Reverse(LittleBytes(v, n))
  }

  /** The unsigned number encoded by `bs` in byte order `order`. */
  function Decode(bs: seq<u8>, order: ByteOrder): (r: nat)
    ensures r < Pow256(|bs|)
  {
    if order == LittleEndian then LittleValue(bs) else LittleValue(Reverse(bs))
  }

  lemma ModSplit(v: int, p: nat)
    requires p >= 1
    ensures v % (256 * p) == v % 256 + 256 * ((v / 256) % p)
  {
    var q, r := v / 256, v % 256;
    var k, s := q / p, q % p;
    assert v == 256 * q + r;
    assert q == p * k + s;
    assert v == (256 * p) * k + (256 * s + r);
    ModUnique(v, 256 * p, k, 256 * s + r);
  }

  /** Decoding the `n`-byte encoding of `v` gives `v` modulo 256^n. */
  lemma {:induction false} LittleRoundTrip(v: int, n: nat)
    ensures LittleValue(LittleBytes(v, n)) == v % Pow256(n)
    decreases n
  {
    if n > 0 {
      LittleRoundTrip(v / 256, n - 1);
      assert LittleBytes(v, n)[1..] == LittleBytes(v / 256, n - 1);
      ModSplit(v, Pow256(n - 1));
    }
  }

  /** Encoding the number a byte sequence decodes to gives the bytes back. */
  lemma {:induction false} LittleValueRoundTrip(bs: seq<u8>)
    ensures LittleBytes(LittleValue(bs), |bs|) == bs
  {
    if |bs| > 0 {
      var rest := LittleValue(bs[1..]);
      ModUnique(LittleValue(bs), 256, rest, bs[0]);
      LittleValueRoundTrip(bs[1..]);
    }
  }

  lemma DecodeEncode(v: int, n: nat, order: ByteOrder)
    ensures Decode(Encode(v, n, order), order) == v % Pow256(n)
  {
    LittleRoundTrip(v, n);
    if order == BigEndian {
      ReverseReverse(LittleBytes(v, n));
    }
  }

  lemma EncodeDecode(bs: seq<u8>, order: ByteOrder)
    ensures Encode(Decode(bs, order), |bs|, order) == bs
  {
    if order == LittleEndian {
      LittleValueRoundTrip(bs);
    } else {
      LittleValueRoundTrip(Reverse(bs));
      ReverseReverse(bs);
    }
  }

  /** Absolute bulk put: `bytes` replace the buffer at `at`, nothing else changes. */
  function Put(b: seq<u8>, at: nat, bytes: seq<u8>): (r: seq<u8>)
    requires at + |bytes| <= |b|
    ensures |r| == |b|
    ensures r[at..at + |bytes|] == bytes
    ensures forall i :: 0 <= i < |b| && !(at <= i < at + |bytes|) ==> r[i] == b[i]
  {
    seq(|b|, i requires 0 <= i < |b| => if at <= i < at + |bytes| then bytes[i - at] else b[i])
  }

  /** `getShort(at)` */
  function GetShort(b: seq<u8>, at: nat, order: ByteOrder): i16
    requires at + 2 <= |b|
  {
    ToShort(Decode(b[at..at + 2], order))
  }

  /** `getChar(at)`: the same two bytes read unsigned. */
  function GetChar(b: seq<u8>, at: nat, order: ByteOrder): u16
    requires at + 2 <= |b|
  {
    Decode(b[at..at + 2], order)
  }

  /** `getInt(at)` */
  function GetInt(b: seq<u8>, at: nat, order: ByteOrder): i32
    requires at + 4 <= |b|
  {
    ToInt(Decode(b[at..at + 4], order))
  }

  /** `getLong(at)` */
  function GetLong(b: seq<u8>, at: nat, order: ByteOrder): i64
    requires at + 8 <= |b|
  {
    var u := Decode(b[at..at + 8], order);
    assert Pow256(8) == 0x1_0000_0000_0000_0000;
    if u >= 0x8000_0000_0000_0000 then u - 0x1_0000_0000_0000_0000 else u
  }

  /** `putShort(at, v)` */
  function PutShort(b: seq<u8>, at: nat, v: int, order: ByteOrder): (r: seq<u8>)
    requires at + 2 <= |b|
    ensures |r| == |b|
  {
    Put(b, at, Encode(v, 2, order))
  }

  /** `putInt(at, v)`; also `putFloat(at, f)` given the bit pattern of `f`. */
  function PutInt(b: seq<u8>, at: nat, v: int, order: ByteOrder): (r: seq<u8>)
    requires at + 4 <= |b|
    ensures |r| == |b|
  {
    Put(b, at, Encode(v, 4, order))
  }

  /** A short written at `at` reads back as the value narrowed to a short. */
  lemma GetPutShort(b: seq<u8>, at: nat, v: int, order: ByteOrder)
    requires at + 2 <= |b|
    ensures GetShort(PutShort(b, at, v, order), at, order) == ToShort(v)
  {
    DecodeEncode(v, 2, order);
  }

  /** An int written at `at` reads back as the value narrowed to an int. */
  lemma GetPutInt(b: seq<u8>, at: nat, v: int, order: ByteOrder)
    requires at + 4 <= |b|
    ensures GetInt(PutInt(b, at, v, order), at, order) == ToInt(v)
  {
    PutSlice(b, at, Encode(v, 4, order), 0, 4);
    DecodeEncode(v, 4, order);
    assert Pow256(4) == 0x1_0000_0000;
    ToIntOfPattern(v);
  }

  /** Narrowing to an int depends only on the low 32 bits. */
  lemma ToIntOfPattern(v: int)
    ensures ToInt(v % 0x1_0000_0000) == ToInt(v)
  {
  }

  /** A word decoded from the bytes of an encoding, where the bytes sit at `at`. */
  lemma DecodeAt(b: seq<u8>, at: nat, v: int, n: nat, order: ByteOrder)
    requires at + n <= |b| && b[at..at + n] == Encode(v, n, order)
    ensures Decode(b[at..at + n], order) == v % Pow256(n)
  {
    DecodeEncode(v, n, order);
  }

  /** An int written at `at` reads back. */
  lemma GetIntAt(buf: seq<u8>, at: nat, v: i32, order: ByteOrder)
    requires at + 4 <= |buf| && buf[at..at + 4] == Encode(v, 4, order)
    ensures GetInt(buf, at, order) == v
  {
    DecodeAt(buf, at, v, 4, order);
    assert Pow256(4) == 0x1_0000_0000;
    ToIntOfPattern(v);
  }

  /** The 2-byte encodings of `vs`, one after another: the bytes a loop of `putShort`s over an array writes. */
  function ShortBytes(vs: seq<int>, order: ByteOrder): (r: seq<u8>)
    ensures |r| == 2 * |vs|
  {
    if |vs| == 0 then [] else ShortBytes(vs[..|vs| - 1], order) + Encode(vs[|vs| - 1], 2, order)
  }

  /** The 4-byte encodings of `vs`, one after another: the bytes a loop of `putInt`s or `putFloat`s writes. */
  function IntBytes(vs: seq<int>, order: ByteOrder): (r: seq<u8>)
    ensures |r| == 4 * |vs|
  {
    if |vs| == 0 then [] else IntBytes(vs[..|vs| - 1], order) + Encode(vs[|vs| - 1], 4, order)
  }

  /** Short `j` of the run is the encoding of `vs[j]`. */
  lemma {:induction false} ShortBytesAt(vs: seq<int>, order: ByteOrder, j: nat)
    requires j < |vs|
    ensures ShortBytes(vs, order)[2 * j..2 * j + 2] == Encode(vs[j], 2, order)
  {
    var k := |vs| - 1;
    var front := ShortBytes(vs[..k], order);
    assert ShortBytes(vs, order) == front + Encode(vs[k], 2, order);
    if j < k {
      assert front[2 * j..2 * j + 2] == Encode(vs[j], 2, order) by {
        ShortBytesAt(vs[..k], order, j);
        assert vs[..k][j] == vs[j];
      }
      SliceOfFront(front, Encode(vs[k], 2, order), 2 * j, 2);
    } else {
      SliceOfBack(front, Encode(vs[k], 2, order), 2 * j, 2);
    }
  }

  /** Int `j` of the run is the encoding of `vs[j]`. */
  lemma {:induction false} IntBytesAt(vs: seq<int>, order: ByteOrder, j: nat)
    requires j < |vs|
    ensures IntBytes(vs, order)[4 * j..4 * j + 4] == Encode(vs[j], 4, order)
  {
    var k := |vs| - 1;
    var front := IntBytes(vs[..k], order);
    assert IntBytes(vs, order) == front + Encode(vs[k], 4, order);
    if j < k {
      assert front[4 * j..4 * j + 4] == Encode(vs[j], 4, order) by {
        IntBytesAt(vs[..k], order, j);
        assert vs[..k][j] == vs[j];
      }
      SliceOfFront(front, Encode(vs[k], 4, order), 4 * j, 4);
    } else {
      SliceOfBack(front, Encode(vs[k], 4, order), 4 * j, 4);
    }
  }

  lemma SliceOfFront(xs: seq<u8>, ys: seq<u8>, i: nat, n: nat)
    requires i + n <= |xs|
    ensures (xs + ys)[i..i + n] == xs[i..i + n]
  {
  }

  lemma SliceOfBack(xs: seq<u8>, ys: seq<u8>, i: nat, n: nat)
    requires i == |xs| && n == |ys|
    ensures (xs + ys)[i..i + n] == ys
  {
  }

  /** A short among a run put at `at` reads back as itself. */
  lemma {:induction false} GetShortOfRun(b: seq<u8>, at: nat, vs: seq<int>, order: ByteOrder, j: nat)
    requires at + 2 * |vs| <= |b| && j < |vs| && -0x8000 <= vs[j] < 0x8000
    ensures GetShort(Put(b, at, ShortBytes(vs, order)), at + 2 * j, order) == vs[j]
  {
    var w := Put(b, at, ShortBytes(vs, order))[at + 2 * j..at + 2 * j + 2];
    assert w == Encode(vs[j], 2, order) by {
      ShortBytesAt(vs, order, j);
      PutSlice(b, at, ShortBytes(vs, order), 2 * j, 2);
    }
    DecodeShort(vs[j], order);
  }

  /** The bytes `bytes[i..i + n]` sit at `at + i` once `bytes` is put at `at`. */
  lemma PutSlice(b: seq<u8>, at: nat, bytes: seq<u8>, i: nat, n: nat)
    requires at + |bytes| <= |b| && i + n <= |bytes|
    ensures Put(b, at, bytes)[at + i..at + i + n] == bytes[i..i + n]
  {
    var r := Put(b, at, bytes);
    assert r[at + i..at + i + n] == r[at..at + |bytes|][i..i + n];
  }

  /** A short encoded and read back as a short is itself. */
  lemma DecodeShort(v: int, order: ByteOrder)
    requires -0x8000 <= v < 0x8000
    ensures ToShort(Decode(Encode(v, 2, order), order)) == v
  {
    DecodeEncode(v, 2, order);
    assert Pow256(2) == 0x1_0000;
    ShortOfUnsigned(v, v % 0x1_0000);
  }

  /** The short whose unsigned 16-bit reading is `d` is `v` again. */
  lemma ShortOfUnsigned(v: int, d: int)
    requires -0x8000 <= v < 0x8000 && d == v % 0x1_0000
    ensures ToShort(d) == v
  {
    if v < 0 {
      assert d == v + 0x1_0000;
    }
  }

  /** A 32-bit pattern encoded and decoded is itself. */
  lemma DecodeWord(v: int, order: ByteOrder)
    requires 0 <= v < 0x1_0000_0000
    ensures Decode(Encode(v, 4, order), order) == v
  {
    DecodeEncode(v, 4, order);
    assert Pow256(4) == 0x1_0000_0000;
  }

  /** A slice of a slice is a slice of the whole. */
  lemma SliceWithin(b: seq<u8>, lo: nat, hi: nat, i: nat, j: nat)
    requires lo <= hi <= |b| && i <= j <= hi - lo
    ensures b[lo..hi][i..j] == b[lo + i..lo + j]
  {
    var outer := b[lo..hi];
    var inner := outer[i..j];
    forall t | 0 <= t < |inner|
      ensures inner[t] == b[lo + i + t]
    {
    }
    assert inner == b[lo + i..lo + j];
  }

  /** A word among a run put at `at` reads back as its 32-bit pattern. */
  lemma {:induction false} WordOfRun(b: seq<u8>, at: nat, vs: seq<int>, order: ByteOrder, j: nat)
    requires at + 4 * |vs| <= |b| && j < |vs| && 0 <= vs[j] < 0x1_0000_0000
    ensures Decode(Put(b, at, IntBytes(vs, order))[at + 4 * j..at + 4 * j + 4], order) == vs[j]
  {
    var w := Put(b, at, IntBytes(vs, order))[at + 4 * j..at + 4 * j + 4];
    assert w == Encode(vs[j], 4, order) by {
      IntBytesAt(vs, order, j);
      PutSlice(b, at, IntBytes(vs, order), 4 * j, 4);
    }
    DecodeWord(vs[j], order);
  }

  /** Two puts side by side are one put of the joined bytes. */
  lemma PutThenPut(b: seq<u8>, at: nat, xs: seq<u8>, ys: seq<u8>)
    requires at + |xs| + |ys| <= |b|
    ensures Put(Put(b, at, xs), at + |xs|, ys) == Put(b, at, xs + ys)
  {
  }

  /** A put leaves the bytes outside its range as they were. */
  lemma PutOutside(b: seq<u8>, at: nat, bytes: seq<u8>, lo: nat, hi: nat)
    requires at + |bytes| <= |b| && lo <= hi <= |b|
    requires hi <= at || at + |bytes| <= lo
    ensures Put(b, at, bytes)[lo..hi] == b[lo..hi]
  {
  }

  /** One absolute bulk put: `bytes` at offset `at`. */
  datatype Write = Write(at: nat, bytes: seq<u8>)

  /** Every put of `ws` lies inside a buffer of `n` bytes. */
  predicate Fits(ws: seq<Write>, n: nat)
  {
    forall j :: 0 <= j < |ws| ==> ws[j].at + |ws[j].bytes| <= n
  }

  /** The range [lo, hi) and the `n` bytes from `at` do not overlap. */
  predicate Apart(lo: int, hi: int, at: int, n: int)
  {
    hi <= at || at + n <= lo
  }

  /** The puts of `ws` done one after another, first to last. */
  function PutAll(b: seq<u8>, ws: seq<Write>): (r: seq<u8>)
    requires Fits(ws, |b|)
    ensures |r| == |b|
  {
    if |ws| == 0 then b
    else
      var w := ws[|ws| - 1];
      Put(PutAll(b, ws[..|ws| - 1]), w.at, w.bytes)
  }

  /** Puts from the `k`-th on that all miss [lo, hi) leave it as the first `k` puts left it. */
  lemma {:induction false} PutAllLater(b: seq<u8>, ws: seq<Write>, k: nat, lo: nat, hi: nat)
    requires Fits(ws, |b|) && k <= |ws| && lo <= hi <= |b|
    requires forall j :: k <= j < |ws| ==> Apart(lo, hi, ws[j].at, |ws[j].bytes|)
    ensures PutAll(b, ws)[lo..hi] == PutAll(b, ws[..k])[lo..hi]
  {
    if k < |ws| {
      var n := |ws| - 1;
      PutAllLater(b, ws[..n], k, lo, hi);
      assert ws[..n][..k] == ws[..k];
      PutOutside(PutAll(b, ws[..n]), ws[n].at, ws[n].bytes, lo, hi);
    } else {
      assert ws[..k] == ws;
    }
  }

  /** The bytes of put `k` are still in place when no later put overlaps them. */
  lemma PutAllField(b: seq<u8>, ws: seq<Write>, k: nat)
    requires Fits(ws, |b|) && k < |ws|
    requires forall j :: k < j < |ws| ==> Apart(ws[k].at, ws[k].at + |ws[k].bytes|, ws[j].at, |ws[j].bytes|)
    ensures PutAll(b, ws)[ws[k].at..ws[k].at + |ws[k].bytes|] == ws[k].bytes
  {
    PutAllLater(b, ws, k + 1, ws[k].at, ws[k].at + |ws[k].bytes|);
    assert ws[..k + 1][..k] == ws[..k];
  }

  /** A byte no put of `ws` touches keeps its value. */
  lemma PutAllUntouched(b: seq<u8>, ws: seq<Write>, i: nat)
    requires Fits(ws, |b|) && i < |b|
    requires forall j :: 0 <= j < |ws| ==> Apart(i, i + 1, ws[j].at, |ws[j].bytes|)
    ensures PutAll(b, ws)[i] == b[i]
  {
    PutAllLater(b, ws, 0, i, i + 1);
    assert PutAll(b, ws)[i] == PutAll(b, ws)[i..i + 1][0];
  }

  /** Word `k` of a run of words found at `lo` decodes to its 32-bit pattern. */
  lemma WordOfField(b: seq<u8>, lo: nat, vs: seq<int>, order: ByteOrder, k: nat)
    requires lo + 4 * |vs| <= |b| && b[lo..lo + 4 * |vs|] == IntBytes(vs, order)
    requires k < |vs| && 0 <= vs[k] < 0x1_0000_0000
    ensures Decode(b[lo + 4 * k..lo + 4 * k + 4], order) == vs[k]
  {
    assert b[lo + 4 * k..lo + 4 * k + 4] == Encode(vs[k], 4, order) by {
      SliceWithin(b, lo, lo + 4 * |vs|, 4 * k, 4 * k + 4);
      IntBytesAt(vs, order, k);
    }
    DecodeWord(vs[k], order);
  }
}
