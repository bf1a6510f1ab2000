// MAT-file variables: the element type codes every container reports, the
// column-major index arithmetic every container shares (`getIndex`), and the
// size of a container's data array (the product of its extents).

module MatVars {
  import opened Java

  const INT8: int := 1
  const UINT8: int := 2
  const INT16: int := 3
  const UINT16: int := 4
  const INT32: int := 5
  const UINT32: int := 6
  const SINGLE: int := 7
  const DOUBLE: int := 9
  const INT64: int := 12
  const UINT64: int := 13
  const MATRIX: int := 14
  const TEXT: int := 15
  const BOOLEAN: int := 30

  // The MATLAB array classes; a loaded variable's container is named by its class.
  const mxCELL_CLASS: int := 1
  const mxSTRUCT_CLASS: int := 2
  const mxOBJECT_CLASS: int := 3
  const mxCHAR_CLASS: int := 4
  const mxSPARSE_CLASS: int := 5
  const mxDOUBLE_CLASS: int := 6
  const mxSINGLE_CLASS: int := 7
  const mxINT8_CLASS: int := 8
  const mxUINT8_CLASS: int := 9
  const mxINT16_CLASS: int := 10
  const mxUINT16_CLASS: int := 11
  const mxINT32_CLASS: int := 12
  const mxUINT32_CLASS: int := 13

  /** A variable's name: the UTF-16 code units of the Java string. */
  type Name = seq<int>

  /** The width in bytes of one element of a numeric type code, 0 for the others. */
  function ElementBytes(t: int): nat
  {
    if t == INT8 || t == UINT8 then 1
    else if t == INT16 || t == UINT16 then 2
    else if t == INT32 || t == UINT32 || t == SINGLE then 4
    else if t == DOUBLE || t == INT64 || t == UINT64 then 8
    else 0
  }

  /** The unsigned integer type codes. */
  predicate UnsignedCode(t: int)
  {
    t == UINT8 || t == UINT16 || t == UINT32 || t == UINT64
  }

  /** The number of elements of an array with extents `dim`. */
  function Product(dim: seq<int>): int
  {
    if |dim| == 0 then 1 else dim[0] * Product(dim[1..])
  }

  /**
   * The column-major position of `index`: index[0] + dim[0]*(index[1] +
   * dim[1]*(...)). The last extent never takes part.
   */
  function ColumnMajor(index: seq<int>, dim: seq<int>): int
    requires 1 <= |index| <= |dim| + 1
    decreases |index|
  {
    if |index| == 1 then index[0]
    else index[0] + dim[0] * ColumnMajor(index[1..], dim[1..])
  }

  /** Every subscript lies within its extent. */
  predicate InRange(index: seq<int>, dim: seq<int>)
  {
    |index| <= |dim| && forall k :: 0 <= k < |index| ==> 0 <= index[k] < dim[k]
  }

  /**
   * What `getIndex(index)` gives: the column-major position narrowed to a
   * Java int, or the exception.
   */
  function Index(index: seq<int>, dim: seq<int>): (r: Result<int>)
    ensures r.Fail? <==> |index| == 0 || |dim| < |index| - 1
    ensures r.Ok? ==> INT_MIN <= r.value <= INT_MAX && (r.value - ColumnMajor(index, dim)) % 0x1_0000_0000 == 0
  {
    if 1 <= |index| <= |dim| + 1 then Ok(ToInt(ColumnMajor(index, dim))) else Fail(IndexOutOfBounds)
  }

  /**
   * `getIndex(index)`: the downward loop accumulates
   * `i = (i + index[j]) * dim[j-1]` in int arithmetic for j from the last
   * subscript down to 1, then adds index[0]. The extent `dim[|index|-2]` is
   * read in the first round and `index[0]` after the loop; either missing
   * element throws, and since nothing is stored before, both checks are made
   * up front.
   */
  method GetIndex(index: seq<i32>, dim: seq<i32>) returns (r: Result<int>)
    ensures r.Fail? <==> |index| == 0 || |dim| < |index| - 1
    ensures r.Fail? ==> r.error == IndexOutOfBounds
    ensures r.Ok? ==> r.value == ToInt(ColumnMajor(index, dim))
    ensures r.Ok? && |index| == 2 ==> r.value == ToInt(index[0] as int + index[1] as int * dim[0] as int)
  {
    if |index| == 0 || |dim| < |index| - 1 {
      return Fail(IndexOutOfBounds);
    }
    var i: i32 := 0;
    var j := |index| - 1;
    while j > 0
      invariant 0 <= j < |index|
      invariant ToInt(i + index[j] as int) == ToInt(ColumnMajor(index[j..], dim[j..]))
    {
      assert index[j - 1..][1..] == index[j..] && dim[j - 1..][1..] == dim[j..];
      WrapStep(i + index[j] as int, ColumnMajor(index[j..], dim[j..]), dim[j - 1], index[j - 1]);
      i := ToInt((i + index[j]) * dim[j - 1] as int);
      j := j - 1;
    }
    assert index[0..] == index && dim[0..] == dim;
    if |index| == 2 {
      ColumnMajorPair(index, dim);
    }
    return Ok(ToInt(i + index[0] as int));
  }

  /** Two subscripts address `index[0] + index[1] * dim[0]`. */
  lemma ColumnMajorPair(index: seq<int>, dim: seq<int>)
    requires |index| == 2 && 1 <= |dim|
    ensures ColumnMajor(index, dim) == index[0] + index[1] * dim[0]
  {
    assert ColumnMajor(index[1..], dim[1..]) == index[1];
    assert dim[0] * index[1] == index[1] * dim[0];
  }

  /** An int addition that wraps gives the narrowed exact sum. */
  lemma ToIntOfSum(a: int, b: int)
    ensures ToInt(ToInt(a) + b) == ToInt(a + b)
  {
    var k := (a - ToInt(a)) / 0x1_0000_0000;
    assert a == ToInt(a) + 0x1_0000_0000 * k;
    ToIntCongruent(ToInt(a) + b, a + b);
  }

  /**
   * One round of the loop in int arithmetic: accumulators that agree as ints
   * still agree after `(acc * d)` is narrowed and the next subscript added.
   */
  lemma WrapStep(a: int, c: int, d: int, x: int)
    requires ToInt(a) == ToInt(c)
    ensures ToInt(ToInt(a * d) + x) == ToInt(x + d * c)
  {
    ToIntOfProduct(a, d);
    ToIntOfProduct(c, d);
    ToIntOfSum(a * d, x);
    ToIntOfSum(c * d, x);
    assert c * d + x == x + d * c;
  }

  /**
   * Subscripts past their extents are not checked: in a 2 x 2 variable the
   * subscript (2, 2147483647) wraps around to slot 0.
   */
  lemma IndexWraps()
    ensures ColumnMajor([2, 0x7fff_ffff], [2, 2]) == 0x1_0000_0000
    ensures Index([2, 0x7fff_ffff], [2, 2]) == Ok(0)
  {
    assert [2, 0x7fff_ffff][1..] == [0x7fff_ffff];
    assert [2, 2][1..] == [2];
  }

  /** Appending an extent multiplies the product by it. */
  lemma {:induction false} ProductSnoc(dim: seq<int>, d: int)
    ensures Product(dim + [d]) == Product(dim) * d
    decreases |dim|
  {
    if |dim| > 0 {
      assert (dim + [d])[1..] == dim[1..] + [d];
      ProductSnoc(dim[1..], d);
      assert dim[0] * (Product(dim[1..]) * d) == (dim[0] * Product(dim[1..])) * d;
    }
  }

  /** Narrowing to int depends only on the value modulo 2^32. */
  lemma ToIntCongruent(x: int, y: int)
    requires (x - y) % 0x1_0000_0000 == 0
    ensures ToInt(x) == ToInt(y)
  {
    var k := (x - y) / 0x1_0000_0000;
    assert x == y + 0x1_0000_0000 * k;
    ModUnique(x, 0x1_0000_0000, y / 0x1_0000_0000 + k, y % 0x1_0000_0000);
  }

  /** An int multiplication that wraps gives the narrowed exact product. */
  lemma ToIntOfProduct(a: int, b: int)
    ensures ToInt(ToInt(a) * b) == ToInt(a * b)
  {
    var k := (a - ToInt(a)) / 0x1_0000_0000;
    assert a == ToInt(a) + 0x1_0000_0000 * k;
    assert a * b - ToInt(a) * b == 0x1_0000_0000 * (k * b);
    ToIntCongruent(ToInt(a) * b, a * b);
  }

  /**
   * The constructors' loop `size *= dim[i]` over all extents, in Java int
   * arithmetic: the data arrays hold the product of the extents, narrowed to
   * an int.
   */
  method DataSize(dim: seq<i32>) returns (size: i32)
    ensures size == ToInt(Product(dim))
  {
    size := 1;
    for i := 0 to |dim|
      invariant size == ToInt(Product(dim[..i]))
    {
      assert dim[..i + 1] == dim[..i] + [dim[i]];
      ProductSnoc(dim[..i], dim[i]);
      ToIntOfProduct(Product(dim[..i]), dim[i]);
      size := ToInt(size * dim[i]);
    }
    assert dim[..|dim|] == dim;
  }

  /** A digit below its base followed by a smaller number stays below the product. */
  lemma DigitBound(a: int, d: int, t: int, p: int)
    requires 0 <= a < d && 0 <= t < p
    ensures 0 <= a + d * t < d * p
  {
    assert d * t <= d * (p - 1) by {
      assert d * (p - 1) - d * t == d * (p - 1 - t);
    }
  }

  /** Subscripts within their extents address a position in [0, product of the extents used). */
  lemma {:induction false} ColumnMajorBounds(index: seq<int>, dim: seq<int>)
    requires 1 <= |index| && InRange(index, dim)
    ensures 0 <= ColumnMajor(index, dim) < Product(dim[..|index|])
    decreases |index|
  {
    var n := |index|;
    assert dim[..n][1..] == dim[1..][..n - 1];
    if n == 1 {
      assert Product(dim[..1]) == dim[0] * Product([]);
    } else {
      assert InRange(index[1..], dim[1..]) by {
        forall k | 0 <= k < n - 1 ensures 0 <= index[1..][k] < dim[1..][k] {
          assert index[1..][k] == index[k + 1];
        }
      }
      ColumnMajorBounds(index[1..], dim[1..]);
      DigitBound(index[0], dim[0], ColumnMajor(index[1..], dim[1..]), Product(dim[1..][..n - 1]));
    }
  }

  /** Two subscript lists within the extents with the same position are equal. */
  lemma {:induction false} ColumnMajorInjective(a: seq<int>, b: seq<int>, dim: seq<int>)
    requires 1 <= |a| == |b| && InRange(a, dim) && InRange(b, dim)
    requires ColumnMajor(a, dim) == ColumnMajor(b, dim)
    ensures a == b
    decreases |a|
  {
    if |a| > 1 {
      var d := dim[0];
      assert InRange(a[1..], dim[1..]) by {
        forall k | 0 <= k < |a| - 1 ensures 0 <= a[1..][k] < dim[1..][k] {
          assert a[1..][k] == a[k + 1];
        }
      }
      assert InRange(b[1..], dim[1..]) by {
        forall k | 0 <= k < |b| - 1 ensures 0 <= b[1..][k] < dim[1..][k] {
          assert b[1..][k] == b[k + 1];
        }
      }
      var ta, tb := ColumnMajor(a[1..], dim[1..]), ColumnMajor(b[1..], dim[1..]);
      ModUnique(a[0] + d * ta, d, ta, a[0]);
      ModUnique(b[0] + d * tb, d, tb, b[0]);
      ColumnMajorInjective(a[1..], b[1..], dim[1..]);
      assert a == [a[0]] + a[1..] && b == [b[0]] + b[1..];
    }
  }

  /** A product of non-negative extents is non-negative. */
  lemma {:induction false} ProductNonNegative(dim: seq<int>)
    requires forall k :: 0 <= k < |dim| ==> dim[k] >= 0
    ensures Product(dim) >= 0
    decreases |dim|
  {
    if |dim| > 0 {
      ProductNonNegative(dim[1..]);
    }
  }
}
