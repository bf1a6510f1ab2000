// A triangulated surface: a flat array of face corner indices, three per
// triangle, over a flat array of vertex coordinates, three floats per vertex,
// with optional per-vertex normals and colours. Floats are kept as their bit
// patterns; the float arithmetic of the normals is given by the caller.

module Surfaces {
  import opened Java

  /** A float, as its bit pattern (`Float.floatToRawIntBits`). */
  type FloatBits = i32

  /** Three floats. */
  datatype Vec = Vec(x: FloatBits, y: FloatBits, z: FloatBits)

  /**
   * The float operations `makeNormals` uses, which the model does not
   * compute: `a + b` on floats, the cross product `(p1 - p2) x (p1 - p3)`
   * of a triangle's corners, and a vector divided by its length.
   */
  datatype FloatOps = FloatOps(add: (FloatBits, FloatBits) -> FloatBits, faceNormal: (Vec, Vec, Vec) -> Vec, unit: Vec -> Vec)

  // ---------------------------------------------------------------------
  // Winding

  /** The corner that takes slot `k` when every whole triangle is rewound: 0 and 2 swap, 1 stays. */
  function Partner(k: nat): (p: nat)
    ensures p / 3 == k / 3 && p % 3 == 2 - k % 3
  {
    k - k % 3 + (2 - k % 3)
  }

  /** The faces after `rewindFaces` swapped the first and third corner of every whole triangle; a partial last triangle stays. */
  function Rewound(f: seq<i32>): (r: seq<i32>)
    ensures |r| == |f|
  {
    seq(|f|, k requires 0 <= k < |f| => if k - k % 3 + 2 < |f| then f[Partner(k)] else f[k])
  }

  /** Triangle `t` of the rewound faces is triangle `t` of the faces, back to front. */
  lemma RewoundTriangle(f: seq<i32>, t: nat)
    requires 3 * t + 3 <= |f|
    ensures Rewound(f)[3 * t] == f[3 * t + 2] && Rewound(f)[3 * t + 1] == f[3 * t + 1] && Rewound(f)[3 * t + 2] == f[3 * t]
  {
    SlotOf(t, 0);
    SlotOf(t, 1);
    SlotOf(t, 2);
  }

  /** Slot `r` of triangle `t`. */
  lemma SlotOf(t: nat, r: nat)
    requires r < 3
    ensures (3 * t + r) % 3 == r && Partner(3 * t + r) == 3 * t + 2 - r
  {
  }

  /** Slots of a partial last triangle `t` keep their corner. */
  lemma RewoundTail(f: seq<i32>, t: nat, k: nat)
    requires 3 * t <= k < |f| < 3 * t + 3
    ensures Rewound(f)[k] == f[k]
  {
    assert k - k % 3 == 3 * t;
  }

  /** Counting triangles: `n` slots hold `t` whole ones exactly when `n == 3 * t`. */
  lemma Thirds(t: nat, n: nat)
    ensures n % 3 == 0 && n / 3 == t <==> n == 3 * t
    ensures 3 * t + 3 <= n ==> t < n / 3
    ensures 3 * t < n < 3 * t + 3 ==> n % 3 != 0
  {
  }

  /** Rewinding twice gives the faces back. */
  lemma {:induction false} RewoundTwice(f: seq<i32>)
    ensures Rewound(Rewound(f)) == f
  {
    var r := Rewound(f);
    forall k | 0 <= k < |f|
      ensures Rewound(r)[k] == f[k]
    {
      if k - k % 3 + 2 < |f| {
        var p := Partner(k);
        assert p - p % 3 == k - k % 3;
        assert Partner(p) == k;
      }
    }
  }

  // ---------------------------------------------------------------------
  // Validation

  /**
   * `validate()` as written: the faces must be whole triangles, at least
   * one; normals, when present, one float per point float; and every
   * corner index in [0, points.length), the number of point floats.
   */
  function Validation(faces: seq<i32>, pointFloats: nat, normalFloats: Option<nat>): (r: Outcome)
    ensures r.Thrown? ==> r.error == IllegalArgument
    ensures r == Done <==> |faces| % 3 == 0 && |faces| > 0 && (normalFloats.Some? ==> normalFloats.value == pointFloats)
                           && forall k :: 0 <= k < |faces| ==> 0 <= faces[k] < pointFloats
  {
    if |faces| % 3 != 0 || |faces| == 0 then Thrown(IllegalArgument)
    else if normalFloats.Some? && normalFloats.value != pointFloats then Thrown(IllegalArgument)
    else if exists k :: 0 <= k < |faces| && !(0 <= faces[k] < pointFloats) then Thrown(IllegalArgument)
    else Done
  }

  /** `validate()` as intended: every corner index names a vertex, below points.length / 3. */
  function ValidationIntended(faces: seq<i32>, pointFloats: nat, normalFloats: Option<nat>): (r: Outcome)
    ensures r == Done ==> forall k :: 0 <= k < |faces| ==> 0 <= 3 * (faces[k] as int) && 3 * (faces[k] as int) + 3 <= pointFloats
  {
    if |faces| % 3 != 0 || |faces| == 0 then Thrown(IllegalArgument)
    else if normalFloats.Some? && normalFloats.value != pointFloats then Thrown(IllegalArgument)
    else if exists k :: 0 <= k < |faces| && !(0 <= faces[k] < pointFloats / 3) then Thrown(IllegalArgument)
    else Done
  }

  /** The coordinates of vertex `v`, as `getVertex` reads them, when they are there. */
  function VertexAt(points: seq<FloatBits>, v: int): (r: Option<Vec>)
    ensures r.Some? <==> 0 <= 3 * v && 3 * v + 3 <= |points|
  {
    if 0 <= 3 * v && 3 * v + 3 <= |points| then Some(Vec(points[3 * v], points[3 * v + 1], points[3 * v + 2]))
    else None
  }

  /** As written, one triangle over a single vertex passes, though it names vertices 1 and 2, which are not there. */
  lemma ValidationAdmitsMissingVertex(points: seq<FloatBits>)
    requires |points| == 3
    ensures Validation([0, 1, 2], |points|, None) == Done
    ensures VertexAt(points, 1).None? && VertexAt(points, 2).None?
  {
  }

  /** As intended, every corner of a surface that passes names a vertex there. */
  lemma ValidatedCornersExist(faces: seq<i32>, points: seq<FloatBits>, normalFloats: Option<nat>, k: nat)
    requires ValidationIntended(faces, |points|, normalFloats) == Done && k < |faces|
    ensures VertexAt(points, faces[k]).Some?
    ensures Validation(faces, |points|, normalFloats) == Done
  {
    forall j | 0 <= j < |faces|
      ensures 0 <= faces[j] < |points|
    {
      assert 3 * (faces[j] as int) + 3 <= |points|;
    }
  }

  /** Rewinding moves corner indices only within their triangles, so it does not change what `validate` says. */
  lemma RewoundValidation(faces: seq<i32>, pointFloats: nat, normalFloats: Option<nat>)
    ensures Validation(Rewound(faces), pointFloats, normalFloats) == Validation(faces, pointFloats, normalFloats)
  {
    var r := Rewound(faces);
    if forall k :: 0 <= k < |faces| ==> 0 <= faces[k] < pointFloats {
      forall k | 0 <= k < |r|
        ensures 0 <= r[k] < pointFloats
      {
        if k - k % 3 + 2 < |faces| {
          assert r[k] == faces[Partner(k)];
        }
      }
    } else {
      var k :| 0 <= k < |faces| && !(0 <= faces[k] < pointFloats);
      if k - k % 3 + 2 < |faces| {
        var p := Partner(k);
        assert p - p % 3 == k - k % 3 && Partner(p) == k;
        assert r[p] == faces[k];
      } else {
        assert r[k] == faces[k];
      }
    }
  }

  // ---------------------------------------------------------------------
  // Normals

  /** The corner's first coordinate index `faces[c] * 3`, in int arithmetic. */
  function Corner(faces: seq<i32>, c: nat): int
    requires c < |faces|
  {
    ToInt(faces[c] as int * 3)
  }

  /** Corner `c` names a whole vertex of the `points` floats. */
  predicate CornerFits(faces: seq<i32>, points: nat, c: nat)
    requires c < |faces|
  {
    0 <= Corner(faces, c) && Corner(faces, c) + 3 <= points
  }

  /** Triangle `t`'s corners name whole vertices of the points: the reads of `makeNormals` succeed. */
  predicate FaceFits(faces: seq<i32>, points: nat, t: nat)
  {
    3 * t + 3 <= |faces|
    && CornerFits(faces, points, 3 * t) && CornerFits(faces, points, 3 * t + 1) && CornerFits(faces, points, 3 * t + 2)
  }

  /** The first `t` triangles fit. */
  predicate AllFit(faces: seq<i32>, points: nat, t: nat)
  {
    forall s :: 0 <= s < t ==> FaceFits(faces, points, s)
  }

  /** `n` added to the vertex whose first float is at `j`. */
  function AddAt(a: seq<FloatBits>, j: nat, n: Vec, ops: FloatOps): (r: seq<FloatBits>)
    requires j + 3 <= |a|
    ensures |r| == |a|
  {
    seq(|a|, q requires 0 <= q < |a| => AddedAt(a, j, n, ops, q))
  }

  /** Float `q` after `n` was added to the vertex whose first float is at `j`. */
  function AddedAt(a: seq<FloatBits>, j: nat, n: Vec, ops: FloatOps, q: nat): FloatBits
    requires q < |a|
  {
    if q == j then ops.add(a[q], n.x)
    else if q == j + 1 then ops.add(a[q], n.y)
    else if q == j + 2 then ops.add(a[q], n.z)
    else a[q]
  }

  /** The face normal of triangle `t` added to each of its three corners, in the order `makeNormals` adds them. */
  function AddFace(acc: seq<FloatBits>, faces: seq<i32>, points: seq<FloatBits>, t: nat, ops: FloatOps): (r: seq<FloatBits>)
    requires |acc| == |points| && FaceFits(faces, |points|, t)
    ensures |r| == |acc|
  {
    var i1, i2, i3 := Corner(faces, 3 * t), Corner(faces, 3 * t + 1), Corner(faces, 3 * t + 2);
    AddCorners(acc, i1, i2, i3, FaceNormal(points, i1, i2, i3, ops), ops)
  }

  /** The face normal of the triangle whose corners' first floats are at `i1`, `i2` and `i3`. */
  function FaceNormal(points: seq<FloatBits>, i1: nat, i2: nat, i3: nat, ops: FloatOps): Vec
    requires i1 + 3 <= |points| && i2 + 3 <= |points| && i3 + 3 <= |points|
  {
    ops.faceNormal(Vec(points[i1], points[i1 + 1], points[i1 + 2]),
                   Vec(points[i2], points[i2 + 1], points[i2 + 2]),
                   Vec(points[i3], points[i3 + 1], points[i3 + 2]))
  }

  /** `n` added to the three corners in turn. */
  function AddCorners(acc: seq<FloatBits>, i1: nat, i2: nat, i3: nat, n: Vec, ops: FloatOps): (r: seq<FloatBits>)
    requires i1 + 3 <= |acc| && i2 + 3 <= |acc| && i3 + 3 <= |acc|
    ensures |r| == |acc|
  {
    AddAt(AddAt(AddAt(acc, i1, n, ops), i2, n, ops), i3, n, ops)
  }

  /** The normals after the first `t` triangles, from zero. */
  function Accumulated(faces: seq<i32>, points: seq<FloatBits>, t: nat, ops: FloatOps): (r: seq<FloatBits>)
    requires AllFit(faces, |points|, t)
    ensures |r| == |points|
  {
    if t == 0 then seq(|points|, _ => 0)
    else AddFace(Accumulated(faces, points, t - 1, ops), faces, points, t - 1, ops)
  }

  /** Float `k` lies among the three floats of corner `c`. */
  predicate Covers(faces: seq<i32>, c: nat, k: int)
    requires c < |faces|
  {
    Corner(faces, c) <= k < Corner(faces, c) + 3
  }

  /** No corner of triangle `t` covers float `k`. */
  predicate Clear(faces: seq<i32>, t: nat, k: int)
  {
    3 * t + 3 <= |faces| && !Covers(faces, 3 * t, k) && !Covers(faces, 3 * t + 1, k) && !Covers(faces, 3 * t + 2, k)
  }

  /** No corner of the first `t` triangles covers float `k`. */
  predicate AllClear(faces: seq<i32>, t: nat, k: int)
  {
    forall s :: 0 <= s < t ==> Clear(faces, s, k)
  }

  /** A run of clear triangles is its shorter run and its last triangle. */
  lemma AllClearPrev(faces: seq<i32>, t: nat, k: int)
    requires AllClear(faces, t + 1, k)
    ensures AllClear(faces, t, k) && Clear(faces, t, k)
  {
  }

  /** A normal float that no corner of the first `t` triangles covers stays zero. */
  lemma {:induction false} UncoveredZero(faces: seq<i32>, points: seq<FloatBits>, t: nat, ops: FloatOps, k: int)
    requires AllFit(faces, |points|, t) && AllClear(faces, t, k) && 0 <= k < |points|
    ensures Accumulated(faces, points, t, ops)[k] == 0
  {
    if t > 0 {
      AllFitPrev(faces, |points|, t - 1);
      AllClearPrev(faces, t - 1, k);
      UncoveredStep(faces, points, t - 1, ops, k);
      UncoveredZero(faces, points, t - 1, ops, k);
    }
  }

  /** Triangle `t` leaves alone a float none of its corners covers. */
  lemma UncoveredStep(faces: seq<i32>, points: seq<FloatBits>, t: nat, ops: FloatOps, k: int)
    requires AllFit(faces, |points|, t) && FaceFits(faces, |points|, t) && Clear(faces, t, k) && 0 <= k < |points|
    ensures AllFit(faces, |points|, t + 1)
    ensures Accumulated(faces, points, t + 1, ops)[k] == Accumulated(faces, points, t, ops)[k]
  {
    AllFitNext(faces, |points|, t);
    var i1, i2, i3 := Corner(faces, 3 * t), Corner(faces, 3 * t + 1), Corner(faces, 3 * t + 2);
    CornersKeep(Accumulated(faces, points, t, ops), i1, i2, i3, FaceNormal(points, i1, i2, i3, ops), ops, k);
  }

  /** Adding to three corners leaves alone a float none of them covers. */
  lemma CornersKeep(a: seq<FloatBits>, i1: nat, i2: nat, i3: nat, n: Vec, ops: FloatOps, k: int)
    requires i1 + 3 <= |a| && i2 + 3 <= |a| && i3 + 3 <= |a| && 0 <= k < |a|
    requires !(i1 <= k < i1 + 3) && !(i2 <= k < i2 + 3) && !(i3 <= k < i3 + 3)
    ensures AddCorners(a, i1, i2, i3, n, ops)[k] == a[k]
  {
  }

  /** The normals with vertex `v` and all before it scaled to unit length. */
  function Normalized(a: seq<FloatBits>, v: nat, ops: FloatOps): (r: seq<FloatBits>)
    requires 3 * v <= |a|
    ensures |r| == |a|
    ensures forall k :: 3 * v <= k < |a| ==> r[k] == a[k]
  {
    if v == 0 then a
    else
      var prev := Normalized(a, v - 1, ops);
      var j := 3 * (v - 1);
      var u := ops.unit(Vec(prev[j], prev[j + 1], prev[j + 2]));
      prev[j := u.x][j + 1 := u.y][j + 2 := u.z]
  }

  // ---------------------------------------------------------------------
  // The surface

  class Surface {
    var faces: array<i32>
    var points: array<FloatBits>
    var normals: array?<FloatBits>
    var colors: array?<FloatBits>

    /** `new Surface(faces, points, normals, colors)`: the arrays themselves, not copies. */
    constructor(faces: array<i32>, points: array<FloatBits>, normals: array?<FloatBits>, colors: array?<FloatBits>)
      ensures this.faces == faces && this.points == points && this.normals == normals && this.colors == colors
    {
      this.faces := faces;
      this.points := points;
      this.normals := normals;
      this.colors := colors;
    }

    /**
     * `rewindFaces()`: for every triangle the first and third corner swap.
     * When the faces are not whole triangles, the read of the missing
     * third corner of the last one throws and that triangle stays.
     */
    method RewindFaces() returns (out: Outcome)
      modifies faces
      ensures faces[..] == Rewound(old(faces[..]))
      ensures out == Done <==> faces.Length % 3 == 0
      ensures out.Thrown? ==> out.error == IndexOutOfBounds
    {
      ghost var f := faces[..];
      ghost var r := Rewound(f);
      var i := 0;
      ghost var tri := 0;
      while i < faces.Length
        invariant 0 <= i <= faces.Length && i == 3 * tri
        invariant forall k :: 0 <= k < i ==> faces[k] == r[k]
        invariant forall k :: i <= k < faces.Length ==> faces[k] == f[k]
      {
        var t := faces[i];
        if i + 2 >= faces.Length {
          Thirds(tri, faces.Length);
          forall k | i <= k < faces.Length
            ensures faces[k] == r[k]
          {
            RewoundTail(f, tri, k);
          }
          assert faces[..] == r;
          return Thrown(IndexOutOfBounds);
        }
        RewoundTriangle(f, tri);
        faces[i] := faces[i + 2];
        faces[i + 2] := t;
        i, tri := i + 3, tri + 1;
      }
      Thirds(tri, faces.Length);
      assert faces[..] == r;
      return Done;
    }

    /** `validate()`: the loop over the corners, as written. */
    method Validate() returns (out: Outcome)
      ensures out == Validation(faces[..], points.Length, if normals == null then None else Some(normals.Length))
    {
      if faces.Length % 3 != 0 || faces.Length == 0 {
        return Thrown(IllegalArgument);
      }
      if normals != null && points.Length != normals.Length {
        return Thrown(IllegalArgument);
      }
      for i := 0 to faces.Length
        invariant forall k :: 0 <= k < i ==> 0 <= faces[k] < points.Length
      {
        var f := faces[i];
        if f >= points.Length || f < 0 {
          return Thrown(IllegalArgument);
        }
      }
      return Done;
    }

    /**
     * `getFace(faceIndex, rv)`: the three corners of triangle `faceIndex`,
     * copied into `rv`, or into a new array when `rv` is null. A corner
     * outside the faces or a slot outside `rv` throws, after the corners
     * before it were copied.
     */
    method GetFace(faceIndex: i32, rv: array?<i32>) returns (r: Result<array<i32>>)
      requires rv != faces
      modifies rv
      ensures var offset := ToInt(faceIndex as int * 3);
        r.Ok? <==> 0 <= offset && offset + 3 <= faces.Length && (rv == null || rv.Length >= 3)
      ensures r.Fail? ==> r.error == IndexOutOfBounds
      ensures r.Ok? && rv == null ==> fresh(r.value) && r.value.Length == 3
      ensures r.Ok? && rv != null ==> r.value == rv
      ensures r.Ok? ==> r.value.Length >= 3 && r.value[..3] == faces[ToInt(faceIndex as int * 3)..ToInt(faceIndex as int * 3) + 3]
      ensures rv != null ==> forall q :: 0 <= q < rv.Length ==>
        rv[q] == if q < Copied(ToInt(faceIndex as int * 3), faces.Length, rv.Length) then faces[ToInt(faceIndex as int * 3) + q] else old(rv[q])
    {
      var out := rv;
      if out == null {
        out := new i32[3](_ => 0);
      }
      var offset := ToInt(faceIndex as int * 3);
      for i := 0 to 3
        invariant i <= Copied(offset, faces.Length, out.Length)
        invariant forall q :: 0 <= q < out.Length ==> out[q] == if q < i then faces[offset + q] else old(if rv == null then 0 else rv[q])
      {
        if i + offset < 0 || i + offset >= faces.Length || i >= out.Length {
          return Fail(IndexOutOfBounds);
        }
        out[i] := faces[i + offset];
      }
      assert out[..3] == faces[offset..offset + 3];
      return Ok(out);
    }

    /** `new Surface(faces, points, normals)`: no colours. */
    constructor WithoutColors(faces: array<i32>, points: array<FloatBits>, normals: array?<FloatBits>)
      ensures this.faces == faces && this.points == points && this.normals == normals && this.colors == null
    {
      this.faces := faces;
      this.points := points;
      this.normals := normals;
      this.colors := null;
    }

    /** `setColors(colors)`: the array itself becomes the colours. */
    method SetColors(colors: array?<FloatBits>)
      modifies this
      ensures this.colors == colors
      ensures faces == old(faces) && points == old(points) && normals == old(normals)
    {
      this.colors := colors;
    }

    /** `getNormal(v, rv)`: the normal of vertex `v`, read like its coordinates; there is none to read without normals. */
    function GetNormal(v: i32): (r: Result<Vec>)
      reads this, normals
      ensures normals == null ==> r == Fail(NullPointer)
      ensures normals != null ==> (r.Ok? <==> 0 <= ToInt(v as int * 3) && ToInt(v as int * 3) + 3 <= normals.Length)
      ensures normals != null && 0 <= 3 * v <= INT_MAX - 3 ==> r == (match VertexAt(normals[..], v) case Some(n) => Ok(n) case None => Fail(IndexOutOfBounds))
    {
      if normals == null then Fail(NullPointer)
      else
        var offset := ToInt(v as int * 3);
        if 0 <= offset && offset + 3 <= normals.Length then Ok(Vec(normals[offset], normals[offset + 1], normals[offset + 2]))
        else Fail(IndexOutOfBounds)
    }

    /** `setNormals(normals)`: the array itself becomes the normals. */
    method SetNormals(normals: array?<FloatBits>)
      modifies this
      ensures this.normals == normals
      ensures faces == old(faces) && points == old(points) && colors == old(colors)
    {
      this.normals := normals;
    }

    /** `getVertex(v, rv)`: the coordinates of vertex `v`, at `v * 3` in int arithmetic. */
    function GetVertex(v: i32): (r: Result<Vec>)
      reads this, points
      ensures r.Ok? <==> 0 <= ToInt(v as int * 3) && ToInt(v as int * 3) + 3 <= points.Length
      ensures 0 <= 3 * v <= INT_MAX - 3 ==> (r.Ok? <==> VertexAt(points[..], v).Some?)
      ensures r.Ok? && 0 <= 3 * v <= INT_MAX - 3 ==> r.value == VertexAt(points[..], v).value
    {
      var offset := ToInt(v as int * 3);
      if 0 <= offset && offset + 3 <= points.Length then Ok(Vec(points[offset], points[offset + 1], points[offset + 2]))
      else Fail(IndexOutOfBounds)
    }

    /**
     * `makeNormals()`: nothing when there are normals. Otherwise a new zeroed
     * array of the points' length becomes the normals; each triangle's face
     * normal is added to its three corners, then every vertex's normal is
     * scaled to unit length. A corner outside the points, a partial
     * triangle or a partial vertex throws, and the normals stay as far as
     * they got.
     */
    method MakeNormals(ops: FloatOps) returns (out: Outcome)
      modifies this
      ensures faces == old(faces) && points == old(points) && colors == old(colors)
      ensures old(normals) != null ==> out == Done && normals == old(normals)
      ensures old(normals) == null ==> normals != null && fresh(normals) && normals.Length == points.Length
      ensures old(normals) == null ==>
        (out == Done <==> faces.Length % 3 == 0 && points.Length % 3 == 0
                          && AllFit(faces[..], points.Length, faces.Length / 3))
      ensures old(normals) == null && out == Done ==>
        normals[..] == Normalized(Accumulated(faces[..], points[..], faces.Length / 3, ops), points.Length / 3, ops)
    {
      if normals != null {
        return Done;
      }
      var acc := new FloatBits[points.Length](_ => 0);
      normals := acc;
      out := AccumulateFaces(acc, ops);
      if out.Thrown? {
        return;
      }
      out := NormalizeAll(acc, ops);
    }

    /** The first loop of `makeNormals`: each whole triangle's face normal added to its corners. */
    method AccumulateFaces(acc: array<FloatBits>, ops: FloatOps) returns (out: Outcome)
      requires acc.Length == points.Length && acc != points && acc != faces
      requires forall k :: 0 <= k < acc.Length ==> acc[k] == 0
      modifies acc
      ensures out == Done <==> faces.Length % 3 == 0 && AllFit(faces[..], points.Length, faces.Length / 3)
      ensures out == Done ==> acc[..] == Accumulated(faces[..], points[..], faces.Length / 3, ops)
    {
      ghost var f, pts := faces[..], points[..];
      var i := 0;
      ghost var tri := 0;
      assert acc[..] == Accumulated(f, pts, 0, ops);
      while i < faces.Length
        invariant 0 <= i <= faces.Length && i == 3 * tri
        invariant AllFit(f, |pts|, tri)
        invariant acc[..] == Accumulated(f, pts, tri, ops)
      {
        if i + 2 >= faces.Length {
          Thirds(tri, faces.Length);
          return Thrown(IndexOutOfBounds);
        }
        ghost var a0 := acc[..];
        var added := AddTriangle(acc, i, tri, ops);
        if added.Thrown? {
          Thirds(tri, faces.Length);
          Unfit(f, |pts|, tri, faces.Length / 3);
          return added;
        }
        AccumulatedNext(f, pts, tri, ops, a0, acc[..]);
        i, tri := i + 3, tri + 1;
      }
      Thirds(tri, faces.Length);
      return Done;
    }

    /** One pass of the first loop of `makeNormals`: the face normal of the triangle at `i` added to its three corners. */
    method AddTriangle(acc: array<FloatBits>, i: int, ghost tri: nat, ops: FloatOps) returns (out: Outcome)
      requires acc.Length == points.Length && acc != points && acc != faces
      requires i == 3 * tri && i + 2 < faces.Length
      modifies acc
      ensures out == Done <==> FaceFits(faces[..], points.Length, tri)
      ensures out == Done ==> acc[..] == AddFace(old(acc[..]), faces[..], points[..], tri, ops)
      ensures out.Thrown? ==> out.error == IndexOutOfBounds
    {
      ghost var f := faces[..];
      var i1, i2, i3 := ToInt(faces[i] as int * 3), ToInt(faces[i + 1] as int * 3), ToInt(faces[i + 2] as int * 3);
      assert i1 == Corner(f, 3 * tri) && i2 == Corner(f, 3 * tri + 1) && i3 == Corner(f, 3 * tri + 2);
      if !(0 <= i1 && i1 + 3 <= points.Length && 0 <= i2 && i2 + 3 <= points.Length && 0 <= i3 && i3 + 3 <= points.Length) {
        return Thrown(IndexOutOfBounds);
      }
      var n := FaceNormal(points[..], i1, i2, i3, ops);
      AddNormal(acc, i1, i2, i3, n, ops);
      return Done;
    }

    /** The second loop of `makeNormals`: each vertex's normal scaled to unit length. */
    method NormalizeAll(acc: array<FloatBits>, ops: FloatOps) returns (out: Outcome)
      modifies acc
      ensures out == Done <==> acc.Length % 3 == 0
      ensures out.Thrown? ==> out.error == IndexOutOfBounds
      ensures out == Done ==> acc[..] == Normalized(old(acc[..]), acc.Length / 3, ops)
    {
      ghost var a := acc[..];
      var i := 0;
      ghost var v := 0;
      while i < acc.Length
        invariant 0 <= i <= acc.Length && i == 3 * v
        invariant acc[..] == Normalized(a, v, ops)
      {
        if i + 2 >= acc.Length {
          Thirds(v, acc.Length);
          return Thrown(IndexOutOfBounds);
        }
        var u := ops.unit(Vec(acc[i], acc[i + 1], acc[i + 2]));
        acc[i] := u.x;
        acc[i + 1] := u.y;
        acc[i + 2] := u.z;
        i, v := i + 3, v + 1;
      }
      Thirds(v, acc.Length);
      return Done;
    }
  }

  /** How many corners `getFace` copies before an index runs out: at most 3, none from a negative offset. */
  function Copied(offset: int, faces: nat, slots: nat): (k: nat)
    ensures k <= 3 && k <= slots
    ensures k == 3 <==> 0 <= offset && offset + 3 <= faces && slots >= 3
  {
    if offset < 0 || offset >= faces then 0
    else
      var room := if faces - offset < slots then faces - offset else slots;
      if room < 3 then room else 3
  }

  /** Adding triangle `t` to the normals of the triangles before it gives the normals of one more triangle. */
  lemma AccumulatedNext(faces: seq<i32>, points: seq<FloatBits>, t: nat, ops: FloatOps, before: seq<FloatBits>, after: seq<FloatBits>)
    requires AllFit(faces, |points|, t) && FaceFits(faces, |points|, t)
    requires before == Accumulated(faces, points, t, ops)
    requires after == AddFace(before, faces, points, t, ops)
    ensures AllFit(faces, |points|, t + 1)
    ensures after == Accumulated(faces, points, t + 1, ops)
  {
    AllFitNext(faces, |points|, t);
  }

  /** A run of fitting triangles is its shorter run and its last triangle. */
  lemma AllFitPrev(faces: seq<i32>, points: nat, t: nat)
    requires AllFit(faces, points, t + 1)
    ensures AllFit(faces, points, t) && FaceFits(faces, points, t)
  {
  }

  /** One more fitting triangle extends a run of fitting triangles. */
  lemma AllFitNext(faces: seq<i32>, points: nat, t: nat)
    requires AllFit(faces, points, t) && FaceFits(faces, points, t)
    ensures AllFit(faces, points, t + 1)
  {
  }

  /** A triangle that does not fit spoils every longer run of triangles. */
  lemma Unfit(faces: seq<i32>, points: nat, t: nat, n: nat)
    requires t < n && !FaceFits(faces, points, t)
    ensures !AllFit(faces, points, n)
  {
  }

  /** The nine additions of one pass of `makeNormals`' first loop. */
  method AddNormal(a: array<FloatBits>, i1: nat, i2: nat, i3: nat, n: Vec, ops: FloatOps)
    requires i1 + 3 <= a.Length && i2 + 3 <= a.Length && i3 + 3 <= a.Length
    modifies a
    ensures a[..] == AddCorners(old(a[..]), i1, i2, i3, n, ops)
  {
    AddInPlace(a, i1, n, ops);
    AddInPlace(a, i2, n, ops);
    AddInPlace(a, i3, n, ops);
  }

  /** `normals[j..j+3] += n`, one float at a time. */
  method AddInPlace(a: array<FloatBits>, j: int, n: Vec, ops: FloatOps)
    requires 0 <= j && j + 3 <= a.Length
    modifies a
    ensures a[..] == AddAt(old(a[..]), j, n, ops)
  {
    a[j] := ops.add(a[j], n.x);
    a[j + 1] := ops.add(a[j + 1], n.y);
    a[j + 2] := ops.add(a[j + 2], n.z);
  }
}
