/**
 * The index bookkeeping of the dome wall's convex polyhedron.
 *
 * The dome is a lattice of `s + 1` latitude rings by `s + 1` longitude
 * divisions, where `s` is the segment count. Each vertex is represented by
 * its lattice pair (ring, division) instead of its trigonometric
 * coordinates; each face is a triangle of three indices into the vertex
 * list, two triangles per lattice cell.
 */
module Wall {

  /** A dome vertex, named by its latitude ring and longitude division. */
  datatype LatticePoint = LatticePoint(ring: nat, division: nat)

  /** A face: indices into the vertex list. */
  type Face = seq<nat>

  function VertexCount(s: nat): nat { (s + 1) * (s + 1) }

  function FaceCount(s: nat): nat { 2 * (s * s) }

  /** The position in the vertex list of ring `i`, division `j`. */
  function VertexIndex(s: nat, i: nat, j: nat): nat { i * (s + 1) + j }

  /** The position of cell (i, j) in the enumeration of the `s * s` cells. */
  function CellIndex(s: nat, i: nat, j: nat): nat { i * s + j }

  /** Reference definition of the vertex list: the k-th entry, read row by row. */
  function LatticeVertex(s: nat, k: nat): LatticePoint
  {
    LatticePoint(k / (s + 1), k % (s + 1))
  }

  function DomeVertices(s: nat): seq<LatticePoint>
  {
    seq(VertexCount(s), k requires 0 <= k => LatticeVertex(s, k))
  }

  /** The cell (i, j) whose two triangles are faces `2 * c` and `2 * c + 1`, c = f / 2. */
  function FaceCell(s: nat, f: nat): (nat, nat)
    requires s >= 1
  {
    (f / 2 / s, f / 2 % s)
  }

  /**
   * Reference definition of the face list: face `f` is the first (even f)
   * or second (odd f) triangle of cell FaceCell(s, f), whose corners are
   * v1 = (i, j), v2 = (i, j + 1), v3 = (i + 1, j), v4 = (i + 1, j + 1).
   */
  function FaceAt(s: nat, f: nat): Face
    requires s >= 1
  {
    var (i, j) := FaceCell(s, f);
    var v1 := VertexIndex(s, i, j);
    var v2 := VertexIndex(s, i, j + 1);
    var v3 := VertexIndex(s, i + 1, j);
    var v4 := VertexIndex(s, i + 1, j + 1);
    if f % 2 == 0 then [v1, v2, v4] else [v1, v3, v4]
  }

  function DomeFaces(s: nat): seq<Face>
  {
    if s == 0 then [] else seq(FaceCount(s), f requires 0 <= f => FaceAt(s, f))
  }

  /** The vertices a face names, looked up in a vertex list. */
  function Resolve(vertices: seq<LatticePoint>, face: Face): seq<LatticePoint>
    requires forall t :: 0 <= t < |face| ==> face[t] < |vertices|
  {
    seq(|face|, t requires 0 <= t < |face| => vertices[face[t]])
  }

  /** The faces of a polyhedron reference existing vertices only, three per face. */
  predicate FacesReferenceVertices(vertexCount: nat, faces: seq<Face>)
  {
    forall f :: 0 <= f < |faces| ==>
      |faces[f]| == 3 && forall t :: 0 <= t < 3 ==> faces[f][t] < vertexCount
  }

  // ---------------------------------------------------------------------
  // Arithmetic of the row-major numbering

  /** A positive multiple of `m` is at least `m`. */
  lemma {:induction false} MultipleAtLeast(a: int, m: nat)
    requires a >= 1
    ensures a * m >= m
  {
    if a > 1 {
      MultipleAtLeast(a - 1, m);
      assert a * m == (a - 1) * m + m;
    }
  }

  /** Division by `m` recovers the row and column of a row-major index. */
  lemma DivModRowMajor(q: nat, r: nat, m: nat)
    requires r < m
    ensures (q * m + r) / m == q && (q * m + r) % m == r
  {
    var n := q * m + r;
    var q', r' := n / m, n % m;
    assert n == q' * m + r';
    if q' > q {
      MultipleAtLeast(q' - q, m);
      assert false;
    } else if q' < q {
      MultipleAtLeast(q - q', m);
      assert false;
    }
  }

  /** Row-major indices compare as their (row, column) pairs do lexicographically. */
  lemma RowMajorLess(m: nat, q1: nat, r1: nat, q2: nat, r2: nat)
    requires r1 < m && r2 < m
    ensures q1 * m + r1 < q2 * m + r2 <==> q1 < q2 || (q1 == q2 && r1 < r2)
  {
    if q1 < q2 {
      MultipleAtLeast(q2 - q1, m);
    } else if q2 < q1 {
      MultipleAtLeast(q1 - q2, m);
    }
  }

  /** The cell of face f lies in the grid, and f / 2 is its cell index. */
  lemma FaceCellInRange(s: nat, f: nat)
    requires s >= 1 && f < FaceCount(s)
    ensures FaceCell(s, f).0 < s && FaceCell(s, f).1 < s
    ensures f / 2 == CellIndex(s, FaceCell(s, f).0, FaceCell(s, f).1)
  {
    var c := f / 2;
    assert c < s * s;
    RowMajorLess(s, c / s, c % s, s, 0);
  }

  /** Cell (i, j) of the grid has a cell index below s * s. */
  lemma CellIndexBound(s: nat, i: nat, j: nat)
    requires i < s && j < s
    ensures CellIndex(s, i, j) < s * s
  {
    RowMajorLess(s, i, j, s, 0);
  }

  /** The corners of cell (i, j): v2 = v1 + 1, v3 = v1 + (s + 1), v4 = v3 + 1. */
  lemma CornerIndices(s: nat, i: nat, j: nat)
    ensures VertexIndex(s, i, j + 1) == VertexIndex(s, i, j) + 1
    ensures VertexIndex(s, i + 1, j) == VertexIndex(s, i, j) + (s + 1)
    ensures VertexIndex(s, i + 1, j + 1) == VertexIndex(s, i + 1, j) + 1
  {
    assert (i + 1) * (s + 1) == i * (s + 1) + (s + 1);
  }

  /** The cell that owns faces 2 * CellIndex(s, i, j) and the next one is (i, j). */
  lemma FaceCellOf(s: nat, i: nat, j: nat)
    requires i < s && j < s
    ensures FaceCell(s, 2 * CellIndex(s, i, j)) == (i, j)
    ensures FaceCell(s, 2 * CellIndex(s, i, j) + 1) == (i, j)
  {
    var c := CellIndex(s, i, j);
    assert (2 * c) / 2 == c && (2 * c + 1) / 2 == c;
    DivModRowMajor(i, j, s);
  }

  /** Appending ring i, division j at index VertexIndex(s, i, j) keeps the list row-major. */
  lemma PushVertex(s: nat, vertices: seq<LatticePoint>, i: nat, j: nat)
    requires j <= s && |vertices| == VertexIndex(s, i, j)
    requires forall k :: 0 <= k < |vertices| ==> vertices[k] == LatticeVertex(s, k)
    ensures forall k :: 0 <= k < |vertices| + 1 ==> (vertices + [LatticePoint(i, j)])[k] == LatticeVertex(s, k)
  {
    DivModRowMajor(i, j, s + 1);
  }

  /** Appending the two triangles of cell (i, j) at 2 * CellIndex(s, i, j) continues the face list. */
  lemma PushCellFaces(s: nat, faces: seq<Face>, i: nat, j: nat)
    requires i < s && j < s && |faces| == 2 * CellIndex(s, i, j)
    requires forall f :: 0 <= f < |faces| ==> faces[f] == FaceAt(s, f)
    ensures var v1 := i * (s + 1) + j;
            var v3 := (i + 1) * (s + 1) + j;
            var faces' := faces + [[v1, v1 + 1, v3 + 1]] + [[v1, v3, v3 + 1]];
            forall f :: 0 <= f < |faces'| ==> faces'[f] == FaceAt(s, f)
  {
    FaceCellOf(s, i, j);
  }

  // ---------------------------------------------------------------------
  // Building the lattice

  /**
   * The vertex and face lists of the dome, built by two pairs of nested
   * loops that append in place. The result is the row-major lattice and
   * its face list.
   */
  method CreateBody(segmentCount: nat) returns (vertices: seq<LatticePoint>, faces: seq<Face>)
    ensures vertices == DomeVertices(segmentCount)
    ensures faces == DomeFaces(segmentCount)
    ensures |vertices| == (segmentCount + 1) * (segmentCount + 1)
    ensures |faces| == 2 * (segmentCount * segmentCount)
  {
    var s := segmentCount;
    vertices := [];
    var i := 0;
    while i <= s
      invariant 0 <= i <= s + 1
      invariant |vertices| == i * (s + 1)
      invariant forall k :: 0 <= k < |vertices| ==> vertices[k] == LatticeVertex(s, k)
    {
      var j := 0;
      while j <= s
        invariant 0 <= j <= s + 1
        invariant |vertices| == VertexIndex(s, i, j)
        invariant forall k :: 0 <= k < |vertices| ==> vertices[k] == LatticeVertex(s, k)
      {
        PushVertex(s, vertices, i, j);
        vertices := vertices + [LatticePoint(i, j)];
        j := j + 1;
      }
      assert i * (s + 1) + (s + 1) == (i + 1) * (s + 1);
      i := i + 1;
    }

    faces := [];
    i := 0;
    while i < s
      invariant 0 <= i <= s
      invariant |faces| == 2 * (i * s)
      invariant forall f :: 0 <= f < |faces| ==> s >= 1 && faces[f] == FaceAt(s, f)
    {
      var j := 0;
      while j < s
        invariant 0 <= j <= s
        invariant |faces| == 2 * CellIndex(s, i, j)
        invariant forall f :: 0 <= f < |faces| ==> s >= 1 && faces[f] == FaceAt(s, f)
      {
        var v1 := i * (s + 1) + j;
        var v2 := v1 + 1;
        var v3 := (i + 1) * (s + 1) + j;
        var v4 := v3 + 1;
        PushCellFaces(s, faces, i, j);
        faces := faces + [[v1, v2, v4]];
        faces := faces + [[v1, v3, v4]];
        j := j + 1;
      }
      assert i * s + s == (i + 1) * s;
      i := i + 1;
    }
    assert vertices == DomeVertices(s);
    assert faces == DomeFaces(s);
  }

  // ---------------------------------------------------------------------
  // Properties of the lattice

  /** Ring `i`, division `j` sits at index i * (s + 1) + j of the vertex list. */
  lemma VertexAtIndex(s: nat, i: nat, j: nat)
    requires i <= s && j <= s
    ensures VertexIndex(s, i, j) < |DomeVertices(s)|
    ensures DomeVertices(s)[VertexIndex(s, i, j)] == LatticePoint(i, j)
  {
    RowMajorLess(s + 1, i, j, s + 1, 0);
    DivModRowMajor(i, j, s + 1);
  }

  /** Every vertex is a lattice pair in range, and no pair occurs twice. */
  lemma VerticesDistinctInRange(s: nat)
    ensures forall k :: 0 <= k < |DomeVertices(s)| ==>
      DomeVertices(s)[k].ring <= s && DomeVertices(s)[k].division <= s
    ensures forall k, l :: 0 <= k < l < |DomeVertices(s)| ==> DomeVertices(s)[k] != DomeVertices(s)[l]
  {
    var vs := DomeVertices(s);
    forall k | 0 <= k < |vs|
      ensures vs[k].ring <= s && vs[k].division <= s
    {
      if k / (s + 1) > s {
        RowMajorLess(s + 1, s + 1, 0, k / (s + 1), k % (s + 1));
        assert false;
      }
    }
    forall k, l | 0 <= k < l < |vs|
      ensures vs[k] != vs[l]
    {
      if vs[k] == vs[l] {
        assert false;
      }
    }
  }

  /** The face list of cell (i, j), at positions 2 * c and 2 * c + 1 with c = i * s + j. */
  lemma CellFaces(s: nat, i: nat, j: nat)
    requires i < s && j < s
    ensures 2 * CellIndex(s, i, j) + 1 < |DomeFaces(s)|
    ensures var v1 := VertexIndex(s, i, j);
            var v2 := v1 + 1;
            var v3 := v1 + (s + 1);
            var v4 := v3 + 1;
            DomeFaces(s)[2 * CellIndex(s, i, j)] == [v1, v2, v4] &&
            DomeFaces(s)[2 * CellIndex(s, i, j) + 1] == [v1, v3, v4]
  {
    CellIndexBound(s, i, j);
    FaceCellOf(s, i, j);
    var c := CellIndex(s, i, j);
    FaceIndices(s, 2 * c);
    FaceIndices(s, 2 * c + 1);
  }

  /** The two triangles of a cell share its diagonal v1-v4 and differ in their middle corner. */
  lemma CellDiagonalShared(s: nat, i: nat, j: nat)
    requires i < s && j < s
    ensures 2 * CellIndex(s, i, j) + 1 < |DomeFaces(s)|
    ensures var c := CellIndex(s, i, j);
            DomeFaces(s)[2 * c][0] == DomeFaces(s)[2 * c + 1][0] &&
            DomeFaces(s)[2 * c][2] == DomeFaces(s)[2 * c + 1][2] &&
            DomeFaces(s)[2 * c][1] != DomeFaces(s)[2 * c + 1][1]
  {
    CellFaces(s, i, j);
  }

  /** Whether the triangle `face`, read cyclically, runs from index `a` straight to index `b`. */
  predicate HasDirectedEdge(face: Face, a: nat, b: nat)
  {
    |face| == 3 &&
    ((face[0] == a && face[1] == b) || (face[1] == a && face[2] == b) || (face[2] == a && face[0] == b))
  }

  /**
   * Both triangles of a cell run along their shared diagonal in the same
   * direction, v4 to v1, and neither runs v1 to v4. Adjacent faces of a
   * consistently wound surface traverse a shared edge in opposite
   * directions, so the two triangles of every cell are wound oppositely.
   */
  lemma CellWinding(s: nat, i: nat, j: nat)
    requires i < s && j < s
    ensures 2 * CellIndex(s, i, j) + 1 < |DomeFaces(s)|
    ensures var c := CellIndex(s, i, j);
            var v1 := VertexIndex(s, i, j);
            var v4 := v1 + s + 2;
            HasDirectedEdge(DomeFaces(s)[2 * c], v4, v1) && HasDirectedEdge(DomeFaces(s)[2 * c + 1], v4, v1) &&
            !HasDirectedEdge(DomeFaces(s)[2 * c], v1, v4) && !HasDirectedEdge(DomeFaces(s)[2 * c + 1], v1, v4)
  {
    CellFaces(s, i, j);
  }

  /** The indices of face f: v1, then v2 or v3, then v4, for v1 the first corner of its cell. */
  lemma FaceIndices(s: nat, f: nat)
    requires f < |DomeFaces(s)|
    ensures s >= 1 && FaceCell(s, f).0 < s && FaceCell(s, f).1 < s
    ensures var (i, j) := FaceCell(s, f);
            var v1 := VertexIndex(s, i, j);
            DomeFaces(s)[f] == if f % 2 == 0 then [v1, v1 + 1, v1 + s + 2] else [v1, v1 + s + 1, v1 + s + 2]
  {
    FaceCellInRange(s, f);
    var (i, j) := FaceCell(s, f);
    CornerIndices(s, i, j);
    assert DomeFaces(s)[f] == FaceAt(s, f);
  }

  /** Every index of every face names a vertex: the polyhedron is well formed. */
  lemma FacesValid(s: nat)
    ensures FacesReferenceVertices(|DomeVertices(s)|, DomeFaces(s))
  {
    var fs := DomeFaces(s);
    forall f | 0 <= f < |fs|
      ensures |fs[f]| == 3 && forall t :: 0 <= t < 3 ==> fs[f][t] < VertexCount(s)
    {
      FaceIndices(s, f);
      var (i, j) := FaceCell(s, f);
      CornerIndices(s, i, j);
      VertexAtIndex(s, i + 1, j + 1);
    }
  }

  /** The largest index any face uses is the last vertex, v4 of cell (s - 1, s - 1). */
  lemma MaxFaceIndex(s: nat)
    requires s >= 1
    ensures forall f, t :: 0 <= f < |DomeFaces(s)| && 0 <= t < |DomeFaces(s)[f]| ==>
      DomeFaces(s)[f][t] <= DomeFaces(s)[FaceCount(s) - 1][2]
    ensures DomeFaces(s)[FaceCount(s) - 1][2] == VertexCount(s) - 1
  {
    FacesValid(s);
    var c := CellIndex(s, s - 1, s - 1);
    assert c == s * s - 1;
    CellFaces(s, s - 1, s - 1);
    CornerIndices(s, s - 1, s - 1);
    assert VertexIndex(s, s, s) == VertexCount(s) - 1;
  }

  /**
   * Looked up in the vertex list, face f names the corners of its cell:
   * (i, j), (i, j + 1), (i + 1, j + 1) for the first triangle and
   * (i, j), (i + 1, j), (i + 1, j + 1) for the second.
   */
  lemma FaceCorners(s: nat, f: nat)
    requires f < |DomeFaces(s)|
    ensures s >= 1 && FacesReferenceVertices(|DomeVertices(s)|, DomeFaces(s))
    ensures var (i, j) := FaceCell(s, f);
            Resolve(DomeVertices(s), DomeFaces(s)[f]) ==
              if f % 2 == 0 then [LatticePoint(i, j), LatticePoint(i, j + 1), LatticePoint(i + 1, j + 1)]
              else [LatticePoint(i, j), LatticePoint(i + 1, j), LatticePoint(i + 1, j + 1)]
  {
    FacesValid(s);
    FaceIndices(s, f);
    var (i, j) := FaceCell(s, f);
    CornerIndices(s, i, j);
    VertexAtIndex(s, i, j);
    VertexAtIndex(s, i, j + 1);
    VertexAtIndex(s, i + 1, j);
    VertexAtIndex(s, i + 1, j + 1);
  }

  /** Vertices are numbered by ring, then by division. */
  lemma VertexOrder(s: nat, i1: nat, j1: nat, i2: nat, j2: nat)
    requires j1 <= s && j2 <= s
    ensures VertexIndex(s, i1, j1) < VertexIndex(s, i2, j2) <==> i1 < i2 || (i1 == i2 && j1 < j2)
  {
    RowMajorLess(s + 1, i1, j1, i2, j2);
  }

  /** Faces are emitted by cell row i, then by cell column j. */
  lemma FaceOrder(s: nat, i1: nat, j1: nat, i2: nat, j2: nat)
    requires j1 < s && j2 < s
    ensures 2 * CellIndex(s, i1, j1) < 2 * CellIndex(s, i2, j2) <==> i1 < i2 || (i1 == i2 && j1 < j2)
  {
    RowMajorLess(s, i1, j1, i2, j2);
  }
}
