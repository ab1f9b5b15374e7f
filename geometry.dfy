/**
 * The geometric comparators. The CAD kernel is an oracle: its shapes are the type
 * parameters P (point), F (face) and S (solid), and what the library asks of them is
 * the `Kernel` record. Vertices compared axis by axis (is_same_vertices) carry real
 * coordinates, so that rule is modelled exactly.
 */
module Geometry {
  import opened Wrappers

  /** The default tolerance of the comparators, 0.0001. */
  const DefaultTolerance: real := 0.0001

  /** A kernel vertex by its X, Y and Z coordinates. */
  datatype Vertex = Vertex(x: real, y: real, z: real)

  /** A kernel edge by its two end vertices, Vertexes[0] and Vertexes[1]. */
  datatype Edge = Edge(first: Vertex, second: Vertex)

  /**
   * What the library asks the kernel:
   *  - vertices(f): the points of f.Vertexes;
   *  - centerOfMass(f): f.CenterOfMass;
   *  - solidFaces(s): s.Faces;
   *  - samePoint(p, q): vectors_are_same(p, q) with the default tolerance;
   *  - faceInFace(f1, f2): is_face_in_face(f1, f2), None when it raises 'Face point not found';
   *  - solidPointInSolid(c, s): is_compound_filter_solid_in_solid(c, s) with point_search,
   *    None when it raises 'Solid point not found';
   *  - commonVolumePositive(c, s): c.common(s).Volume > 0, the test without point_search.
   */
  datatype Kernel<!P, !F, !S> = Kernel(
    vertices: F -> seq<P>,
    centerOfMass: F -> P,
    solidFaces: S -> seq<F>,
    samePoint: (P, P) -> bool,
    faceInFace: (F, F) -> Option<bool>,
    solidPointInSolid: (S, S) -> Option<bool>,
    commonVolumePositive: (S, S) -> bool)

  /** compound_filter.Shape: its Faces, Solids and Edges, addressed by position. */
  datatype CompoundFilter<F, S> = CompoundFilter(faces: seq<F>, solids: seq<S>, edges: seq<Edge>)

  function Abs(r: real): real
  {
    if r < 0.0 then -r else r
  }

  /** is_same_vertices: every coordinate differs by strictly less than the tolerance. */
  predicate IsSameVertices(v1: Vertex, v2: Vertex, tol: real)
    ensures IsSameVertices(v1, v2, tol) ==> tol > 0.0
  {
    Abs(v1.x - v2.x) < tol && Abs(v1.y - v2.y) < tol && Abs(v1.z - v2.z) < tol
  }

  /**
   * is_same_edge: compares the end points in order; only when the first end points differ
   * does it try the swapped order.
   */
  predicate IsSameEdge(e1: Edge, e2: Edge, tol: real)
    ensures IsSameEdge(e1, e2, tol) ==> tol > 0.0
    ensures IsSameEdge(e1, e2, tol) ==> IsSameVertices(e1.first, e2.first, tol) || IsSameVertices(e1.first, e2.second, tol)
  {
    if IsSameVertices(e1.first, e2.first, tol) then
      IsSameVertices(e1.second, e2.second, tol)
    else if IsSameVertices(e1.first, e2.second, tol) then
      IsSameVertices(e1.second, e2.first, tol)
    else
      false
  }

  /** The vertex rule is symmetric, and a vertex matches itself exactly when tol > 0. */
  lemma IsSameVerticesProperties(v1: Vertex, v2: Vertex, tol: real)
    ensures IsSameVertices(v1, v2, tol) == IsSameVertices(v2, v1, tol)
    ensures IsSameVertices(v1, v1, tol) <==> tol > 0.0
  {
  }

  /** When the first end points match, the swapped order is never tried. */
  lemma IsSameEdgeFirstEndsDecide(e1: Edge, e2: Edge, tol: real)
    requires IsSameVertices(e1.first, e2.first, tol)
    ensures IsSameEdge(e1, e2, tol) == IsSameVertices(e1.second, e2.second, tol)
  {
  }

  /** A match of is_same_edge is a match of the end points in one of the two orders. */
  lemma IsSameEdgeSound(e1: Edge, e2: Edge, tol: real)
    requires IsSameEdge(e1, e2, tol)
    ensures (IsSameVertices(e1.first, e2.first, tol) && IsSameVertices(e1.second, e2.second, tol))
         || (IsSameVertices(e1.first, e2.second, tol) && IsSameVertices(e1.second, e2.first, tol))
  {
  }

  /** is_same_edge gives the same answer with its arguments exchanged. */
  lemma IsSameEdgeSymmetric(e1: Edge, e2: Edge, tol: real)
    ensures IsSameEdge(e1, e2, tol) == IsSameEdge(e2, e1, tol)
  {
    IsSameVerticesProperties(e1.first, e2.first, tol);
    IsSameVerticesProperties(e1.second, e2.second, tol);
    IsSameVerticesProperties(e1.first, e2.second, tol);
    IsSameVerticesProperties(e1.second, e2.first, tol);
  }

  /**
   * Because the tolerance is not transitive, two edges whose end points match in the swapped
   * order can still be reported different: the first end points match, so the swapped order
   * is not tried, while the second end points are 0.0002 apart.
   */
  lemma SwappedOrderNotTried()
    ensures var a, b := Vertex(0.0, 0.0, 0.0), Vertex(0.00015, 0.0, 0.0);
            var c, d := Vertex(0.00009, 0.0, 0.0), Vertex(-0.00005, 0.0, 0.0);
            && IsSameVertices(a, d, DefaultTolerance) && IsSameVertices(b, c, DefaultTolerance)
            && !IsSameEdge(Edge(a, b), Edge(c, d), DefaultTolerance)
  {
  }

  /** How many inner elements match o. */
  function RowCount<A, B>(o: A, inner: seq<B>, same: (A, B) -> bool): (n: nat)
    ensures n <= |inner|
  {
    if inner == [] then 0 else (if same(o, inner[0]) then 1 else 0) + RowCount(o, inner[1..], same)
  }

  /**
   * The length of the counter list of faces_have_same_vertices and solids_are_the_same:
   * one entry per pair (o, i) of outer and inner elements with same(o, i).
   */
  function MatchCount<A, B>(outer: seq<A>, inner: seq<B>, same: (A, B) -> bool): (n: nat)
    ensures n <= |outer| * |inner|
  {
    if outer == [] then 0 else RowCount(outer[0], inner, same) + MatchCount(outer[1..], inner, same)
  }

  /** How many outer elements match i. */
  function ColumnCount<A, B>(outer: seq<A>, i: B, same: (A, B) -> bool): nat
  {
    if outer == [] then 0 else (if same(outer[0], i) then 1 else 0) + ColumnCount(outer[1..], i, same)
  }

  lemma {:induction false} MatchCountFirstInner<A, B>(outer: seq<A>, inner: seq<B>, same: (A, B) -> bool)
    requires inner != []
    ensures MatchCount(outer, inner, same) == ColumnCount(outer, inner[0], same) + MatchCount(outer, inner[1..], same)
  {
    if outer != [] {
      MatchCountFirstInner(outer[1..], inner, same);
    }
  }

  lemma {:induction false} RowColumn<A, B>(o: A, inner: seq<B>, same: (A, B) -> bool, flipped: (B, A) -> bool)
    requires forall a: A, b: B :: flipped(b, a) == same(a, b)
    ensures RowCount(o, inner, same) == ColumnCount(inner, o, flipped)
  {
    if inner != [] {
      RowColumn(o, inner[1..], same, flipped);
    }
  }

  /** Counting pairs does not depend on which list is scanned in the outer loop. */
  lemma {:induction false} MatchCountTranspose<A, B>(outer: seq<A>, inner: seq<B>, same: (A, B) -> bool, flipped: (B, A) -> bool)
    requires forall a: A, b: B :: flipped(b, a) == same(a, b)
    ensures MatchCount(outer, inner, same) == MatchCount(inner, outer, flipped)
  {
    if inner == [] {
      MatchCountEmptyInner(outer, same);
    } else {
      MatchCountFirstInner(outer, inner, same);
      MatchCountTranspose(outer, inner[1..], same, flipped);
      RowColumn(inner[0], outer, flipped, same);
    }
  }

  lemma {:induction false} MatchCountEmptyInner<A, B>(outer: seq<A>, same: (A, B) -> bool)
    ensures MatchCount(outer, [], same) == 0
  {
    if outer != [] {
      MatchCountEmptyInner(outer[1..], same);
    }
  }

  lemma {:induction false} RowCountSingle<A>(o: A, inner: seq<A>, j: nat, same: (A, A) -> bool)
    requires j < |inner| && same(o, inner[j])
    requires forall l :: 0 <= l < |inner| && l != j ==> !same(o, inner[l])
    ensures RowCount(o, inner, same) == 1
  {
    if j == 0 {
      RowCountNone(o, inner[1..], same);
    } else {
      RowCountSingle(o, inner[1..], j - 1, same);
    }
  }

  lemma {:induction false} RowCountNone<A, B>(o: A, inner: seq<B>, same: (A, B) -> bool)
    requires forall l :: 0 <= l < |inner| ==> !same(o, inner[l])
    ensures RowCount(o, inner, same) == 0
  {
    if inner != [] {
      RowCountNone(o, inner[1..], same);
    }
  }

  /**
   * A list compared with itself: when every element matches itself and no two positions
   * match each other, there is exactly one matching pair per element.
   */
  lemma {:induction false} MatchCountDiagonal<A>(xs: seq<A>, same: (A, A) -> bool, k: nat)
    requires k <= |xs|
    requires forall i :: 0 <= i < |xs| ==> same(xs[i], xs[i])
    requires forall i, j :: 0 <= i < |xs| && 0 <= j < |xs| && i != j ==> !same(xs[i], xs[j])
    ensures MatchCount(xs[k..], xs, same) == |xs| - k
    decreases |xs| - k
  {
    if k < |xs| {
      RowCountSingle(xs[k], xs, k, same);
      assert xs[k..][1..] == xs[k + 1..];
      MatchCountDiagonal(xs, same, k + 1);
    }
  }

  /**
   * faces_have_same_vertices(face1, face2): the number of (vertex of face2, vertex of face1)
   * pairs at the same point must equal both vertex counts.
   */
  predicate FacesHaveSameVertices<P, F, S>(k: Kernel<P, F, S>, face1: F, face2: F)
    ensures FacesHaveSameVertices(k, face1, face2) ==> |k.vertices(face1)| == |k.vertices(face2)|
  {
    var n := MatchCount(k.vertices(face2), k.vertices(face1), k.samePoint);
    n == |k.vertices(face2)| && n == |k.vertices(face1)|
  }

  /** faces_are_same: same center of mass and faces_have_same_vertices. */
  predicate FacesAreSame<P, F, S>(k: Kernel<P, F, S>, face1: F, face2: F)
    ensures FacesAreSame(k, face1, face2) ==> |k.vertices(face1)| == |k.vertices(face2)|
  {
    k.samePoint(k.centerOfMass(face1), k.centerOfMass(face2)) && FacesHaveSameVertices(k, face1, face2)
  }

  /**
   * solids_are_the_same(solid1, solid2): the number of (face of solid2, face of solid1) pairs
   * that are the same faces must equal both face counts.
   */
  predicate SolidsAreTheSame<P, F, S>(k: Kernel<P, F, S>, solid1: S, solid2: S)
    ensures SolidsAreTheSame(k, solid1, solid2) ==> |k.solidFaces(solid1)| == |k.solidFaces(solid2)|
  {
    var n := MatchCount(k.solidFaces(solid2), k.solidFaces(solid1), (face, cface) => FacesAreSame(k, cface, face));
    n == |k.solidFaces(solid2)| && n == |k.solidFaces(solid1)|
  }

  /** With a symmetric point test, faces_have_same_vertices is symmetric. */
  lemma FacesHaveSameVerticesSymmetric<P, F, S>(k: Kernel<P, F, S>, face1: F, face2: F)
    requires forall p: P, q: P :: k.samePoint(p, q) == k.samePoint(q, p)
    ensures FacesHaveSameVertices(k, face1, face2) == FacesHaveSameVertices(k, face2, face1)
  {
    MatchCountTranspose(k.vertices(face2), k.vertices(face1), k.samePoint, k.samePoint);
  }

  /**
   * A face has the same vertices as itself when the point test is reflexive on its vertices
   * and no two of its vertices are at the same point.
   */
  lemma FacesHaveSameVerticesReflexive<P, F, S>(k: Kernel<P, F, S>, face: F)
    requires forall i :: 0 <= i < |k.vertices(face)| ==> k.samePoint(k.vertices(face)[i], k.vertices(face)[i])
    requires forall i, j :: 0 <= i < |k.vertices(face)| && 0 <= j < |k.vertices(face)| && i != j ==>
               !k.samePoint(k.vertices(face)[i], k.vertices(face)[j])
    ensures FacesHaveSameVertices(k, face, face)
  {
    var vs := k.vertices(face);
    MatchCountDiagonal(vs, k.samePoint, 0);
    assert vs[0..] == vs;
  }

  /**
   * A solid is the same as itself when each of its faces is the same as itself and no two
   * of its faces are the same.
   */
  lemma SolidsAreTheSameReflexive<P, F, S>(k: Kernel<P, F, S>, solid: S)
    requires forall i :: 0 <= i < |k.solidFaces(solid)| ==> FacesAreSame(k, k.solidFaces(solid)[i], k.solidFaces(solid)[i])
    requires forall i, j :: 0 <= i < |k.solidFaces(solid)| && 0 <= j < |k.solidFaces(solid)| && i != j ==>
               !FacesAreSame(k, k.solidFaces(solid)[j], k.solidFaces(solid)[i])
    ensures SolidsAreTheSame(k, solid, solid)
  {
    var fs := k.solidFaces(solid);
    var same := (face, cface) => FacesAreSame(k, cface, face);
    MatchCountDiagonal(fs, same, 0);
    assert fs[0..] == fs;
  }

  /**
   * The pair count does not check that every vertex has a partner: face2 = [0, 5] and
   * face1 = [1, 2] with 0 close to both 1 and 2 give two pairs, equal to both lengths,
   * although vertex 5 matches nothing.
   */
  lemma PairCountCanMissVertex()
    ensures var k := Kernel((f: int) => if f == 1 then [0, 5] else [1, 2], (f: int) => 0, (s: int) => [],
                            (p: int, q: int) => p == 0 && (q == 1 || q == 2),
                            (a: int, b: int) => None, (a: int, b: int) => None, (a: int, b: int) => false);
            && FacesHaveSameVertices(k, 2, 1)
            && forall q :: q in k.vertices(2) ==> !k.samePoint(5, q)
  {
    var k := Kernel((f: int) => if f == 1 then [0, 5] else [1, 2], (f: int) => 0, (s: int) => [],
                    (p: int, q: int) => p == 0 && (q == 1 || q == 2),
                    (a: int, b: int) => None, (a: int, b: int) => None, (a: int, b: int) => false);
    assert k.vertices(1) == [0, 5] && k.vertices(2) == [1, 2];
    assert RowCount(0, [1, 2], k.samePoint) == 2;
    assert RowCount(5, [1, 2], k.samePoint) == 0;
    assert MatchCount([0, 5], [1, 2], k.samePoint) == 2;
  }
}
