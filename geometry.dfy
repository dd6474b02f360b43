/** Unprojected cell geometry: the two triangle orientations and the hexagonal cells. */
module Geometry {

  /** A lattice point `(i, j, k)` of the simplex triangulation. */
  datatype Vertex = Vertex(i: int, j: int, k: int)

  /** A point with fractional coordinates, as the hexagon offsets produce. */
  datatype Point = Point(i: real, j: real, k: real)

  function CoordinateSum(v: Vertex): int
  {
    v.i + v.j + v.k
  }

  function ToPoint(v: Vertex): Point
  {
    Point(v.i as real, v.j as real, v.k as real)
  }

  function ToPoints(vs: seq<Vertex>): (ps: seq<Point>)
    ensures |ps| == |vs|
    ensures forall n :: 0 <= n < |vs| ==> ps[n] == ToPoint(vs[n])
  {
    seq(|vs|, n requires 0 <= n < |vs| => ToPoint(vs[n]))
  }

  /** The cell whose lower side is parallel to the lower axis: the anchor and its two upper neighbours. */
  function TriangleCoordinates(i: int, j: int, k: int): (r: seq<Vertex>)
    ensures |r| == 3 && r[0] == Vertex(i, j, k)
    ensures forall v :: v in r ==> CoordinateSum(v) == i + j + k
    ensures r[0] != r[1] && r[1] != r[2] && r[0] != r[2]
  {
    [Vertex(i, j, k), Vertex(i + 1, j, k - 1), Vertex(i, j + 1, k - 1)]
  }

  /** The cell whose upper side is parallel to the lower axis. */
  function AltTriangleCoordinates(i: int, j: int, k: int): (r: seq<Vertex>)
    ensures |r| == 3
    ensures r[0] == TriangleCoordinates(i, j, k)[2] && r[2] == TriangleCoordinates(i, j, k)[1]
    ensures CoordinateSum(r[0]) == CoordinateSum(r[2]) == i + j + k
    ensures CoordinateSum(r[1]) == i + j + k + 2
  {
    [Vertex(i, j + 1, k - 1), Vertex(i + 1, j + 1, k), Vertex(i + 1, j, k - 1)]
  }

  /** The upright and the inverted cell of one anchor share exactly the edge between two of their vertices. */
  lemma SharedEdge(i: int, j: int, k: int)
    ensures var up := TriangleCoordinates(i, j, k);
            var down := AltTriangleCoordinates(i, j, k);
            (set v | v in up && v in down) == {Vertex(i + 1, j, k - 1), Vertex(i, j + 1, k - 1)}
  {
    var up := TriangleCoordinates(i, j, k);
    var down := AltTriangleCoordinates(i, j, k);
    assert up[1] == down[2] && up[2] == down[0];
  }

  // The six offset vectors of the hexagonal cells.
  const Alpha := Point(-1.0 / 3.0, 2.0 / 3.0, 0.0)
  const DeltaUp := Point(1.0 / 3.0, 1.0 / 3.0, 0.0)
  const DeltaDown := Point(2.0 / 3.0, -1.0 / 3.0, 0.0)
  const IVec := Point(0.0, 0.5, -0.5)
  const IVecDown := Point(0.5, -0.5, 0.0)
  const DeltaXVec := Point(0.5, 0.0, -0.5)

  function Add(p: Point, d: Point): Point
  {
    Point(p.i + d.i, p.j + d.j, p.k + d.k)
  }

  function Sub(p: Point, d: Point): Point
  {
    Point(p.i - d.i, p.j - d.j, p.k - d.k)
  }

  /** The reflection of `p` through the centre `c`. */
  function Mirror(c: Point, p: Point): Point
  {
    Sub(Add(c, c), p)
  }

  /** The seven branches of the hexagon generator, in the order they are tested. */
  datatype HexCase = CornerJ | CornerK | CornerI | EdgeJ | EdgeI | EdgeK | Interior
  {
    predicate IsCorner() { CornerJ? || CornerK? || CornerI? }
    predicate IsEdge() { EdgeJ? || EdgeI? || EdgeK? }
  }

  function Classify(i: int, j: int, k: int): HexCase
  {
    var steps := i + j + k;
    if j == steps then CornerJ
    else if k == steps then CornerK
    else if i == steps then CornerI
    else if j == 0 then EdgeJ
    else if i == 0 then EdgeI
    else if k == 0 then EdgeK
    else Interior
  }

  /** The full hexagon around a centre. */
  function FullHexagon(c: Point): seq<Point>
  {
    [Add(c, Alpha), Add(c, DeltaUp), Add(c, DeltaDown), Sub(c, Alpha), Sub(c, DeltaUp), Sub(c, DeltaDown)]
  }

  /** The polygon of the hexagonal cell around the lattice point `(i, j, k)`, clipped at the simplex boundary. */
  function HexagonCoordinates(i: int, j: int, k: int): (r: seq<Point>)
    ensures Classify(i, j, k).IsCorner() ==> |r| == 4 && r[0] == ToPoint(Vertex(i, j, k))
    ensures Classify(i, j, k).IsEdge() ==> |r| == 5
    ensures Classify(i, j, k).Interior? ==>
              && |r| == 6
              && r[3] == Mirror(ToPoint(Vertex(i, j, k)), r[0])
              && r[4] == Mirror(ToPoint(Vertex(i, j, k)), r[1])
              && r[5] == Mirror(ToPoint(Vertex(i, j, k)), r[2])
  {
    var steps := i + j + k;
    var c := ToPoint(Vertex(i, j, k));
    // Corners
    if j == steps then [c, Add(c, IVecDown), Sub(c, Alpha), Sub(c, IVec)]
    else if k == steps then [c, Add(c, IVec), Add(c, DeltaUp), Add(c, DeltaXVec)]
    else if i == steps then [c, Sub(c, DeltaXVec), Sub(c, DeltaDown), Sub(c, IVecDown)]
    // Edges
    else if j == 0 then [Sub(c, DeltaXVec), Sub(c, DeltaDown), Add(c, Alpha), Add(c, DeltaUp), Add(c, DeltaXVec)]
    else if i == 0 then [Add(c, IVec), Add(c, DeltaUp), Add(c, DeltaDown), Sub(c, Alpha), Sub(c, IVec)]
    else if k == 0 then [Add(c, IVecDown), Sub(c, Alpha), Sub(c, DeltaUp), Sub(c, DeltaDown), Sub(c, IVecDown)]
    // Interior
    else FullHexagon(c)
  }

  /** On the simplex the branches mean: a corner, the inside of one edge, or the interior. */
  lemma ClassifyOnSimplex(i: int, j: int, k: int)
    requires i >= 0 && j >= 0 && k >= 0
    ensures Classify(i, j, k) == CornerJ <==> i == 0 && k == 0
    ensures Classify(i, j, k) == CornerK <==> i == 0 && j == 0 && k > 0
    ensures Classify(i, j, k) == CornerI <==> j == 0 && k == 0 && i > 0
    ensures Classify(i, j, k) == EdgeJ <==> j == 0 && i > 0 && k > 0
    ensures Classify(i, j, k) == EdgeI <==> i == 0 && j > 0 && k > 0
    ensures Classify(i, j, k) == EdgeK <==> k == 0 && i > 0 && j > 0
    ensures Classify(i, j, k) == Interior <==> i > 0 && j > 0 && k > 0
    ensures Classify(0, 0, 0) == CornerJ
  {
  }

  /** On the simplex, the number of vertices tells how many coordinates vanish. */
  lemma HexagonVertexCount(i: int, j: int, k: int)
    requires i >= 0 && j >= 0 && k >= 0
    ensures |HexagonCoordinates(i, j, k)| == 4 <==> (i == 0 && j == 0) || (j == 0 && k == 0) || (i == 0 && k == 0)
    ensures |HexagonCoordinates(i, j, k)| == 5 <==>
      (i == 0 && j > 0 && k > 0) || (j == 0 && i > 0 && k > 0) || (k == 0 && i > 0 && j > 0)
    ensures |HexagonCoordinates(i, j, k)| == 6 <==> i > 0 && j > 0 && k > 0
  {
    ClassifyOnSimplex(i, j, k);
  }

  /** The centroid of three vertices, in the first two coordinates (the ones a projection onto the plane keeps). */
  function Centroid(vs: seq<Vertex>): (real, real)
    requires |vs| == 3
  {
    ((vs[0].i + vs[1].i + vs[2].i) as real / 3.0, (vs[0].j + vs[1].j + vs[2].j) as real / 3.0)
  }

  function Plane(p: Point): (real, real)
  {
    (p.i, p.j)
  }

  /** The full hexagon is the dual cell: its vertices are the centroids of the six triangles
      meeting at the lattice point, alternating inverted and upright cells. */
  lemma FullHexagonIsDualCell(i: int, j: int, k: int)
    ensures var h := FullHexagon(ToPoint(Vertex(i, j, k)));
      && Plane(h[0]) == Centroid(AltTriangleCoordinates(i - 1, j, k + 1))
      && Plane(h[1]) == Centroid(TriangleCoordinates(i, j, k))
      && Plane(h[2]) == Centroid(AltTriangleCoordinates(i, j - 1, k + 1))
      && Plane(h[3]) == Centroid(TriangleCoordinates(i, j - 1, k + 1))
      && Plane(h[4]) == Centroid(AltTriangleCoordinates(i - 1, j - 1, k + 2))
      && Plane(h[5]) == Centroid(TriangleCoordinates(i - 1, j, k + 1))
  {
  }

  /** Clipped cells are cut along the boundary: the vertices beside the cut lie on a simplex edge
      (a coordinate is zero) and the others are vertices of the full hexagon. */
  lemma ClippedHexagonOnBoundary(i: int, j: int, k: int)
    requires i >= 0 && j >= 0 && k >= 0
    ensures var r := HexagonCoordinates(i, j, k);
            var full := FullHexagon(ToPoint(Vertex(i, j, k)));
      && (Classify(i, j, k) == EdgeJ ==> r[0].j == r[4].j == 0.0 && r[1] in full && r[2] in full && r[3] in full)
      && (Classify(i, j, k) == EdgeI ==> r[0].i == r[4].i == 0.0 && r[1] in full && r[2] in full && r[3] in full)
      && (Classify(i, j, k) == EdgeK ==> r[0].k == r[4].k == 0.0 && r[1] in full && r[2] in full && r[3] in full)
      && (Classify(i, j, k) == CornerJ ==> r[1].k == 0.0 && r[3].i == 0.0 && r[2] in full)
      && (Classify(i, j, k) == CornerK ==> r[1].i == 0.0 && r[3].j == 0.0 && r[2] in full)
      && (Classify(i, j, k) == CornerI ==> r[1].j == 0.0 && r[3].k == 0.0 && r[2] in full)
  {
    ClassifyOnSimplex(i, j, k);
  }
}
