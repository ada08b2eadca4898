// Planar collision-geometry tests of the surface streaming core
// (game/kernel/jak1/Mario1.cpp; kboot.cpp carries identical copies).
// Vertex coordinates are integers, as in libsm64's SM64Surface; every
// float computation of the source is carried out on exact reals.

module Geometry {

  datatype Vertex = Vertex(x: int, y: int, z: int)

  /** The `int32_t v[3][3]` vertex block of a surface. */
  datatype Triangle = Triangle(v0: Vertex, v1: Vertex, v2: Vertex)

  /** An SM64Surface: type tag, force, terrain tag and its triangle. */
  datatype Surface = Surface(surfaceType: int, force: int, terrain: int, tri: Triangle)

  const CylinderRadius: real := 2000.0
  const CylinderRadiusSq: real := CylinderRadius * CylinderRadius
  const CylinderBuffer: real := 1000.0
  /** M_PI; only its positivity matters to the proofs. */
  const Pi: real := 3.14159265358979323846

  function Abs(r: real): (a: real)
    ensures a >= 0.0 && (a == r || a == -r)
  {
    if r < 0.0 then -r else r
  }

  function Sq(r: real): real { r * r }

  /** Squared planar (XZ) distance. */
  function PlanarDistSq(px: real, pz: real, qx: real, qz: real): real
  {
    Sq(px - qx) + Sq(pz - qz)
  }

  function VertexAt(t: Triangle, k: nat): Vertex
    requires k < 3
  {
    if k == 0 then t.v0 else if k == 1 then t.v1 else t.v2
  }

  // ---------------------------------------------------------------------
  // point_in_triangle_2d

  /** The barycentric determinant as the source computes it. */
  function DetAsWritten(t: Triangle): real
  {
    var x0, z0 := t.v0.x as real, t.v0.z as real;
    var x1, z1 := t.v1.x as real, t.v1.z as real;
    var x2, z2 := t.v2.x as real, t.v2.z as real;
    (z0 - z2) * (x2 - x1) + (x2 - x0) * (z1 - z2)
  }

  /** The barycentric determinant with the sign of the first term corrected. */
  function Det(t: Triangle): real
  {
    var x0, z0 := t.v0.x as real, t.v0.z as real;
    var x1, z1 := t.v1.x as real, t.v1.z as real;
    var x2, z2 := t.v2.x as real, t.v2.z as real;
    (z0 - z2) * (x1 - x2) + (x2 - x0) * (z1 - z2)
  }

  /** Numerator of the weight the test calls s (the weight of v1). */
  function SNumerator(px: real, pz: real, t: Triangle): real
  {
    var x0, z0 := t.v0.x as real, t.v0.z as real;
    var x2, z2 := t.v2.x as real, t.v2.z as real;
    (z0 - z2) * (px - x2) + (x2 - x0) * (pz - z2)
  }

  /** Numerator of the weight the test calls t (the weight of v0). */
  function TNumerator(px: real, pz: real, t: Triangle): real
  {
    var x1, z1 := t.v1.x as real, t.v1.z as real;
    var x2, z2 := t.v2.x as real, t.v2.z as real;
    (z2 - z1) * (px - x2) + (x1 - x2) * (pz - z2)
  }

  /** The containment test with its two weights divided by `d`; a zero
      determinant gives infinities or NaN in IEEE arithmetic, and every
      comparison chain of the source then yields false. */
  function BarycentricTest(px: real, pz: real, t: Triangle, d: real): bool
  {
    if d == 0.0 then false
    else
      var s := SNumerator(px, pz, t) / d;
      var w := TNumerator(px, pz, t) / d;
      s >= 0.0 && w >= 0.0 && s + w <= 1.0
  }

  /** point_in_triangle_2d exactly as the source writes it. */
  function PointInTriangle2DAsWritten(px: real, pz: real, t: Triangle): bool
  {
    BarycentricTest(px, pz, t, DetAsWritten(t))
  }

  /** point_in_triangle_2d with the determinant corrected. */
  function PointInTriangle2D(px: real, pz: real, t: Triangle): bool
  {
    BarycentricTest(px, pz, t, Det(t))
  }

  /** The point with weight a on v0, b on v1 and 1-a-b on v2. */
  function Combination(t: Triangle, a: real, b: real): (real, real)
  {
    var c := 1.0 - a - b;
    (a * t.v0.x as real + b * t.v1.x as real + c * t.v2.x as real,
     a * t.v0.z as real + b * t.v1.z as real + c * t.v2.z as real)
  }

  /** The numerators of a combination are the determinant scaled by its weights. */
  lemma {:induction false} NumeratorsOfCombination(t: Triangle, a: real, b: real)
    ensures SNumerator(Combination(t, a, b).0, Combination(t, a, b).1, t) == b * Det(t)
    ensures TNumerator(Combination(t, a, b).0, Combination(t, a, b).1, t) == a * Det(t)
  {
    var x0, z0 := t.v0.x as real, t.v0.z as real;
    var x1, z1 := t.v1.x as real, t.v1.z as real;
    var x2, z2 := t.v2.x as real, t.v2.z as real;
    var p := Combination(t, a, b);
    var dX := a * (x0 - x2) + b * (x1 - x2);
    var dZ := a * (z0 - z2) + b * (z1 - z2);
    assert p.0 - x2 == dX;
    assert p.1 - z2 == dZ;
    calc {
      SNumerator(p.0, p.1, t);
      (z0 - z2) * dX + (x2 - x0) * dZ;
      a * ((z0 - z2) * (x0 - x2) + (x2 - x0) * (z0 - z2)) + b * ((z0 - z2) * (x1 - x2) + (x2 - x0) * (z1 - z2));
      b * Det(t);
    }
    calc {
      TNumerator(p.0, p.1, t);
      (z2 - z1) * dX + (x1 - x2) * dZ;
      a * ((z2 - z1) * (x0 - x2) + (x1 - x2) * (z0 - z2)) + b * ((z2 - z1) * (x1 - x2) + (x1 - x2) * (z1 - z2));
      a * Det(t);
    }
  }

  /** Every convex combination of the vertices of a non-degenerate triangle passes the corrected test. */
  lemma ConvexCombinationInside(t: Triangle, a: real, b: real)
    requires Det(t) != 0.0
    requires a >= 0.0 && b >= 0.0 && a + b <= 1.0
    ensures PointInTriangle2D(Combination(t, a, b).0, Combination(t, a, b).1, t)
  {
    NumeratorsOfCombination(t, a, b);
  }

  /** Cramer's rule for the two weight numerators, over the edge vectors
      (a0, c0) = v0 - v2 and (a1, c1) = v1 - v2 and the offset (dX, dZ) = p - v2. */
  lemma CramerIdentity(a0: real, c0: real, a1: real, c1: real, dX: real, dZ: real)
    ensures (-c1 * dX + a1 * dZ) * a0 + (c0 * dX - a0 * dZ) * a1 == dX * (c0 * a1 - a0 * c1)
    ensures (-c1 * dX + a1 * dZ) * c0 + (c0 * dX - a0 * dZ) * c1 == dZ * (c0 * a1 - a0 * c1)
  {
  }

  /** A point that passes the corrected test is the convex combination with
      weights (t, s, 1-s-t) of the vertices. */
  lemma InsideIsConvexCombination(px: real, pz: real, t: Triangle) returns (a: real, b: real)
    requires PointInTriangle2D(px, pz, t)
    ensures a >= 0.0 && b >= 0.0 && a + b <= 1.0
    ensures Combination(t, a, b) == (px, pz)
  {
    var d := Det(t);
    var sn, tn := SNumerator(px, pz, t), TNumerator(px, pz, t);
    a := tn / d;
    b := sn / d;
    var x0, z0 := t.v0.x as real, t.v0.z as real;
    var x1, z1 := t.v1.x as real, t.v1.z as real;
    var x2, z2 := t.v2.x as real, t.v2.z as real;
    var a0, c0, a1, c1 := x0 - x2, z0 - z2, x1 - x2, z1 - z2;
    var dX, dZ := px - x2, pz - z2;
    assert sn == c0 * dX - a0 * dZ;
    assert tn == -c1 * dX + a1 * dZ;
    assert d == c0 * a1 - a0 * c1;
    CramerIdentity(a0, c0, a1, c1, dX, dZ);
    assert a * d == tn && b * d == sn;
    assert (a * a0 + b * a1) * d == dX * d;
    assert (a * c0 + b * c1) * d == dZ * d;
    assert a * a0 + b * a1 == dX;
    assert a * c0 + b * c1 == dZ;
    assert Combination(t, a, b).0 == x2 + (a * a0 + b * a1);
    assert Combination(t, a, b).1 == z2 + (a * c0 + b * c1);
  }

  /** With a non-zero determinant the third vertex has s = t = 0 and is inside, for both versions of the test. */
  lemma ThirdVertexInside(t: Triangle)
    ensures DetAsWritten(t) != 0.0 ==> PointInTriangle2DAsWritten(t.v2.x as real, t.v2.z as real, t)
    ensures Det(t) != 0.0 ==> PointInTriangle2D(t.v2.x as real, t.v2.z as real, t)
  {
  }

  /** A degenerate triangle contains no point under either test. */
  lemma DegenerateContainsNothing(px: real, pz: real, t: Triangle)
    ensures Det(t) == 0.0 ==> !PointInTriangle2D(px, pz, t)
    ensures DetAsWritten(t) == 0.0 ==> !PointInTriangle2DAsWritten(px, pz, t)
  {
  }

  /** The triangle (0,0), (1,0), (0,1) of the XZ plane. */
  const UnitTriangle: Triangle := Triangle(Vertex(0, 0, 0), Vertex(1, 0, 0), Vertex(0, 0, 1))

  /** The test as written rejects the centroid and the first vertex of
      UnitTriangle, both of which the corrected test accepts. */
  lemma AsWrittenRejectsInteriorPoints()
    ensures Combination(UnitTriangle, 1.0 / 3.0, 1.0 / 3.0) == (1.0 / 3.0, 1.0 / 3.0)
    ensures !PointInTriangle2DAsWritten(1.0 / 3.0, 1.0 / 3.0, UnitTriangle)
    ensures PointInTriangle2D(1.0 / 3.0, 1.0 / 3.0, UnitTriangle)
    ensures !PointInTriangle2DAsWritten(0.0, 0.0, UnitTriangle)
    ensures PointInTriangle2D(0.0, 0.0, UnitTriangle)
  {
    var t := UnitTriangle;
    assert DetAsWritten(t) == 1.0 && Det(t) == -1.0;
    assert SNumerator(1.0 / 3.0, 1.0 / 3.0, t) == -1.0 / 3.0;
    assert TNumerator(1.0 / 3.0, 1.0 / 3.0, t) == -1.0 / 3.0;
    assert SNumerator(0.0, 0.0, t) == 0.0 && TNumerator(0.0, 0.0, t) == -1.0;
  }

  // ---------------------------------------------------------------------
  // triangle_samples_in_cylinder

  /** The seven barycentric weight pairs (a, b); the third weight is 1 - a - b. */
  const Samples: seq<(real, real)> :=
    [(1.0 / 3.0, 1.0 / 3.0), (0.6, 0.2), (0.2, 0.6), (0.2, 0.2), (0.5, 0.25), (0.25, 0.5), (0.4, 0.4)]

  function SamplePoint(t: Triangle, i: nat): (real, real)
    requires i < |Samples|
  {
    Combination(t, Samples[i].0, Samples[i].1)
  }

  predicate SampleWithin(cx: real, cz: real, t: Triangle, i: nat)
    requires i < |Samples|
  {
    var p := SamplePoint(t, i);
    PlanarDistSq(p.0, p.1, cx, cz) <= CylinderRadiusSq
  }

  /** The value triangle_samples_in_cylinder computes. */
  predicate SamplesInCylinder(cx: real, cz: real, t: Triangle)
  {
    exists i :: 0 <= i < |Samples| && SampleWithin(cx, cz, t, i)
  }

  /** Every sample weight is strictly positive, and the three weights of a sample sum to 1. */
  lemma SampleWeightsPositive(i: nat)
    requires i < |Samples|
    ensures Samples[i].0 > 0.0 && Samples[i].1 > 0.0 && 1.0 - Samples[i].0 - Samples[i].1 > 0.0
  {
  }

  /** Every sample point lies inside a non-degenerate triangle. */
  lemma SamplesInsideTriangle(t: Triangle, i: nat)
    requires i < |Samples| && Det(t) != 0.0
    ensures PointInTriangle2D(SamplePoint(t, i).0, SamplePoint(t, i).1, t)
  {
    SampleWeightsPositive(i);
    ConvexCombinationInside(t, Samples[i].0, Samples[i].1);
  }

  /** The loop of triangle_samples_in_cylinder: samples in list order,
      returning at the first one within the cylinder. */
  method TriangleSamplesInCylinder(cx: real, cz: real, t: Triangle) returns (hit: bool)
    ensures hit <==> SamplesInCylinder(cx, cz, t)
  {
    var i := 0;
    while i < 7
      invariant 0 <= i <= 7
      invariant forall j :: 0 <= j < i ==> !SampleWithin(cx, cz, t, j)
    {
      var a := Samples[i].0;
      var b := Samples[i].1;
      var c := 1.0 - a - b;
      var px := a * t.v0.x as real + b * t.v1.x as real + c * t.v2.x as real;
      var pz := a * t.v0.z as real + b * t.v1.z as real + c * t.v2.z as real;
      assert (px, pz) == SamplePoint(t, i);
      var dx := px - cx;
      var dz := pz - cz;
      assert PlanarDistSq(px, pz, cx, cz) == dx * dx + dz * dz;
      if dx * dx + dz * dz <= CylinderRadiusSq {
        assert SampleWithin(cx, cz, t, i);
        return true;
      }
      i := i + 1;
    }
    return false;
  }

  // ---------------------------------------------------------------------
  // triangle_area_2d

  function TriangleArea2D(t: Triangle): real
  {
    var x0, z0 := t.v0.x as real, t.v0.z as real;
    var x1, z1 := t.v1.x as real, t.v1.z as real;
    var x2, z2 := t.v2.x as real, t.v2.z as real;
    0.5 * Abs((x1 - x0) * (z2 - z0) - (x2 - x0) * (z1 - z0))
  }

  /** The area is half the absolute barycentric determinant: never negative,
      and zero exactly for the degenerate triangles the containment test rejects. */
  lemma AreaIsHalfDet(t: Triangle)
    ensures TriangleArea2D(t) == Abs(Det(t)) / 2.0
    ensures TriangleArea2D(t) >= 0.0
    ensures TriangleArea2D(t) == 0.0 <==> Det(t) == 0.0
  {
    var x0, z0 := t.v0.x as real, t.v0.z as real;
    var x1, z1 := t.v1.x as real, t.v1.z as real;
    var x2, z2 := t.v2.x as real, t.v2.z as real;
    assert (x1 - x0) * (z2 - z0) - (x2 - x0) * (z1 - z0) == -Det(t);
  }

  // ---------------------------------------------------------------------
  // triangle_intersects_cylinder_recursive

  /** C's `/ 2` on int: the quotient truncated toward zero. */
  function TruncHalf(n: int): (h: int)
    ensures n >= 0 ==> 0 <= n - 2 * h <= 1
    ensures n < 0 ==> -1 <= n - 2 * h <= 0
  {
    if n >= 0 then n / 2 else -((-n) / 2)
  }

  function Min(a: int, b: int): int { if a <= b then a else b }
  function Max(a: int, b: int): int { if a <= b then b else a }

  /** The truncated midpoint of two coordinates lies between them. */
  lemma TruncMidBetween(a: int, b: int)
    ensures Min(a, b) <= TruncHalf(a + b) <= Max(a, b)
  {
  }

  function Midpoint(p: Vertex, q: Vertex): Vertex
  {
    Vertex(TruncHalf(p.x + q.x), TruncHalf(p.y + q.y), TruncHalf(p.z + q.z))
  }

  /** The four sub-triangles sub1..sub4 built from the truncated edge midpoints. */
  function SubTriangle(t: Triangle, k: nat): Triangle
    requires k < 4
  {
    var m01 := Midpoint(t.v0, t.v1);
    var m12 := Midpoint(t.v1, t.v2);
    var m20 := Midpoint(t.v2, t.v0);
    if k == 0 then Triangle(t.v0, m01, m20)
    else if k == 1 then Triangle(m01, t.v1, m12)
    else if k == 2 then Triangle(m20, m12, t.v2)
    else Triangle(m01, m12, m20)
  }

  /** The area below which a triangle is sampled rather than subdivided. */
  const SubdivisionArea: real := Pi * CylinderRadiusSq * 4.0

  predicate IsLeaf(t: Triangle, depth: nat)
  {
    depth > 3 || TriangleArea2D(t) < SubdivisionArea
  }

  function RecursionMeasure(depth: nat): nat
  {
    if depth > 3 then 0 else 4 - depth
  }

  function IntersectsCylinderRecursive(cx: real, cz: real, t: Triangle, depth: nat): bool
    decreases RecursionMeasure(depth)
  {
    if IsLeaf(t, depth) then SamplesInCylinder(cx, cz, t)
    else
      IntersectsCylinderRecursive(cx, cz, SubTriangle(t, 0), depth + 1) ||
      IntersectsCylinderRecursive(cx, cz, SubTriangle(t, 1), depth + 1) ||
      IntersectsCylinderRecursive(cx, cz, SubTriangle(t, 2), depth + 1) ||
      IntersectsCylinderRecursive(cx, cz, SubTriangle(t, 3), depth + 1)
  }

  /** Beyond depth 3, or below the area threshold, the recursion is the sampling test. */
  lemma RecursiveFallsBackToSampling(cx: real, cz: real, t: Triangle, depth: nat)
    requires depth > 3 || TriangleArea2D(t) < 4.0 * Pi * CylinderRadiusSq
    ensures IntersectsCylinderRecursive(cx, cz, t, depth) == SamplesInCylinder(cx, cz, t)
  {
  }

  function Pow4(n: nat): (p: nat)
    ensures p >= 1
  {
    if n == 0 then 1 else 4 * Pow4(n - 1)
  }

  /** How many sampling tests one evaluation performs, with the short-circuit `||`. */
  function LeafEvaluations(cx: real, cz: real, t: Triangle, depth: nat): nat
    decreases RecursionMeasure(depth)
  {
    if IsLeaf(t, depth) then 1
    else
      var c0 := LeafEvaluations(cx, cz, SubTriangle(t, 0), depth + 1);
      var c1 := LeafEvaluations(cx, cz, SubTriangle(t, 1), depth + 1);
      var c2 := LeafEvaluations(cx, cz, SubTriangle(t, 2), depth + 1);
      var c3 := LeafEvaluations(cx, cz, SubTriangle(t, 3), depth + 1);
      if IntersectsCylinderRecursive(cx, cz, SubTriangle(t, 0), depth + 1) then c0
      else if IntersectsCylinderRecursive(cx, cz, SubTriangle(t, 1), depth + 1) then c0 + c1
      else if IntersectsCylinderRecursive(cx, cz, SubTriangle(t, 2), depth + 1) then c0 + c1 + c2
      else c0 + c1 + c2 + c3
  }

  /** From depth d the recursion evaluates at most 4^(4-d) sampling tests; 4^4 = 256 from the top. */
  lemma {:induction false} LeafEvaluationsBound(cx: real, cz: real, t: Triangle, depth: nat)
    ensures LeafEvaluations(cx, cz, t, depth) <= Pow4(RecursionMeasure(depth))
    decreases RecursionMeasure(depth)
  {
    if !IsLeaf(t, depth) {
      var bound := Pow4(RecursionMeasure(depth + 1));
      assert Pow4(RecursionMeasure(depth)) == 4 * bound;
      LeafEvaluationsBound(cx, cz, SubTriangle(t, 0), depth + 1);
      LeafEvaluationsBound(cx, cz, SubTriangle(t, 1), depth + 1);
      LeafEvaluationsBound(cx, cz, SubTriangle(t, 2), depth + 1);
      LeafEvaluationsBound(cx, cz, SubTriangle(t, 3), depth + 1);
      var c0 := LeafEvaluations(cx, cz, SubTriangle(t, 0), depth + 1);
      var c1 := LeafEvaluations(cx, cz, SubTriangle(t, 1), depth + 1);
      var c2 := LeafEvaluations(cx, cz, SubTriangle(t, 2), depth + 1);
      var c3 := LeafEvaluations(cx, cz, SubTriangle(t, 3), depth + 1);
      assert LeafEvaluations(cx, cz, t, depth) <= c0 + c1 + c2 + c3;
    }
  }

  function MinX(t: Triangle): int { Min(t.v0.x, Min(t.v1.x, t.v2.x)) }
  function MaxX(t: Triangle): int { Max(t.v0.x, Max(t.v1.x, t.v2.x)) }
  function MinZ(t: Triangle): int { Min(t.v0.z, Min(t.v1.z, t.v2.z)) }
  function MaxZ(t: Triangle): int { Max(t.v0.z, Max(t.v1.z, t.v2.z)) }

  /** The axis-aligned XZ bounding box of a triangle contains (px, pz). */
  predicate InBox(t: Triangle, px: real, pz: real)
  {
    MinX(t) as real <= px <= MaxX(t) as real && MinZ(t) as real <= pz <= MaxZ(t) as real
  }

  /** A sample point of a triangle lies in its bounding box. */
  lemma SampleInBox(t: Triangle, i: nat)
    requires i < |Samples|
    ensures InBox(t, SamplePoint(t, i).0, SamplePoint(t, i).1)
  {
    SampleWeightsPositive(i);
  }

  /** Three values inside [lo, hi] have their minimum and maximum inside it too. */
  lemma MinMaxWithin(lo: int, hi: int, a: int, b: int, c: int)
    requires lo <= a <= hi && lo <= b <= hi && lo <= c <= hi
    ensures lo <= Min(a, Min(b, c)) && Max(a, Max(b, c)) <= hi
  {
  }

  /** The truncated midpoint of two values inside [lo, hi] stays inside it. */
  lemma MidWithin(lo: int, hi: int, a: int, b: int)
    requires lo <= a <= hi && lo <= b <= hi
    ensures lo <= TruncHalf(a + b) <= hi
  {
    TruncMidBetween(a, b);
  }

  /** A vertex inside the bounding box of `t`. */
  predicate VertexInBox(t: Triangle, v: Vertex)
  {
    MinX(t) <= v.x <= MaxX(t) && MinZ(t) <= v.z <= MaxZ(t)
  }

  lemma MidpointInBox(t: Triangle, p: Vertex, q: Vertex)
    requires VertexInBox(t, p) && VertexInBox(t, q)
    ensures VertexInBox(t, Midpoint(p, q))
  {
    MidWithin(MinX(t), MaxX(t), p.x, q.x);
    MidWithin(MinZ(t), MaxZ(t), p.z, q.z);
  }

  /** Each sub-triangle's bounding box lies inside its parent's. */
  lemma SubTriangleBoxInside(t: Triangle, k: nat)
    requires k < 4
    ensures MinX(t) <= MinX(SubTriangle(t, k)) && MaxX(SubTriangle(t, k)) <= MaxX(t)
    ensures MinZ(t) <= MinZ(SubTriangle(t, k)) && MaxZ(SubTriangle(t, k)) <= MaxZ(t)
  {
    assert VertexInBox(t, t.v0) && VertexInBox(t, t.v1) && VertexInBox(t, t.v2);
    MidpointInBox(t, t.v0, t.v1);
    MidpointInBox(t, t.v1, t.v2);
    MidpointInBox(t, t.v2, t.v0);
    var s := SubTriangle(t, k);
    assert VertexInBox(t, s.v0) && VertexInBox(t, s.v1) && VertexInBox(t, s.v2);
    MinMaxWithin(MinX(t), MaxX(t), s.v0.x, s.v1.x, s.v2.x);
    MinMaxWithin(MinZ(t), MaxZ(t), s.v0.z, s.v1.z, s.v2.z);
  }

  /** When the recursive test succeeds, some point of the triangle's bounding
      box lies within the cylinder: truncated midpoints never leave the box. */
  lemma {:induction false} RecursiveHitInBox(cx: real, cz: real, t: Triangle, depth: nat) returns (px: real, pz: real)
    requires IntersectsCylinderRecursive(cx, cz, t, depth)
    ensures InBox(t, px, pz)
    ensures PlanarDistSq(px, pz, cx, cz) <= CylinderRadiusSq
    decreases RecursionMeasure(depth)
  {
    if IsLeaf(t, depth) {
      var i :| 0 <= i < |Samples| && SampleWithin(cx, cz, t, i);
      SampleInBox(t, i);
      px, pz := SamplePoint(t, i).0, SamplePoint(t, i).1;
    } else {
      var k :| 0 <= k < 4 && IntersectsCylinderRecursive(cx, cz, SubTriangle(t, k), depth + 1);
      px, pz := RecursiveHitInBox(cx, cz, SubTriangle(t, k), depth + 1);
      SubTriangleBoxInside(t, k);
    }
  }

  /** A successful sampling test exhibits a point of the triangle (a convex
      combination of its vertices) within the cylinder. */
  lemma SamplesHitInsideTriangle(cx: real, cz: real, t: Triangle) returns (a: real, b: real)
    requires SamplesInCylinder(cx, cz, t)
    ensures a > 0.0 && b > 0.0 && a + b < 1.0
    ensures PlanarDistSq(Combination(t, a, b).0, Combination(t, a, b).1, cx, cz) <= CylinderRadiusSq
  {
    var i :| 0 <= i < |Samples| && SampleWithin(cx, cz, t, i);
    SampleWeightsPositive(i);
    a, b := Samples[i].0, Samples[i].1;
  }
}
