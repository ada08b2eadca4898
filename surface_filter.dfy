// The proximity filter of load_surfaces_near: the order-preserving
// selection of the surfaces that pass the three-tier inclusion test.
// Both copies of the code run point_in_triangle_2d as written for the
// second tier. game/kernel/jak1/Mario1.cpp runs the recursive subdivision
// test as its third tier; the older copy in game/kernel/jak1/kboot.cpp runs
// the plain sampling test. The filter takes these choices as a parameter,
// so the same lemmas cover both copies and the corrected second tier.

module SurfaceFilter {
  import opened Geometry

  /** Which point-in-triangle test the second tier runs. */
  datatype CentreTest = CentreAsWritten | CentreCorrected

  datatype ThirdTier = RecursiveTier | SamplingTier

  /** The second- and third-tier tests one copy of load_surfaces_near runs. */
  datatype FilterTests = FilterTests(centre: CentreTest, third: ThirdTier)

  /** Mario1.cpp: point_in_triangle_2d as written, then the recursive test. */
  const MarioTests: FilterTests := FilterTests(CentreAsWritten, RecursiveTier)

  /** kboot.cpp: point_in_triangle_2d as written, then the sampling test. */
  const KernelTests: FilterTests := FilterTests(CentreAsWritten, SamplingTier)

  predicate VertexInCylinder(v: Vertex, cx: real, cz: real)
  {
    PlanarDistSq(v.x as real, v.z as real, cx, cz) <= CylinderRadiusSq
  }

  predicate AnyVertexInCylinder(t: Triangle, cx: real, cz: real)
  {
    VertexInCylinder(t.v0, cx, cz) || VertexInCylinder(t.v1, cx, cz) || VertexInCylinder(t.v2, cx, cz)
  }

  predicate CentreInside(t: Triangle, cx: real, cz: real, centre: CentreTest)
  {
    match centre
    case CentreAsWritten => PointInTriangle2DAsWritten(cx, cz, t)
    case CentreCorrected => PointInTriangle2D(cx, cz, t)
  }

  predicate ThirdTierTest(t: Triangle, cx: real, cz: real, third: ThirdTier)
  {
    match third
    case RecursiveTier => IntersectsCylinderRecursive(cx, cz, t, 0)
    case SamplingTier => SamplesInCylinder(cx, cz, t)
  }

  /** The inclusion test of one surface. */
  predicate Include(s: Surface, cx: real, cz: real, tests: FilterTests)
  {
    AnyVertexInCylinder(s.tri, cx, cz) || CentreInside(s.tri, cx, cz, tests.centre) ||
    ThirdTierTest(s.tri, cx, cz, tests.third)
  }

  /** The surfaces of `ss` that pass the inclusion test, in their original order. */
  function Filter(ss: seq<Surface>, cx: real, cz: real, tests: FilterTests): seq<Surface>
  {
    if ss == [] then []
    else
      var last := ss[|ss| - 1];
      Filter(ss[..|ss| - 1], cx, cz, tests) + (if Include(last, cx, cz, tests) then [last] else [])
  }

  lemma {:induction false} FilterLength(ss: seq<Surface>, cx: real, cz: real, tests: FilterTests)
    ensures |Filter(ss, cx, cz, tests)| <= |ss|
  {
    if ss != [] {
      FilterLength(ss[..|ss| - 1], cx, cz, tests);
    }
  }

  /** Filtering distributes over concatenation. */
  lemma {:induction false} FilterAppend(a: seq<Surface>, b: seq<Surface>, cx: real, cz: real, tests: FilterTests)
    ensures Filter(a + b, cx, cz, tests) == Filter(a, cx, cz, tests) + Filter(b, cx, cz, tests)
    decreases |b|
  {
    if b == [] {
      assert a + b == a;
    } else {
      var last := b[|b| - 1];
      assert (a + b)[..|a + b| - 1] == a + b[..|b| - 1];
      FilterAppend(a, b[..|b| - 1], cx, cz, tests);
    }
  }

  /** Every surface kept passes the test. */
  lemma {:induction false} FilterKeepsOnlyIncluded(ss: seq<Surface>, cx: real, cz: real, tests: FilterTests)
    ensures forall s :: s in Filter(ss, cx, cz, tests) ==> s in ss && Include(s, cx, cz, tests)
  {
    if ss != [] {
      FilterKeepsOnlyIncluded(ss[..|ss| - 1], cx, cz, tests);
    }
  }

  /** Extends a selection of the first |ss|-1 entries, where entry i is
      wanted exactly when `wanted[i]`, by the last entry. */
  lemma SelectionStep<T>(ss: seq<T>, wanted: seq<bool>, kept: seq<T>, rest: seq<nat>) returns (idx: seq<nat>)
    requires |ss| > 0 && |wanted| == |ss|
    requires |rest| == |kept|
    requires forall j :: 0 <= j < |rest| ==> rest[j] < |ss| - 1 && kept[j] == ss[rest[j]]
    requires forall j, k :: 0 <= j < k < |rest| ==> rest[j] < rest[k]
    requires forall i :: 0 <= i < |ss| - 1 ==> (i in rest <==> wanted[i])
    ensures var out := kept + (if wanted[|ss| - 1] then [ss[|ss| - 1]] else []);
            |idx| == |out| &&
            (forall j :: 0 <= j < |idx| ==> idx[j] < |ss| && out[j] == ss[idx[j]])
    ensures forall j, k :: 0 <= j < k < |idx| ==> idx[j] < idx[k]
    ensures forall i :: 0 <= i < |ss| ==> (i in idx <==> wanted[i])
  {
    var n := |ss| - 1;
    if wanted[n] {
      idx := rest + [n];
      assert forall i :: i in idx <==> i in rest || i == n;
      assert n !in rest;
    } else {
      idx := rest;
      assert n !in rest;
    }
  }

  /** The kept surfaces are exactly those at the indices `idx`, which are
      increasing and are precisely the indices whose surface passes the test. */
  lemma {:induction false} FilterIsSelection(ss: seq<Surface>, cx: real, cz: real, tests: FilterTests) returns (idx: seq<nat>)
    ensures |idx| == |Filter(ss, cx, cz, tests)|
    ensures forall j :: 0 <= j < |idx| ==> idx[j] < |ss| && Filter(ss, cx, cz, tests)[j] == ss[idx[j]]
    ensures forall j, k :: 0 <= j < k < |idx| ==> idx[j] < idx[k]
    ensures forall i :: 0 <= i < |ss| ==> (i in idx <==> Include(ss[i], cx, cz, tests))
  {
    if ss == [] {
      idx := [];
    } else {
      var n := |ss| - 1;
      var front := ss[..n];
      var rest := FilterIsSelection(front, cx, cz, tests);
      assert forall i :: 0 <= i < n ==> front[i] == ss[i];
      var wanted := seq(|ss|, i requires 0 <= i < |ss| => Include(ss[i], cx, cz, tests));
      idx := SelectionStep(ss, wanted, Filter(front, cx, cz, tests), rest);
    }
  }

  /** Filtering a filtered sequence with the same centre changes nothing. */
  lemma {:induction false} FilterIdempotent(ss: seq<Surface>, cx: real, cz: real, tests: FilterTests)
    ensures Filter(Filter(ss, cx, cz, tests), cx, cz, tests) == Filter(ss, cx, cz, tests)
  {
    if ss != [] {
      var last := ss[|ss| - 1];
      var front := Filter(ss[..|ss| - 1], cx, cz, tests);
      var tail := if Include(last, cx, cz, tests) then [last] else [];
      FilterIdempotent(ss[..|ss| - 1], cx, cz, tests);
      FilterAppend(front, tail, cx, cz, tests);
      if Include(last, cx, cz, tests) {
        assert Filter(tail, cx, cz, tests) == Filter([], cx, cz, tests) + [last];
      }
    }
  }

  /** A surface with a vertex inside the cylinder is always kept. */
  lemma {:induction false} VertexInCylinderKept(ss: seq<Surface>, i: nat, cx: real, cz: real, tests: FilterTests)
    requires i < |ss| && AnyVertexInCylinder(ss[i].tri, cx, cz)
    ensures ss[i] in Filter(ss, cx, cz, tests)
  {
    var idx := FilterIsSelection(ss, cx, cz, tests);
    var j :| 0 <= j < |idx| && idx[j] == i;
    assert Filter(ss, cx, cz, tests)[j] == ss[i];
  }

  /** Step 1 of the test: the vertices in order, stopping at the first one inside the cylinder. */
  method VertexScan(t: Triangle, cx: real, cz: real) returns (hit: bool)
    ensures hit <==> AnyVertexInCylinder(t, cx, cz)
  {
    hit := false;
    var v := 0;
    while v < 3
      invariant 0 <= v <= 3
      invariant !hit
      invariant forall k :: 0 <= k < v ==> !VertexInCylinder(VertexAt(t, k), cx, cz)
    {
      var p := VertexAt(t, v);
      var dx := p.x as real - cx;
      var dz := p.z as real - cz;
      assert PlanarDistSq(p.x as real, p.z as real, cx, cz) == dx * dx + dz * dz;
      if dx * dx + dz * dz <= CylinderRadiusSq {
        assert VertexInCylinder(VertexAt(t, v), cx, cz);
        assert v == 0 || v == 1 || v == 2;
        hit := true;
        break;
      }
      v := v + 1;
    }
    if !hit {
      assert !VertexInCylinder(VertexAt(t, 0), cx, cz) && !VertexInCylinder(VertexAt(t, 1), cx, cz)
        && !VertexInCylinder(VertexAt(t, 2), cx, cz);
    }
  }

  /** The three tiers in order, each tried only when the previous ones failed. */
  method Decide(s: Surface, cx: real, cz: real, tests: FilterTests) returns (keep: bool)
    ensures keep == Include(s, cx, cz, tests)
  {
    // 1. any vertex in the cylinder
    keep := VertexScan(s.tri, cx, cz);
    // 2. cylinder centre inside the triangle
    if !keep {
      match tests.centre
      case CentreAsWritten =>
        keep := PointInTriangle2DAsWritten(cx, cz, s.tri);
      case CentreCorrected =>
        keep := PointInTriangle2D(cx, cz, s.tri);
    }
    // 3. the third-tier test
    if !keep {
      match tests.third
      case RecursiveTier =>
        keep := IntersectsCylinderRecursive(cx, cz, s.tri, 0);
      case SamplingTier =>
        keep := TriangleSamplesInCylinder(cx, cz, s.tri);
    }
  }

  /** The scan of load_surfaces_near: fills a buffer as large as the input
      with the surfaces that pass the test, in order, and counts them. */
  method FilterSurfaces(src: array<Surface>, n: nat, cx: real, cz: real, tests: FilterTests)
    returns (filtered: array<Surface>, count: nat)
    requires n <= src.Length
    ensures fresh(filtered) && filtered.Length == n
    ensures count <= n
    ensures filtered[..count] == Filter(src[..n], cx, cz, tests)
  {
    filtered := new Surface[n];
    count := 0;
    var i := 0;
    while i < n
      invariant 0 <= count <= i <= n
      invariant filtered[..count] == Filter(src[..i], cx, cz, tests)
    {
      var s := src[i];
      var keep := Decide(s, cx, cz, tests);
      assert src[..i + 1][..i] == src[..i];
      if keep {
        filtered[count] := s;
        count := count + 1;
      }
      i := i + 1;
    }
    assert src[..n] == src[..i];
  }

  /** A wide floor triangle whose interior holds the point (5000, 5000). */
  const WideFloor: Surface :=
    Surface(0, 0, 0, Triangle(Vertex(0, 0, 0), Vertex(300000, 0, 0), Vertex(0, 0, 300000)))

  /** Neither a vertex nor a sample of WideFloor is within the radius of (5000, 5000). */
  lemma WideFloorOnlyHoldsCentre()
    ensures !AnyVertexInCylinder(WideFloor.tri, 5000.0, 5000.0)
    ensures !SamplesInCylinder(5000.0, 5000.0, WideFloor.tri)
  {
    var t := WideFloor.tri;
    forall i | 0 <= i < |Samples|
      ensures !SampleWithin(5000.0, 5000.0, t, i)
    {
      var p := SamplePoint(t, i);
      assert p.0 >= 60000.0 || p.1 >= 60000.0;
    }
  }

  /** With the centre at (5000, 5000), kboot's filter as written drops the
      floor that holds the centre, which the corrected second tier keeps. */
  lemma KernelFilterDropsFloorUnderCentre()
    ensures PointInTriangle2D(5000.0, 5000.0, WideFloor.tri)
    ensures Filter([WideFloor], 5000.0, 5000.0, KernelTests) == []
    ensures Filter([WideFloor], 5000.0, 5000.0, FilterTests(CentreCorrected, SamplingTier)) == [WideFloor]
  {
    var t := WideFloor.tri;
    WideFloorOnlyHoldsCentre();
    assert DetAsWritten(t) == 90000000000.0 && SNumerator(5000.0, 5000.0, t) == -1500000000.0;
    assert Det(t) == -90000000000.0 && TNumerator(5000.0, 5000.0, t) == -87000000000.0;
    assert [WideFloor][..0] == [];
  }
}
