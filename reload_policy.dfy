// The hysteresis rule of maybe_reload_surfaces (game/kernel/jak1/Mario1.cpp,
// and its copy in game/kernel/jak1/kboot.cpp): the working set is rebuilt
// around the avatar only once it has moved, in the XZ plane, further than
// CYLINDER_RADIUS - CYLINDER_BUFFER from the point of the last rebuild.

module ReloadPolicy {
  import opened Geometry

  datatype Point3 = Point3(x: real, y: real, z: real)

  /** The avatar's spawn point, the anchor before the first rebuild. */
  const InitialAnchor: Point3 := Point3(-7541.8, 1688.475, 9237.5)

  const ReloadThresholdSq: real := (CylinderRadius - CylinderBuffer) * (CylinderRadius - CylinderBuffer)

  predicate ShouldReload(anchor: Point3, pos: Point3)
  {
    PlanarDistSq(pos.x, pos.z, anchor.x, anchor.z) > ReloadThresholdSq
  }

  /** The anchor after one call: the whole position on a rebuild, else unchanged. */
  function NextAnchor(anchor: Point3, pos: Point3): Point3
  {
    if ShouldReload(anchor, pos) then pos else anchor
  }

  /** The threshold is 1000 units, compared strictly, and height plays no part. */
  lemma ReloadRule(anchor: Point3, pos: Point3, h: real)
    ensures ReloadThresholdSq == 1000000.0
    ensures ShouldReload(anchor, pos) <==> Sq(pos.x - anchor.x) + Sq(pos.z - anchor.z) > 1000.0 * 1000.0
    ensures ShouldReload(anchor, pos) == ShouldReload(anchor, pos.(y := h))
    ensures ShouldReload(anchor, pos) == ShouldReload(anchor.(y := h), pos)
    ensures !ShouldReload(pos, pos)
  {
  }

  /** The anchors after each of a series of calls. */
  function AnchorTrace(anchor: Point3, positions: seq<Point3>): (trace: seq<Point3>)
    ensures |trace| == |positions|
    decreases positions
  {
    if positions == [] then []
    else
      var next := NextAnchor(anchor, positions[0]);
      [next] + AnchorTrace(next, positions[1..])
  }

  /** The anchor after a series of calls, folded from the last call back. */
  function FinalAnchor(anchor: Point3, positions: seq<Point3>): Point3
    decreases positions
  {
    if positions == [] then anchor
    else NextAnchor(FinalAnchor(anchor, positions[..|positions| - 1]), positions[|positions| - 1])
  }

  /** The fold and the trace agree: entry i of the trace is the anchor after the first i+1 calls. */
  lemma {:induction false} TraceIsPrefixFolds(anchor: Point3, positions: seq<Point3>, i: nat)
    requires i < |positions|
    ensures AnchorTrace(anchor, positions)[i] == FinalAnchor(anchor, positions[..i + 1])
    decreases |positions|
  {
    if i == 0 {
      assert positions[..1][..0] == [];
    } else {
      var next := NextAnchor(anchor, positions[0]);
      TraceIsPrefixFolds(next, positions[1..], i - 1);
      FinalAnchorFirstStep(anchor, positions[..i + 1]);
      assert positions[..i + 1][1..] == positions[1..][..i];
    }
  }

  /** Unfolding the first call of the fold. */
  lemma {:induction false} FinalAnchorFirstStep(anchor: Point3, positions: seq<Point3>)
    requires positions != []
    ensures FinalAnchor(anchor, positions) == FinalAnchor(NextAnchor(anchor, positions[0]), positions[1..])
    decreases |positions|
  {
    if |positions| > 1 {
      var front := positions[..|positions| - 1];
      FinalAnchorFirstStep(anchor, front);
      assert front[1..] == positions[1..][..|positions[1..]| - 1];
    }
  }

  /** How many of a series of calls rebuild the working set. */
  function Refreshes(anchor: Point3, positions: seq<Point3>): nat
    decreases positions
  {
    if positions == [] then 0
    else
      (if ShouldReload(anchor, positions[0]) then 1 else 0) + Refreshes(NextAnchor(anchor, positions[0]), positions[1..])
  }

  /** One more call adds a rebuild exactly when it fires against the anchor so far. */
  lemma {:induction false} RefreshesSnoc(anchor: Point3, positions: seq<Point3>, p: Point3)
    ensures Refreshes(anchor, positions + [p]) ==
            Refreshes(anchor, positions) + (if ShouldReload(FinalAnchor(anchor, positions), p) then 1 else 0)
    decreases |positions|
  {
    if positions == [] {
      assert positions + [p] == [p];
      assert [p][1..] == [];
    } else {
      var next := NextAnchor(anchor, positions[0]);
      assert (positions + [p])[0] == positions[0];
      assert (positions + [p])[1..] == positions[1..] + [p];
      RefreshesSnoc(next, positions[1..], p);
      FinalAnchorFirstStep(anchor, positions);
    }
  }

  /** Positions that stay within the band around the anchor never trigger a
      rebuild, however they oscillate: the anchor stays put. */
  lemma {:induction false} NoThrashInsideBand(anchor: Point3, positions: seq<Point3>)
    requires forall i :: 0 <= i < |positions| ==> !ShouldReload(anchor, positions[i])
    ensures Refreshes(anchor, positions) == 0
    ensures forall i :: 0 <= i < |positions| ==> AnchorTrace(anchor, positions)[i] == anchor
    decreases positions
  {
    if positions != [] {
      NoThrashInsideBand(anchor, positions[1..]);
    }
  }

  /** Whenever the anchor moves it moves to the current position, and that
      position lies strictly outside the band around the previous anchor. */
  lemma {:induction false} AnchorMovesOnlyFar(anchor: Point3, positions: seq<Point3>, i: nat)
    requires i < |positions|
    ensures var prev := if i == 0 then anchor else AnchorTrace(anchor, positions)[i - 1];
            var cur := AnchorTrace(anchor, positions)[i];
            (cur == prev || cur == positions[i]) &&
            (ShouldReload(prev, positions[i]) ==> cur == positions[i]) &&
            (!ShouldReload(prev, positions[i]) ==> cur == prev)
    decreases i
  {
    if i > 0 {
      AnchorMovesOnlyFar(NextAnchor(anchor, positions[0]), positions[1..], i - 1);
    }
  }

  /** A refresh never happens more often than once per call. */
  lemma {:induction false} RefreshesBounded(anchor: Point3, positions: seq<Point3>)
    ensures Refreshes(anchor, positions) <= |positions|
    decreases positions
  {
    if positions != [] {
      RefreshesBounded(NextAnchor(anchor, positions[0]), positions[1..]);
    }
  }

  /** After a rebuild at p, the next rebuild needs a position more than 1000
      units from p, so two successive rebuild points are that far apart. */
  lemma SuccessiveRebuildsFarApart(anchor: Point3, p: Point3, q: Point3)
    requires ShouldReload(anchor, p)
    requires ShouldReload(NextAnchor(anchor, p), q)
    ensures Sq(q.x - p.x) + Sq(q.z - p.z) > 1000.0 * 1000.0
  {
  }
}
