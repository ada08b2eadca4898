// The collision-surface streaming state of game/kernel/jak1/Mario1.cpp: the
// combined table of the current zones, the cylinder anchor, the avatar id,
// and the frame counter and button latch of tick_mario_frame.
//
// The physics engine behind the avatar is a foreign library; the model keeps
// only what the code hands to it, as ghost state: the surfaces last loaded
// into it, how many loads, avatar creations and avatar steps there were, and
// the positions at which a cube was spawned. Whether an allocation succeeds
// and which id the engine assigns to a new avatar are chosen
// nondeterministically.

module Streaming {
  import opened Geometry
  import opened SurfaceFilter
  import opened ReloadPolicy
  import opened Zones
  import opened FrameCounter

  /** memcpy of `src` into `buf` at `offset`. */
  method CopyInto(buf: array<Surface>, offset: nat, src: seq<Surface>)
    requires offset + |src| <= buf.Length
    modifies buf
    ensures buf[offset..offset + |src|] == src
    ensures buf[..offset] == old(buf[..offset])
    ensures buf[offset + |src|..] == old(buf[offset + |src|..])
  {
    var i := 0;
    while i < |src|
      invariant 0 <= i <= |src|
      invariant buf[offset..offset + i] == src[..i]
      invariant buf[..offset] == old(buf[..offset])
      invariant buf[offset + |src|..] == old(buf[offset + |src|..])
    {
      buf[offset + i] := src[i];
      i := i + 1;
    }
  }

  /** The malloc'd buffer filled by the two memcpy calls. */
  method NewCombined(surfaces1: seq<Surface>, surfaces2: seq<Surface>) returns (buf: array<Surface>)
    ensures fresh(buf)
    ensures buf[..] == surfaces1 + surfaces2
  {
    buf := new Surface[|surfaces1| + |surfaces2|];
    CopyInto(buf, 0, surfaces1);
    CopyInto(buf, |surfaces1|, surfaces2);
    assert buf[..] == buf[..|surfaces1|] + buf[|surfaces1|..buf.Length];
  }

  class StreamingController {
    /** g_cylinder_center: where the working set was last rebuilt. */
    var anchor: Point3
    /** g_combined_surfaces (null when absent) and g_combined_surfaces_count. */
    var combined: array?<Surface>
    var combinedCount: nat
    var marioId: int
    var frameNum: nat
    var prevPunch: bool

    /** The surfaces the physics engine was last given, and how many loads there were. */
    ghost var backend: seq<Surface>
    ghost var backendLoads: nat
    ghost var avatarCreations: nat
    ghost var avatarTicks: nat
    /** The avatar positions under which a cube was spawned, in order. */
    ghost var cubeSpawns: seq<Point3>

    /** The count always describes the buffer: 0 when there is none. */
    ghost predicate Valid()
      reads this
    {
      (combined == null ==> combinedCount == 0) &&
      (combined != null ==> combinedCount == combined.Length)
    }

    /** The combined table as a sequence; an absent buffer is the empty table. */
    ghost function Combined(): seq<Surface>
      reads this, combined
    {
      if combined == null then [] else combined[..]
    }

    /** The start-up state: no buffer, no avatar, the spawn point as anchor. */
    constructor ()
      ensures Valid()
      ensures anchor == InitialAnchor && combined == null && marioId == NoAvatar
      ensures frameNum == 0 && !prevPunch
      ensures backend == [] && backendLoads == 0 && avatarCreations == 0 && avatarTicks == 0 && cubeSpawns == []
    {
      anchor := InitialAnchor;
      combined := null;
      combinedCount := 0;
      marioId := NoAvatar;
      frameNum := 0;
      prevPunch := false;
      backend := [];
      backendLoads := 0;
      avatarCreations := 0;
      avatarTicks := 0;
      cubeSpawns := [];
    }

    /** load_combined_static_surfaces: drops the old buffer, then builds
        `surfaces1 + surfaces2` in a fresh one, hands it to the engine and
        creates the avatar if there is none. A null table is the empty one. */
    method LoadCombinedStaticSurfaces(surfaces1: seq<Surface>, surfaces2: seq<Surface>)
      requires Valid()
      modifies this
      ensures Valid()
      ensures combined == null || fresh(combined)
      ensures combined == null ==>
        backend == old(backend) && backendLoads == old(backendLoads) &&
        marioId == old(marioId) && avatarCreations == old(avatarCreations)
      ensures combined != null ==>
        Combined() == surfaces1 + surfaces2 && backend == surfaces1 + surfaces2 &&
        backendLoads == old(backendLoads) + 1
      ensures combined != null && old(marioId) == NoAvatar ==> avatarCreations == old(avatarCreations) + 1
      ensures combined != null && old(marioId) != NoAvatar ==>
        marioId == old(marioId) && avatarCreations == old(avatarCreations)
      ensures anchor == old(anchor) && frameNum == old(frameNum) && prevPunch == old(prevPunch)
      ensures avatarTicks == old(avatarTicks) && cubeSpawns == old(cubeSpawns)
    {
      var total := |surfaces1| + |surfaces2|;
      // the previous buffer is always released first
      combined := null;
      combinedCount := 0;
      var mallocOk: bool :| true;
      if !mallocOk {
        return;
      }
      var buf := NewCombined(surfaces1, surfaces2);
      combined := buf;
      combinedCount := total;
      backend := buf[..];
      backendLoads := backendLoads + 1;
      if marioId == NoAvatar {
        var id: int :| true;
        marioId := id;
        avatarCreations := avatarCreations + 1;
      }
    }

    /** pc_call_load_combined_static_surfaces_from_game_idx: the table of the
        zone keyed by round(x) first, then the one keyed by round(z). */
    method LoadCombinedFromGameIdx(x: real, z: real, tables: Zone -> seq<Surface>)
      requires Valid()
      modifies this
      ensures Valid()
      ensures combined == null || fresh(combined)
      ensures combined != null ==>
        Combined() == ZoneSurfaces(tables, RoundHalfAway(x)) + ZoneSurfaces(tables, RoundHalfAway(z)) &&
        backend == Combined() && backendLoads == old(backendLoads) + 1
      ensures combined == null ==> backend == old(backend) && backendLoads == old(backendLoads)
      ensures anchor == old(anchor) && frameNum == old(frameNum) && prevPunch == old(prevPunch)
    {
      var xKey := RoundHalfAway(x);
      var zKey := RoundHalfAway(z);
      var surfaces1 := ZoneSurfaces(tables, xKey);
      var surfaces2 := ZoneSurfaces(tables, zKey);
      LoadCombinedStaticSurfaces(surfaces1, surfaces2);
    }

    /** load_surfaces_near: hands the engine the surfaces of the combined
        table near (x, z), in table order; returns how many. Nothing happens
        without a non-empty table or when the scratch buffer cannot be had. */
    method LoadSurfacesNear(x: real, y: real, z: real) returns (count: nat)
      requires Valid()
      modifies this
      ensures Valid()
      ensures combined == old(combined) && combinedCount == old(combinedCount)
      ensures count <= |Combined()|
      ensures Combined() == [] ==> count == 0 && backend == old(backend) && backendLoads == old(backendLoads)
      ensures (count == 0 && backend == old(backend) && backendLoads == old(backendLoads)) ||
              (backend == Filter(Combined(), x, z, MarioTests) && count == |backend| &&
               backendLoads == old(backendLoads) + 1)
      ensures anchor == old(anchor) && marioId == old(marioId) && frameNum == old(frameNum) && prevPunch == old(prevPunch)
      ensures avatarCreations == old(avatarCreations) && avatarTicks == old(avatarTicks) && cubeSpawns == old(cubeSpawns)
    {
      if combined == null || combinedCount == 0 {
        return 0;
      }
      var mallocOk: bool :| true;
      if !mallocOk {
        return 0;
      }
      var filtered, n := FilterSurfaces(combined, combinedCount, x, z, MarioTests);
      assert combined[..combinedCount] == combined[..];
      backend := filtered[..n];
      backendLoads := backendLoads + 1;
      count := n;
    }

    /** maybe_reload_surfaces: once the avatar is more than 1000 units from
        the anchor in the XZ plane, re-anchor at its position and reload. */
    method MaybeReloadSurfaces(pos: Point3)
      requires Valid()
      modifies this
      ensures Valid()
      ensures anchor == NextAnchor(old(anchor), pos)
      ensures combined == old(combined) && combinedCount == old(combinedCount)
      ensures !ShouldReload(old(anchor), pos) ==> backend == old(backend) && backendLoads == old(backendLoads)
      ensures (backend == old(backend) && backendLoads == old(backendLoads)) ||
              (ShouldReload(old(anchor), pos) && Combined() != [] &&
               backend == Filter(Combined(), pos.x, pos.z, MarioTests) && backendLoads == old(backendLoads) + 1)
      ensures marioId == old(marioId) && frameNum == old(frameNum) && prevPunch == old(prevPunch)
      ensures avatarCreations == old(avatarCreations) && avatarTicks == old(avatarTicks) && cubeSpawns == old(cubeSpawns)
    {
      var dx := pos.x - anchor.x;
      var dz := pos.z - anchor.z;
      var distSq := dx * dx + dz * dz;
      var thresholdSq := (CylinderRadius - CylinderBuffer) * (CylinderRadius - CylinderBuffer);
      assert distSq == PlanarDistSq(pos.x, pos.z, anchor.x, anchor.z);
      if distSq > thresholdSq {
        anchor := pos;
        var _ := LoadSurfacesNear(anchor.x, anchor.y, anchor.z);
      }
    }

    /** tick_mario_frame: on every other call while an avatar exists, steps
        it (the engine reports its new position as `tickedPosition`), spawns
        a cube on a fresh press of B and lets the working set follow. */
    method TickMarioFrame(buttonB: bool, tickedPosition: Point3)
      requires Valid()
      modifies this
      ensures Valid()
      ensures frameNum == NextFrameNum(old(frameNum), old(marioId))
      ensures marioId == old(marioId) && combined == old(combined) && avatarCreations == old(avatarCreations)
      ensures WillTick(old(frameNum), old(marioId)) ==>
        avatarTicks == old(avatarTicks) + 1 && prevPunch == buttonB &&
        cubeSpawns == old(cubeSpawns) + (if buttonB && !old(prevPunch) then [tickedPosition] else []) &&
        anchor == NextAnchor(old(anchor), tickedPosition) &&
        (!ShouldReload(old(anchor), tickedPosition) ==> backend == old(backend) && backendLoads == old(backendLoads)) &&
        ((backend == old(backend) && backendLoads == old(backendLoads)) ||
         (ShouldReload(old(anchor), tickedPosition) && Combined() != [] &&
          backend == Filter(Combined(), tickedPosition.x, tickedPosition.z, MarioTests) &&
          backendLoads == old(backendLoads) + 1))
      ensures !WillTick(old(frameNum), old(marioId)) ==>
        avatarTicks == old(avatarTicks) && prevPunch == old(prevPunch) && cubeSpawns == old(cubeSpawns) &&
        anchor == old(anchor) && backend == old(backend) && backendLoads == old(backendLoads)
    {
      if frameNum % 2 == 0 && marioId != NoAvatar {
        avatarTicks := avatarTicks + 1;
        var currentPunch := buttonB;
        if currentPunch && !prevPunch {
          if marioId != NoAvatar {
            cubeSpawns := cubeSpawns + [tickedPosition];
          }
        }
        prevPunch := currentPunch;
        MaybeReloadSurfaces(tickedPosition);
        frameNum := 0;
      }
      frameNum := frameNum + 1;
    }
  }
}
