// game/kernel/jak1/kboot.cpp: the configuration goal_main derives from the
// console's system settings, and the older copy of the streaming logic that
// runs from the kernel's dispatch loop. That copy has its own anchor, uses
// the plain seven-point sampling test as the third tier of its filter, and
// reads a combined table built elsewhere; its frame counter is a local of
// KernelCheckAndDispatch.

module KernelBoot {
  import opened Geometry
  import opened SurfaceFilter
  import opened ReloadPolicy
  import opened FrameCounter

  /** The language codes the console's system configuration reports. */
  datatype SystemLanguage =
    | SceJapanese | SceEnglish | SceFrench | SceSpanish
    | SceGerman | SceItalian | SceDutch | ScePortuguese

  /** The game's own language setting. */
  datatype GameLanguage = English | French | German | Spanish | Italian | Japanese

  datatype Aspect = Aspect4x3 | AspectFull | Aspect16x9

  /** The if-chain of goal_main: five supported system languages keep their
      language, every other one falls back to English. */
  function LanguageFor(l: SystemLanguage): (g: GameLanguage)
    ensures g != English <==> l in {SceSpanish, SceFrench, SceGerman, SceItalian, SceJapanese}
  {
    if l == SceSpanish then Spanish
    else if l == SceFrench then French
    else if l == SceGerman then German
    else if l == SceItalian then Italian
    else if l == SceJapanese then Japanese
    else English
  }

  /** Distinct system languages that the game supports stay distinct, and each
      non-English game language comes from exactly one system language. */
  lemma LanguageForInjectiveOnSupported(l1: SystemLanguage, l2: SystemLanguage)
    requires LanguageFor(l1) != English
    ensures LanguageFor(l1) == LanguageFor(l2) <==> l1 == l2
  {
  }

  /** strcmp(DebugBootMessage, ...) == 0 against the two demo boot messages. */
  predicate IsDemoBoot(debugBootMessage: string)
  {
    debugBootMessage == "demo" || debugBootMessage == "demo-shared"
  }

  /** The fields of masterConfig that goal_main sets. */
  class MasterConfig {
    var aspect: Aspect
    var language: GameLanguage
    var inactiveTimeout: int
    var timeout: int
    var volume: int

    constructor ()
      ensures aspect == Aspect4x3 && language == English
      ensures inactiveTimeout == 0 && timeout == 0 && volume == 0
    {
      aspect := Aspect4x3;
      language := English;
      inactiveTimeout := 0;
      timeout := 0;
      volume := 0;
    }

    /** The configuration block of goal_main, from the system aspect and
        language and the boot message. */
    method GoalMainConfigure(systemAspect: Aspect, systemLanguage: SystemLanguage, debugBootMessage: string)
      modifies this
      ensures language == LanguageFor(systemLanguage)
      ensures aspect == (if IsDemoBoot(debugBootMessage) then AspectFull else systemAspect)
      ensures inactiveTimeout == 0 && timeout == 0 && volume == 100
    {
      aspect := systemAspect;
      inactiveTimeout := 0;
      timeout := 0;
      volume := 100;
      if systemLanguage == SceSpanish {
        language := Spanish;
      } else if systemLanguage == SceFrench {
        language := French;
      } else if systemLanguage == SceGerman {
        language := German;
      } else if systemLanguage == SceItalian {
        language := Italian;
      } else if systemLanguage == SceJapanese {
        language := Japanese;
      } else {
        language := English;
      }
      if debugBootMessage == "demo" || debugBootMessage == "demo-shared" {
        aspect := AspectFull;
      }
    }
  }

  /** The entries of `s` at even indices, in order: the calls of the dispatch
      loop that step the avatar. */
  function EvenIndexed<T>(s: seq<T>): seq<T>
    decreases |s|
  {
    if s == [] then []
    else EvenIndexed(s[..|s| - 1]) + (if (|s| - 1) % 2 == 0 then [s[|s| - 1]] else [])
  }

  /** The selection is exactly every second entry, starting with the first. */
  lemma {:induction false} EvenIndexedSelects<T>(s: seq<T>)
    ensures |EvenIndexed(s)| == (|s| + 1) / 2
    ensures forall k :: 0 <= k < |EvenIndexed(s)| ==> EvenIndexed(s)[k] == s[2 * k]
    decreases |s|
  {
    if s != [] {
      var front := s[..|s| - 1];
      EvenIndexedSelects(front);
      assert forall k :: 0 <= k < |front| ==> front[k] == s[k];
    }
  }

  /** One more iteration adds its entry exactly when its index is even. */
  lemma EvenIndexedSnoc<T>(s: seq<T>, i: nat)
    requires i < |s|
    ensures EvenIndexed(s[..i + 1]) == EvenIndexed(s[..i]) + (if i % 2 == 0 then [s[i]] else [])
  {
    assert s[..i + 1][..i] == s[..i];
  }

  /** The positions at which the avatar is stepped: the even iterations when
      there is an avatar, none otherwise. */
  function Stepped<T>(s: seq<T>, hasAvatar: bool): seq<T>
  {
    if hasAvatar then EvenIndexed(s) else []
  }

  /** One more iteration steps the avatar exactly when it has an avatar and
      the frame counter is even, which is when the iteration index is even. */
  lemma SteppedSnoc<T>(s: seq<T>, i: nat, hasAvatar: bool, evenFrame: bool)
    requires i < |s| && evenFrame == (i % 2 == 0)
    ensures Stepped(s[..i + 1], hasAvatar) == Stepped(s[..i], hasAvatar) + (if evenFrame && hasAvatar then [s[i]] else [])
  {
    EvenIndexedSnoc(s, i);
  }

  /** Counter and index keep the same parity when both advance. */
  lemma NextParity(f: nat, i: nat)
    requires f % 2 == i % 2
    ensures (f + 1) % 2 == (i + 1) % 2
  {
  }

  /** Folding one more position applies one more anchor step. */
  lemma FinalAnchorSnoc(a: Point3, stepped: seq<Point3>, p: Point3)
    ensures FinalAnchor(a, stepped + [p]) == NextAnchor(FinalAnchor(a, stepped), p)
  {
    assert (stepped + [p])[..|stepped|] == stepped;
  }

  /** `b` is the table filtered around the k-th stepped position, for a k at
      which the reload rule fired against the anchor of the first k steps. */
  ghost predicate LoadedAtReload(b: seq<Surface>, table: seq<Surface>, a0: Point3, stepped: seq<Point3>)
  {
    exists k :: 0 <= k < |stepped| && ShouldReload(FinalAnchor(a0, stepped[..k]), stepped[k]) &&
                b == Filter(table, stepped[k].x, stepped[k].z, KernelTests)
  }

  /** One more reload check keeps the engine's history: its surfaces are the
      starting ones or those of a fired reload, and it has been loaded at
      most once per fired reload. */
  lemma StepKeepsLoadHistory(table: seq<Surface>, a0: Point3, stepped: seq<Point3>, p: Point3,
                             b0: seq<Surface>, base: nat, b: seq<Surface>, loads: nat,
                             b': seq<Surface>, loads': nat)
    requires loads <= base + Refreshes(a0, stepped)
    requires b == b0 || LoadedAtReload(b, table, a0, stepped)
    requires (b' == b && loads' == loads) ||
             (ShouldReload(FinalAnchor(a0, stepped), p) && b' == Filter(table, p.x, p.z, KernelTests) &&
              loads' == loads + 1)
    ensures loads' <= base + Refreshes(a0, stepped + [p])
    ensures b' == b0 || LoadedAtReload(b', table, a0, stepped + [p])
  {
    RefreshesSnoc(a0, stepped, p);
    var s' := stepped + [p];
    if b' == b && loads' == loads {
      if b != b0 {
        var k :| 0 <= k < |stepped| && ShouldReload(FinalAnchor(a0, stepped[..k]), stepped[k]) &&
                 b == Filter(table, stepped[k].x, stepped[k].z, KernelTests);
        assert s'[..k] == stepped[..k] && s'[k] == stepped[k];
      }
    } else {
      assert s'[..|stepped|] == stepped && s'[|stepped|] == p;
    }
  }

  /** The streaming state of the dispatch loop. */
  class KernelStreamer {
    var anchor: Point3
    /** g_combined_surfaces and its count, built outside this file. */
    var combined: array?<Surface>
    var combinedCount: nat
    var marioId: int

    ghost var backend: seq<Surface>
    ghost var backendLoads: nat
    ghost var avatarTicks: nat

    ghost predicate Valid()
      reads this
    {
      (combined == null ==> combinedCount == 0) &&
      (combined != null ==> combinedCount == combined.Length)
    }

    ghost function Combined(): seq<Surface>
      reads this, combined
    {
      if combined == null then [] else combined[..]
    }

    /** The anchor starts at the spawn point; the table and the avatar id are
        whatever the rest of the program has set up. */
    constructor (table: array?<Surface>, id: int)
      ensures Valid()
      ensures anchor == InitialAnchor && combined == table && marioId == id
      ensures backend == [] && backendLoads == 0 && avatarTicks == 0
    {
      anchor := InitialAnchor;
      combined := table;
      combinedCount := if table == null then 0 else table.Length;
      marioId := id;
      backend := [];
      backendLoads := 0;
      avatarTicks := 0;
    }

    /** load_surfaces_near, with the sampling test as third tier. */
    method LoadSurfacesNear(x: real, y: real, z: real) returns (count: nat)
      requires Valid()
      modifies this
      ensures Valid()
      ensures combined == old(combined) && combinedCount == old(combinedCount)
      ensures anchor == old(anchor) && marioId == old(marioId) && avatarTicks == old(avatarTicks)
      ensures count <= |Combined()|
      ensures Combined() == [] ==> count == 0 && backend == old(backend) && backendLoads == old(backendLoads)
      ensures (count == 0 && backend == old(backend) && backendLoads == old(backendLoads)) ||
              (backend == Filter(Combined(), x, z, KernelTests) && count == |backend| &&
               backendLoads == old(backendLoads) + 1)
    {
      if combined == null || combinedCount == 0 {
        return 0;
      }
      var mallocOk: bool :| true;
      if !mallocOk {
        return 0;
      }
      var filtered, n := FilterSurfaces(combined, combinedCount, x, z, KernelTests);
      assert combined[..combinedCount] == combined[..];
      backend := filtered[..n];
      backendLoads := backendLoads + 1;
      count := n;
    }

    /** maybe_reload_surfaces, with the same threshold as the newer copy. */
    method MaybeReloadSurfaces(pos: Point3)
      requires Valid()
      modifies this
      ensures Valid()
      ensures anchor == NextAnchor(old(anchor), pos)
      ensures combined == old(combined) && combinedCount == old(combinedCount)
      ensures marioId == old(marioId) && avatarTicks == old(avatarTicks)
      ensures !ShouldReload(old(anchor), pos) ==> backend == old(backend) && backendLoads == old(backendLoads)
      ensures (backend == old(backend) && backendLoads == old(backendLoads)) ||
              (ShouldReload(old(anchor), pos) && Combined() != [] &&
               backend == Filter(Combined(), pos.x, pos.z, KernelTests) && backendLoads == old(backendLoads) + 1)
    {
      var dx := pos.x - anchor.x;
      var dz := pos.z - anchor.z;
      var distSq := dx * dx + dz * dz;
      var thresholdSq := (CylinderRadius - CylinderBuffer) * (CylinderRadius - CylinderBuffer);
      assert distSq == PlanarDistSq(pos.x, pos.z, anchor.x, anchor.z);
      if distSq > thresholdSq {
        anchor := pos;
        var _ := LoadSurfacesNear(anchor.x, anchor.y, anchor.z);
      }
    }

    /** One stepped iteration: the avatar ticks, then the reload check runs
        at its new position. */
    method StepAvatar(pos: Point3)
      requires Valid()
      modifies this
      ensures Valid()
      ensures anchor == NextAnchor(old(anchor), pos)
      ensures avatarTicks == old(avatarTicks) + 1
      ensures combined == old(combined) && marioId == old(marioId)
      ensures !ShouldReload(old(anchor), pos) ==> backend == old(backend) && backendLoads == old(backendLoads)
      ensures (backend == old(backend) && backendLoads == old(backendLoads)) ||
              (ShouldReload(old(anchor), pos) && Combined() != [] &&
               backend == Filter(Combined(), pos.x, pos.z, KernelTests) && backendLoads == old(backendLoads) + 1)
    {
      avatarTicks := avatarTicks + 1;
      MaybeReloadSurfaces(pos);
    }

    /** What the stepped iterations so far have done, starting from anchor
        a0, engine surfaces b0, l0 loads and t0 ticks. */
    ghost predicate History(a0: Point3, b0: seq<Surface>, l0: nat, t0: nat, stepped: seq<Point3>)
      reads this, combined
    {
      avatarTicks == t0 + |stepped| && anchor == FinalAnchor(a0, stepped) &&
      l0 <= backendLoads <= l0 + Refreshes(a0, stepped) &&
      (backend == b0 || LoadedAtReload(backend, Combined(), a0, stepped))
    }

    /** StepAvatar, with the history it extends. */
    method StepRecorded(pos: Point3, ghost a0: Point3, ghost b0: seq<Surface>, ghost l0: nat, ghost t0: nat,
                        ghost stepped: seq<Point3>)
      requires Valid() && History(a0, b0, l0, t0, stepped)
      modifies this
      ensures Valid() && History(a0, b0, l0, t0, stepped + [pos])
      ensures combined == old(combined) && marioId == old(marioId)
    {
      ghost var b, loads := backend, backendLoads;
      StepAvatar(pos);
      StepKeepsLoadHistory(Combined(), a0, stepped, pos, b0, l0, b, loads, backend, backendLoads);
      FinalAnchorSnoc(a0, stepped, pos);
    }

    /** The avatar part of the dispatch loop over `|positions|` iterations,
        where `positions[i]` is where the engine puts the avatar if iteration
        i steps it. With an avatar, exactly the even iterations step it and
        feed the reload check; without one, none do. Afterwards the engine
        holds its old surfaces or the table filtered around a stepped
        position at which the reload rule fired, and it has been loaded at
        most once per fired reload. */
    method DispatchLoop(positions: seq<Point3>)
      requires Valid()
      modifies this
      ensures Valid()
      ensures combined == old(combined) && marioId == old(marioId)
      ensures var stepped := Stepped(positions, marioId != NoAvatar);
              avatarTicks == old(avatarTicks) + |stepped| &&
              anchor == FinalAnchor(old(anchor), stepped) &&
              old(backendLoads) <= backendLoads <= old(backendLoads) + Refreshes(old(anchor), stepped) &&
              (backend == old(backend) || LoadedAtReload(backend, Combined(), old(anchor), stepped))
      ensures marioId == NoAvatar ==>
              anchor == old(anchor) && backend == old(backend) && backendLoads == old(backendLoads)
    {
      var frameNum: nat := 0;
      var i := 0;
      ghost var stepped: seq<Point3> := [];
      while i < |positions|
        invariant 0 <= i <= |positions|
        invariant Valid()
        invariant combined == old(combined) && marioId == old(marioId)
        invariant frameNum % 2 == i % 2
        invariant stepped == Stepped(positions[..i], marioId != NoAvatar)
        invariant History(old(anchor), old(backend), old(backendLoads), old(avatarTicks), stepped)
      {
        SteppedSnoc(positions, i, marioId != NoAvatar, frameNum % 2 == 0);
        if frameNum % 2 == 0 && marioId != NoAvatar {
          StepRecorded(positions[i], old(anchor), old(backend), old(backendLoads), old(avatarTicks), stepped);
          stepped := stepped + [positions[i]];
          frameNum := 0;
        }
        NextParity(frameNum, i);
        frameNum := frameNum + 1;
        i := i + 1;
      }
      assert positions[..i] == positions;
      if marioId == NoAvatar {
        assert stepped == [] && Refreshes(old(anchor), stepped) == 0;
        assert !LoadedAtReload(backend, Combined(), old(anchor), stepped);
      }
    }
  }
}
