// The collision-pattern colour tables of
// game/graphics/opengl_renderer/CollideMeshRenderer.cpp and
// CollideMeshRenderer::init_pat_colors, which copies them into the fixed
// arrays of four-component colours that the renderer hands to the GPU.
// Colours are modelled as reals; the single-precision rounding of the
// literals is not.

module CollideColors {
  datatype Vec4 = Vec4(x: real, y: real, z: real, w: real)

  /** Component c (0 = x, 1 = y, 2 = z) of a colour. */
  function Component(v: Vec4, c: nat): real
    requires c < 3
  {
    if c == 0 then v.x else if c == 1 then v.y else v.z
  }

  /** `v` with component c replaced and the others, w included, kept. */
  function WithComponent(v: Vec4, c: nat, r: real): (u: Vec4)
    requires c < 3
    ensures Component(u, c) == r && u.w == v.w
    ensures forall d :: 0 <= d < 3 && d != c ==> Component(u, d) == Component(v, d)
  {
    if c == 0 then v.(x := r) else if c == 1 then v.(y := r) else v.(z := r)
  }

  datatype GameVersion = Jak1 | Jak2 | Jak3 | OtherVersion

  /** The material, event and mode tables: three floats per colour. */
  datatype ColorTables = ColorTables(material: seq<real>, event: seq<real>, mode: seq<real>)

  const ModeSlots: nat := 4
  const MaterialSlots: nat := 32
  const EventSlots: nat := 32

  const MaterialColorsJak1: seq<real> := [
    1.0, 0.7, 1.0,     0.1, 2.0, 2.0,     0.75, 0.25, 0.1,   0.1, 0.25, 0.75,
    0.5, 0.15, 0.1,    2.0, 1.5, 0.5,     1.5, 0.75, 0.1,    0.1, 1.35, 0.1,
    1.7, 1.3, 0.1,     1.8, 1.8, 1.8,     1.5, 0.2, 1.0,     1.2, 0.5, 0.3,
    1.4, 0.1, 0.1,     0.8, 0.3, 0.1,     1.0, 0.4, 1.0,     1.5, 0.5, 0.15,
    0.7, 0.7, 1.0,     0.1, 0.1, 1.2,     0.75, 1.75, 0.75,  0.4, 0.1, 0.8,
    0.1, 0.4, 0.8,     1.9, 0.1, 1.9,     1.0, 1.0, 1.0
  ]

  const EventColorsJak1: seq<real> := [
    1.0, 1.0, 1.0,  0.2, 1.0, 1.0,  0.1, 1.0, 0.1,  1.0, 1.0, 0.1,
    0.1, 0.1, 1.0,  1.0, 0.1, 0.5,  1.0, 0.1, 0.1
  ]

  const ModeColorsJak1: seq<real> := [
    1.25, 0.1, 0.1,  0.1, 0.1, 1.0,  1.0, 0.1, 1.0
  ]

  const MaterialColorsJak2: seq<real> := [
    1.0, 0.1, 1.0,     0.1, 2.0, 2.0,     0.75, 0.25, 0.1,   0.1, 0.25, 0.75,
    0.5, 0.15, 0.1,    2.0, 1.5, 0.5,     1.5, 0.75, 0.1,    0.1, 1.35, 0.1,
    1.7, 1.3, 0.1,     1.8, 1.8, 1.8,     1.5, 0.2, 1.0,     1.2, 0.5, 0.3,
    1.4, 0.1, 0.1,     0.8, 0.3, 0.1,     1.0, 0.4, 1.0,     1.5, 0.5, 0.15,
    0.7, 0.7, 1.0,     0.1, 0.1, 1.2,     0.75, 1.75, 0.75,  0.4, 0.1, 0.8,
    0.1, 0.4, 0.8,     1.9, 0.1, 1.9,     1.0, 1.0, 1.0,     1.0, 0.7, 1.0,
    0.8, 1.2, 1.2,     0.7, 0.0, 0.0,     0.1, 0.9, 0.1,     1.4, 0.7, 0.1,
    0.5, 0.5, 0.0
  ]

  const EventColorsJak2: seq<real> := [
    1.0, 1.0, 1.0,  0.5, 1.0, 1.0,  0.1, 1.0, 0.1,  1.0, 1.0, 0.1,
    0.1, 0.1, 1.0,  1.0, 0.1, 0.5,  1.0, 0.1, 0.1,  0.1, 0.7, 0.7,
    1.0, 0.2, 1.0,  0.5, 0.2, 1.0,  0.1, 0.5, 1.0,  0.5, 0.6, 1.0,
    0.5, 0.6, 0.5,  0.5, 1.0, 0.5,  0.7, 0.7, 0.7
  ]

  const ModeColorsJak2: seq<real> := [
    1.25, 0.1, 0.1,  0.1, 0.1, 1.0,  1.0, 0.1, 1.0,  1.0, 1.0, 0.1
  ]

  /** The switch of init_pat_colors: Jak 2 and Jak 3 share the second set;
      any other version selects no tables. */
  function TablesFor(version: GameVersion): (t: ColorTables)
  {
    match version
    case Jak1 => ColorTables(MaterialColorsJak1, EventColorsJak1, ModeColorsJak1)
    case Jak2 | Jak3 => ColorTables(MaterialColorsJak2, EventColorsJak2, ModeColorsJak2)
    case OtherVersion => ColorTables([], [], [])
  }

  /** Every table holds whole colours and fits its slot array, so the copy
      loops never write out of bounds. */
  predicate FitsSlots(t: ColorTables)
  {
    |t.material| % 3 == 0 && |t.material| <= 3 * MaterialSlots &&
    |t.event| % 3 == 0 && |t.event| <= 3 * EventSlots &&
    |t.mode| % 3 == 0 && |t.mode| <= 3 * ModeSlots
  }

  lemma TablesFitSlots(version: GameVersion)
    ensures FitsSlots(TablesFor(version))
    ensures version == Jak1 ==>
      |TablesFor(version).material| == 69 && |TablesFor(version).event| == 21 && |TablesFor(version).mode| == 9
    ensures version in {Jak2, Jak3} ==>
      |TablesFor(version).material| == 87 && |TablesFor(version).event| == 45 && |TablesFor(version).mode| == 12
    ensures TablesFor(Jak2) == TablesFor(Jak3)
  {
  }

  /** Component c of slot s after the fill: the table entry 3*s + c if the
      table reaches that far, else the reset value -1. */
  function FilledComponent(table: seq<real>, s: nat, c: nat): real
  {
    if 3 * s + c < |table| then table[3 * s + c] else -1.0
  }

  /** Slots past the end of a table keep the reset value: material slots
      23..31 and mode slot 3 for Jak 1. */
  lemma UnusedSlotsStayReset(s: nat, c: nat)
    requires c < 3
    ensures 23 <= s ==> FilledComponent(TablesFor(Jak1).material, s, c) == -1.0
    ensures 3 <= s ==> FilledComponent(TablesFor(Jak1).mode, s, c) == -1.0
    ensures 7 <= s ==> FilledComponent(TablesFor(Jak1).event, s, c) == -1.0
    ensures 29 <= s ==> FilledComponent(TablesFor(Jak2).material, s, c) == -1.0
    ensures FilledComponent(TablesFor(OtherVersion).mode, s, c) == -1.0
  {
  }

  /** Sets x, y and z of every slot to -1, leaving w alone. */
  method ResetSlots(a: array<Vec4>)
    modifies a
    ensures forall s :: 0 <= s < a.Length ==> a[s] == old(a[s]).(x := -1.0, y := -1.0, z := -1.0)
  {
    var i := 0;
    while i < a.Length
      invariant 0 <= i <= a.Length
      invariant forall s :: 0 <= s < i ==> a[s] == old(a[s]).(x := -1.0, y := -1.0, z := -1.0)
      invariant forall s :: i <= s < a.Length ==> a[s] == old(a[s])
    {
      a[i] := a[i].(x := -1.0, y := -1.0, z := -1.0);
      i := i + 1;
    }
  }

  /** Writes entry i of the table into component i % 3 of slot i / 3. */
  method FillFromTable(a: array<Vec4>, table: seq<real>)
    requires |table| <= 3 * a.Length
    modifies a
    ensures forall s, c :: 0 <= s < a.Length && 0 <= c < 3 ==>
      Component(a[s], c) == if 3 * s + c < |table| then table[3 * s + c] else Component(old(a[s]), c)
    ensures forall s :: 0 <= s < a.Length ==> a[s].w == old(a[s]).w
  {
    var i := 0;
    while i < |table|
      invariant 0 <= i <= |table|
      invariant forall s, c :: 0 <= s < a.Length && 0 <= c < 3 ==>
        Component(a[s], c) == if 3 * s + c < i then table[3 * s + c] else Component(old(a[s]), c)
      invariant forall s :: 0 <= s < a.Length ==> a[s].w == old(a[s]).w
    {
      var slot := i / 3;
      var comp := i % 3;
      assert i == 3 * slot + comp;
      a[slot] := WithComponent(a[slot], comp, table[i]);
      i := i + 1;
    }
  }

  /** CollideMeshRenderer's PatColors block: 4 mode, 32 material and 32 event colours. */
  class PatColors {
    var modeColors: array<Vec4>
    var materialColors: array<Vec4>
    var eventColors: array<Vec4>

    ghost predicate Valid()
      reads this
    {
      modeColors.Length == ModeSlots && materialColors.Length == MaterialSlots &&
      eventColors.Length == EventSlots &&
      modeColors != materialColors && modeColors != eventColors && materialColors != eventColors
    }

    /** The block starts with unspecified contents, given here as `initial`. */
    constructor (initial: Vec4)
      ensures Valid()
      ensures fresh(modeColors) && fresh(materialColors) && fresh(eventColors)
      ensures forall s :: 0 <= s < ModeSlots ==> modeColors[s] == initial
      ensures forall s :: 0 <= s < MaterialSlots ==> materialColors[s] == initial
      ensures forall s :: 0 <= s < EventSlots ==> eventColors[s] == initial
    {
      modeColors := new Vec4[ModeSlots](_ => initial);
      materialColors := new Vec4[MaterialSlots](_ => initial);
      eventColors := new Vec4[EventSlots](_ => initial);
    }

    /** init_pat_colors: resets x, y and z of every slot to -1, then copies
        the version's tables in; w is never written. */
    method InitPatColors(version: GameVersion)
      requires Valid()
      modifies modeColors, materialColors, eventColors
      ensures Valid()
      ensures forall s, c :: 0 <= s < ModeSlots && 0 <= c < 3 ==>
        Component(modeColors[s], c) == FilledComponent(TablesFor(version).mode, s, c)
      ensures forall s, c :: 0 <= s < MaterialSlots && 0 <= c < 3 ==>
        Component(materialColors[s], c) == FilledComponent(TablesFor(version).material, s, c)
      ensures forall s, c :: 0 <= s < EventSlots && 0 <= c < 3 ==>
        Component(eventColors[s], c) == FilledComponent(TablesFor(version).event, s, c)
      ensures forall s :: 0 <= s < ModeSlots ==> modeColors[s].w == old(modeColors[s].w)
      ensures forall s :: 0 <= s < MaterialSlots ==> materialColors[s].w == old(materialColors[s].w)
      ensures forall s :: 0 <= s < EventSlots ==> eventColors[s].w == old(eventColors[s].w)
    {
      ResetSlots(modeColors);
      ResetSlots(materialColors);
      ResetSlots(eventColors);
      var tables := TablesFor(version);
      TablesFitSlots(version);
      FillFromTable(materialColors, tables.material);
      FillFromTable(eventColors, tables.event);
      FillFromTable(modeColors, tables.mode);
    }
  }
}
