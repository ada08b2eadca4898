# Streaming collision for a Mario avatar inside a Jak 1 port, and its tools

This project models the parts of the lib64testing mod that decide what the
embedded libsm64 engine collides against, together with the helper tools the
mod uses to produce collision tables.

- **Surface streaming** (`game/kernel/jak1/Mario1.cpp`). The level's static
  collision is a table of `SM64Surface` triangles, built from two per-zone
  tables. Only the surfaces near the avatar are handed to the engine. A
  surface is kept when one of three tests passes:
  1. one of its vertices lies in a vertical cylinder of radius 2000 around
     the avatar (XZ plane);
  2. the cylinder centre lies inside the triangle, as `point_in_triangle_2d`
     computes it (the sign error listed under Findings makes that test
     reject interior points);
  3. the triangle, subdivided recursively, reaches into the cylinder at one
     of seven sample points.

  The filter takes the choice of second and third test as a parameter:
  both controllers run `point_in_triangle_2d` as written, and the
  corrected test can be plugged in to compare.

  The table is filtered again once the avatar has moved more than 1000 units
  (radius minus buffer) from the last centre. The avatar is stepped every
  second frame, and a cube is spawned on each press of B.
- **The kernel copy** (`game/kernel/jak1/kboot.cpp`). This is an older copy
  of the streaming code, driven from the kernel's dispatch loop; its third
  test is the plain seven-point sampling test. Also modelled: the master
  configuration that `goal_main` derives from the console's language and the
  boot message.
- **Collision debug colours** (`game/graphics/opengl_renderer/CollideMeshRenderer.cpp`):
  `init_pat_colors` resets the slot arrays and fills them from the colour
  tables of the game version.
- **The decomp utilities** (`third-party/src/decomp/tools/utils.c`): 16-bit
  big-endian reads, the power-of-two test, byte and word swaps, output file
  names, `basename` and `str_ends_with`.
- **The level tools**:
  - `decompiler_out/jak1/collision/_Generate_LeveL_C.py`: OBJ to C surface
    table, with material names turned into C identifiers;
  - `tritolevelc.py`: JSON triangles to C surface table;
  - `goal_src/arrayprinter.py`: OpenGOAL inline-array printer.

Modules:
- `Geometry`: planar tests.
- `SurfaceFilter`: the three-tier filter.
- `Zones`: zone lookup.
- `ReloadPolicy`: the anchor rule.
- `FrameCounter`: the tick cadence and button edges.
- `Streaming`: the stateful controller of `Mario1.cpp`.
- `KernelBoot`: `kboot.cpp`.
- `CollideColors`, `DecompUtils`, `ObjToC`, `TriToLevelC`, `ArrayPrinter`: one per source file.
- `Text`: the Python string and integer semantics the tools rely on (`int()`, `str()`, `split()`, `strip()`, `join`).

Float arithmetic is modelled on exact reals, and C `int32_t` vertex
coordinates as unbounded integers; "## Left out" says what that does not
capture. The engine (libsm64), `malloc`, the
renderer, the file system and the console are parameters, or ghost state
that records what was handed to them. A `malloc` that may fail is a
nondeterministic choice.

## Model

| member | source | states |
|---|---|---|
| Geometry.InsideIsConvexCombination | game/kernel/jak1/Mario1.cpp:199-213 | the corrected point-in-triangle test accepts a point only if the point is a convex combination of the three vertices, and the weights are returned |
| Geometry.ConvexCombinationInside | game/kernel/jak1/Mario1.cpp:199-213 | conversely, every convex combination of the vertices of a non-degenerate triangle passes the corrected test |
| Geometry.NumeratorsOfCombination | game/kernel/jak1/Mario1.cpp:199-213 | for the point a·v0 + b·v1 + (1−a−b)·v2, the two barycentric numerators are a·det and b·det |
| Geometry.CramerIdentity | game/kernel/jak1/Mario1.cpp:203-206 | the numerators from the two edge differences solve the 2×2 system, so the point is rebuilt from its barycentric weights |
| Geometry.ThirdVertexInside | game/kernel/jak1/Mario1.cpp:199-213 | every vertex of a non-degenerate triangle lies inside it under the corrected test |
| Geometry.DegenerateContainsNothing | game/kernel/jak1/Mario1.cpp:203-205 | a triangle with zero determinant contains no point: the divisions by a zero determinant give inf or NaN, so every comparison fails |
| Geometry.AsWrittenRejectsInteriorPoints | game/kernel/jak1/Mario1.cpp:203-212 | the test as written rejects the centroid and the corner (0,0) of the unit triangle, which the corrected test accepts |
| Geometry.SampleWeightsPositive | game/kernel/jak1/Mario1.cpp:217-225 | each of the seven sample weight triples is strictly positive |
| Geometry.SamplesInsideTriangle | game/kernel/jak1/Mario1.cpp:217-228 | every sample point lies inside a non-degenerate triangle |
| Geometry.TriangleSamplesInCylinder | game/kernel/jak1/Mario1.cpp:216-236 | the loop answers true exactly when some sample point is within the cylinder radius of the centre |
| Geometry.SamplesHitInsideTriangle | game/kernel/jak1/Mario1.cpp:216-236 | a sampling hit is witnessed by convex weights whose point lies within the radius |
| Geometry.AreaIsHalfDet | game/kernel/jak1/Mario1.cpp:283-288 | the area is half the absolute barycentric determinant, never negative, and zero exactly for degenerate triangles |
| Geometry.TruncHalf | game/kernel/jak1/Mario1.cpp:307-311 | C's truncating `/ 2` on a sum: the remainder is 0 or 1 for non-negative sums and 0 or −1 for negative ones |
| Geometry.TruncMidBetween | game/kernel/jak1/Mario1.cpp:307-311 | an integer midpoint lies between its two endpoints |
| Geometry.MidpointInBox | game/kernel/jak1/Mario1.cpp:306-311 | the midpoint of two points of a triangle's bounding box lies in that box |
| Geometry.RecursiveFallsBackToSampling | game/kernel/jak1/Mario1.cpp:294-303 | past depth 3, or below four cylinder areas, the recursive test is exactly the sampling test |
| Geometry.LeafEvaluationsBound | game/kernel/jak1/Mario1.cpp:290-327 | the recursion evaluates the sampling test at most 4^(4−depth) times, i.e. at most 256 times from depth 0 |
| Geometry.SampleInBox | game/kernel/jak1/Mario1.cpp:227-228 | every sample point lies inside the triangle's bounding box |
| Geometry.SubTriangleBoxInside | game/kernel/jak1/Mario1.cpp:306-321 | each of the four sub-triangles lies inside the bounding box of its parent |
| Geometry.RecursiveHitInBox | game/kernel/jak1/Mario1.cpp:290-327 | a hit of the recursive test is witnessed by a point in the original triangle's bounding box within the cylinder radius |
| SurfaceFilter.FilterLength | game/kernel/jak1/Mario1.cpp:339-366 | the filtered table is never longer than the source table |
| SurfaceFilter.FilterAppend | game/kernel/jak1/Mario1.cpp:339-366 | filtering distributes over concatenation, since each surface is judged on its own |
| SurfaceFilter.FilterKeepsOnlyIncluded | game/kernel/jak1/Mario1.cpp:339-366 | every kept surface comes from the source and passes one of the three tiers, with the centre test and third tier the caller runs |
| SurfaceFilter.FilterIsSelection | game/kernel/jak1/Mario1.cpp:339-366 | the result is the source at a strictly increasing list of indices, and an index is listed exactly when that surface passes a tier (order kept, nothing missed) |
| SurfaceFilter.SelectionStep | game/kernel/jak1/Mario1.cpp:339-366 | a selection of the first entries extends to one more entry, taken exactly when it is wanted, with indices still increasing |
| SurfaceFilter.FilterIdempotent | game/kernel/jak1/Mario1.cpp:339-366 | filtering an already filtered table around the same centre changes nothing |
| SurfaceFilter.VertexInCylinderKept | game/kernel/jak1/Mario1.cpp:343-351 | a surface with a vertex in the cylinder is always kept, whatever the third tier |
| SurfaceFilter.VertexScan | game/kernel/jak1/Mario1.cpp:343-351 | the vertex loop reports a hit exactly when some vertex is within the radius |
| SurfaceFilter.Decide | game/kernel/jak1/Mario1.cpp:341-363 | the per-surface decision keeps the surface exactly when it passes one of the three tiers, tried in order |
| SurfaceFilter.FilterSurfaces | game/kernel/jak1/Mario1.cpp:337-366 | the copy loop fills the output prefix with exactly the filtered table, and its count is at most the input count |
| SurfaceFilter.WideFloorOnlyHoldsCentre | game/kernel/jak1/kboot.cpp:263-281 | for a floor triangle 300000 units wide, with the centre (5000, 5000) inside it, no vertex and no sample point lies within the radius of that centre |
| SurfaceFilter.KernelFilterDropsFloorUnderCentre | game/kernel/jak1/kboot.cpp:263-285 | the centre lies inside that floor, yet the kernel copy's filter, which runs `point_in_triangle_2d` as written, drops it; with the corrected test it is kept |
| Zones.ZoneKeysRoundTrip | game/kernel/jak1/Mario1.cpp:392-414 | the switch maps exactly the keys 1..21 to zones, and the zone-to-key map is its inverse |
| Zones.ZoneSurfacesSelects | game/kernel/jak1/Mario1.cpp:392-414 | a zone key selects that zone's table; any other key selects nothing |
| Zones.RoundHalfAway | game/kernel/jak1/Mario1.cpp:389-390 | `roundf`: the result is within 0.5 of the input, and ties go away from zero |
| Zones.RoundWhole | game/kernel/jak1/Mario1.cpp:389-390 | rounding a whole number gives that number |
| ReloadPolicy.ReloadRule | game/kernel/jak1/Mario1.cpp:436-450 | a reload happens exactly when the planar distance from the anchor exceeds 1000; height is ignored; never at the anchor itself |
| ReloadPolicy.AnchorTrace | game/kernel/jak1/Mario1.cpp:436-450 | a run of reload checks leaves one anchor per reported position |
| ReloadPolicy.TraceIsPrefixFolds | game/kernel/jak1/Mario1.cpp:436-450 | the anchor after i calls is the anchor of the first i positions |
| ReloadPolicy.FinalAnchorFirstStep | game/kernel/jak1/Mario1.cpp:436-450 | the anchor after a run is the anchor after the rest of the run, started from the anchor of the first call |
| ReloadPolicy.NoThrashInsideBand | game/kernel/jak1/Mario1.cpp:436-450 | while every position stays within 1000 of the anchor, nothing is reloaded and the anchor does not move |
| ReloadPolicy.AnchorMovesOnlyFar | game/kernel/jak1/Mario1.cpp:436-450 | at each call the anchor either stays or becomes the reported position; it moves exactly when the reload rule fires |
| ReloadPolicy.RefreshesBounded | game/kernel/jak1/Mario1.cpp:436-450 | a run triggers at most one reload per position |
| ReloadPolicy.RefreshesSnoc | game/kernel/jak1/Mario1.cpp:436-450 | one more position adds one reload exactly when the rule fires against the anchor the run so far has left |
| ReloadPolicy.SuccessiveRebuildsFarApart | game/kernel/jak1/Mario1.cpp:436-450 | two rebuilds in a row happen at positions more than 1000 apart |
| FrameCounter.NextFrameNum | game/kernel/jak1/Mario1.cpp:102-127 | after every frame the counter is at least 1 and has flipped parity |
| FrameCounter.TickPattern | game/kernel/jak1/Mario1.cpp:102-127 | the sequence of tick decisions over n frames has one entry per frame |
| FrameCounter.TicksAlternate | game/kernel/jak1/Mario1.cpp:102-127 | with an avatar, starting from an even counter, exactly the even frames tick; without one, no frame ticks |
| FrameCounter.NoTwoTicksInARow | game/kernel/jak1/Mario1.cpp:102-127 | the avatar is never stepped on two consecutive frames |
| FrameCounter.HeldButtonSpawnsOnce | game/kernel/jak1/Mario1.cpp:109-117 | holding B across any number of ticks spawns at most one cube |
| FrameCounter.RisingEdgesBound | game/kernel/jak1/Mario1.cpp:109-117 | n ticks spawn at most (n + 1) / 2 cubes, and at most n / 2 when B was already held |
| Streaming.CopyInto | game/kernel/jak1/Mario1.cpp:260-269 | `memcpy` writes the source at the offset and leaves the rest of the buffer as it was |
| Streaming.NewCombined | game/kernel/jak1/Mario1.cpp:253-269 | the new buffer holds the first table followed by the second |
| Streaming.StreamingController.constructor | game/kernel/jak1/Mario1.cpp:187-191 | no table, no avatar, counter 0, anchor at the spawn point (−7541.8, 1688.475, 9237.5) |
| Streaming.StreamingController.LoadCombinedStaticSurfaces | game/kernel/jak1/Mario1.cpp:241-281 | the old table is always freed; on a successful allocation, the table and the engine's static surfaces become the two inputs one after the other, and an avatar is created only if there was none; on a failed allocation, nothing else changes |
| Streaming.StreamingController.LoadCombinedFromGameIdx | game/kernel/jak1/Mario1.cpp:381-435 | the table is built from the zones of the rounded x and the rounded z, in that order |
| Streaming.StreamingController.LoadSurfacesNear | game/kernel/jak1/Mario1.cpp:329-373 | with no table, returns 0 and leaves the engine alone; otherwise either nothing changes or the engine gets exactly the filtered table, with its size as the count |
| Streaming.StreamingController.MaybeReloadSurfaces | game/kernel/jak1/Mario1.cpp:436-450 | the anchor follows the reload rule, and the engine keeps its surfaces unless a reload happened, after which it holds the table filtered around the new anchor |
| Streaming.StreamingController.TickMarioFrame | game/kernel/jak1/Mario1.cpp:96-128 | the counter advances as the cadence says; on a tick the avatar is stepped once, a cube spawns exactly on a rising edge of B, B is remembered and the reload rule is applied: the engine keeps its surfaces when the rule does not fire, and otherwise either keeps them (no table, or a failed load) or holds the table filtered around the ticked position, with one more load; otherwise only the counter changes |
| KernelBoot.LanguageFor | game/kernel/jak1/kboot.cpp:153-168 | the five supported system languages keep their language and every other one becomes English |
| KernelBoot.LanguageForInjectiveOnSupported | game/kernel/jak1/kboot.cpp:153-168 | no two system languages map to the same non-English game language |
| KernelBoot.MasterConfig.GoalMainConfigure | game/kernel/jak1/kboot.cpp:147-173 | the language is as the chain says, the aspect is forced to full exactly for the two demo boot messages and otherwise taken from the system, and the timeouts are 0 with volume 100 |
| KernelBoot.EvenIndexedSelects | game/kernel/jak1/kboot.cpp:369-406 | the iterations that step the avatar are exactly every second one, starting with the first |
| KernelBoot.EvenIndexedSnoc | game/kernel/jak1/kboot.cpp:392-406 | one more iteration adds its position exactly when its index is even |
| KernelBoot.SteppedSnoc | game/kernel/jak1/kboot.cpp:392-406 | one more iteration steps the avatar exactly when there is an avatar and the frame counter is even, which happens exactly at even indices |
| KernelBoot.FinalAnchorSnoc | game/kernel/jak1/kboot.cpp:295-308 | one more reload check applies the anchor rule once more to the anchor so far |
| KernelBoot.KernelStreamer.constructor | game/kernel/jak1/kboot.cpp:197-201 | the anchor starts at the spawn point, with nothing yet loaded |
| KernelBoot.KernelStreamer.LoadSurfacesNear | game/kernel/jak1/kboot.cpp:250-293 | as in the newer copy, with the seven-point sampling test as the third tier |
| KernelBoot.KernelStreamer.MaybeReloadSurfaces | game/kernel/jak1/kboot.cpp:295-308 | the same reload rule as the newer copy, re-filtering with the sampling tier |
| KernelBoot.KernelStreamer.StepAvatar | game/kernel/jak1/kboot.cpp:392-403 | a stepped iteration ticks the avatar once and moves the anchor by the reload rule, leaving the table and the avatar id alone; the engine keeps its surfaces unless the rule fired and a table exists, in which case it may hold the table filtered around the position, with one more load |
| KernelBoot.KernelStreamer.DispatchLoop | game/kernel/jak1/kboot.cpp:369-406 | with an avatar, the even iterations step it and feed the reload rule, so the ticks and the final anchor are those of the even-indexed positions; the engine's surfaces are either the old ones or the table filtered at a stepped position where the rule fired, and the loads grow by at most the number of reloads the rule calls for; without an avatar, nothing changes |
| KernelBoot.NextParity | game/kernel/jak1/kboot.cpp:392-406 | the frame counter and the iteration index keep the same parity from one iteration to the next |
| KernelBoot.StepKeepsLoadHistory | game/kernel/jak1/kboot.cpp:392-406 | if the loads so far are bounded by the reloads and the surfaces were loaded at a reload, one more step keeps both facts |
| CollideColors.WithComponent | game/graphics/opengl_renderer/CollideMeshRenderer.cpp:158-172 | setting one colour component changes that component only and keeps alpha |
| CollideColors.TablesFitSlots | game/graphics/opengl_renderer/CollideMeshRenderer.cpp:8-105 | every version's tables fit the slot arrays; Jak 1 has 23 material, 3 mode and 7 event colours |
| CollideColors.UnusedSlotsStayReset | game/graphics/opengl_renderer/CollideMeshRenderer.cpp:124-172 | for Jak 1, the slots beyond its tables keep the reset value −1 |
| CollideColors.ResetSlots | game/graphics/opengl_renderer/CollideMeshRenderer.cpp:124-138 | every slot's RGB becomes −1 and its alpha is kept |
| CollideColors.FillFromTable | game/graphics/opengl_renderer/CollideMeshRenderer.cpp:158-172 | table entry i goes to slot i/3, component i%3; other components are untouched |
| CollideColors.PatColors.constructor | game/graphics/opengl_renderer/CollideMeshRenderer.cpp:123-173 | three fresh slot arrays, all set to the given colour |
| CollideColors.PatColors.InitPatColors | game/graphics/opengl_renderer/CollideMeshRenderer.cpp:123-173 | after the reset and the copy, every slot holds the version's table value where the table reaches, and −1 elsewhere |
| DecompUtils.ReadU16BE | third-party/src/decomp/tools/utils.c:29-32 | two bytes read big-endian give a value below 65536 |
| DecompUtils.ReadS16BE | third-party/src/decomp/tools/utils.c:29-32 | the result is in the int16 range, agrees with the unsigned read modulo 65536, and is negative exactly when the top bit is set |
| DecompUtils.ReadS16RoundTrip | third-party/src/decomp/tools/utils.c:29-32 | reading back an encoded int16 gives the same value |
| DecompUtils.EncodeS16RoundTrip | third-party/src/decomp/tools/utils.c:29-32 | encoding what was read gives back the same two bytes |
| DecompUtils.OddTimesPow2 | third-party/src/decomp/tools/utils.c:40-43 | an odd number times a power of two is a power of two only if the odd number is 1 |
| DecompUtils.IsPower2 | third-party/src/decomp/tools/utils.c:40-43 | the shifting loop answers true exactly for powers of two (and so false for 0) |
| DecompUtils.SwappedPairsInvolution | third-party/src/decomp/tools/utils.c:64-70 | swapping pairs twice restores the data |
| DecompUtils.SwapBytes | third-party/src/decomp/tools/utils.c:64-70 | the array afterwards is its old contents with each pair that starts below the length swapped; an odd length also swaps the byte just past it |
| DecompUtils.PairsCovered | third-party/src/decomp/tools/utils.c:65 | the loop stepping by 2 while below the length covers the length rounded up to even |
| DecompUtils.SwapPairAt | third-party/src/decomp/tools/utils.c:66-68 | the two bytes at i trade places and nothing else changes |
| DecompUtils.WordMirror | third-party/src/decomp/tools/utils.c:72-81 | each byte moves to the mirrored place of its own 4-byte word |
| DecompUtils.WordMirrorInWord | third-party/src/decomp/tools/utils.c:72-81 | inside the word starting at w, byte j goes to 2w + 3 − j |
| DecompUtils.ReversedWordsInvolution | third-party/src/decomp/tools/utils.c:72-81 | reversing the words twice restores the data |
| DecompUtils.ReverseWordAt | third-party/src/decomp/tools/utils.c:74-79 | the two swaps of one iteration reverse the four bytes at i and leave every other byte alone |
| DecompUtils.ReverseEndian | third-party/src/decomp/tools/utils.c:72-81 | the array afterwards is its old contents with each 4-byte word that starts below the length reversed, the last one running past a length that is not a multiple of 4 |
| DecompUtils.WordsCovered | third-party/src/decomp/tools/utils.c:73 | the loop stepping by 4 while below the length covers the length rounded up to a multiple of 4 |
| DecompUtils.ReversedWordsInWord | third-party/src/decomp/tools/utils.c:72-81 | inside a reversed word starting at w, byte j comes from 2w + 3 − j |
| DecompUtils.StemLength | third-party/src/decomp/tools/utils.c:126-131 | the cut is at the last '.' after position 0, or at the end when there is none |
| DecompUtils.GenerateFilename | third-party/src/decomp/tools/utils.c:122-133 | the output is the stem, a '.', and the extension |
| DecompUtils.GenerateFilenameIdempotent | third-party/src/decomp/tools/utils.c:122-133 | generating a name from a generated name with the same extension gives the same name |
| DecompUtils.BasenameAsWritten | third-party/src/decomp/tools/utils.c:135-143 | the loop's result is the position the as-written rule computes |
| DecompUtils.BaseStartAsWrittenSkipsSlashes | third-party/src/decomp/tools/utils.c:135-143 | the code as written leaves no '/' in its result, but its result may begin with a '\\' |
| DecompUtils.BasenameKeepsBackslash | third-party/src/decomp/tools/utils.c:135-143 | for "a\\b", the code as written returns "\\b", and the corrected one returns "b" |
| DecompUtils.BaseStart | third-party/src/decomp/tools/utils.c:135-143 | the corrected start follows the last separator ('/' or '\\'), with no separator after it |
| DecompUtils.Basename | third-party/src/decomp/tools/utils.c:135-143 | the corrected base name is a suffix of the input, has no separator in it, and is preceded by a separator unless it is the whole input |
| DecompUtils.StrEndsWithMeans | third-party/src/decomp/tools/utils.c:223-229 | true exactly when both strings exist and the suffix ends the string; a null input gives false; the empty suffix always matches |
| ObjToC.UpperChar | decompiler_out/jak1/collision/_Generate_LeveL_C.py:9 | upper-casing leaves no lower-case ASCII letter, and keeps word characters and digits as they are |
| ObjToC.SanitizeMaterialName | decompiler_out/jak1/collision/_Generate_LeveL_C.py:6-9 | the result is an upper-case C identifier, one character longer exactly when the name begins with a digit |
| ObjToC.SanitizeKeepsIdentifier | decompiler_out/jak1/collision/_Generate_LeveL_C.py:6-9 | an upper-case identifier comes back unchanged |
| ObjToC.SanitizeIdempotent | decompiler_out/jak1/collision/_Generate_LeveL_C.py:6-9 | sanitising twice is the same as sanitising once |
| ObjToC.SanitizeKeepsWordChars | decompiler_out/jak1/collision/_Generate_LeveL_C.py:6-9 | word characters survive, upper-cased and shifted by the inserted '_'; every other character becomes '_' |
| ObjToC.ResolveFace | decompiler_out/jak1/collision/_Generate_LeveL_C.py:29-31 | a resolved face has one vertex per index, each one of the vertices read so far |
| ObjToC.ParseObjWithMaterials | decompiler_out/jak1/collision/_Generate_LeveL_C.py:11-35 | the loop returns the triangles of the line-by-line reading, or the first error it raised |
| ObjToC.ParseLinesStopsAtError | decompiler_out/jak1/collision/_Generate_LeveL_C.py:20-33 | once a line raises, the lines after it do not matter |
| ObjToC.StepKeepsWellFormed | decompiler_out/jak1/collision/_Generate_LeveL_C.py:20-33 | a line that does not raise keeps the vertices, triangles and material well formed, and adds a triangle exactly for a three-index face |
| ObjToC.FaceIndicesLength | decompiler_out/jak1/collision/_Generate_LeveL_C.py:28-29 | a face line yields one index per field |
| ObjToC.ParseLinesProperties | decompiler_out/jak1/collision/_Generate_LeveL_C.py:11-35 | one triangle per three-index face line, in order; each has three vertices; every material is an identifier |
| ObjToC.DefaultMaterialWithoutUsemtl | decompiler_out/jak1/collision/_Generate_LeveL_C.py:15-25 | with no usemtl line, every triangle carries SURFACE_DEFAULT |
| ObjToC.GenerateSurfacesC | decompiler_out/jak1/collision/_Generate_LeveL_C.py:37-57 | the file is the header, one surface line per triangle in order, then the footer |
| ObjToC.SurfaceLinesSnoc | decompiler_out/jak1/collision/_Generate_LeveL_C.py:46-53 | one more triangle appends its surface line to the block |
| ObjToC.NoNewlineInGroup | decompiler_out/jak1/collision/_Generate_LeveL_C.py:47-53 | a vertex group holds no line break |
| ObjToC.NoNewlineInSurfaceText | decompiler_out/jak1/collision/_Generate_LeveL_C.py:50-53 | a surface initialiser holds no line break before its own |
| ObjToC.SurfaceLineIsOneLine | decompiler_out/jak1/collision/_Generate_LeveL_C.py:50-53 | each surface is exactly one line |
| ObjToC.SurfaceLinesCount | decompiler_out/jak1/collision/_Generate_LeveL_C.py:46-53 | the surface block has exactly one line per triangle |
| ObjToC.VertexGroupRoundTrip | decompiler_out/jak1/collision/_Generate_LeveL_C.py:47-53 | each vertex group reads back as the three scaled, truncated coordinates |
| TriToLevelC.GroupsInOrder | tritolevelc.py:23 | one group per point, in the order of the points |
| TriToLevelC.GenerateLevelC | tritolevelc.py:16-30 | the lines are the header, one line per triangle in order, then the footer |
| TriToLevelC.LevelLinesSnoc | tritolevelc.py:22-25 | one more triangle appends its line to the list |
| TriToLevelC.ConcatSnoc | tritolevelc.py:29-30 | writing one more line appends it to the file |
| TriToLevelC.ConcatPrepend | tritolevelc.py:29-30 | writing a line first puts it at the front of the file |
| TriToLevelC.WrittenFile | tritolevelc.py:20-30 | the written file is the header, the triangle lines, then the footer |
| TriToLevelC.ConcatCountOnePerLine | tritolevelc.py:29-30 | lines that each hold one line break give a file with one break per line |
| TriToLevelC.GroupHasNoNewline | tritolevelc.py:23 | a point's group holds no line break |
| TriToLevelC.JoinedGroupsHaveNoNewline | tritolevelc.py:23 | the comma-joined groups hold no line break |
| TriToLevelC.LevelLineIsOneLine | tritolevelc.py:24 | each triangle's line is exactly one line of text |
| TriToLevelC.BodyLineCount | tritolevelc.py:20-27 | between the header and the footer, the file has exactly one line per triangle |
| TriToLevelC.GroupRoundTrip | tritolevelc.py:23 | each group reads back as the point's truncated coordinates |
| ArrayPrinter.Repeat | goal_src/arrayprinter.py:3 | the list comprehension yields n copies of the vector line |
| ArrayPrinter.InlineArrayIsJoin | goal_src/arrayprinter.py:1-5 | the text is the header, the vector lines (or one empty line) and ")" joined by line breaks |
| ArrayPrinter.InlineArrayPartsOneLine | goal_src/arrayprinter.py:2-4 | none of those parts holds a line break |
| ArrayPrinter.InlineArrayLines | goal_src/arrayprinter.py:1-5 | line by line, the text is the header, one vector line per element (one empty line when there is none), then ")" |
| ArrayPrinter.InlineArrayCountRecoverable | goal_src/arrayprinter.py:1-5 | for a positive count, the text has count + 2 lines, and the number after the header's fixed words reads back as the count |
| ArrayPrinter.MainPrintsOnlyPositive | goal_src/arrayprinter.py:7-17 | an array is printed exactly when int() succeeds with a positive count, and it is the array of that count; a failed int() gives the invalid-input message |
| ArrayPrinter.MainOfRenderedCount | goal_src/arrayprinter.py:7-17 | typing a rendered count prints that count's array when it is positive, and the positivity message otherwise |
| ArrayPrinter.PrintedTextDistinguishes | goal_src/arrayprinter.py:11-17 | different outcomes print different texts |
| Text.DigitChar | goal_src/arrayprinter.py:2 | a value below 10 maps to an ASCII digit |
| Text.DigitValue | goal_src/arrayprinter.py:9 | an ASCII digit maps to a value below 10 that DigitChar maps back to the same digit |
| Text.NatToDecimal | goal_src/arrayprinter.py:2 | `str()` of a natural number is a non-empty string of digits, without a leading zero |
| Text.NatToDecimalRoundTrip | goal_src/arrayprinter.py:2-9 | parsing the digits of a natural number gives the number back |
| Text.DigitsValueSnoc | goal_src/arrayprinter.py:9 | one more digit on the right gives ten times the value plus that digit |
| Text.DigitCharRoundTrip | goal_src/arrayprinter.py:2-9 | the digit character of d reads back as d |
| Text.IntToDecimal | tritolevelc.py:23 | `str()` of an integer is a non-empty string of digits with at most a leading '-' |
| Text.ParseInt | goal_src/arrayprinter.py:9 | `int()` of a string gives a value only for non-empty text; IntDecimalRoundTrip is its partner |
| Text.IntDecimalRoundTrip | goal_src/arrayprinter.py:2-9 | `int(str(i)) == i` for every integer |
| Text.ParseIntOfDigits | goal_src/arrayprinter.py:9 | `int()` reads a run of digits as its value, and with a leading '-' as its negation |
| Text.TruncToIntBounds | tritolevelc.py:23 | `int()` of a float rounds toward zero: it lies between zero and the value, less than 1 away from it |
| Text.TruncToIntProperties | tritolevelc.py:23 | `int()` of a float keeps whole numbers and commutes with negation |
| Text.Pow10 | decompiler_out/jak1/collision/_Generate_LeveL_C.py:23 | powers of ten are positive |
| Text.IndexOf | decompiler_out/jak1/collision/_Generate_LeveL_C.py:29 | the first occurrence of a character, or the length when it is absent |
| Text.UnsignedDecimalOfDigits | decompiler_out/jak1/collision/_Generate_LeveL_C.py:23 | without a '.', a run of digits reads as its value |
| Text.ParseDecimalNegative | decompiler_out/jak1/collision/_Generate_LeveL_C.py:23 | `float()` of '-' and a body is the negation of what the body reads as |
| Text.ParseDecimalUnsigned | decompiler_out/jak1/collision/_Generate_LeveL_C.py:23 | `float()` of text without a sign reads it as an unsigned decimal |
| Text.ParseDecimalOfInt | decompiler_out/jak1/collision/_Generate_LeveL_C.py:23 | `float()` of an integer's rendering gives that integer |
| Text.FirstField | decompiler_out/jak1/collision/_Generate_LeveL_C.py:29 | `p.split('/')[0]` is the prefix before the first '/' and holds no '/' |
| Text.SplitWhitespace | decompiler_out/jak1/collision/_Generate_LeveL_C.py:22 | `split()` yields non-empty tokens without whitespace |
| Text.SplitJoinRoundTrip | decompiler_out/jak1/collision/_Generate_LeveL_C.py:22 | splitting space-joined tokens gives the tokens back |
| Text.SplitFromToken | decompiler_out/jak1/collision/_Generate_LeveL_C.py:22 | one token followed by a space is read off as one token |
| Text.SplitFromJoin | decompiler_out/jak1/collision/_Generate_LeveL_C.py:22 | space-joined tokens are read back one by one |
| Text.SplitFromFirstToken | decompiler_out/jak1/collision/_Generate_LeveL_C.py:22 | a token followed by a space is split off as the first token |
| Text.CountCharAppend | tritolevelc.py:29-30 | counts of a character add up over concatenation |
| Text.IndexOfAfter | decompiler_out/jak1/collision/_Generate_LeveL_C.py:29 | the first occurrence in a + [c] + b, when a lacks c, is at |a| |
| Text.FormatIntTriple | tritolevelc.py:23 | "{a,b,c}" is a brace-wrapped group of three decimal numbers |
| Text.DecimalChars | tritolevelc.py:23 | a rendered integer holds only digits and '-' |
| Text.CountCharAbsent | tritolevelc.py:24 | a string without c counts zero of it |
| Text.OneLine | tritolevelc.py:24 | a line-break-free text followed by "\n" is one line |
| Text.OneLineOfThree | tritolevelc.py:24 | three line-break-free pieces followed by "\n" make exactly one line |
| Text.IntTripleRoundTrip | tritolevelc.py:23 | reading back a formatted integer triple gives the triple |
| Text.CommaFields | tritolevelc.py:23 | "a,b,c" with comma-free a and b splits at the commas back into a, b and c |
| Text.ParseCommaFields | tritolevelc.py:23 | three comma-separated integer fields read back as their values |
| Text.ParseBracedTriple | tritolevelc.py:23 | the same fields inside braces read back as the triple |
| Text.SplitOn | goal_src/arrayprinter.py:3 | splitting on a separator gives at least one part, and no part holds the separator |
| Text.SplitJoinWith | goal_src/arrayprinter.py:3 | splitting a join of separator-free parts gives the parts back |
| Text.SplitOnFirst | goal_src/arrayprinter.py:3 | a part without the separator, then the separator, splits off as the first part |
| Text.JoinWithAppend | goal_src/arrayprinter.py:3-5 | joining two non-empty lists is joining each and putting one separator between |
| Text.CountCharJoinWith | goal_src/arrayprinter.py:3 | for a character other than the separator, a join holds k of it when every part holds k |
| Text.StripLeading | decompiler_out/jak1/collision/_Generate_LeveL_C.py:22 | the result is a suffix of the input that does not begin with whitespace |
| Text.StripTrailing | decompiler_out/jak1/collision/_Generate_LeveL_C.py:22 | the result is a prefix of the input that does not end with whitespace, and keeps a non-space first character |
| Text.Strip | goal_src/arrayprinter.py:9 | the result of `strip()` neither begins nor ends with whitespace |
| Text.StripKeeps | goal_src/arrayprinter.py:9 | text with no whitespace at either end is unchanged |
| Text.PythonIntRoundTrip | goal_src/arrayprinter.py:9 | `int()` (which strips surrounding whitespace) reads back every rendered integer |

## Left out

- Audio, rendering of the avatar, the SDL demo, the trimesh scripts and the formatting script: they are not part of the streaming or level-tool core.
- ROM loading and `load_and_init_mario`, and the libsm64 calls (`sm64_mario_tick`, `sm64_static_surfaces_load`, `sm64_mario_create`, `spawn_cube_under_mario`): the engine is outside this model. Their effect is recorded in ghost counters and in the ghost `backend` sequence.
- The rest of `KernelCheckAndDispatch`: message handling and the stick min/max tracking, which nothing reads. Only its frame counter and the avatar step are modelled.
- IEEE single-precision rounding in the C++ streaming code: every float computation is on exact reals.
- IEEE double-precision rounding in the Python tools (`_Generate_LeveL_C.py` and `tritolevelc.py`): `float()` of a token, `coord * scale` and the JSON floats are exact reals in the model. Near a whole number, `int()` of the double can be one less than the exact truncation: `int(0.29 * 100.0)` is 28, where `ObjToC.Coordinate(0.29, 100.0)` is 29. `arrayprinter.py` uses only `int()` and is not affected.
- The `int32_t` range of the vertex coordinates in `SM64Surface`: they are unbounded integers, so a coordinate outside that range is not wrapped or truncated.
- The int32 overflow of `frame_num`: the counter is reset on every tick, so it never grows past 2 while an avatar exists. Without an avatar it grows forever, and the model uses a `nat` there.
- `read_f32_be`, `pc_get`/`pc_set`, the hex printers and file reading/writing in `utils.c`: bit reinterpretation and I/O.
- `FILENAME_MAX`: GenerateFilename assumes the name fits the temporary buffer.
- `malloc(0)`: both zone keys outside 1..21 give a total of 0, and `malloc(0)` may return null or a pointer. The model's allocation outcome is nondeterministic, so it covers both: a failed load, or an empty table handed to the engine.
- Python's Unicode `\w` and whitespace classes, and the underscores between digits and the non-ASCII digits that `int()` and `float()` accept: ASCII only. `Text.ParseDecimal` gives None for such a token, so `ObjToC.ParseVertex` raises on a line such as `v 1_0 2 3`, which the Python tool reads as 10, 2, 3.
- `float()` exponents, `inf` and `nan`: plain decimals only.
- The `print` messages of the OBJ tool, the tkinter dialogs, and the file open, read and write of the three tools.
- JSON decoding in `tritolevelc.py`: the decoded value is taken to be a list of lists of real triples. A point that is not a triple, which would raise in the source, is not modelled.
- The prompt printed by `arrayprinter.py`'s `input()`.
- The recursive test recurses while `depth <= 3`, so up to 4⁴ = 256 sampling calls are made from depth 0. LeafEvaluationsBound states that bound.
- When `load_surfaces_near` fails after the anchor has moved, the anchor is not rolled back, so the next reload waits until the avatar is 1000 units from the new anchor. MaybeReloadSurfaces states this.

## Findings

| source | as written | input that shows it | evidently intended | confidence | as-written member | corrected member |
|---|---|---|---|---|---|---|
| game/kernel/jak1/Mario1.cpp:199-213 (same code in game/kernel/jak1/kboot.cpp:209-222) | the determinant D uses x2 − x1 where x1 − x2 is needed, which flips the sign of only one of its two terms, so s and t are divided by a wrong determinant (the numerators are right) | unit triangle (0,0),(1,0),(0,1): D is 1 instead of −1, so the point (1/3, 1/3) gets s = −1/3 and (0,0) gets t = −1, and both are rejected | accept exactly the points that are convex combinations of the vertices; the filter takes the test as a parameter and both controllers run the as-written one, as the code does (SurfaceFilter.KernelFilterDropsFloorUnderCentre shows a floor lost to it) | high, not executed | Geometry.AsWrittenRejectsInteriorPoints | Geometry.InsideIsConvexCombination |
| third-party/src/decomp/tools/utils.c:135-143 | `*name++ == '/' \|\| *name == '\\'` tests the character after the advance for a backslash, so the base starts at the backslash rather than after it | "a\\b" gives "\\b" | cut after the last '/' or '\\', giving "b" | high, not executed | DecompUtils.BasenameKeepsBackslash | DecompUtils.Basename |
