// tritolevelc.py: generate_level_c turns a list of triangles, each a list of
// (x, y, z) points read from JSON, into the lines of a C source file holding
// an engine surface table. Reading the JSON and writing the file are I/O: the
// decoded list is an input and the list of lines handed to writelines is the
// result.

module TriToLevelC {
  import opened Wrappers
  import opened Text

  /** A decoded JSON point; JSON numbers are modelled as reals. */
  type Point = (real, real, real)

  const TemplateHeader: string :=
    "#include \"level.h\"\n#include \"../src/decomp/include/surface_terrains.h\"\n\nconst struct SM64Surface surfaces[] = {\n"

  const TemplateFooter: string :=
    "};\n\nconst size_t surfaces_count = sizeof(surfaces) / sizeof(surfaces[0]);\n"

  /** f'{{{int(x)},{int(y)},{int(z)}}}' */
  function Group(p: Point): string
  {
    FormatIntTriple(TruncToInt(p.0), TruncToInt(p.1), TruncToInt(p.2))
  }

  /** The groups of a triangle's points, in order. */
  function Groups(tri: seq<Point>): seq<string>
    decreases |tri|
  {
    if tri == [] then [] else [Group(tri[0])] + Groups(tri[1..])
  }

  /** One group per point, in the order of the points. */
  lemma {:induction false} GroupsInOrder(tri: seq<Point>)
    ensures |Groups(tri)| == |tri|
    ensures forall i :: 0 <= i < |tri| ==> Groups(tri)[i] == Group(tri[i])
    decreases |tri|
  {
    if tri != [] {
      var rest := Groups(tri[1..]);
      GroupsInOrder(tri[1..]);
      assert Groups(tri) == [Group(tri[0])] + rest;
      assert forall i :: 1 <= i < |tri| ==> rest[i - 1] == Group(tri[1..][i - 1]) && tri[1..][i - 1] == tri[i];
    }
  }

  const LinePrefix: string := "{SURFACE_DEFAULT,0,TERRAIN_SNOW,{"
  const LineSuffix: string := "}},"

  /** The line of one triangle: its groups joined by ',' inside the
      SURFACE_DEFAULT / TERRAIN_SNOW initialiser. */
  function LevelLine(tri: seq<Point>): string
  {
    LinePrefix + JoinWith(Groups(tri), ',') + LineSuffix + "\n"
  }

  /** The lines of the triangles, in order. */
  function LevelLines(triangles: seq<seq<Point>>): (lines: seq<string>)
  {
    seq(|triangles|, i requires 0 <= i < |triangles| => LevelLine(triangles[i]))
  }

  /** f.writelines(lines): the lines one after the other. */
  function Concat(lines: seq<string>): string
    decreases |lines|
  {
    if lines == [] then [] else Concat(lines[..|lines| - 1]) + lines[|lines| - 1]
  }

  /** generate_level_c: the list of lines it hands to writelines, the header
      first, then one line per triangle in order, then the footer. */
  method GenerateLevelC(triangles: seq<seq<Point>>) returns (lines: seq<string>)
    ensures lines == [TemplateHeader] + LevelLines(triangles) + [TemplateFooter]
  {
    lines := [TemplateHeader];
    var i := 0;
    while i < |triangles|
      invariant 0 <= i <= |triangles|
      invariant lines == [TemplateHeader] + LevelLines(triangles[..i])
    {
      LevelLinesSnoc(triangles, i);
      lines := lines + [LevelLine(triangles[i])];
      i := i + 1;
    }
    assert triangles[..i] == triangles;
    lines := lines + [TemplateFooter];
  }

  lemma LevelLinesSnoc(triangles: seq<seq<Point>>, i: nat)
    requires i < |triangles|
    ensures LevelLines(triangles[..i + 1]) == LevelLines(triangles[..i]) + [LevelLine(triangles[i])]
  {
    assert forall k :: 0 <= k < i ==> triangles[..i + 1][k] == triangles[..i][k];
  }

  lemma ConcatSnoc(lines: seq<string>, line: string)
    ensures Concat(lines + [line]) == Concat(lines) + line
  {
    assert (lines + [line])[..|lines|] == lines;
  }

  lemma {:induction false} ConcatPrepend(line: string, lines: seq<string>)
    ensures Concat([line] + lines) == line + Concat(lines)
    decreases |lines|
  {
    if lines == [] {
      ConcatSnoc([], line);
    } else {
      var front, last := lines[..|lines| - 1], lines[|lines| - 1];
      ConcatPrepend(line, front);
      assert [line] + lines == ([line] + front) + [last];
      ConcatSnoc([line] + front, last);
    }
  }

  /** The written file: the header, the triangle lines, the footer. */
  lemma WrittenFile(triangles: seq<seq<Point>>)
    ensures Concat([TemplateHeader] + LevelLines(triangles) + [TemplateFooter]) ==
            TemplateHeader + Concat(LevelLines(triangles)) + TemplateFooter
  {
    var body := LevelLines(triangles);
    ConcatSnoc([TemplateHeader] + body, TemplateFooter);
    ConcatPrepend(TemplateHeader, body);
  }

  /** Lines that each hold one `c` give one `c` per line. */
  lemma {:induction false} ConcatCountOnePerLine(lines: seq<string>, c: char)
    requires forall k :: 0 <= k < |lines| ==> CountChar(lines[k], c) == 1
    ensures CountChar(Concat(lines), c) == |lines|
    decreases |lines|
  {
    if lines != [] {
      var front := lines[..|lines| - 1];
      ConcatCountOnePerLine(front, c);
      CountCharAppend(Concat(front), lines[|lines| - 1], c);
    }
  }

  /** No group holds a line break. */
  lemma GroupHasNoNewline(p: Point)
    ensures '\n' !in Group(p)
  {
    DecimalChars(TruncToInt(p.0), '\n');
    DecimalChars(TruncToInt(p.1), '\n');
    DecimalChars(TruncToInt(p.2), '\n');
  }

  /** Groups joined by commas hold no line break. */
  lemma {:induction false} JoinedGroupsHaveNoNewline(tri: seq<Point>)
    ensures '\n' !in JoinWith(Groups(tri), ',')
    decreases |tri|
  {
    if |tri| == 1 {
      GroupHasNoNewline(tri[0]);
    } else if |tri| > 1 {
      GroupHasNoNewline(tri[0]);
      JoinedGroupsHaveNoNewline(tri[1..]);
    }
  }

  /** Every triangle line is exactly one line of text. */
  lemma LevelLineIsOneLine(tri: seq<Point>)
    ensures CountChar(LevelLine(tri), '\n') == 1
  {
    JoinedGroupsHaveNoNewline(tri);
    LineAffixesHaveNoNewline();
    OneLineOfThree(LinePrefix, JoinWith(Groups(tri), ','), LineSuffix);
  }

  lemma LineAffixesHaveNoNewline()
    ensures '\n' !in LinePrefix && '\n' !in LineSuffix
  {
  }

  /** Between header and footer, the file has one line per triangle. */
  lemma BodyLineCount(triangles: seq<seq<Point>>)
    ensures CountChar(Concat(LevelLines(triangles)), '\n') == |triangles|
  {
    var lines := LevelLines(triangles);
    forall k | 0 <= k < |lines|
      ensures CountChar(lines[k], '\n') == 1
    {
      LevelLineIsOneLine(triangles[k]);
    }
    ConcatCountOnePerLine(lines, '\n');
  }

  /** Each point's group reads back as its truncated coordinates. */
  lemma GroupRoundTrip(p: Point)
    ensures ParseIntTriple(Group(p)) == Some((TruncToInt(p.0), TruncToInt(p.1), TruncToInt(p.2)))
  {
    IntTripleRoundTrip(TruncToInt(p.0), TruncToInt(p.1), TruncToInt(p.2));
  }
}
