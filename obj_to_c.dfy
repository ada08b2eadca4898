// decompiler_out/jak1/collision/_Generate_LeveL_C.py: reads the vertices,
// material switches and triangular faces of a Wavefront OBJ file and writes
// them as a C table of engine surfaces. The file's lines are an input here;
// an exception the Python code would raise is an `Err`.

module ObjToC {
  import opened Wrappers
  import opened Text

  /** \w of Python's re module, on ASCII. */
  predicate IsWordChar(c: char)
  {
    IsDigit(c) || ('a' <= c <= 'z') || ('A' <= c <= 'Z') || c == '_'
  }

  function UpperChar(c: char): (u: char)
    ensures !('a' <= u <= 'z')
    ensures IsWordChar(c) <==> IsWordChar(u)
    ensures IsDigit(c) <==> IsDigit(u)
  {
    if 'a' <= c <= 'z' then (c as int - 32) as char else c
  }

  /** A name the emitted C can use as it is: word characters only, no
      lower-case letter, and not starting with a digit. */
  predicate IsUpperIdentifier(s: string)
  {
    (s == [] || !IsDigit(s[0])) &&
    forall i :: 0 <= i < |s| ==> IsWordChar(s[i]) && !('a' <= s[i] <= 'z')
  }

  /** sanitize_material_name: every non-word character becomes '_', a '_'
      goes before a leading digit, and the result is upper-cased. */
  function SanitizeMaterialName(name: string): (r: string)
    ensures IsUpperIdentifier(r)
    ensures |r| == |name| + (if name != [] && IsDigit(name[0]) then 1 else 0)
  {
    var replaced := seq(|name|, i requires 0 <= i < |name| => if IsWordChar(name[i]) then name[i] else '_');
    var prefixed := (if name != [] && IsDigit(name[0]) then "_" else "") + replaced;
    seq(|prefixed|, i requires 0 <= i < |prefixed| => UpperChar(prefixed[i]))
  }

  /** A name that is already an upper-case identifier is kept as it is. */
  lemma SanitizeKeepsIdentifier(name: string)
    requires IsUpperIdentifier(name)
    ensures SanitizeMaterialName(name) == name
  {
    var r := SanitizeMaterialName(name);
    forall i | 0 <= i < |name|
      ensures r[i] == name[i]
    {
      SanitizeKeepsWordChars(name, i);
    }
  }

  /** Sanitising twice is sanitising once. */
  lemma SanitizeIdempotent(name: string)
    ensures SanitizeMaterialName(SanitizeMaterialName(name)) == SanitizeMaterialName(name)
  {
    SanitizeKeepsIdentifier(SanitizeMaterialName(name));
  }

  /** Word characters survive in place (upper-cased); every other one becomes '_'. */
  lemma SanitizeKeepsWordChars(name: string, i: nat)
    requires i < |name|
    ensures var shift := if IsDigit(name[0]) then 1 else 0;
            SanitizeMaterialName(name)[i + shift] == if IsWordChar(name[i]) then UpperChar(name[i]) else '_'
  {
    var replaced := seq(|name|, k requires 0 <= k < |name| => if IsWordChar(name[k]) then name[k] else '_');
    var prefixed := (if IsDigit(name[0]) then "_" else "") + replaced;
    var shift := if IsDigit(name[0]) then 1 else 0;
    assert SanitizeMaterialName(name) == seq(|prefixed|, k requires 0 <= k < |prefixed| => UpperChar(prefixed[k]));
    assert prefixed[i + shift] == replaced[i];
  }

  datatype Vec3 = Vec3(x: real, y: real, z: real)

  /** A triangle with the material that was current at its face. */
  datatype ObjTriangle = ObjTriangle(material: string, vertices: seq<Vec3>)

  /** The exceptions the parser can raise on a malformed line. */
  datatype ObjError = ValueError | IndexError

  datatype ObjState = ObjState(vertices: seq<Vec3>, triangles: seq<ObjTriangle>, material: string)

  const DefaultMaterial: string := "SURFACE_DEFAULT"

  const InitialState: ObjState := ObjState([], [], DefaultMaterial)

  /** float(parts[1]), float(parts[2]), float(parts[3]), left to right. */
  function ParseVertex(parts: seq<string>): Result<Vec3, ObjError>
  {
    if |parts| < 2 then Err(IndexError)
    else match ParseDecimal(parts[1])
      case None => Err(ValueError)
      case Some(x) =>
        if |parts| < 3 then Err(IndexError)
        else match ParseDecimal(parts[2])
          case None => Err(ValueError)
          case Some(y) =>
            if |parts| < 4 then Err(IndexError)
            else match ParseDecimal(parts[3])
              case None => Err(ValueError)
              case Some(z) => Ok(Vec3(x, y, z))
  }

  /** int(p.split('/')[0]) - 1 for each face token, stopping at the first failure. */
  function ParseFaceIndices(parts: seq<string>): Result<seq<int>, ObjError>
    decreases |parts|
  {
    if parts == [] then Ok([])
    else match ParseInt(FirstField(parts[0], '/'))
      case None => Err(ValueError)
      case Some(k) =>
        match ParseFaceIndices(parts[1..])
        case Err(e) => Err(e)
        case Ok(rest) => Ok([k - 1] + rest)
  }

  /** vertices[i] with Python's indexing: a negative index counts from the end. */
  function VertexAtIndex(vertices: seq<Vec3>, i: int): Result<Vec3, ObjError>
  {
    if 0 <= i < |vertices| then Ok(vertices[i])
    else if -|vertices| <= i < 0 then Ok(vertices[|vertices| + i])
    else Err(IndexError)
  }

  function ResolveFace(vertices: seq<Vec3>, indices: seq<int>): (r: Result<seq<Vec3>, ObjError>)
    ensures r.Ok? ==> |r.value| == |indices| && forall v :: v in r.value ==> v in vertices
    decreases |indices|
  {
    if indices == [] then Ok([])
    else match VertexAtIndex(vertices, indices[0])
      case Err(e) => Err(e)
      case Ok(v) =>
        match ResolveFace(vertices, indices[1..])
        case Err(e) => Err(e)
        case Ok(rest) => Ok([v] + rest)
  }

  /** The effect of one line of the file. */
  function Step(st: ObjState, line: string): Result<ObjState, ObjError>
  {
    if StartsWith(line, "v ") then
      match ParseVertex(SplitWhitespace(line))
      case Err(e) => Err(e)
      case Ok(v) => Ok(st.(vertices := st.vertices + [v]))
    else if StartsWith(line, "usemtl ") then
      var parts := SplitWhitespace(line);
      if |parts| < 2 then Err(IndexError)
      else Ok(st.(material := SanitizeMaterialName(parts[1])))
    else if StartsWith(line, "f ") then
      var parts := SplitWhitespace(line);
      match ParseFaceIndices(if parts == [] then [] else parts[1..])
      case Err(e) => Err(e)
      case Ok(indices) =>
        if |indices| == 3 then
          match ResolveFace(st.vertices, indices)
          case Err(e) => Err(e)
          case Ok(tri) => Ok(st.(triangles := st.triangles + [ObjTriangle(st.material, tri)]))
        else Ok(st)
    else Ok(st)
  }

  /** The state after the given lines, or the first exception. */
  function ParseLines(lines: seq<string>): Result<ObjState, ObjError>
    decreases |lines|
  {
    if lines == [] then Ok(InitialState)
    else match ParseLines(lines[..|lines| - 1])
      case Err(e) => Err(e)
      case Ok(st) => Step(st, lines[|lines| - 1])
  }

  /** parse_obj_with_materials over the lines of the file. */
  method ParseObjWithMaterials(lines: seq<string>) returns (r: Result<seq<ObjTriangle>, ObjError>)
    ensures ParseLines(lines).Ok? ==> r == Ok(ParseLines(lines).value.triangles)
    ensures ParseLines(lines).Err? ==> r == Err(ParseLines(lines).error)
  {
    var vertices: seq<Vec3> := [];
    var triangles: seq<ObjTriangle> := [];
    var currentMaterial := DefaultMaterial;
    var i := 0;
    while i < |lines|
      invariant 0 <= i <= |lines|
      invariant ParseLines(lines[..i]) == Ok(ObjState(vertices, triangles, currentMaterial))
    {
      var line := lines[i];
      assert lines[..i + 1][..i] == lines[..i];
      var st := ObjState(vertices, triangles, currentMaterial);
      if StartsWith(line, "v ") {
        var parts := SplitWhitespace(line);
        var v := ParseVertex(parts);
        if v.Err? {
          ParseLinesStopsAtError(lines, i + 1);
          return Err(v.error);
        }
        vertices := vertices + [v.value];
      } else if StartsWith(line, "usemtl ") {
        var parts := SplitWhitespace(line);
        if |parts| < 2 {
          ParseLinesStopsAtError(lines, i + 1);
          return Err(IndexError);
        }
        currentMaterial := SanitizeMaterialName(parts[1]);
      } else if StartsWith(line, "f ") {
        var parts := SplitWhitespace(line);
        var indices := ParseFaceIndices(if parts == [] then [] else parts[1..]);
        if indices.Err? {
          ParseLinesStopsAtError(lines, i + 1);
          return Err(indices.error);
        }
        if |indices.value| == 3 {
          var tri := ResolveFace(vertices, indices.value);
          if tri.Err? {
            ParseLinesStopsAtError(lines, i + 1);
            return Err(tri.error);
          }
          triangles := triangles + [ObjTriangle(currentMaterial, tri.value)];
        }
      }
      i := i + 1;
    }
    assert lines[..i] == lines;
    r := Ok(triangles);
  }

  /** Once a prefix of the file raises, the whole file raises the same exception. */
  lemma {:induction false} ParseLinesStopsAtError(lines: seq<string>, k: nat)
    requires k <= |lines| && ParseLines(lines[..k]).Err?
    ensures ParseLines(lines) == ParseLines(lines[..k])
    decreases |lines| - k
  {
    if k < |lines| {
      assert lines[..k + 1][..k] == lines[..k];
      ParseLinesStopsAtError(lines, k + 1);
    } else {
      assert lines[..k] == lines;
    }
  }

  /** A line that adds a triangle: an "f " line with exactly three tokens after the "f". */
  predicate IsTriangleFace(line: string)
  {
    StartsWith(line, "f ") && !StartsWith(line, "v ") && !StartsWith(line, "usemtl ") &&
    |SplitWhitespace(line)| == 4
  }

  function CountTriangleFaces(lines: seq<string>): nat
    decreases |lines|
  {
    if lines == [] then 0
    else CountTriangleFaces(lines[..|lines| - 1]) + (if IsTriangleFace(lines[|lines| - 1]) then 1 else 0)
  }

  lemma {:induction false} FaceIndicesLength(parts: seq<string>)
    ensures ParseFaceIndices(parts).Ok? ==> |ParseFaceIndices(parts).value| == |parts|
    decreases |parts|
  {
    if parts != [] {
      FaceIndicesLength(parts[1..]);
    }
  }

  /** The parser state's invariant: identifiers as materials, and triangles
      of three vertices drawn from the vertices read. */
  predicate WellFormedState(st: ObjState)
  {
    IsUpperIdentifier(st.material) &&
    forall t :: t in st.triangles ==>
      IsUpperIdentifier(t.material) && |t.vertices| == 3 && forall v :: v in t.vertices ==> v in st.vertices
  }

  /** One line keeps the invariant and adds a triangle exactly for a triangular face. */
  lemma StepKeepsWellFormed(st: ObjState, line: string)
    requires WellFormedState(st) && Step(st, line).Ok?
    ensures WellFormedState(Step(st, line).value)
    ensures |Step(st, line).value.triangles| == |st.triangles| + (if IsTriangleFace(line) then 1 else 0)
  {
    var parts := SplitWhitespace(line);
    if StartsWith(line, "v ") {
      var next := Step(st, line).value;
      assert forall v :: v in st.vertices ==> v in next.vertices;
    } else if StartsWith(line, "usemtl ") {
    } else if StartsWith(line, "f ") {
      FaceIndicesLength(if parts == [] then [] else parts[1..]);
    }
  }

  /** What a successful parse yields: one triangle per triangular face, in
      file order; every triangle has three of the parsed vertices; every
      material is an upper-case identifier. */
  lemma {:induction false} ParseLinesProperties(lines: seq<string>)
    requires ParseLines(lines).Ok?
    ensures var st := ParseLines(lines).value;
            |st.triangles| == CountTriangleFaces(lines) &&
            IsUpperIdentifier(st.material) &&
            forall t :: t in st.triangles ==>
              IsUpperIdentifier(t.material) && |t.vertices| == 3 && forall v :: v in t.vertices ==> v in st.vertices
    decreases |lines|
  {
    if lines == [] {
      assert IsUpperIdentifier(DefaultMaterial) by {
        assert forall i :: 0 <= i < |DefaultMaterial| ==> IsWordChar(DefaultMaterial[i]);
      }
      assert WellFormedState(InitialState);
    } else {
      var front := lines[..|lines| - 1];
      ParseLinesProperties(front);
      StepKeepsWellFormed(ParseLines(front).value, lines[|lines| - 1]);
    }
  }

  /** Without any "usemtl " line every triangle has the default material. */
  lemma {:induction false} DefaultMaterialWithoutUsemtl(lines: seq<string>)
    requires ParseLines(lines).Ok?
    requires forall i :: 0 <= i < |lines| ==> !StartsWith(lines[i], "usemtl ")
    ensures ParseLines(lines).value.material == DefaultMaterial
    ensures forall t :: t in ParseLines(lines).value.triangles ==> t.material == DefaultMaterial
    decreases |lines|
  {
    if lines != [] {
      DefaultMaterialWithoutUsemtl(lines[..|lines| - 1]);
    }
  }

  /** int(coord * scale): a coordinate of the emitted table. */
  function Coordinate(c: real, scale: real): int
  {
    TruncToInt(c * scale)
  }

  function VertexGroup(v: Vec3, scale: real): string
  {
    FormatIntTriple(Coordinate(v.x, scale), Coordinate(v.y, scale), Coordinate(v.z, scale))
  }

  function SurfaceText(t: ObjTriangle, scale: real): string
    requires |t.vertices| == 3
  {
    "    {" + t.material + ", 0, TERRAIN_STONE, {" +
    VertexGroup(t.vertices[0], scale) + ", " + VertexGroup(t.vertices[1], scale) + ", " +
    VertexGroup(t.vertices[2], scale) + "}},"
  }

  function SurfaceLine(t: ObjTriangle, scale: real): string
    requires |t.vertices| == 3
  {
    SurfaceText(t, scale) + "\n"
  }

  function SurfacesHeader(baseName: string): string
  {
    "const struct SM64Surface " + baseName + "_surfaces[] = {\n"
  }

  function SurfacesFooter(baseName: string): string
  {
    "};\nconst size_t " + baseName + "_surfaces_count = sizeof(" + baseName + "_surfaces) / sizeof(" +
    baseName + "_surfaces[0]);\n"
  }

  predicate AllTriangles(ts: seq<ObjTriangle>)
  {
    forall i :: 0 <= i < |ts| ==> |ts[i].vertices| == 3
  }

  function SurfaceLines(ts: seq<ObjTriangle>, scale: real): string
    requires AllTriangles(ts)
    decreases |ts|
  {
    if ts == [] then [] else SurfaceLines(ts[..|ts| - 1], scale) + SurfaceLine(ts[|ts| - 1], scale)
  }

  /** One more triangle appends its line. */
  lemma SurfaceLinesSnoc(ts: seq<ObjTriangle>, i: nat, scale: real)
    requires AllTriangles(ts) && i < |ts|
    ensures AllTriangles(ts[..i]) && AllTriangles(ts[..i + 1])
    ensures SurfaceLines(ts[..i + 1], scale) == SurfaceLines(ts[..i], scale) + SurfaceLine(ts[i], scale)
  {
    assert ts[..i + 1][..i] == ts[..i];
  }

  /** The file written for `triangles`: the header, one line per triangle in
      order, the closing brace and the count definition. */
  method GenerateSurfacesC(baseName: string, triangles: seq<ObjTriangle>, scale: real) returns (out: string)
    requires AllTriangles(triangles)
    ensures out == SurfacesHeader(baseName) + SurfaceLines(triangles, scale) + SurfacesFooter(baseName)
  {
    var body: string := [];
    var i := 0;
    while i < |triangles|
      invariant 0 <= i <= |triangles|
      invariant body == SurfaceLines(triangles[..i], scale)
    {
      SurfaceLinesSnoc(triangles, i, scale);
      body := body + SurfaceLine(triangles[i], scale);
      i := i + 1;
    }
    assert triangles[..i] == triangles;
    out := SurfacesHeader(baseName) + body + SurfacesFooter(baseName);
  }

  lemma NoNewlineInGroup(v: Vec3, scale: real)
    ensures '\n' !in VertexGroup(v, scale)
  {
    DecimalChars(Coordinate(v.x, scale), '\n');
    DecimalChars(Coordinate(v.y, scale), '\n');
    DecimalChars(Coordinate(v.z, scale), '\n');
  }

  lemma SurfaceLiteralsHaveNoNewline()
    ensures '\n' !in "    {" && '\n' !in ", 0, TERRAIN_STONE, {" && '\n' !in ", " && '\n' !in "}},"
  {
  }

  lemma NoNewlineInSurfaceText(t: ObjTriangle, scale: real)
    requires |t.vertices| == 3 && IsUpperIdentifier(t.material)
    ensures '\n' !in SurfaceText(t, scale)
  {
    NoNewlineInGroup(t.vertices[0], scale);
    NoNewlineInGroup(t.vertices[1], scale);
    NoNewlineInGroup(t.vertices[2], scale);
    assert '\n' !in t.material by {
      assert forall i :: 0 <= i < |t.material| ==> IsWordChar(t.material[i]);
    }
    SurfaceLiteralsHaveNoNewline();
  }

  /** Each surface line is one line of text when the material is an identifier. */
  lemma SurfaceLineIsOneLine(t: ObjTriangle, scale: real)
    requires |t.vertices| == 3 && IsUpperIdentifier(t.material)
    ensures CountChar(SurfaceLine(t, scale), '\n') == 1
  {
    NoNewlineInSurfaceText(t, scale);
    OneLine(SurfaceText(t, scale));
  }

  /** The body has exactly one line per triangle. */
  lemma {:induction false} SurfaceLinesCount(ts: seq<ObjTriangle>, scale: real)
    requires AllTriangles(ts) && forall i :: 0 <= i < |ts| ==> IsUpperIdentifier(ts[i].material)
    ensures CountChar(SurfaceLines(ts, scale), '\n') == |ts|
    decreases |ts|
  {
    if ts != [] {
      SurfaceLinesCount(ts[..|ts| - 1], scale);
      SurfaceLineIsOneLine(ts[|ts| - 1], scale);
      CountCharAppend(SurfaceLines(ts[..|ts| - 1], scale), SurfaceLine(ts[|ts| - 1], scale), '\n');
    }
  }

  /** Each vertex group reads back as the truncated, scaled coordinates. */
  lemma VertexGroupRoundTrip(v: Vec3, scale: real)
    ensures ParseIntTriple(VertexGroup(v, scale)) ==
            Some((Coordinate(v.x, scale), Coordinate(v.y, scale), Coordinate(v.z, scale)))
  {
    IntTripleRoundTrip(Coordinate(v.x, scale), Coordinate(v.y, scale), Coordinate(v.z, scale));
  }
}
