/**
 * src/mesh.c: the global mesh and the two routines that fill it, the
 * built-in unit cube and the .obj reader.
 *
 * The mesh's dynamic arrays grow by array_push, so they are sequences that
 * the methods extend. Reading the file is not modelled: whether fopen
 * succeeded is a parameter, and each line arrives with what the two sscanf
 * formats would match after its two-character prefix. Faces keep the
 * file's 1-based vertex indices; nothing converts them.
 */
module Mesh {
  import opened Geometry

  datatype Option<T> = None | Some(value: T)

  /** face_t: three vertex indices and a colour. */
  datatype Face = Face(a: int, b: int, c: int, color: uint32)

  const NCubeVertices: int := 8
  const NCubeFaces: int := 6 * 2

  /** cube_vertices, in table order. */
  const CubeVertices: seq<Vec3> := [
    Vec3(-1.0, -1.0, -1.0),
    Vec3(-1.0, 1.0, -1.0),
    Vec3(1.0, 1.0, -1.0),
    Vec3(1.0, -1.0, -1.0),
    Vec3(1.0, 1.0, 1.0),
    Vec3(1.0, -1.0, 1.0),
    Vec3(-1.0, 1.0, 1.0),
    Vec3(-1.0, -1.0, 1.0)
  ]

  /** cube_faces, two triangles per side; the colour member is not given, so it is zero. */
  const CubeFaces: seq<Face> := [
    Face(1, 2, 3, 0), Face(1, 3, 4, 0),
    Face(4, 3, 5, 0), Face(4, 5, 6, 0),
    Face(6, 5, 7, 0), Face(6, 7, 8, 0),
    Face(8, 7, 2, 0), Face(8, 2, 1, 0),
    Face(2, 7, 5, 0), Face(2, 5, 3, 0),
    Face(6, 8, 1, 0), Face(6, 1, 4, 0)
  ]

  /**
   * The cube tables have their declared sizes, and every face index is a
   * 1-based position in the vertex table.
   */
  lemma CubeTables()
    ensures |CubeVertices| == NCubeVertices && |CubeFaces| == NCubeFaces
    ensures forall f :: f in CubeFaces ==>
      1 <= f.a <= NCubeVertices && 1 <= f.b <= NCubeVertices && 1 <= f.c <= NCubeVertices
  {
  }

  /** The three `v` indices of an `f` line; the vt and vn indices are read and dropped. */
  datatype FaceIndices = FaceIndices(a: int, b: int, c: int)

  /**
   * One line as load_obj_file_data sees it: the text, what "%f %f %f"
   * matches after the prefix (Some exactly when all three numbers were
   * read), and what "%d/%d/%d %d/%d/%d %d/%d/%d" matches (Some exactly when
   * all nine were read). `faceColor` is whatever the colour member of this
   * line's fresh local `face_t` happens to hold: the loop never sets it, so
   * each face carries its own indeterminate value.
   */
  datatype ObjLine = ObjLine(text: string, vertex: Option<Vec3>, face: Option<FaceIndices>, faceColor: uint32)

  datatype LineKind = VertexLine | TexCoordLine | NormalLine | FaceLine | OtherLine

  /** The strncmp chain: the first of "v ", "vt ", "vn ", "f " that begins the line. */
  function Kind(text: string): (k: LineKind)
    ensures k == VertexLine <==> "v " <= text
    ensures k == TexCoordLine <==> "vt " <= text
    ensures k == NormalLine <==> "vn " <= text
    ensures k == FaceLine <==> "f " <= text
  {
    assert |text| >= 3 && "v " <= text ==> text[1] == ' ';
    assert |text| >= 2 && "f " <= text ==> text[0] == 'f';
    if |text| >= 2 && text[..2] == "v " then VertexLine
    else if |text| >= 3 && text[..3] == "vt " then TexCoordLine
    else if |text| >= 3 && text[..3] == "vn " then NormalLine
    else if |text| >= 2 && text[..2] == "f " then FaceLine
    else OtherLine
  }

  /** A `v` line whose three numbers were not all read, or an `f` line whose nine were not. */
  predicate Malformed(l: ObjLine) {
    (Kind(l.text) == VertexLine && l.vertex.None?) || (Kind(l.text) == FaceLine && l.face.None?)
  }

  /** The outcome of a load: the mesh arrays afterwards and the returned flag. */
  datatype Loaded = Loaded(vertices: seq<Vec3>, faces: seq<Face>, ok: bool)

  /**
   * The reading loop over the remaining lines: a well-formed `v` line
   * appends its vertex, a well-formed `f` line appends a face of its three
   * `v` indices (with the line's own `faceColor` for the colour member the
   * loop never sets), a malformed one ends the load with false, and every
   * other line is skipped. Reaching the end of the file gives true.
   */
  function LoadLines(vertices: seq<Vec3>, faces: seq<Face>, lines: seq<ObjLine>): Loaded
    decreases |lines|
  {
    if |lines| == 0 then Loaded(vertices, faces, true)
    else
      var l := lines[0];
      match Kind(l.text)
      case VertexLine =>
        if l.vertex.Some? then LoadLines(vertices + [l.vertex.value], faces, lines[1..])
        else Loaded(vertices, faces, false)
      case FaceLine =>
        if l.face.Some? then LoadLines(vertices, faces + [FaceOf(l.face.value, l.faceColor)], lines[1..])
        else Loaded(vertices, faces, false)
      case _ => LoadLines(vertices, faces, lines[1..])
  }

  function FaceOf(ix: FaceIndices, color: uint32): Face {
    Face(ix.a, ix.b, ix.c, color)
  }

  /** The number of lines before the first malformed one (all of them if none is). */
  function GoodPrefix(lines: seq<ObjLine>): (n: nat)
    ensures n <= |lines|
    ensures forall i :: 0 <= i < n ==> !Malformed(lines[i])
    ensures n < |lines| ==> Malformed(lines[n])
  {
    if |lines| == 0 || Malformed(lines[0]) then 0 else 1 + GoodPrefix(lines[1..])
  }

  /** What a line appends to the vertices: its vertex if it is a well-formed `v` line. */
  function LineVertices(l: ObjLine): seq<Vec3> {
    if Kind(l.text) == VertexLine && l.vertex.Some? then [l.vertex.value] else []
  }

  /** What a line appends to the faces: its face if it is a well-formed `f` line. */
  function LineFaces(l: ObjLine): seq<Face> {
    if Kind(l.text) == FaceLine && l.face.Some? then [FaceOf(l.face.value, l.faceColor)] else []
  }

  /** The vertices of the well-formed `v` lines, in order. */
  function VerticesOf(lines: seq<ObjLine>): seq<Vec3> {
    if |lines| == 0 then [] else LineVertices(lines[0]) + VerticesOf(lines[1..])
  }

  /** The faces of the well-formed `f` lines, in order. */
  function FacesOf(lines: seq<ObjLine>): seq<Face> {
    if |lines| == 0 then [] else LineFaces(lines[0]) + FacesOf(lines[1..])
  }

  /** A line that is not malformed adds what it contributes and the loop goes on. */
  lemma LoadLinesStep(vertices: seq<Vec3>, faces: seq<Face>, lines: seq<ObjLine>)
    requires |lines| > 0 && !Malformed(lines[0])
    ensures LoadLines(vertices, faces, lines) ==
      LoadLines(vertices + LineVertices(lines[0]), faces + LineFaces(lines[0]), lines[1..])
  {
    var l := lines[0];
    match Kind(l.text)
    case VertexLine =>
      assert LineFaces(l) == [] && faces + [] == faces;
    case FaceLine =>
      assert LineVertices(l) == [] && vertices + [] == vertices;
    case _ =>
      assert LineVertices(l) == [] && vertices + [] == vertices;
      assert LineFaces(l) == [] && faces + [] == faces;
  }

  /**
   * What a load does, in closed form: the vertices and faces of the lines
   * before the first malformed one are appended in order, nothing is
   * removed again when it stops, and the flag is true exactly when no line
   * is malformed.
   */
  lemma {:induction false} LoadLinesResult(vertices: seq<Vec3>, faces: seq<Face>, lines: seq<ObjLine>)
    ensures var n := GoodPrefix(lines);
      LoadLines(vertices, faces, lines) ==
        Loaded(vertices + VerticesOf(lines[..n]), faces + FacesOf(lines[..n]), n == |lines|)
    decreases |lines|
  {
    if |lines| > 0 {
      var l := lines[0];
      var n := GoodPrefix(lines);
      if Malformed(l) {
        assert n == 0 && lines[..n] == [];
        assert vertices + [] == vertices && faces + [] == faces;
      } else {
        var rest := lines[1..];
        var dv, df := LineVertices(l), LineFaces(l);
        assert GoodPrefix(rest) == n - 1;
        OfPrefix(lines, n);
        LoadLinesStep(vertices, faces, lines);
        LoadLinesResult(vertices + dv, faces + df, rest);
        AppendAssoc(vertices, dv, VerticesOf(rest[..n - 1]));
        AppendAssoc(faces, df, FacesOf(rest[..n - 1]));
      }
    }
  }

  /** The contributions of the first n lines are those of the first line, then those of the next n - 1. */
  lemma OfPrefix(lines: seq<ObjLine>, n: nat)
    requires 0 < n <= |lines|
    ensures VerticesOf(lines[..n]) == LineVertices(lines[0]) + VerticesOf(lines[1..][..n - 1])
    ensures FacesOf(lines[..n]) == LineFaces(lines[0]) + FacesOf(lines[1..][..n - 1])
  {
    assert lines[..n][0] == lines[0] && lines[..n][1..] == lines[1..][..n - 1];
  }

  lemma AppendAssoc<T>(a: seq<T>, b: seq<T>, c: seq<T>)
    ensures a + b + c == a + (b + c)
  {
  }

  /** A load that fails keeps what it appended before the bad line: there is no rollback. */
  lemma LoadNoRollback(vertices: seq<Vec3>, faces: seq<Face>, lines: seq<ObjLine>)
    ensures var r := LoadLines(vertices, faces, lines);
      vertices <= r.vertices && faces <= r.faces
    ensures var r := LoadLines(vertices, faces, lines);
      !r.ok <==> exists i :: 0 <= i < |lines| && Malformed(lines[i])
  {
    LoadLinesResult(vertices, faces, lines);
  }

  /** With every `v` and `f` line well-formed the load succeeds and appends all of them. */
  lemma LoadWellFormed(vertices: seq<Vec3>, faces: seq<Face>, lines: seq<ObjLine>)
    requires forall i :: 0 <= i < |lines| ==> !Malformed(lines[i])
    ensures LoadLines(vertices, faces, lines) ==
      Loaded(vertices + VerticesOf(lines), faces + FacesOf(lines), true)
  {
    LoadLinesResult(vertices, faces, lines);
    assert lines[..|lines|] == lines;
  }

  /** mesh_t: the growable vertex and face arrays and the per-mesh transform. */
  class Mesh {
    var vertices: seq<Vec3>
    var faces: seq<Face>
    var rotation: Vec3
    var scale: Vec3
    var translation: Vec3

    /** The global `mesh` as initialised: no vertices, no faces, zero transform. */
    constructor ()
      ensures vertices == [] && faces == []
      ensures rotation == Vec3(0.0, 0.0, 0.0) && scale == Vec3(0.0, 0.0, 0.0) && translation == Vec3(0.0, 0.0, 0.0)
    {
      vertices := [];
      faces := [];
      rotation := Vec3(0.0, 0.0, 0.0);
      scale := Vec3(0.0, 0.0, 0.0);
      translation := Vec3(0.0, 0.0, 0.0);
    }

    /** load_cube_mesh_data: the 8 cube vertices, then the 12 faces, pushed after the current contents. */
    method LoadCubeMeshData()
      modifies this
      ensures vertices == old(vertices) + CubeVertices && faces == old(faces) + CubeFaces
      ensures rotation == old(rotation) && scale == old(scale) && translation == old(translation)
    {
      for i := 0 to NCubeVertices
        invariant vertices == old(vertices) + CubeVertices[..i] && faces == old(faces)
        invariant rotation == old(rotation) && scale == old(scale) && translation == old(translation)
      {
        var cubeVertex := CubeVertices[i];
        vertices := vertices + [cubeVertex];
      }
      for i := 0 to NCubeFaces
        invariant vertices == old(vertices) + CubeVertices && faces == old(faces) + CubeFaces[..i]
        invariant rotation == old(rotation) && scale == old(scale) && translation == old(translation)
      {
        var cubeFace := CubeFaces[i];
        faces := faces + [cubeFace];
      }
    }

    /**
     * load_obj_file_data: false at once when the file cannot be opened;
     * otherwise the reading loop, which leaves the arrays and the result as
     * LoadLines says.
     */
    method LoadObjFileData(fileOpened: bool, lines: seq<ObjLine>) returns (ok: bool)
      modifies this
      ensures !fileOpened ==> !ok && vertices == old(vertices) && faces == old(faces)
      ensures fileOpened ==> Loaded(vertices, faces, ok) == LoadLines(old(vertices), old(faces), lines)
      ensures rotation == old(rotation) && scale == old(scale) && translation == old(translation)
    {
      if !fileOpened {
        return false;
      }
      var i := 0;
      while i < |lines|
        invariant 0 <= i <= |lines|
        invariant LoadLines(vertices, faces, lines[i..]) == LoadLines(old(vertices), old(faces), lines)
        invariant rotation == old(rotation) && scale == old(scale) && translation == old(translation)
      {
        var line := lines[i];
        assert lines[i..][0] == line && lines[i..][1..] == lines[i + 1..];
        var kind := Kind(line.text);
        if kind == VertexLine {
          if line.vertex.Some? {
            vertices := vertices + [line.vertex.value];
          } else {
            return false;
          }
        } else if kind == TexCoordLine {
        } else if kind == NormalLine {
        } else if kind == FaceLine {
          if line.face.Some? {
            var v := line.face.value;
            faces := faces + [Face(v.a, v.b, v.c, line.faceColor)];
          } else {
            return false;
          }
        } else {
        }
        i := i + 1;
      }
      return true;
    }
  }
}
