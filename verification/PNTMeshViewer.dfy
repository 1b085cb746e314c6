/**
 The mesh of the viewer with its own normals: faces of three point, normal and texture indices,
 and one normal for each face.
 */
module PNTMeshViewer {
  import opened MeshGrid

  class TriangleMesh<F> {
    var points: seq<F>
    var normals: seq<F>
    var texCoords: seq<F>
    var faces: seq<int>

    constructor (points: seq<F>, normals: seq<F>, texCoords: seq<F>, faces: seq<int>)
      ensures this.points == points && this.normals == normals && this.texCoords == texCoords && this.faces == faces
    {
      this.points, this.normals, this.texCoords, this.faces := points, normals, texCoords, faces;
    }
  }

  datatype Vec<F> = Vec(x: F, y: F, z: F)

  // The normal of three points, as floats compute it.
  type Normal<!F> = (Vec<F>, Vec<F>, Vec<F>) -> Vec<F>

  // ---------- What a mesh is ----------

  // Face k: the corners of a triangle, each with the normal k and the texture coordinate of its point.
  function Face(a: nat, b: nat, c: nat, k: nat): seq<int> {
    [a, k, a, b, k, b, c, k, c]
  }

  function Faces(cols: nat, k: nat): (faces: seq<int>)
    requires cols > 0
    ensures |faces| == 9 * k
  {
    if k == 0 then []
    else Faces(cols, k - 1) + Face(Corner(cols, k - 1, 0), Corner(cols, k - 1, 1), Corner(cols, k - 1, 2), k - 1)
  }

  function AllFaces(cols: nat, rows: nat): seq<int> {
    if cols == 0 then [] else Faces(cols, 2 * Size(cols, rows))
  }

  function PointOf<F>(points: seq<F>, p: nat): Vec<F>
    requires 3 * p + 3 <= |points|
  {
    Vec(points[3 * p], points[3 * p + 1], points[3 * p + 2])
  }

  function NormalOf<F>(normal: Normal<F>, points: seq<F>, a: nat, b: nat, c: nat): seq<F>
    requires 3 * a + 3 <= |points| && 3 * b + 3 <= |points| && 3 * c + 3 <= |points|
  {
    var n := normal(PointOf(points, a), PointOf(points, b), PointOf(points, c));
    [n.x, n.y, n.z]
  }

  // The normals of the first k triangles.
  function Normals<F>(normal: Normal<F>, points: seq<F>, cols: nat, rows: nat, k: nat): (normals: seq<F>)
    requires cols > 0 && k <= 2 * Size(cols, rows) && |points| == 3 * Size(cols + 1, rows + 1)
    ensures |normals| == 3 * k
  {
    if k == 0 then []
    else
      CornersInRange(cols, rows, k - 1, 0);
      CornersInRange(cols, rows, k - 1, 1);
      CornersInRange(cols, rows, k - 1, 2);
      Normals(normal, points, cols, rows, k - 1)
      + NormalOf(normal, points, Corner(cols, k - 1, 0), Corner(cols, k - 1, 1), Corner(cols, k - 1, 2))
  }

  function AllNormals<F>(normal: Normal<F>, points: seq<F>, cols: nat, rows: nat): seq<F>
    requires |points| == 3 * Size(cols + 1, rows + 1)
  {
    if cols == 0 then [] else Normals(normal, points, cols, rows, 2 * Size(cols, rows))
  }

  // ---------- Meaning of the indices ----------

  lemma {:induction false} FaceAt(cols: nat, n: nat, k: nat)
    requires cols > 0 && k < n
    ensures Faces(cols, n)[9 * k..9 * k + 9] == Face(Corner(cols, k, 0), Corner(cols, k, 1), Corner(cols, k, 2), k)
  {
    hide Corner;
    if k < n - 1 {
      FaceAt(cols, n - 1, k);
    }
  }

  // The three corners of face k share the normal k, and all indices are in range.
  lemma NormalIndicesAgree(cols: nat, rows: nat, k: nat)
    requires cols > 0 && k < 2 * Size(cols, rows)
    ensures var f := AllFaces(cols, rows);
            && |f| == 18 * Size(cols, rows)
            && f[9 * k + 1] == f[9 * k + 4] == f[9 * k + 7] == k
            && f[9 * k] == Corner(cols, k, 0) == f[9 * k + 2]
            && f[9 * k + 3] == Corner(cols, k, 1) == f[9 * k + 5]
            && f[9 * k + 6] == Corner(cols, k, 2) == f[9 * k + 8]
    ensures forall i :: 0 <= i < 3 ==> Corner(cols, k, i) < Size(cols + 1, rows + 1)
  {
    hide Corner, Size;
    FaceAt(cols, 2 * Size(cols, rows), k);
    var f := AllFaces(cols, rows);
    var face := f[9 * k..9 * k + 9];
    assert f[9 * k + 0] == face[0] && f[9 * k + 1] == face[1] && f[9 * k + 2] == face[2];
    assert f[9 * k + 3] == face[3] && f[9 * k + 4] == face[4] && f[9 * k + 5] == face[5];
    assert f[9 * k + 6] == face[6] && f[9 * k + 7] == face[7] && f[9 * k + 8] == face[8];
    CornersInRange(cols, rows, k, 0);
    CornersInRange(cols, rows, k, 1);
    CornersInRange(cols, rows, k, 2);
  }

  // What a built mesh shows at the i-th corner of face k.
  lemma CornerShown<F>(c: Coords<F>, u: nat -> F, v: nat -> F, cols: nat, rows: nat, k: nat, i: nat)
    requires cols > 0 && k < 2 * Size(cols, rows) && i < 3
    ensures var faces, w, n := AllFaces(cols, rows), cols + 1, Size(cols + 1, rows + 1);
            && |faces| == 18 * Size(cols, rows)
            && var x, y := Col(w, Corner(cols, k, i)), Row(w, Corner(cols, k, i));
               var point, texture := faces[9 * k + 3 * i], faces[9 * k + 3 * i + 2];
               && 0 <= point < n && 0 <= texture < n
               && Points(c, w, n)[3 * point..3 * point + 3] == [c.x(x), c.y(y), c.z(x, y)]
               && TexCoords(u, v, w, n)[2 * texture..2 * texture + 2] == [u(x), v(y)]
  {
    hide Corner, Size, Row, Col, AllFaces, Points, TexCoords;
    NormalIndicesAgree(cols, rows, k);
    PointAt(c, cols + 1, Size(cols + 1, rows + 1), Corner(cols, k, i));
    TexCoordAt(u, v, cols + 1, Size(cols + 1, rows + 1), Corner(cols, k, i));
  }

  // Normal k is computed from the three points of face k, in the order of its corners.
  lemma NormalIsOfPoints<F>(normal: Normal<F>, points: seq<F>, cols: nat, rows: nat, k: nat)
    requires cols > 0 && k < 2 * Size(cols, rows) && |points| == 3 * Size(cols + 1, rows + 1)
    ensures var a, b, c := Corner(cols, k, 0), Corner(cols, k, 1), Corner(cols, k, 2);
            && 3 * a + 3 <= |points| && 3 * b + 3 <= |points| && 3 * c + 3 <= |points|
            && |AllNormals(normal, points, cols, rows)| == 6 * Size(cols, rows)
            && var n := normal(Vec(points[3 * a], points[3 * a + 1], points[3 * a + 2]),
                               Vec(points[3 * b], points[3 * b + 1], points[3 * b + 2]),
                               Vec(points[3 * c], points[3 * c + 1], points[3 * c + 2]));
               AllNormals(normal, points, cols, rows)[3 * k..3 * k + 3] == [n.x, n.y, n.z]
  {
    hide Corner, Size, Normals;
    NormalAt(normal, points, cols, rows, 2 * Size(cols, rows), k);
  }

  lemma {:induction false} NormalAt<F>(normal: Normal<F>, points: seq<F>, cols: nat, rows: nat, n: nat, k: nat)
    requires cols > 0 && k < n <= 2 * Size(cols, rows) && |points| == 3 * Size(cols + 1, rows + 1)
    ensures Corner(cols, k, 0) < Size(cols + 1, rows + 1) && Corner(cols, k, 1) < Size(cols + 1, rows + 1)
            && Corner(cols, k, 2) < Size(cols + 1, rows + 1)
    ensures Normals(normal, points, cols, rows, n)[3 * k..3 * k + 3]
         == NormalOf(normal, points, Corner(cols, k, 0), Corner(cols, k, 1), Corner(cols, k, 2))
  {
    hide Corner, Size, NormalOf;
    CornersInRange(cols, rows, k, 0);
    CornersInRange(cols, rows, k, 1);
    CornersInRange(cols, rows, k, 2);
    if k < n - 1 {
      NormalAt(normal, points, cols, rows, n - 1, k);
    }
  }

  lemma NextTriangle<F>(normal: Normal<F>, points: seq<F>, cols: nat, rows: nat, k: nat)
    requires cols > 0 && k < 2 * Size(cols, rows) && |points| == 3 * Size(cols + 1, rows + 1)
    ensures Corner(cols, k, 0) < Size(cols + 1, rows + 1) && Corner(cols, k, 1) < Size(cols + 1, rows + 1)
            && Corner(cols, k, 2) < Size(cols + 1, rows + 1)
    ensures Normals(normal, points, cols, rows, k + 1)
         == Normals(normal, points, cols, rows, k)
            + NormalOf(normal, points, Corner(cols, k, 0), Corner(cols, k, 1), Corner(cols, k, 2))
    ensures Faces(cols, k + 1) == Faces(cols, k) + Face(Corner(cols, k, 0), Corner(cols, k, 1), Corner(cols, k, 2), k)
  {
    hide Corner, Size, NormalOf;
    CornersInRange(cols, rows, k, 0);
    CornersInRange(cols, rows, k, 1);
    CornersInRange(cols, rows, k, 2);
  }

  lemma NoTriangles<F>(normal: Normal<F>, points: seq<F>, cols: nat, rows: nat)
    requires |points| == 3 * Size(cols + 1, rows + 1)
    ensures cols > 0 ==> Normals(normal, points, cols, rows, 0) == [] && Faces(cols, 0) == []
    ensures cols == 0 ==> Size(cols, rows) == 0
  {
  }

  // ---------- Building ----------

  method BuildTriangleMesh<F(0)>(c: Coords<F>, normal: Normal<F>, u: nat -> F, v: nat -> F, subDivX: nat, subDivY: nat)
    returns (mesh: TriangleMesh<F>)
    ensures fresh(mesh)
    ensures var n := Size(subDivX + 1, subDivY + 1);
            && mesh.points == Points(c, subDivX + 1, n)
            && mesh.texCoords == TexCoords(u, v, subDivX + 1, n)
            && mesh.faces == AllFaces(subDivX, subDivY)
            && mesh.normals == AllNormals(normal, mesh.points, subDivX, subDivY)
  {
    hide Size, Points, TexCoords, AllFaces, AllNormals;
    var numVerts := Size(subDivX + 1, subDivY + 1);
    var points := new F[numVerts * 3];
    var texCoords := new F[numVerts * 2];
    FillPoints(c, subDivX, subDivY, points);
    FillTexCoords(u, v, subDivX, subDivY, texCoords);
    var normals, faces := FillFaces(normal, points, subDivX, subDivY);
    mesh := new TriangleMesh(points[..], normals[..], texCoords[..], faces[..]);
  }

  // The first k faces and normals are there, in arrays for all of them.
  ghost predicate Filled<F>(normal: Normal<F>, points: seq<F>, cols: nat, rows: nat, k: nat, normals: seq<F>, faces: seq<int>)
    requires cols > 0 && |points| == 3 * Size(cols + 1, rows + 1)
  {
    && k <= 2 * Size(cols, rows) && |normals| == 6 * Size(cols, rows) && |faces| == 18 * Size(cols, rows)
    && faces[..9 * k] == Faces(cols, k)
    && normals[..3 * k] == Normals(normal, points, cols, rows, k)
  }

  lemma NoneFilled<F>(normal: Normal<F>, points: seq<F>, cols: nat, rows: nat, normals: seq<F>, faces: seq<int>)
    requires cols > 0 && |points| == 3 * Size(cols + 1, rows + 1)
    requires |normals| == 6 * Size(cols, rows) && |faces| == 18 * Size(cols, rows)
    ensures Filled(normal, points, cols, rows, 0, normals, faces)
  {
  }

  lemma AllFilled<F>(normal: Normal<F>, points: seq<F>, cols: nat, rows: nat, normals: seq<F>, faces: seq<int>)
    requires cols > 0 && |points| == 3 * Size(cols + 1, rows + 1)
    requires Filled(normal, points, cols, rows, 2 * Size(cols, rows), normals, faces)
    ensures faces == AllFaces(cols, rows) && normals == AllNormals(normal, points, cols, rows)
  {
    hide Size, Faces, Normals;
  }

  // The faces with their running normal count, and the normals.
  method FillFaces<F(0)>(normal: Normal<F>, points: array<F>, subDivX: nat, subDivY: nat)
    returns (normals: array<F>, faces: array<int>)
    requires points.Length == 3 * Size(subDivX + 1, subDivY + 1)
    ensures fresh(normals) && fresh(faces)
    ensures faces[..] == AllFaces(subDivX, subDivY)
    ensures normals[..] == AllNormals(normal, points[..], subDivX, subDivY)
  {
    hide Size, Filled, Faces, Normals;
    var faceCount := 2 * Size(subDivX, subDivY);
    normals := new F[faceCount * 3];
    faces := new int[faceCount * 9];
    NoTriangles(normal, points[..], subDivX, subDivY);
    if subDivX == 0 { return; }
    RowsFit(subDivX, subDivY, 0);
    NoneFilled(normal, points[..], subDivX, subDivY, normals[..], faces[..]);
    var normalCount := 0;
    for y := 0 to subDivY
      invariant normalCount == 2 * Size(subDivX, y) && points[..] == old(points[..])
      invariant Filled(normal, points[..], subDivX, subDivY, normalCount, normals[..], faces[..])
    {
      RowsFit(subDivX, subDivY, y);
      normalCount := FillRow(normal, points, subDivX, subDivY, y, normalCount, normals, faces);
    }
    AllFilled(normal, points[..], subDivX, subDivY, normals[..], faces[..]);
  }

  // The quads of one row.
  method FillRow<F>(normal: Normal<F>, points: array<F>, subDivX: nat, subDivY: nat, y: nat, count: nat,
                    normals: array<F>, faces: array<int>)
    returns (normalCount: nat)
    requires subDivX > 0 && points.Length == 3 * Size(subDivX + 1, subDivY + 1) && points != normals
    requires Apart(points, faces) && Apart(normals, faces)
    requires y < subDivY && count == 2 * Size(subDivX, y)
    requires Filled(normal, points[..], subDivX, subDivY, count, normals[..], faces[..])
    modifies normals, faces
    ensures normalCount == count + 2 * subDivX
    ensures Filled(normal, points[..], subDivX, subDivY, normalCount, normals[..], faces[..])
  {
    hide Size, Filled, IndexOf, Origin, Row, Col;
    RowsFit(subDivX, subDivY, y);
    normalCount := count;
    for x := 0 to subDivX
      invariant normalCount == 2 * (Size(subDivX, y) + x) && points[..] == old(points[..])
      invariant Filled(normal, points[..], subDivX, subDivY, normalCount, normals[..], faces[..])
    {
      OriginOf(subDivX, y, x);
      FillQuad(normal, points, subDivX, subDivY, IndexOf(subDivX + 1, y, x, 1), IndexOf(subDivX, y, x, 9) * 2,
               normalCount, normals, faces);
      normalCount := normalCount + 2;
    }
  }

  predicate Apart(a: object, b: object) {
    a != b
  }

  // The two triangles of a quad.
  method FillQuad<F>(normal: Normal<F>, points: array<F>, subDivX: nat, subDivY: nat, p00: nat, index: nat, count: nat,
                     normals: array<F>, faces: array<int>)
    requires subDivX > 0 && points.Length == 3 * Size(subDivX + 1, subDivY + 1) && points != normals
    requires Apart(points, faces) && Apart(normals, faces)
    requires count % 2 == 0 && count + 2 <= 2 * Size(subDivX, subDivY) && index == 9 * count
    requires p00 == Origin(subDivX, count / 2)
    requires Filled(normal, points[..], subDivX, subDivY, count, normals[..], faces[..])
    modifies normals, faces
    ensures points[..] == old(points[..])
    ensures Filled(normal, points[..], subDivX, subDivY, count + 2, normals[..], faces[..])
  {
    hide Size, Corner, Faces, Normals, Origin, NormalOf, Face;
    ghost var ps := points[..];
    var numDivX := subDivX + 1;
    QuadCorners(subDivX, count / 2);
    var p01 := p00 + 1;
    var p10 := p00 + numDivX;
    var p11 := p10 + 1;
    NextTriangle(normal, ps, subDivX, subDivY, count);
    SetNormal(normal, points, p00, p10, p11, normals, count);
    SetFace(faces, index, p00, p10, p11, count);
    NextTriangle(normal, ps, subDivX, subDivY, count + 1);
    SetNormal(normal, points, p11, p01, p00, normals, count + 1);
    SetFace(faces, index + 9, p11, p01, p00, count + 1);
  }

  method SetFace(faces: array<int>, index: nat, a: nat, b: nat, c: nat, k: nat)
    requires index + 9 <= faces.Length
    modifies faces
    ensures faces[..index + 9] == old(faces[..index]) + Face(a, b, c, k)
  {
    SetCorner(faces, index, a, k);
    SetCorner(faces, index + 3, b, k);
    SetCorner(faces, index + 6, c, k);
  }

  method SetCorner(faces: array<int>, index: nat, p: nat, k: nat)
    requires index + 3 <= faces.Length
    modifies faces
    ensures faces[..index + 3] == old(faces[..index]) + [p, k, p]
  {
    faces[index] := p;
    faces[index + 1] := k;
    faces[index + 2] := p;
  }

  // The normal of three points becomes normal k.
  method SetNormal<F>(normal: Normal<F>, points: array<F>, a: nat, b: nat, c: nat, normals: array<F>, k: nat)
    requires 3 * a + 3 <= points.Length && 3 * b + 3 <= points.Length && 3 * c + 3 <= points.Length
    requires 3 * k + 3 <= normals.Length && points != normals
    modifies normals
    ensures normals[..3 * (k + 1)] == old(normals[..3 * k]) + NormalOf(normal, points[..], a, b, c)
  {
    var ii := a * 3;
    var p0 := Vec(points[ii], points[ii + 1], points[ii + 2]);
    ii := b * 3;
    var p1 := Vec(points[ii], points[ii + 1], points[ii + 2]);
    ii := c * 3;
    var p2 := Vec(points[ii], points[ii + 1], points[ii + 2]);
    var n := normal(p0, p1, p2);
    var normalIndex := k * 3;
    normals[normalIndex] := n.x;
    normals[normalIndex + 1] := n.y;
    normals[normalIndex + 2] := n.z;
  }

  // ---------- Recomputing ----------

  // A new function value: points and normals become those of a mesh that is built with it. The
  // three normal indices of every face agree.
  method ComputeMesh<F>(mesh: TriangleMesh<F>, c: Coords<F>, normal: Normal<F>, subDivX: nat, subDivY: nat)
    requires |mesh.points| == 3 * Size(subDivX + 1, subDivY + 1)
    requires |mesh.normals| == 6 * Size(subDivX, subDivY)
    requires mesh.faces == AllFaces(subDivX, subDivY)
    modifies mesh
    ensures mesh.points == Points(c, subDivX + 1, Size(subDivX + 1, subDivY + 1))
    ensures mesh.normals == AllNormals(normal, mesh.points, subDivX, subDivY)
    ensures mesh.texCoords == old(mesh.texCoords) && mesh.faces == old(mesh.faces)
  {
    hide Size, Points, Faces, Normals, Corner, NormalOf;
    var points := new F[|mesh.points|](i requires 0 <= i < |mesh.points| reads mesh => mesh.points[i]);
    var normals := new F[|mesh.normals|](i requires 0 <= i < |mesh.normals| reads mesh => mesh.normals[i]);
    var faces := mesh.faces;
    FillPoints(c, subDivX, subDivY, points);
    mesh.points := points[..];
    ghost var ps := points[..];
    NoTriangles(normal, ps, subDivX, subDivY);
    var index := 0;
    ghost var k := 0;
    while index < |faces|
      invariant index == 9 * k <= |faces|
      invariant points[..] == ps == mesh.points
      invariant mesh.texCoords == old(mesh.texCoords) && mesh.faces == faces
      invariant subDivX > 0 ==> normals[..3 * k] == Normals(normal, ps, subDivX, subDivY, k)
    {
      NormalIndicesAgree(subDivX, subDivY, k);
      NextTriangle(normal, ps, subDivX, subDivY, k);
      assert faces[index + 1] == faces[index + 4] && faces[index + 1] == faces[index + 7];
      SetNormal(normal, points, faces[index], faces[index + 3], faces[index + 6], normals, faces[index + 1]);
      index, k := index + 9, k + 1;
    }
    mesh.normals := normals[..];
  }
}
