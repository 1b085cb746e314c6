/**
 The mesh of the plain viewer: faces of three point and three texture indices.
 */
module MeshViewer {
  import opened MeshGrid

  class TriangleMesh<F> {
    var points: seq<F>
    var texCoords: seq<F>
    var faces: seq<int>

    constructor (points: seq<F>, texCoords: seq<F>, faces: seq<int>)
      ensures this.points == points && this.texCoords == texCoords && this.faces == faces
    {
      this.points, this.texCoords, this.faces := points, texCoords, faces;
    }
  }

  // The first k faces: the corners of a triangle, each with the texture coordinate of its point.
  function Faces(cols: nat, k: nat): (faces: seq<int>)
    requires cols > 0
    ensures |faces| == 6 * k
  {
    if k == 0 then [] else Faces(cols, k - 1) + Face(Corner(cols, k - 1, 0), Corner(cols, k - 1, 1), Corner(cols, k - 1, 2))
  }

  function Face(a: nat, b: nat, c: nat): seq<int> {
    [a, a, b, b, c, c]
  }

  // The faces of a whole mesh; there are none without columns.
  function AllFaces(cols: nat, rows: nat): seq<int> {
    if cols == 0 then [] else Faces(cols, 2 * Size(cols, rows))
  }

  lemma {:induction false} FaceAt(cols: nat, n: nat, k: nat)
    requires cols > 0 && k < n
    ensures Faces(cols, n)[6 * k..6 * k + 6] == Face(Corner(cols, k, 0), Corner(cols, k, 1), Corner(cols, k, 2))
  {
    hide Corner;
    if k < n - 1 {
      FaceAt(cols, n - 1, k);
    }
  }

  // Every corner of a face has the texture coordinate of its own point.
  lemma TextureIndicesAgree(cols: nat, rows: nat, k: nat, i: nat)
    requires cols > 0 && k < 2 * Size(cols, rows) && i < 3
    ensures var faces := AllFaces(cols, rows);
            && |faces| == 12 * Size(cols, rows)
            && faces[6 * k + 2 * i] == faces[6 * k + 2 * i + 1] == Corner(cols, k, i)
    ensures Corner(cols, k, i) < Size(cols + 1, rows + 1)
  {
    hide Corner, Size;
    FaceAt(cols, 2 * Size(cols, rows), k);
    var faces := AllFaces(cols, rows);
    var face := faces[6 * k..6 * k + 6];
    assert face[2 * i] == faces[6 * k + 2 * i] && face[2 * i + 1] == faces[6 * k + 2 * i + 1];
    CornersInRange(cols, rows, k, i);
  }

  // What a built mesh shows at the i-th corner of face k: the point computed for the column and the
  // row of that corner, and the texture coordinate of that column and row.
  lemma CornerShown<F>(c: Coords<F>, u: nat -> F, v: nat -> F, cols: nat, rows: nat, k: nat, i: nat)
    requires cols > 0 && k < 2 * Size(cols, rows) && i < 3
    ensures var faces, w, n := AllFaces(cols, rows), cols + 1, Size(cols + 1, rows + 1);
            && |faces| == 12 * Size(cols, rows)
            && var x, y := Col(w, Corner(cols, k, i)), Row(w, Corner(cols, k, i));
               var point, texture := faces[6 * k + 2 * i], faces[6 * k + 2 * i + 1];
               && 0 <= point < n && 0 <= texture < n
               && Points(c, w, n)[3 * point..3 * point + 3] == [c.x(x), c.y(y), c.z(x, y)]
               && TexCoords(u, v, w, n)[2 * texture..2 * texture + 2] == [u(x), v(y)]
  {
    hide Corner, Size, Row, Col, AllFaces, Points, TexCoords;
    TextureIndicesAgree(cols, rows, k, i);
    PointAt(c, cols + 1, Size(cols + 1, rows + 1), Corner(cols, k, i));
    TexCoordAt(u, v, cols + 1, Size(cols + 1, rows + 1), Corner(cols, k, i));
  }

  // ---------- The surface ----------

  // Face k has a side from one point to another: its i-th corner and the one after it.
  predicate FaceHasSide(faces: seq<int>, k: nat, i: nat, from: int, to: int) {
    i < 3 && 6 * k + 6 <= |faces| && faces[6 * k + 2 * i] == from && faces[6 * k + 2 * Successor(i)] == to
  }

  lemma SideOfFace(cols: nat, rows: nat, k: nat, i: nat, from: int, to: int)
    requires cols > 0
    ensures FaceHasSide(AllFaces(cols, rows), k, i, from, to) <==>
            from >= 0 && to >= 0 && IsSide(cols, rows, k, i, from, to)
  {
    hide Corner, Size;
    var n, faces := 2 * Size(cols, rows), AllFaces(cols, rows);
    if k < n && i < 3 {
      FaceAt(cols, n, k);
      var face := faces[6 * k..6 * k + 6];
      assert face[2 * i] == faces[6 * k + 2 * i] && face[2 * Successor(i)] == faces[6 * k + 2 * Successor(i)];
    }
  }

  // Every index of the faces is that of a point, for any numbers of subdivisions.
  lemma IndicesInRange(cols: nat, rows: nat, s: nat)
    requires s < |AllFaces(cols, rows)|
    ensures 0 <= AllFaces(cols, rows)[s] < Size(cols + 1, rows + 1)
  {
    hide Corner, Size;
    var n, faces, k := 2 * Size(cols, rows), AllFaces(cols, rows), s / 6;
    FaceAt(cols, n, k);
    assert faces[s] == faces[6 * k..6 * k + 6][s - 6 * k];
    CornersInRange(cols, rows, k, 0);
    CornersInRange(cols, rows, k, 1);
    CornersInRange(cols, rows, k, 2);
  }

  // The mesh is consistently oriented: no directed side is in two faces or twice in one.
  lemma NoFaceSideTwice(cols: nat, rows: nat, k: nat, i: nat, k': nat, i': nat, from: nat, to: nat)
    requires FaceHasSide(AllFaces(cols, rows), k, i, from, to) && FaceHasSide(AllFaces(cols, rows), k', i', from, to)
    ensures k' == k && i' == i
  {
    assert cols > 0;
    hide FaceHasSide, IsSide, AllFaces;
    SideOfFace(cols, rows, k, i, from, to);
    SideOfFace(cols, rows, k', i', from, to);
    NoSideTwice(cols, rows, k, i, k', i', from, to);
  }

  // A side is there in the other direction too exactly if it is not on the border of the grid.
  lemma FaceSideOppositeIffInner(cols: nat, rows: nat, k: nat, i: nat, from: nat, to: nat)
    requires FaceHasSide(AllFaces(cols, rows), k, i, from, to)
    ensures (exists k': nat, i': nat :: FaceHasSide(AllFaces(cols, rows), k', i', to, from))
            <==> !OnBorder(cols, rows, from, to)
  {
    assert cols > 0;
    hide FaceHasSide, IsSide, OnBorder, AllFaces;
    SideOfFace(cols, rows, k, i, from, to);
    OppositeIffInner(cols, rows, k, i, from, to);
    forall k': nat, i': nat
      ensures FaceHasSide(AllFaces(cols, rows), k', i', to, from) <==> IsSide(cols, rows, k', i', to, from)
    {
      SideOfFace(cols, rows, k', i', to, from);
    }
  }

  // ---------- Building ----------

  method BuildTriangleMesh<F(0)>(c: Coords<F>, u: nat -> F, v: nat -> F, subDivX: nat, subDivY: nat) returns (mesh: TriangleMesh<F>)
    ensures fresh(mesh)
    ensures var n := Size(subDivX + 1, subDivY + 1);
            && mesh.points == Points(c, subDivX + 1, n)
            && mesh.texCoords == TexCoords(u, v, subDivX + 1, n)
            && mesh.faces == AllFaces(subDivX, subDivY)
  {
    hide Size, Points, TexCoords;
    var numVerts := Size(subDivX + 1, subDivY + 1);
    var points := new F[numVerts * 3];
    var texCoords := new F[numVerts * 2];
    FillPoints(c, subDivX, subDivY, points);
    FillTexCoords(u, v, subDivX, subDivY, texCoords);
    ghost var written;
    var faces;
    faces, written := FillFaces(subDivX, subDivY);
    mesh := new TriangleMesh(points[..], texCoords[..], faces[..]);
  }

  // The first n slots, each once and in order.
  ghost predicate InOrder(written: seq<nat>, n: nat) {
    |written| == n && forall i :: 0 <= i < n ==> written[i] == i
  }

  // The loop that fills the face array, slot by slot; `written` are the slots it has written to.
  method FillFaces(subDivX: nat, subDivY: nat) returns (faces: array<int>, ghost written: seq<nat>)
    ensures fresh(faces) && faces[..] == AllFaces(subDivX, subDivY)
    ensures InOrder(written, faces.Length)
  {
    hide Size, Faces, Origin, Row, Col, IndexOf;
    written := [];
    faces := new int[12 * Size(subDivX, subDivY)];
    RowsFit(subDivX, subDivY, 0);
    NoFaces(subDivX);
    if subDivX == 0 {
      NoColumns(subDivY);
      return;
    }
    for y := 0 to subDivY
      invariant Size(subDivX, y) <= Size(subDivX, subDivY)
      invariant faces[..12 * Size(subDivX, y)] == Faces(subDivX, 2 * Size(subDivX, y))
      invariant InOrder(written, 12 * Size(subDivX, y))
    {
      RowsFit(subDivX, subDivY, y);
      for x := 0 to subDivX
        invariant faces[..12 * (Size(subDivX, y) + x)] == Faces(subDivX, 2 * (Size(subDivX, y) + x))
        invariant InOrder(written, 12 * (Size(subDivX, y) + x))
      {
        OriginOf(subDivX, y, x);
        written := FillQuad(subDivX, IndexOf(subDivX + 1, y, x, 1), IndexOf(subDivX, y, x, 6) * 2, faces,
                            Size(subDivX, y) + x, written);
      }
    }
  }

  // The two triangles of quad q.
  method FillQuad(subDivX: nat, p00: nat, index: nat, faces: array<int>, ghost q: nat, ghost written: seq<nat>)
    returns (ghost written': seq<nat>)
    requires subDivX > 0 && index == 12 * q && index + 12 <= faces.Length && p00 == Origin(subDivX, q)
    requires faces[..index] == Faces(subDivX, 2 * q) && InOrder(written, index)
    modifies faces
    ensures faces[..index + 12] == Faces(subDivX, 2 * (q + 1)) && InOrder(written', index + 12)
  {
    hide Faces, Origin, Corner, Face;
    var numDivX := subDivX + 1;
    QuadCorners(subDivX, q);
    var p01 := p00 + 1;
    var p10 := p00 + numDivX;
    var p11 := p10 + 1;
    TwoFaces(subDivX, q);
    written' := SetFace(faces, index, p00, p10, p11, written);
    written' := SetFace(faces, index + 6, p11, p01, p00, written');
  }

  // faces[index..index + 6], each point with its texture coordinate
  method SetFace(faces: array<int>, index: nat, a: nat, b: nat, c: nat, ghost written: seq<nat>)
    returns (ghost written': seq<nat>)
    requires index + 6 <= faces.Length
    modifies faces
    ensures faces[..index + 6] == old(faces[..index]) + Face(a, b, c)
    ensures faces[index + 6..] == old(faces[index + 6..])
    ensures written' == written + seq(6, i => index + i)
  {
    faces[index], written' := a, written + [index];
    faces[index + 1], written' := a, written' + [index + 1];
    faces[index + 2], written' := b, written' + [index + 2];
    faces[index + 3], written' := b, written' + [index + 3];
    faces[index + 4], written' := c, written' + [index + 4];
    faces[index + 5], written' := c, written' + [index + 5];
  }

  lemma NoFaces(cols: nat)
    ensures cols > 0 ==> Faces(cols, 0) == []
  {
  }

  lemma NoColumns(rows: nat)
    ensures Size(0, rows) == 0
  {
  }

  lemma TwoFaces(cols: nat, q: nat)
    requires cols > 0
    ensures Faces(cols, 2 * (q + 1)) == Faces(cols, 2 * q)
              + Face(Corner(cols, 2 * q, 0), Corner(cols, 2 * q, 1), Corner(cols, 2 * q, 2))
              + Face(Corner(cols, 2 * q + 1, 0), Corner(cols, 2 * q + 1, 1), Corner(cols, 2 * q + 1, 2))
  {
    hide Corner;
    assert 2 * (q + 1) - 1 == 2 * q + 1;
    assert Faces(cols, 2 * q + 1) == Faces(cols, 2 * q) + Face(Corner(cols, 2 * q, 0), Corner(cols, 2 * q, 1), Corner(cols, 2 * q, 2));
  }

  // A new function value: the points are those of a mesh that is built with it.
  method ComputeMesh<F>(mesh: TriangleMesh<F>, c: Coords<F>, subDivX: nat, subDivY: nat)
    requires |mesh.points| == 3 * Size(subDivX + 1, subDivY + 1)
    modifies mesh
    ensures mesh.points == Points(c, subDivX + 1, Size(subDivX + 1, subDivY + 1))
    ensures mesh.texCoords == old(mesh.texCoords) && mesh.faces == old(mesh.faces)
  {
    hide Size, Points;
    var points := new F[|mesh.points|](i requires 0 <= i < |mesh.points| reads mesh => mesh.points[i]);
    FillPoints(c, subDivX, subDivY, points);
    mesh.points := points[..];
  }
}
