/**
 The triangulated grid of the mesh viewers: cols by rows quads of two triangles each, and the
 points at their corners. The triangles form a consistently oriented surface.
 */
module MeshGrid {
  import opened Division

  // ---------- Rows and columns ----------

  // The row and the column of the i-th element where m stand in a row.
  function Row(m: nat, i: nat): nat
    requires m > 0
  {
    i / m
  }

  function Col(m: nat, i: nat): (x: nat)
    requires m > 0
    ensures x < m
  {
    i % m
  }

  function Size(m: nat, rows: nat): nat {
    m * rows
  }

  // The next element of a row, or the first of the next row.
  lemma NextInRows(m: nat, i: nat)
    requires m > 0
    ensures if Col(m, i) == m - 1 then Row(m, i + 1) == Row(m, i) + 1 && Col(m, i + 1) == 0
            else Row(m, i + 1) == Row(m, i) && Col(m, i + 1) == Col(m, i) + 1
  {
    var y, x := i / m, i % m;
    assert i == y * m + x;
    if x == m - 1 {
      assert i + 1 == (y + 1) * m + 0;
      Quotient(y + 1, m, 0);
    } else {
      Quotient(y, m, x + 1);
    }
  }

  lemma NextRow(m: nat, i: nat)
    requires m > 0
    ensures Row(m, i + m) == Row(m, i) + 1 && Col(m, i + m) == Col(m, i)
  {
    assert i + m == (i / m + 1) * m + i % m;
    Quotient(i / m + 1, m, i % m);
  }

  lemma {:induction false} RowsGrow(m: nat, a: nat, b: nat)
    requires a <= b && m > 0
    ensures Row(m, a) <= Row(m, b)
    decreases b - a
  {
    hide Row, Col;
    if a < b {
      NextInRows(m, b - 1);
      RowsGrow(m, a, b - 1);
    }
  }

  lemma {:induction false} SizeIsRows(m: nat, rows: nat, i: nat)
    requires m > 0
    ensures i < Size(m, rows) <==> Row(m, i) < rows
  {
    assert i == i / m * m + i % m;
    if i / m < rows {
      assert (rows - 1 - i / m) * m >= 0;
    } else {
      assert (i / m - rows) * m >= 0;
    }
  }

  lemma AboveFirst(m: nat, i: nat)
    requires m > 0 && Row(m, i) > 0
    ensures i >= m
  {
    assert i == i / m * m + i % m;
    assert (i / m - 1) * m >= 0;
  }

  lemma NotFirst(m: nat, i: nat)
    requires m > 0 && Col(m, i) > 0
    ensures i > 0
  {
    if i == 0 {
      Quotient(0, m, 0);
    }
  }

  // ---------- Triangles ----------

  // The corner of a quad at which the source's indices begin: y * (cols + 1) + x.
  function Origin(cols: nat, q: nat): nat
    requires cols > 0
  {
    Row(cols, q) * (cols + 1) + Col(cols, q)
  }

  // The corners of a triangle in order: two triangles to a quad.
  function Corner(cols: nat, k: nat, i: nat): nat
    requires cols > 0 && i < 3
  {
    var p00 := Origin(cols, k / 2);
    if k % 2 == 0 then
      if i == 0 then p00 else if i == 1 then p00 + cols + 1 else p00 + cols + 2
    else
      if i == 0 then p00 + cols + 2 else if i == 1 then p00 + 1 else p00
  }

  function Successor(i: nat): nat
    requires i < 3
  {
    if i == 2 then 0 else i + 1
  }

  // A side of a triangle of the grid, as the points it goes from and to.
  predicate IsSide(cols: nat, rows: nat, k: nat, i: nat, from: nat, to: nat)
    requires cols > 0
  {
    k / 2 < Size(cols, rows) && i < 3 && Corner(cols, k, i) == from && Corner(cols, k, Successor(i)) == to
  }

  // The origin is beyond the number of the quad by its row, since rows of points are longer.
  lemma OriginIsShifted(cols: nat, q: nat)
    requires cols > 0
    ensures Origin(cols, q) == q + Row(cols, q)
  {
    assert q == q / cols * cols + q % cols;
  }

  lemma OriginGrows(cols: nat, a: nat, b: nat)
    requires cols > 0 && a < b
    ensures Origin(cols, a) < Origin(cols, b)
  {
    hide Origin, Row;
    OriginIsShifted(cols, a);
    OriginIsShifted(cols, b);
    RowsGrow(cols, a, b);
  }

  // Where the four corners of a quad are among the points.
  lemma CornerPlaces(cols: nat, q: nat)
    requires cols > 0
    ensures var p, w, x, y := Origin(cols, q), cols + 1, Col(cols, q), Row(cols, q);
            && Row(w, p) == y && Col(w, p) == x && Row(w, p + 1) == y && Col(w, p + 1) == x + 1
            && Row(w, p + w) == y + 1 && Col(w, p + w) == x
            && Row(w, p + w + 1) == y + 1 && Col(w, p + w + 1) == x + 1
  {
    var x, y, w := Col(cols, q), Row(cols, q), cols + 1;
    Quotient(y, w, x);
    Quotient(y, w, x + 1);
    assert (y + 1) * w == y * w + w;
    Quotient(y + 1, w, x);
    Quotient(y + 1, w, x + 1);
  }

  // The corners of the two triangles of a quad.
  lemma QuadCorners(cols: nat, q: nat)
    requires cols > 0
    ensures var p := Origin(cols, q);
            && Corner(cols, 2 * q, 0) == p && Corner(cols, 2 * q, 1) == p + cols + 1 && Corner(cols, 2 * q, 2) == p + cols + 2
            && Corner(cols, 2 * q + 1, 0) == p + cols + 2 && Corner(cols, 2 * q + 1, 1) == p + 1 && Corner(cols, 2 * q + 1, 2) == p
  {
    hide Origin;
  }

  // Where in the grid the corners of the triangles of the quad in column x and row y are: the first
  // triangle goes down the left side and along the bottom, the second up the right side and back.
  lemma TrianglePlaces(cols: nat, x: nat, y: nat)
    requires x < cols
    ensures var w, k := cols + 1, 2 * (Size(cols, y) + x);
            && PlaceIs(w, Corner(cols, k, 0), x, y)
            && PlaceIs(w, Corner(cols, k, 1), x, y + 1)
            && PlaceIs(w, Corner(cols, k, 2), x + 1, y + 1)
            && PlaceIs(w, Corner(cols, k + 1, 0), x + 1, y + 1)
            && PlaceIs(w, Corner(cols, k + 1, 1), x + 1, y)
            && PlaceIs(w, Corner(cols, k + 1, 2), x, y)
  {
    hide Origin, Row, Col, Size;
    var q := Size(cols, y) + x;
    PlaceOf(cols, y, x);
    CornerPlaces(cols, q);
    QuadCorners(cols, q);
  }

  predicate PlaceIs(w: nat, p: nat, x: nat, y: nat)
    requires w > 0
  {
    Col(w, p) == x && Row(w, p) == y
  }

  // All corners are points of the grid.
  lemma CornersInRange(cols: nat, rows: nat, k: nat, i: nat)
    requires cols > 0 && k / 2 < Size(cols, rows) && i < 3
    ensures Corner(cols, k, i) < Size(cols + 1, rows + 1)
  {
    hide Origin, Row, Col, Size;
    SizeIsRows(cols, rows, k / 2);
    CornerPlaces(cols, k / 2);
    SizeIsRows(cols + 1, rows + 1, Corner(cols, k, i));
  }

  // No side occurs twice in the same direction.
  lemma NoSideTwice(cols: nat, rows: nat, k: nat, i: nat, k': nat, i': nat, from: nat, to: nat)
    requires cols > 0
    requires IsSide(cols, rows, k, i, from, to) && IsSide(cols, rows, k', i', from, to)
    ensures k == k' && i == i'
  {
    hide Origin, Size;
    var q, q' := k / 2, k' / 2;
    if q < q' {
      OriginGrows(cols, q, q');
    } else if q' < q {
      OriginGrows(cols, q', q);
    }
  }

  // ---------- The border ----------

  // Both ends are in the first or last column, or in the first or last row, of the points.
  predicate OnBorder(cols: nat, rows: nat, from: nat, to: nat) {
    var w := cols + 1;
    || (Col(w, from) == Col(w, to) == 0) || (Col(w, from) == Col(w, to) == cols)
    || (Row(w, from) == Row(w, to) == 0) || (Row(w, from) == Row(w, to) == rows)
  }

  // The triangle and the side with the opposite direction: in the quad to the left, below, the
  // same, to the right, above.
  function Across(cols: nat, k: nat, i: nat): (int, nat)
    requires i < 3
  {
    if k % 2 == 0 then
      if i == 0 then (k - 1, 0) else if i == 1 then (k + 2 * cols + 1, 1) else (k + 1, 2)
    else
      if i == 0 then (k + 1, 0) else if i == 1 then (k - 2 * cols - 1, 1) else (k - 1, 2)
  }

  lemma AcrossIsOpposite(cols: nat, rows: nat, k: nat, i: nat, from: nat, to: nat)
    requires cols > 0 && IsSide(cols, rows, k, i, from, to) && !OnBorder(cols, rows, from, to)
    ensures Across(cols, k, i).0 >= 0 && IsSide(cols, rows, Across(cols, k, i).0, Across(cols, k, i).1, to, from)
  {
    hide Origin, Row, Col, Size;
    var q := k / 2;
    CornerPlaces(cols, q);
    OriginIsShifted(cols, q);
    SizeIsRows(cols, rows, q);
    if k % 2 == 0 && i == 0 {
      NotFirst(cols, q);
      NextInRows(cols, q - 1);
      OriginIsShifted(cols, q - 1);
      SizeIsRows(cols, rows, q - 1);
    } else if k % 2 == 0 && i == 1 {
      NextRow(cols, q);
      OriginIsShifted(cols, q + cols);
      SizeIsRows(cols, rows, q + cols);
    } else if k % 2 == 1 && i == 0 {
      NextInRows(cols, q);
      OriginIsShifted(cols, q + 1);
      SizeIsRows(cols, rows, q + 1);
    } else if k % 2 == 1 && i == 1 {
      AboveFirst(cols, q);
      NextRow(cols, q - cols);
      OriginIsShifted(cols, q - cols);
      SizeIsRows(cols, rows, q - cols);
    }
  }

  // A side has an opposite in the mesh exactly if it is not on the border: inner edges occur once
  // in each direction, and border edges once.
  lemma OppositeIffInner(cols: nat, rows: nat, k: nat, i: nat, from: nat, to: nat)
    requires cols > 0 && IsSide(cols, rows, k, i, from, to)
    ensures (exists k': nat, i': nat :: IsSide(cols, rows, k', i', to, from)) <==> !OnBorder(cols, rows, from, to)
  {
    assert i < 3;
    hide IsSide, OnBorder, Across;
    if !OnBorder(cols, rows, from, to) {
      AcrossIsOpposite(cols, rows, k, i, from, to);
      var k': nat, i' := Across(cols, k, i).0, Across(cols, k, i).1;
      assert IsSide(cols, rows, k', i', to, from);
    } else if k', i' :| IsSide(cols, rows, k', i', to, from) {
      BorderHasNone(cols, rows, k, i, k', i', from, to);
    }
  }

  lemma BorderHasNone(cols: nat, rows: nat, k: nat, i: nat, k': nat, i': nat, from: nat, to: nat)
    requires cols > 0 && IsSide(cols, rows, k, i, from, to) && IsSide(cols, rows, k', i', to, from)
    ensures !OnBorder(cols, rows, from, to)
  {
    hide Origin, Row, Col, Size;
    CornerPlaces(cols, k / 2);
    CornerPlaces(cols, k' / 2);
    SizeIsRows(cols, rows, k / 2);
    SizeIsRows(cols, rows, k' / 2);
  }

  // ---------- Points ----------

  // The coordinates of the points, as functions of their column and row.
  datatype Coords<!F> = Coords(x: nat -> F, y: nat -> F, z: (nat, nat) -> F)

  // The first n points, row by row, in a grid of the given number of points a row.
  function Points<F>(c: Coords<F>, w: nat, n: nat): (points: seq<F>)
    requires w > 0
    ensures |points| == 3 * n
  {
    if n == 0 then []
    else
      var x, y := Col(w, n - 1), Row(w, n - 1);
      Points(c, w, n - 1) + [c.x(x), c.y(y), c.z(x, y)]
  }

  // A point has its own coordinates, at the index that the faces use for it.
  lemma {:induction false} PointAt<F>(c: Coords<F>, w: nat, n: nat, p: nat)
    requires w > 0 && p < n
    ensures Points(c, w, n)[3 * p..3 * p + 3] == [c.x(Col(w, p)), c.y(Row(w, p)), c.z(Col(w, p), Row(w, p))]
  {
    hide Row, Col;
    if p < n - 1 {
      PointAt(c, w, n - 1, p);
    }
  }

  // The texture coordinates of the first n points.
  function TexCoords<F>(u: nat -> F, v: nat -> F, w: nat, n: nat): (coords: seq<F>)
    requires w > 0
    ensures |coords| == 2 * n
  {
    if n == 0 then [] else TexCoords(u, v, w, n - 1) + [u(Col(w, n - 1)), v(Row(w, n - 1))]
  }

  lemma {:induction false} TexCoordAt<F>(u: nat -> F, v: nat -> F, w: nat, n: nat, p: nat)
    requires w > 0 && p < n
    ensures TexCoords(u, v, w, n)[2 * p..2 * p + 2] == [u(Col(w, p)), v(Row(w, p))]
  {
    hide Row, Col;
    if p < n - 1 {
      TexCoordAt(u, v, w, n - 1, p);
    }
  }

  lemma PlaceOf(w: nat, y: nat, x: nat)
    requires x < w
    ensures Row(w, Size(w, y) + x) == y && Col(w, Size(w, y) + x) == x
  {
    Quotient(y, w, x);
  }

  lemma OriginOf(cols: nat, y: nat, x: nat)
    requires x < cols
    ensures Origin(cols, Size(cols, y) + x) == Size(cols + 1, y) + x
  {
    PlaceOf(cols, y, x);
  }

  // Where the element in column x of row y begins, if each takes size slots.
  function IndexOf(w: nat, y: nat, x: nat, size: nat): (index: nat)
    ensures index == size * (Size(w, y) + x)
  {
    y * w * size + x * size
  }

  // After y rows there is room for one more, unless they are all.
  lemma RowsFit(w: nat, rows: nat, y: nat)
    requires y <= rows
    ensures Size(w, 0) == 0 && Size(w, y) <= Size(w, rows)
    ensures y < rows ==> Size(w, y + 1) == Size(w, y) + w <= Size(w, rows)
  {
    MoreMultiples(y, rows, w);
    if y < rows {
      MoreMultiples(y + 1, rows, w);
    }
  }

  // The loop that computes the points of a mesh into an array, whatever it held before.
  method FillPoints<F>(c: Coords<F>, cols: nat, rows: nat, points: array<F>)
    requires points.Length == 3 * Size(cols + 1, rows + 1)
    modifies points
    ensures points[..] == Points(c, cols + 1, Size(cols + 1, rows + 1))
  {
    hide Row, Col, Size, IndexOf, Points;
    var numDivX := cols + 1;
    RowsFit(numDivX, rows + 1, 0);
    NextPoint(c, numDivX, 0);
    for y := 0 to rows + 1
      invariant Size(numDivX, y) <= Size(numDivX, rows + 1)
      invariant points[..3 * Size(numDivX, y)] == Points(c, numDivX, Size(numDivX, y))
    {
      RowsFit(numDivX, rows + 1, y);
      ghost var n := Size(numDivX, y);
      for x := 0 to cols + 1
        invariant n == Size(numDivX, y) + x
        invariant points[..3 * n] == Points(c, numDivX, n)
      {
        PlaceOf(numDivX, y, x);
        var index := IndexOf(numDivX, y, x, 3);
        NextPoint(c, numDivX, n);
        SetPoint(points, index, c.x(x), c.y(y), c.z(x, y));
        n := n + 1;
      }
    }
  }

  lemma NextPoint<F>(c: Coords<F>, w: nat, n: nat)
    requires w > 0
    ensures Points(c, w, 0) == []
    ensures Points(c, w, n + 1) == Points(c, w, n) + [c.x(Col(w, n)), c.y(Row(w, n)), c.z(Col(w, n), Row(w, n))]
  {
  }

  method SetPoint<F>(points: array<F>, index: nat, x: F, y: F, z: F)
    requires index + 3 <= points.Length
    modifies points
    ensures points[..index + 3] == old(points[..index]) + [x, y, z]
    ensures points[index + 3..] == old(points[index + 3..])
  {
    points[index] := x;
    points[index + 1] := y;
    points[index + 2] := z;
  }

  method FillTexCoords<F>(u: nat -> F, v: nat -> F, cols: nat, rows: nat, coords: array<F>)
    requires coords.Length == 2 * Size(cols + 1, rows + 1)
    modifies coords
    ensures coords[..] == TexCoords(u, v, cols + 1, Size(cols + 1, rows + 1))
  {
    hide Row, Col, Size, IndexOf, TexCoords;
    var numDivX := cols + 1;
    RowsFit(numDivX, rows + 1, 0);
    NextTexCoord(u, v, numDivX, 0);
    for y := 0 to rows + 1
      invariant Size(numDivX, y) <= Size(numDivX, rows + 1)
      invariant coords[..2 * Size(numDivX, y)] == TexCoords(u, v, numDivX, Size(numDivX, y))
    {
      RowsFit(numDivX, rows + 1, y);
      ghost var n := Size(numDivX, y);
      for x := 0 to cols + 1
        invariant n == Size(numDivX, y) + x
        invariant coords[..2 * n] == TexCoords(u, v, numDivX, n)
      {
        PlaceOf(numDivX, y, x);
        var index := IndexOf(numDivX, y, x, 2);
        NextTexCoord(u, v, numDivX, n);
        SetTexCoord(coords, index, u(x), v(y));
        n := n + 1;
      }
    }
  }

  lemma NextTexCoord<F>(u: nat -> F, v: nat -> F, w: nat, n: nat)
    requires w > 0
    ensures TexCoords(u, v, w, 0) == []
    ensures TexCoords(u, v, w, n + 1) == TexCoords(u, v, w, n) + [u(Col(w, n)), v(Row(w, n))]
  {
  }

  method SetTexCoord<F>(coords: array<F>, index: nat, u: F, v: F)
    requires index + 2 <= coords.Length
    modifies coords
    ensures coords[..index + 2] == old(coords[..index]) + [u, v]
  {
    coords[index] := u;
    coords[index + 1] := v;
  }
}
