/**
 The character grid shown by the terminal: cells in document order, the line and
 column reached after a run of cells, and the rows the cells fall into.
 */
module Grid {

  // A character together with the `style` attributes of its enclosing spans,
  // outermost first ("" for a span without one).
  datatype Cell = Cell(ch: char, path: seq<string>)

  // 0-origin, relative to the start of cursorHome.
  datatype Pos = Pos(line: int, col: int)

  const ZERO_WIDTH_SPACE: char := '\U{200B}'
  const FORM_FEED: char := '\U{0C}'
  const ORIGIN := Pos(0, 0)

  function NextTabCol(col: int): int {
    (col / 8) * 8 + 8
  }

  // The next tab stop: a multiple of eight behind the column, with none between.
  lemma TabStops(col: nat, stop: int)
    ensures col < NextTabCol(col) && NextTabCol(col) % 8 == 0
    ensures col < stop && stop % 8 == 0 ==> NextTabCol(col) <= stop
  {
  }

  function CharColumns(ch: char): nat {
    if ch == ZERO_WIDTH_SPACE then 0 else 1
  }

  // Column state after one more character; -1 after a character that ends the row.
  function UpdateColumn(ch: char, col: int): int {
    if ch == '\n' || ch == '\r' || ch == FORM_FEED then -1
    else if ch == '\t' then NextTabCol(col)
    else col + CharColumns(ch)
  }

  // The characters the terminal itself ever stores in the document.
  predicate Plain(ch: char) {
    ch != '\r' && ch != '\t' && ch != FORM_FEED
  }

  ghost predicate AllPlain(cs: seq<Cell>) {
    forall i :: 0 <= i < |cs| ==> Plain(cs[i].ch)
  }

  function Advance(p: Pos, ch: char): Pos {
    if ch == '\n' then Pos(p.line + 1, 0) else Pos(p.line, p.col + CharColumns(ch))
  }

  // The recount: the position reached from `p` after the cells `cs`.
  function RecountFrom(p: Pos, cs: seq<Cell>): Pos
    decreases |cs|
  {
    if cs == [] then p else Advance(RecountFrom(p, cs[..|cs| - 1]), cs[|cs| - 1].ch)
  }

  function Recount(cs: seq<Cell>): (p: Pos)
    ensures p.line >= 0 && p.col >= 0
  {
    RecountMonotone(ORIGIN, cs);
    RecountFrom(ORIGIN, cs)
  }

  lemma {:induction false} RecountConcat(p: Pos, a: seq<Cell>, b: seq<Cell>)
    ensures RecountFrom(p, a + b) == RecountFrom(RecountFrom(p, a), b)
    decreases |b|
  {
    if b == [] {
      assert a + b == a;
    } else {
      assert (a + b)[..|a + b| - 1] == a + b[..|b| - 1];
      RecountConcat(p, a, b[..|b| - 1]);
    }
  }

  lemma RecountNil(p: Pos)
    ensures RecountFrom(p, []) == p
  {
  }

  lemma RecountSnoc(p: Pos, a: seq<Cell>, c: Cell)
    ensures RecountFrom(p, a + [c]) == Advance(RecountFrom(p, a), c.ch)
  {
    assert (a + [c])[..|a + [c]| - 1] == a;
  }

  // Cells carrying the characters of `s`, all enclosed by the same spans.
  function CellsOf(s: string, path: seq<string>): (cs: seq<Cell>)
    ensures |cs| == |s|
    ensures forall i :: 0 <= i < |s| ==> cs[i] == Cell(s[i], path)
  {
    seq(|s|, i requires 0 <= i < |s| => Cell(s[i], path))
  }

  lemma CellsOfConcat(s: string, t: string, path: seq<string>)
    ensures CellsOf(s + t, path) == CellsOf(s, path) + CellsOf(t, path)
  {
  }

  lemma CellsOfSplit(s: string, k: nat, path: seq<string>)
    requires k <= |s|
    ensures CellsOf(s, path) == CellsOf(s[..k], path) + CellsOf(s[k..], path)
    ensures CellsOf(s, path)[..k] == CellsOf(s[..k], path)
    ensures CellsOf(s, path)[k..] == CellsOf(s[k..], path)
  {
  }

  // makeSpaces and the newline builders: nothing for a count that is not positive.
  function Repeat(ch: char, n: int): (s: string)
    ensures |s| == if n < 0 then 0 else n
    ensures forall i :: 0 <= i < |s| ==> s[i] == ch
  {
    seq(if n < 0 then 0 else n, _ => ch)
  }

  lemma {:induction false} RecountSpaces(p: Pos, n: nat, path: seq<string>)
    ensures RecountFrom(p, CellsOf(Repeat(' ', n), path)) == Pos(p.line, p.col + n)
    decreases n
  {
    if n > 0 {
      RecountSpaces(p, n - 1, path);
      assert CellsOf(Repeat(' ', n), path)[..n - 1] == CellsOf(Repeat(' ', n - 1), path);
    }
  }

  lemma {:induction false} RecountNewlines(p: Pos, n: nat, path: seq<string>)
    ensures RecountFrom(p, CellsOf(Repeat('\n', n), path)) == if n == 0 then p else Pos(p.line + n, 0)
    decreases n
  {
    if n > 0 {
      RecountNewlines(p, n - 1, path);
      assert CellsOf(Repeat('\n', n), path)[..n - 1] == CellsOf(Repeat('\n', n - 1), path);
    }
  }

  predicate AtOrBefore(p: Pos, q: Pos) {
    p.line < q.line || (p.line == q.line && p.col <= q.col)
  }

  // Recounting never moves backwards, so a longer prefix is at or after a shorter one.
  lemma {:induction false} RecountMonotone(p: Pos, cs: seq<Cell>)
    requires p.col >= 0
    ensures AtOrBefore(p, RecountFrom(p, cs))
    ensures RecountFrom(p, cs).col >= 0
    decreases |cs|
  {
    if cs != [] {
      RecountMonotone(p, cs[..|cs| - 1]);
    }
  }

  lemma NextPlace(cs: seq<Cell>, k: nat)
    requires k < |cs|
    ensures Recount(cs[..k + 1]) == Advance(Recount(cs[..k]), cs[k].ch)
  {
    assert cs[..k + 1] == cs[..k] + [cs[k]];
  }

  lemma Between(cs: seq<Cell>, j: nat, k: nat)
    requires j <= k <= |cs|
    ensures AtOrBefore(Recount(cs[..j]), Recount(cs[..k]))
    ensures Recount(cs[..j]).line >= 0 && Recount(cs[..j]).col >= 0
  {
    hide RecountFrom;
    assert cs[..k] == cs[..j] + cs[j..k];
    RecountConcat(ORIGIN, cs[..j], cs[j..k]);
    RecountMonotone(ORIGIN, cs[..j]);
    RecountMonotone(Recount(cs[..j]), cs[j..k]);
  }

  predicate OneColumn(cs: seq<Cell>) {
    forall i :: 0 <= i < |cs| ==> cs[i].ch != ZERO_WIDTH_SPACE
  }

  // Where every character has a column, columns are places.
  lemma {:induction false} OneColumnColumns(cs: seq<Cell>)
    requires OneColumn(cs)
    ensures Columns(Chars(cs)) == |cs|
    decreases |cs|
  {
    if cs != [] {
      ColumnsSnoc(cs[..|cs| - 1], cs[|cs| - 1]);
      OneColumnColumns(cs[..|cs| - 1]);
      assert cs == cs[..|cs| - 1] + [cs[|cs| - 1]];
    }
  }

  lemma ColumnsSnoc(cs: seq<Cell>, c: Cell)
    ensures Columns(Chars(cs + [c])) == Columns(Chars(cs)) + CharColumns(c.ch)
  {
    var text := Chars(cs + [c]);
    assert text[..|text| - 1] == Chars(cs);
  }

  lemma ColumnsOfConcat(a: seq<Cell>, b: seq<Cell>)
    ensures Columns(Chars(a + b)) == Columns(Chars(a)) + Columns(Chars(b))
  {
    assert Chars(a + b) == Chars(a) + Chars(b);
    ColumnsConcat(Chars(a), Chars(b));
  }

  // Without zero-width characters a position names at most one place in the cells.
  lemma PlaceUnique(cs: seq<Cell>, i: nat, j: nat)
    requires OneColumn(cs) && i <= |cs| && j <= |cs|
    requires Recount(cs[..i]) == Recount(cs[..j])
    ensures i == j
  {
    if i < j {
      StrictlyLater(cs, i, j);
    } else if j < i {
      StrictlyLater(cs, j, i);
    }
  }

  lemma StrictlyLater(cs: seq<Cell>, i: nat, j: nat)
    requires OneColumn(cs) && i < j <= |cs|
    ensures AtOrBefore(Recount(cs[..i]), Recount(cs[..j])) && Recount(cs[..i]) != Recount(cs[..j])
  {
    hide RecountFrom;
    NextPlace(cs, i);
    Between(cs, i + 1, j);
  }

  // ---------- Text ----------

  // The characters of a run of cells.
  function Chars(cs: seq<Cell>): (s: string)
    ensures |s| == |cs| && forall i :: 0 <= i < |s| ==> s[i] == cs[i].ch
  {
    seq(|cs|, i requires 0 <= i < |cs| => cs[i].ch)
  }

  lemma CharsOfText(a: seq<Cell>, s: string, path: seq<string>)
    ensures Chars(a + CellsOf(s, path)) == Chars(a) + s
  {
  }

  function Columns(text: string): nat {
    if text == "" then 0 else Columns(text[..|text| - 1]) + CharColumns(text[|text| - 1])
  }

  predicate InRow(text: string) {
    forall i :: 0 <= i < |text| ==> text[i] != '\n'
  }

  lemma {:induction false} InRowRecount(text: string, p: Pos, path: seq<string>)
    requires InRow(text)
    ensures RecountFrom(p, CellsOf(text, path)) == Pos(p.line, p.col + Columns(text))
    decreases |text|
  {
    if text != "" {
      var front, cs := text[..|text| - 1], CellsOf(text, path);
      assert cs[..|cs| - 1] == CellsOf(front, path);
      InRowRecount(front, p, path);
    }
  }

  lemma {:induction false} ColumnsConcat(s: string, t: string)
    ensures Columns(s + t) == Columns(s) + Columns(t)
    decreases |t|
  {
    if t == "" {
      assert s + t == s;
    } else {
      assert (s + t)[..|s + t| - 1] == s + t[..|t| - 1];
      ColumnsConcat(s, t[..|t| - 1]);
    }
  }

  lemma NoColumns()
    ensures Columns("") == 0
  {
  }

  lemma OneCharacter(ch: char)
    ensures Columns([ch]) == CharColumns(ch)
  {
    assert [ch][..0] == "";
  }

  // ---------- Rows ----------

  // The rows of the grid; a newline ends a row and belongs to none.
  function Rows(cs: seq<Cell>): (rows: seq<seq<Cell>>)
    ensures |rows| >= 1
    decreases |cs|
  {
    if cs == [] then [[]]
    else
      var rows := Rows(cs[..|cs| - 1]);
      var c := cs[|cs| - 1];
      if c.ch == '\n' then rows + [[]] else Widen(rows, c)
  }

  // `c` added at the right end of the last row.
  function Widen(rows: seq<seq<Cell>>, c: Cell): (r: seq<seq<Cell>>)
    requires |rows| > 0
    ensures |r| == |rows| && Last(r) == Last(rows) + [c]
  {
    rows[..|rows| - 1] + [Last(rows) + [c]]
  }

  function Last<T>(s: seq<T>): T
    requires |s| > 0
  {
    s[|s| - 1]
  }

  // Two stretches of rows meeting in the middle of a row.
  function Join(r: seq<seq<Cell>>, s: seq<seq<Cell>>): (t: seq<seq<Cell>>)
    requires |r| > 0 && |s| > 0
    ensures |t| == |r| + |s| - 1
  {
    r[..|r| - 1] + [Last(r) + s[0]] + s[1..]
  }

  lemma JoinWiden(r: seq<seq<Cell>>, s: seq<seq<Cell>>, c: Cell)
    requires |r| > 0 && |s| > 0
    ensures Join(r, Widen(s, c)) == Widen(Join(r, s), c)
  {
    var t, u := Join(r, Widen(s, c)), Widen(Join(r, s), c);
    if |s| == 1 {
      assert Last(r) + (s[0] + [c]) == Last(r) + s[0] + [c];
    } else {
      assert Last(Join(r, s)) == Last(s);
    }
    assert forall i :: 0 <= i < |t| ==> t[i] == u[i];
  }

  lemma {:induction false} RowsConcat(a: seq<Cell>, b: seq<Cell>)
    ensures Rows(a + b) == Join(Rows(a), Rows(b))
    decreases |b|
  {
    if b == [] {
      assert a + b == a;
      assert Last(Rows(a)) + [] == Last(Rows(a));
    } else {
      var b', c := b[..|b| - 1], b[|b| - 1];
      assert (a + b)[..|a + b| - 1] == a + b';
      RowsConcat(a, b');
      if c.ch != '\n' {
        JoinWiden(Rows(a), Rows(b'), c);
      }
    }
  }

  // The recount read off the rows: the line is the number of rows before the last one.
  // The column is that of the last row.
  lemma {:induction false} RowsRecount(cs: seq<Cell>)
    ensures Recount(cs).line == |Rows(cs)| - 1
    ensures Recount(cs).col == Columns(Chars(Last(Rows(cs))))
    decreases |cs|
  {
    if cs != [] {
      var front, c := cs[..|cs| - 1], cs[|cs| - 1];
      RowsRecount(front);
      if c.ch != '\n' {
        ColumnsSnoc(Last(Rows(front)), c);
      }
    }
  }

  lemma {:induction false} RowsOneLine(cs: seq<Cell>)
    requires forall i :: 0 <= i < |cs| ==> cs[i].ch != '\n'
    ensures Rows(cs) == [cs]
    decreases |cs|
  {
    if cs != [] {
      RowsOneLine(cs[..|cs| - 1]);
      assert cs == cs[..|cs| - 1] + [cs[|cs| - 1]];
    }
  }

  // `n` blank rows.
  function Blanks(n: nat): (rows: seq<seq<Cell>>)
    ensures |rows| == n
  {
    seq(n, _ => [])
  }

  lemma {:induction false} RowsNewlines(n: nat, path: seq<string>)
    ensures Rows(CellsOf(Repeat('\n', n), path)) == Blanks(n + 1)
    decreases n
  {
    if n > 0 {
      RowsNewlines(n - 1, path);
      assert CellsOf(Repeat('\n', n), path)[..n - 1] == CellsOf(Repeat('\n', n - 1), path);
    }
  }

  lemma CharsOfCells(str: string, path: seq<string>)
    ensures Chars(CellsOf(str, path)) == str
  {
  }

  lemma NewColumn(left: seq<Cell>, str: string, path: seq<string>)
    requires InRow(str)
    ensures Recount(left + CellsOf(str, path)) == Pos(Recount(left).line, Recount(left).col + Columns(str))
  {
    InRowRecount(str, Recount(left), path);
    RecountConcat(ORIGIN, left, CellsOf(str, path));
  }

  lemma NoText()
    ensures forall path :: CellsOf("", path) == []
  {
  }

  lemma PlainInsert(a: seq<Cell>, more: seq<Cell>, b: seq<Cell>)
    requires AllPlain(a + b) && AllPlain(more)
    ensures AllPlain(a + more + b)
  {
    forall i | 0 <= i < |a + more + b|
      ensures Plain((a + more + b)[i].ch)
    {
      if i < |a| {
        assert (a + more + b)[i] == (a + b)[i];
      } else if i >= |a| + |more| {
        assert (a + more + b)[i] == (a + b)[i - |more|];
      }
    }
  }

  lemma PlainWithout(a: seq<Cell>, c: Cell, b: seq<Cell>)
    requires AllPlain(a + ([c] + b))
    ensures AllPlain(a + b)
  {
    var whole := a + ([c] + b);
    forall i | 0 <= i < |a + b|
      ensures Plain((a + b)[i].ch)
    {
      assert (a + b)[i] == if i < |a| then whole[i] else whole[i + 1];
    }
  }

  lemma NothingAt()
    ensures Recount([]) == ORIGIN
  {
  }
}
