/**
 The shape of the screen: how wide its rows are and where the cursor stands, and what every
 operation makes of it.
 */
module Sheets {
  import opened Grid
  import opened Landing
  import opened Erasing
  import opened Wrapping
  import opened Arriving

  datatype Sheet = Sheet(widths: seq<nat>, pos: Pos)

  // The cursor is in a row, not behind its end.
  predicate IsSheet(s: Sheet) {
    0 <= s.pos.line < |s.widths| && 0 <= s.pos.col <= s.widths[s.pos.line]
  }

  // ---------- What the operations do ----------

  // Text of `n` columns typed over the row.
  function Typed(s: Sheet, n: nat): (t: Sheet)
    requires IsSheet(s)
    ensures IsSheet(t)
  {
    var p := Pos(s.pos.line, s.pos.col + n);
    Sheet(s.widths[p.line := Max(s.widths[p.line], p.col)], p)
  }

  // A wrap break: the mark, which has one column, and the rest of the row in a row of its own.
  function Broken(s: Sheet): (t: Sheet)
    requires IsSheet(s)
    ensures IsSheet(t)
  {
    var line, col := s.pos.line, s.pos.col;
    Sheet(s.widths[..line] + [col + 1, s.widths[line] - col] + s.widths[line + 1..], Pos(line + 1, 0))
  }

  // Columns deleted at the cursor, all the rest of the row if the count is negative.
  function Cut(s: Sheet, count: int): (t: Sheet)
    requires IsSheet(s)
    ensures IsSheet(t)
  {
    var ahead := s.widths[s.pos.line] - s.pos.col;
    var left := if count < 0 || count > ahead then 0 else ahead - count;
    s.(widths := s.widths[s.pos.line := s.pos.col + left])
  }

  // The cursor moved to the left in its row.
  function Backed(s: Sheet, count: nat): (t: Sheet)
    requires IsSheet(s)
    ensures IsSheet(t)
  {
    s.(pos := Pos(s.pos.line, Max(0, s.pos.col - count)))
  }

  // The first row that is as wide as asked for; their number if there is none.
  function FirstWide(widths: seq<nat>, col: nat): (line: nat)
    ensures line <= |widths|
  {
    if widths == [] || widths[0] >= col then 0 else 1 + FirstWide(widths[1..], col)
  }

  // The cursor moved to a goal: a row that is too short is filled up, rows that are missing come
  // in, and then the last one is filled up by what the old last row is short of the goal.  To a row
  // above the first the move ends in the first row that is wide enough.
  function Gone(widths: seq<nat>, goal: Pos): (t: Sheet)
    requires |widths| > 0
    ensures IsSheet(t)
  {
    var col, last := Max(0, goal.col), |widths| - 1;
    if goal.line < 0 then
      var line := FirstWide(widths, col);
      if line <= last then
        FirstWideIsWide(widths, col);
        Sheet(widths, Pos(line, col))
      else Sheet(widths[last := col], Pos(last, col))
    else if goal.line <= last then
      Sheet(widths[goal.line := Max(widths[goal.line], col)], Pos(goal.line, col))
    else
      var col' := Max(0, goal.col - widths[last]);
      Sheet(widths + Zeros(goal.line - last - 1) + [col'], Pos(goal.line, col'))
  }

  function Zeros(n: nat): (zeros: seq<nat>)
    ensures |zeros| == n
  {
    seq(n, _ => 0)
  }

  // A move to the goal ends there.
  predicate Reaches(widths: seq<nat>, goal: Pos)
    requires |widths| > 0
  {
    goal.line < |widths| || goal.col <= 0 || Last(widths) == 0
  }

  lemma {:induction false} FirstWideIsWide(widths: seq<nat>, col: nat)
    ensures var line := FirstWide(widths, col);
            (line < |widths| ==> widths[line] >= col) && forall i :: 0 <= i < line ==> widths[i] < col
  {
    if widths != [] && widths[0] < col {
      FirstWideIsWide(widths[1..], col);
      var line := FirstWide(widths, col);
      forall i | 0 <= i < line
        ensures widths[i] < col
      {
        assert i > 0 ==> widths[i] == widths[1..][i - 1];
      }
    }
  }

  lemma FirstWideIs(widths: seq<nat>, col: nat, line: nat)
    requires line <= |widths| && (line < |widths| ==> widths[line] >= col)
    requires forall i :: 0 <= i < line ==> widths[i] < col
    ensures FirstWide(widths, col) == line
  {
    FirstWideIsWide(widths, col);
  }

  lemma TypedTwice(s: Sheet, m: nat, n: nat)
    requires IsSheet(s)
    ensures Typed(Typed(s, m), n) == Typed(s, m + n)
    ensures Typed(s, 0) == s
  {
  }

  // ---------- The shape of cells ----------

  function Width(row: seq<Cell>): nat {
    Columns(Chars(row))
  }

  function Widths(rows: seq<seq<Cell>>): (widths: seq<nat>)
    ensures |widths| == |rows| && forall i :: 0 <= i < |rows| ==> widths[i] == Width(rows[i])
  {
    seq(|rows|, i requires 0 <= i < |rows| => Width(rows[i]))
  }

  function WidthsOf(cs: seq<Cell>): (widths: seq<nat>)
    ensures |widths| > 0
  {
    Widths(Rows(cs))
  }

  function SheetOf(left: seq<Cell>, right: seq<Cell>): Sheet {
    Sheet(WidthsOf(left + right), Recount(left))
  }

  // Two stretches of rows meeting in the middle of one.
  function Meet(u: seq<nat>, v: seq<nat>): seq<nat>
    requires |u| > 0 && |v| > 0
  {
    u[..|u| - 1] + [Last(u) + v[0]] + v[1..]
  }

  function MeetingPlace(u: seq<nat>): Pos
    requires |u| > 0
  {
    Pos(|u| - 1, Last(u))
  }

  // What is ahead in the row once some columns of it are gone.
  function LeftAhead(v: seq<nat>, count: int): seq<nat>
    requires |v| > 0
  {
    [if count < 0 || count > v[0] then 0 else v[0] - count] + v[1..]
  }

  lemma WidthsMeet(a: seq<Cell>, b: seq<Cell>)
    ensures WidthsOf(a + b) == Meet(WidthsOf(a), WidthsOf(b))
  {
    hide Rows, Columns;
    RowsConcat(a, b);
    ColumnsOfConcat(Last(Rows(a)), Rows(b)[0]);
  }

  lemma PlaceOfWidths(a: seq<Cell>)
    ensures Recount(a) == MeetingPlace(WidthsOf(a))
  {
    hide Rows, Columns;
    RowsRecount(a);
  }

  lemma SheetIs(left: seq<Cell>, right: seq<Cell>)
    ensures IsSheet(SheetOf(left, right))
  {
    hide Rows, Columns;
    WidthsMeet(left, right);
    PlaceOfWidths(left);
  }

  lemma RowWidths(row: seq<Cell>)
    requires forall i :: 0 <= i < |row| ==> row[i].ch != '\n'
    ensures WidthsOf(row) == [Width(row)]
  {
    RowsOneLine(row);
  }

  lemma TextWidths(text: string, path: seq<string>)
    requires InRow(text)
    ensures WidthsOf(CellsOf(text, path)) == [Columns(text)]
  {
    RowWidths(CellsOf(text, path));
    CharsOfCells(text, path);
  }

  lemma NewlineWidths(c: Cell)
    requires c.ch == '\n'
    ensures WidthsOf([c]) == [0, 0]
  {
    assert [c][..0] == [] && Rows([c]) == [[], []];
  }

  lemma ErasedWidths(cs: seq<Cell>, count: int)
    ensures WidthsOf(cs[Erased(cs, count)..]) == LeftAhead(WidthsOf(cs), count)
  {
    hide Rows, Columns, ErasedFrom;
    ErasedRows(cs, count);
    var row, n := Rows(cs)[0], Erased(cs, count);
    ErasedIsRowPart(row, 0, 0, count);
    assert row == row[..n] + row[n..] && row[0..n] == row[..n];
    ColumnsOfConcat(row[..n], row[n..]);
    FirstRowIsPrefix(cs);
    if n == |row| {
      assert Chars(row[n..]) == "";
      NoColumns();
    }
  }

  // ---------- What the operations do to cells ----------

  lemma MeetTyped(u: seq<nat>, v: seq<nat>, n: nat)
    requires |u| > 0 && |v| > 0
    ensures IsSheet(Sheet(Meet(u, v), MeetingPlace(u)))
    ensures Sheet(Meet(Meet(u, [n]), LeftAhead(v, n)), MeetingPlace(Meet(u, [n]))) == Typed(Sheet(Meet(u, v), MeetingPlace(u)), n)
  {
    assert Meet(Meet(u, [n]), LeftAhead(v, n)) == Typed(Sheet(Meet(u, v), MeetingPlace(u)), n).widths;
  }

  lemma MeetBroken(u: seq<nat>, v: seq<nat>)
    requires |u| > 0 && |v| > 0
    ensures IsSheet(Sheet(Meet(u, v), MeetingPlace(u)))
    ensures Sheet(Meet(Meet(u, [1, 0]), v), MeetingPlace(Meet(u, [1, 0]))) == Broken(Sheet(Meet(u, v), MeetingPlace(u)))
  {
    assert Meet(Meet(u, [1, 0]), v) == Broken(Sheet(Meet(u, v), MeetingPlace(u))).widths;
  }

  lemma MeetCut(u: seq<nat>, v: seq<nat>, count: int)
    requires |u| > 0 && |v| > 0
    ensures IsSheet(Sheet(Meet(u, v), MeetingPlace(u)))
    ensures Sheet(Meet(u, LeftAhead(v, count)), MeetingPlace(u)) == Cut(Sheet(Meet(u, v), MeetingPlace(u)), count)
  {
    assert Meet(u, LeftAhead(v, count)) == Cut(Sheet(Meet(u, v), MeetingPlace(u)), count).widths;
  }

  lemma TypedCells(a: seq<Cell>, b: seq<Cell>, text: string, path: seq<string>)
    requires InRow(text)
    ensures IsSheet(SheetOf(a, b))
    ensures var n := Columns(text);
            SheetOf(a + CellsOf(text, path), b[Erased(b, n)..]) == Typed(SheetOf(a, b), n)
  {
    hide WidthsOf, Columns, Recount, Erased, Meet, LeftAhead, MeetingPlace, Typed, IsSheet;
    var cs, n := CellsOf(text, path), Columns(text);
    TextWidths(text, path);
    WidthsMeet(a, b);
    WidthsMeet(a, cs);
    WidthsMeet(a + cs, b[Erased(b, n)..]);
    ErasedWidths(b, n);
    PlaceOfWidths(a);
    PlaceOfWidths(a + cs);
    MeetTyped(WidthsOf(a), WidthsOf(b), n);
  }

  lemma BrokenCells(a: seq<Cell>, b: seq<Cell>, path: seq<string>)
    ensures IsSheet(SheetOf(a, b))
    ensures SheetOf(a + CellsOf(WRAP_STRING_NEWLINE, path), b) == Broken(SheetOf(a, b))
  {
    hide WidthsOf, Recount, Meet, MeetingPlace, Broken, IsSheet;
    var cs := CellsOf(WRAP_STRING_NEWLINE, path);
    MarkWidths(path);
    WidthsMeet(a, b);
    WidthsMeet(a, cs);
    WidthsMeet(a + cs, b);
    PlaceOfWidths(a);
    PlaceOfWidths(a + cs);
    MeetBroken(WidthsOf(a), WidthsOf(b));
  }

  lemma MarkWidths(path: seq<string>)
    ensures WidthsOf(CellsOf(WRAP_STRING_NEWLINE, path)) == [1, 0]
  {
    hide WidthsOf;
    var mark := WRAP_STRING_NEWLINE[..2];
    assert CellsOf(WRAP_STRING_NEWLINE, path) == CellsOf(mark, path) + [Cell('\n', path)];
    assert mark == [mark[0]] + [mark[1]];
    ColumnsConcat([mark[0]], [mark[1]]);
    OneCharacter(mark[0]);
    OneCharacter(mark[1]);
    TextWidths(mark, path);
    NewlineWidths(Cell('\n', path));
    WidthsMeet(CellsOf(mark, path), [Cell('\n', path)]);
  }

  lemma CutCells(a: seq<Cell>, b: seq<Cell>, count: int)
    ensures IsSheet(SheetOf(a, b))
    ensures SheetOf(a, b[Erased(b, count)..]) == Cut(SheetOf(a, b), count)
  {
    hide WidthsOf, Recount, Erased, Meet, LeftAhead, MeetingPlace, Cut, IsSheet;
    WidthsMeet(a, b);
    WidthsMeet(a, b[Erased(b, count)..]);
    ErasedWidths(b, count);
    PlaceOfWidths(a);
    MeetCut(WidthsOf(a), WidthsOf(b), count);
  }

  lemma SafeIsReaching(cs: seq<Cell>, goal: Pos)
    ensures MoveSafe(cs, goal) <==> Reaches(WidthsOf(cs), goal)
  {
    hide Rows, Columns, Recount;
    PlaceOfWidths(cs);
  }

  // ---------- What a move does to cells ----------

  // Where reading on stops: nowhere before, and then at the goal, at the end of its row, or at the
  // end of all rows.
  lemma {:induction false} PadPlace(cs: seq<Cell>, k: nat, p: Pos, goal: Pos)
    requires k <= |cs| && p == Recount(cs[..k])
    ensures var r := Land(cs, k, p, goal);
            var q := Recount(cs[..r.at]);
            && (forall j :: k <= j < r.at ==> !Stops(Recount(cs[..j]), goal))
            && (if Stops(q, goal) then r.pad == []
                else if r.at == |cs| then
                  r.pad == CellsOf(Repeat('\n', goal.line - q.line) + Repeat(' ', goal.col - q.col), [])
                else
                  cs[r.at].ch == '\n' && q.line == goal.line
                  && r.pad == CellsOf(Repeat(' ', goal.col - q.col), cs[r.at].path))
    decreases |cs| - k
  {
    if !Stops(p, goal) && k < |cs| && !(cs[k].ch == '\n' && p.line == goal.line) {
      NextPlace(cs, k);
      PadPlace(cs, k + 1, Advance(p, cs[k].ch), goal);
    }
  }

  // The end of every row is a place.
  lemma {:induction false} RowEnd(cs: seq<Cell>, line: nat)
    requires line < |WidthsOf(cs)|
    ensures exists j :: 0 <= j <= |cs| && Recount(cs[..j]) == Pos(line, WidthsOf(cs)[line])
    decreases |cs|
  {
    hide Recount, WidthsOf;
    PlaceOfWidths(cs);
    assert cs[..|cs|] == cs;
    if line < |WidthsOf(cs)| - 1 {
      NotNothing(cs);
      var front, c := cs[..|cs| - 1], cs[|cs| - 1];
      assert cs == front + [c];
      WidthsMeet(front, [c]);
      LastWidths(c);
      RowEnd(front, line);
      var j :| 0 <= j <= |front| && Recount(front[..j]) == Pos(line, WidthsOf(front)[line]);
      assert cs[..j] == front[..j];
    }
  }

  lemma NotNothing(cs: seq<Cell>)
    requires |WidthsOf(cs)| > 1
    ensures cs != []
  {
  }

  lemma LastWidths(c: Cell)
    ensures WidthsOf([c]) == if c.ch == '\n' then [0, 0] else [CharColumns(c.ch)]
  {
    if c.ch == '\n' {
      NewlineWidths(c);
    } else {
      RowWidths([c]);
      assert Chars([c]) == [c.ch];
      OneCharacter(c.ch);
    }
  }

  // Every column of a row is a place of it.
  lemma ColumnPlace(cs: seq<Cell>, line: nat, col: nat)
    requires line < |WidthsOf(cs)| && col <= WidthsOf(cs)[line]
    ensures exists j :: 0 <= j <= |cs| && Recount(cs[..j]) == Pos(line, col)
  {
    hide Recount, WidthsOf;
    RowEnd(cs, line);
    var k :| 0 <= k <= |cs| && Recount(cs[..k]) == Pos(line, WidthsOf(cs)[line]);
    PlacesToTheLeft(cs, k, col);
  }

  // To a row above the first: rows that are passed are too short.
  lemma PassedAreShort(cs: seq<Cell>, goal: Pos, line: nat)
    requires goal.line < 0 && goal.col >= 0
    requires var at := Land(cs, 0, ORIGIN, goal).at;
             line < Recount(cs[..at]).line || (at == |cs| && !Stops(Recount(cs), goal) && line < |WidthsOf(cs)|)
    ensures line < |WidthsOf(cs)| && WidthsOf(cs)[line] < goal.col
  {
    hide Recount, WidthsOf, Land;
    assert cs[..0] == [] && cs[..|cs|] == cs;
    NothingAt();
    PadPlace(cs, 0, ORIGIN, goal);
    var at := Land(cs, 0, ORIGIN, goal).at;
    Between(cs, at, |cs|);
    PlaceOfWidths(cs);
    if WidthsOf(cs)[line] >= goal.col {
      ColumnPlace(cs, line, goal.col);
      var j :| 0 <= j <= |cs| && Recount(cs[..j]) == Pos(line, goal.col);
      if j >= at {
        Between(cs, at, j);
      }
      assert false;
    }
  }

  // The move to a row above the first: it ends in a row that is wide enough, or fills up the last.
  lemma GoneAboveStops(cs: seq<Cell>, goal: Pos)
    requires goal.line < 0 && goal.col >= 0
    requires Stops(Recount(cs[..Land(cs, 0, ORIGIN, goal).at]), goal)
    ensures var r := Land(cs, 0, ORIGIN, goal);
            r.pad == [] && Gone(WidthsOf(cs), goal) == Sheet(WidthsOf(cs), Recount(cs[..r.at]))
  {
    hide Recount, WidthsOf, Land;
    assert cs[..0] == [];
    NothingAt();
    PadPlace(cs, 0, ORIGIN, goal);
    var at, widths := Land(cs, 0, ORIGIN, goal).at, WidthsOf(cs);
    var q := Recount(cs[..at]);
    StopAbove(cs, at, goal);
    assert cs == cs[..at] + cs[at..];
    SheetIs(cs[..at], cs[at..]);
    forall i | 0 <= i < q.line
      ensures widths[i] < goal.col
    {
      PassedAreShort(cs, goal, i);
    }
    FirstWideIs(widths, goal.col, q.line);
  }

  lemma GoneAboveEnds(cs: seq<Cell>, goal: Pos)
    requires goal.line < 0 && goal.col >= 0
    requires !Stops(Recount(cs[..Land(cs, 0, ORIGIN, goal).at]), goal)
    ensures var r := Land(cs, 0, ORIGIN, goal);
            && r == Landing(|cs|, CellsOf(Repeat(' ', goal.col - Recount(cs).col), [])) && Recount(cs).col < goal.col
            && Gone(WidthsOf(cs), goal) == Filled(WidthsOf(cs), goal.col)
  {
    hide Recount, WidthsOf, Land;
    assert cs[..0] == [] && cs[..|cs|] == cs;
    NothingAt();
    PadPlace(cs, 0, ORIGIN, goal);
    var r, widths := Land(cs, 0, ORIGIN, goal), WidthsOf(cs);
    Between(cs, 0, r.at);
    assert Repeat('\n', goal.line - Recount(cs).line) + Repeat(' ', goal.col - Recount(cs).col)
        == Repeat(' ', goal.col - Recount(cs).col);
    forall i | 0 <= i < |widths|
      ensures widths[i] < goal.col
    {
      PassedAreShort(cs, goal, i);
    }
    FirstWideIs(widths, goal.col, |widths|);
  }

  // The last row filled up to a column, with the cursor there.
  function Filled(widths: seq<nat>, col: nat): Sheet
    requires |widths| > 0
  {
    Sheet(widths[|widths| - 1 := col], Pos(|widths| - 1, col))
  }

  lemma StopAbove(cs: seq<Cell>, at: nat, goal: Pos)
    requires at <= |cs| && goal.line < 0 && goal.col >= 0 && Stops(Recount(cs[..at]), goal)
    requires forall j :: 0 <= j < at ==> !Stops(Recount(cs[..j]), goal)
    ensures Recount(cs[..at]).col == goal.col
  {
    hide Recount;
    PlacesToTheLeft(cs, at, goal.col);
  }

  lemma BlankWidths(n: nat, path: seq<string>)
    ensures WidthsOf(CellsOf(Repeat(' ', n), path)) == [n]
  {
    hide Columns;
    TextWidths(Repeat(' ', n), path);
    var cs := CellsOf(Repeat(' ', n), path);
    OneColumnColumns(cs);
    CharsOfCells(Repeat(' ', n), path);
  }

  lemma BlankRowWidths(n: nat, path: seq<string>)
    ensures WidthsOf(CellsOf(Repeat('\n', n), path)) == Zeros(n + 1)
  {
    RowsNewlines(n, path);
  }

  // Spaces at the end of a row.
  lemma SpacesInRow(a: seq<Cell>, n: nat, path: seq<string>, b: seq<Cell>)
    requires WidthsOf(b)[0] == 0
    ensures var s := SheetOf(a, b);
            && IsSheet(s) && s.widths[s.pos.line] == s.pos.col
            && SheetOf(a + CellsOf(Repeat(' ', n), path), b) == Typed(s, n)
  {
    hide WidthsOf, Recount, Columns;
    var cs := CellsOf(Repeat(' ', n), path);
    BlankWidths(n, path);
    WidthsMeet(a, b);
    WidthsMeet(a, cs);
    WidthsMeet(a + cs, b);
    PlaceOfWidths(a);
    PlaceOfWidths(a + cs);
    assert SheetOf(a + cs, b).widths == Typed(SheetOf(a, b), n).widths;
  }

  lemma NoWidth()
    ensures WidthsOf([]) == [0]
  {
    assert Chars([]) == "";
  }

  lemma NewlineAheadWidth(b: seq<Cell>)
    requires b != [] && b[0].ch == '\n'
    ensures WidthsOf(b)[0] == 0
  {
    hide WidthsOf;
    NewlineWidths(b[0]);
    assert b == [b[0]] + b[1..];
    WidthsMeet([b[0]], b[1..]);
  }

  // Rows and then spaces at the end of all.
  lemma RowsAtEnd(a: seq<Cell>, n: nat, m: int)
    requires n > 0
    ensures var pad := CellsOf(Repeat('\n', n) + Repeat(' ', m), []);
            var col := Max(0, m);
            SheetOf(a + pad, []) == Sheet(WidthsOf(a) + Zeros(n - 1) + [col], Pos(|WidthsOf(a)| + n - 1, col))
  {
    hide WidthsOf, Recount, Columns;
    var rows, spaces := CellsOf(Repeat('\n', n), []), CellsOf(Repeat(' ', Max(0, m)), []);
    assert Repeat(' ', m) == Repeat(' ', Max(0, m));
    CellsOfConcat(Repeat('\n', n), Repeat(' ', m), []);
    BlankRowWidths(n, []);
    BlankWidths(Max(0, m), []);
    WidthsMeet(rows, spaces);
    WidthsMeet(a, rows + spaces);
    PlaceOfWidths(a + (rows + spaces));
    assert a + (rows + spaces) + [] == a + (rows + spaces);
    assert Meet(Zeros(n + 1), [Max(0, m)]) == Zeros(n) + [Max(0, m)];
    assert Meet(WidthsOf(a), Zeros(n) + [Max(0, m)]) == WidthsOf(a) + Zeros(n - 1) + [Max(0, m)];
  }

  // The cells and the place after a move, as a sheet.
  function Landed(cs: seq<Cell>, r: Landing): Sheet
    requires r.at <= |cs|
  {
    SheetOf(cs[..r.at] + r.pad, cs[r.at..])
  }

  lemma GoneInRow(cs: seq<Cell>, goal: Pos)
    requires 0 <= goal.line < |WidthsOf(cs)| && goal.col >= 0
    ensures Landed(cs, Land(cs, 0, ORIGIN, goal)) == Gone(WidthsOf(cs), goal)
  {
    hide Recount, WidthsOf, Land;
    assert cs[..0] == [];
    NothingAt();
    PadPlace(cs, 0, ORIGIN, goal);
    LandsAt(cs, 0, ORIGIN, goal);
    PlaceOfWidths(cs);
    var r := Land(cs, 0, ORIGIN, goal);
    var a, b := cs[..r.at], cs[r.at..];
    assert cs == a + b && r.Apply(cs)[..r.Offset()] == a + r.pad;
    SheetIs(a, b);
    if Stops(Recount(a), goal) {
      assert a + [] == a;
    } else {
      if b == [] {
        assert a == cs;
        NoWidth();
        assert Repeat('\n', goal.line - Recount(a).line) + Repeat(' ', goal.col - Recount(a).col)
            == Repeat(' ', goal.col - Recount(a).col);
        SpacesInRow(a, goal.col - Recount(a).col, [], b);
      } else {
        NewlineAheadWidth(b);
        SpacesInRow(a, goal.col - Recount(a).col, b[0].path, b);
      }
    }
  }

  lemma GoneBelow(cs: seq<Cell>, goal: Pos)
    requires goal.line >= |WidthsOf(cs)|
    ensures Landed(cs, Land(cs, 0, ORIGIN, goal)) == Gone(WidthsOf(cs), goal)
  {
    hide Recount, WidthsOf, Land;
    assert cs[..0] == [];
    NothingAt();
    PadPlace(cs, 0, ORIGIN, goal);
    PlaceOfWidths(cs);
    var r := Land(cs, 0, ORIGIN, goal);
    assert cs[..|cs|] == cs && cs[|cs|..] == [];
    Between(cs, r.at, |cs|);
    assert r.at == |cs|;
    RowsAtEnd(cs, goal.line - Recount(cs).line, goal.col - Recount(cs).col);
  }

  lemma GoneAbove(cs: seq<Cell>, goal: Pos)
    requires goal.line < 0 && goal.col >= 0
    ensures Landed(cs, Land(cs, 0, ORIGIN, goal)) == Gone(WidthsOf(cs), goal)
  {
    hide Recount, WidthsOf, Land, Gone;
    var r := Land(cs, 0, ORIGIN, goal);
    var a, b := cs[..r.at], cs[r.at..];
    assert cs == a + b;
    if Stops(Recount(a), goal) {
      GoneAboveStops(cs, goal);
      assert a + [] == a;
    } else {
      GoneAboveEnds(cs, goal);
      assert a == cs && b == [];
      PlaceOfWidths(cs);
      NoWidth();
      SpacesInRow(cs, goal.col - Recount(cs).col, [], []);
      assert cs + [] == cs;
    }
  }

  // A move to any goal makes of the shape what `Gone` says.
  lemma GoneCells(cs: seq<Cell>, goal: Pos)
    ensures Landed(cs, Land(cs, 0, ORIGIN, goal)) == Gone(WidthsOf(cs), goal)
  {
    hide WidthsOf, Land, Landed;
    if goal.line >= |WidthsOf(cs)| {
      GoneBelow(cs, goal);
    } else {
      var there := Pos(goal.line, Max(0, goal.col));
      if goal.col < 0 {
        LeftOfRow(cs, 0, ORIGIN, goal);
      }
      if goal.line < 0 {
        GoneAbove(cs, there);
      } else {
        GoneInRow(cs, there);
      }
    }
  }

  lemma ArrivedSheet(cs: seq<Cell>, goal: Pos, screen: seq<Cell>, offset: nat)
    requires Arrived(cs, goal, screen, offset)
    ensures Sheet(WidthsOf(screen), Recount(screen[..offset])) == Gone(WidthsOf(cs), goal)
  {
    hide Recount, WidthsOf, Land, Gone;
    GoneCells(cs, goal);
    var r := Land(cs, 0, ORIGIN, goal);
    assert r.Apply(cs) == (cs[..r.at] + r.pad) + cs[r.at..];
    assert r.Apply(cs)[..r.Offset()] == cs[..r.at] + r.pad;
  }
}
