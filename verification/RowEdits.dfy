/**
 What edits at the cursor do to the rows.
 */
module RowEdits {
  import opened Grid
  import opened Landing
  import opened Erasing

  // A row with `text` typed over it from cell `at` on: as many columns go as the text has, or all
  // the rest of the row if it has fewer.
  function Overwrite(row: seq<Cell>, at: nat, text: seq<Cell>): seq<Cell>
    requires at <= |row|
  {
    row[..at] + text + row[at..][Erased(row[at..], Columns(Chars(text)))..]
  }

  // Of the rows, `rows[p.line]` has been typed over from cell `at` on, and no other has changed.
  ghost predicate TypedOver(rows: seq<seq<Cell>>, p: Pos, at: nat, text: seq<Cell>, rows': seq<seq<Cell>>) {
    && 0 <= p.line < |rows| && at <= |rows[p.line]|
    && rows' == rows[p.line := Overwrite(rows[p.line], at, text)]
  }

  // Typing over changes the cursor's row and no other, and moves the cursor behind the text.
  lemma ReplaceIsOverwrite(a: seq<Cell>, b: seq<Cell>, text: seq<Cell>)
    requires forall i :: 0 <= i < |text| ==> text[i].ch != '\n'
    ensures var p, rows, at, width := Recount(a), Rows(a + b), |Last(Rows(a))|, Columns(Chars(text));
            && TypedOver(rows, p, at, text, Rows(a + text + b[Erased(b, width)..]))
            && Columns(Chars(rows[p.line][..at])) == p.col
            && Recount(a + text) == Pos(p.line, p.col + width)
  {
    hide Rows, RecountFrom, ErasedFrom, Columns;
    var width := Columns(Chars(text));
    var n := Erased(b, width);
    RowsRecount(a);
    RowsConcat(a, b);
    ErasedRows(b, width);
    var rest := b[n..];
    RowsOneLine(text);
    RowsConcat(a, text);
    RowsConcat(a + text, rest);
    var r, s := Rows(a), Rows(b);
    var line, at := |r| - 1, |Last(r)|;
    var row := Last(r) + s[0];
    assert Rows(a + text) == r[..line] + [Last(r) + text];
    assert row[..at] == Last(r) && row[at..] == s[0];
    assert Overwrite(row, at, text) == Last(r) + text + s[0][n..];
    assert Rows(a + text + rest) == Rows(a + b)[line := Overwrite(row, at, text)];
    RowsRecount(a + text);
    ColumnsOfConcat(Last(r), text);
  }

  // Where every character of the row and the text has a column, columns are cells:
  // row[..col] + text + row[min(len, col + width)..].
  lemma OverwriteByColumns(row: seq<Cell>, at: nat, text: seq<Cell>)
    requires at <= |row| && OneColumn(row) && OneColumn(text)
    requires forall i :: 0 <= i < |row| ==> row[i].ch != '\n'
    ensures at == Columns(Chars(row[..at]))
    ensures Overwrite(row, at, text)
         == row[..at] + text + row[if at + |text| < |row| then at + |text| else |row|..]
  {
    hide Columns;
    OneColumnColumns(row[..at]);
    OneColumnColumns(text);
    ErasedOneColumn(row[at..], |text|);
  }

  // No row begins with a zero-width character, so column 0 is the start of the row.
  predicate ClearStarts(rows: seq<seq<Cell>>) {
    forall i :: 0 <= i < |rows| ==> rows[i] == [] || rows[i][0].ch != ZERO_WIDTH_SPACE
  }

  lemma StartOfRow(row: seq<Cell>)
    requires Columns(Chars(row)) == 0 && (row == [] || row[0].ch != ZERO_WIDTH_SPACE)
    ensures row == []
  {
    if row != [] {
      hide Columns;
      assert row[0..|row|] == row;
      FirstColumn(row, 0, |row|);
      assert false;
    }
  }

  // With the cursor at the start of row `line`, the rows fall apart in front of that row.
  lemma AtRowStart(a: seq<Cell>, b: seq<Cell>)
    requires ClearStarts(Rows(a + b)) && Recount(a).col == 0
    ensures var line, rows := Recount(a).line, Rows(a + b);
            0 <= line < |rows| && Rows(a) == rows[..line] + [[]] && Rows(b) == rows[line..]
  {
    hide Rows, RecountFrom, Columns;
    RowsRecount(a);
    RowsConcat(a, b);
    var r, s := Rows(a), Rows(b);
    assert Rows(a + b)[|r| - 1] == Last(r) + s[0];
    StartOfRow(Last(r));
    assert [] + s[0] == s[0];
    assert r == r[..|r| - 1] + [[]];
    assert s == [s[0]] + s[1..];
  }

  lemma RowsAgain(a: seq<Cell>, b: seq<Cell>, rows: seq<seq<Cell>>, line: nat, more: seq<seq<Cell>>)
    requires line <= |rows| && |more| > 0 && Rows(a) == rows[..line] + [[]] && Rows(b) == more
    ensures Rows(a + b) == rows[..line] + more
  {
    hide Rows;
    RowsConcat(a, b);
    assert [] + more[0] == more[0];
    assert more == [more[0]] + more[1..];
  }

  // Every row has a start.
  lemma {:induction false} RowStartExists(cs: seq<Cell>, line: nat)
    requires line <= Recount(cs).line
    ensures exists j :: 0 <= j <= |cs| && Recount(cs[..j]) == Pos(line, 0)
    decreases |cs|
  {
    hide RecountFrom;
    if cs == [] {
      RecountNil(ORIGIN);
      assert cs[..0] == [] && Recount(cs[..0]) == Pos(line, 0);
    } else {
      var k := |cs| - 1;
      NextPlace(cs, k);
      assert cs[..k + 1] == cs;
      if line <= Recount(cs[..k]).line {
        RowStartExists(cs[..k], line);
        var j :| 0 <= j <= k && Recount(cs[..k][..j]) == Pos(line, 0);
        assert cs[..k][..j] == cs[..j];
      } else {
        assert Recount(cs[..k + 1]) == Pos(line, 0);
      }
    }
  }

  // Moving to the start of a row there is changes no row.
  lemma MoveToRowStart(cs: seq<Cell>, line: nat)
    requires line <= Recount(cs).line
    ensures var moved := Outcome(cs, 0, ORIGIN, Pos(line, 0));
            moved.0 == cs && moved.1 <= |cs| && Recount(cs[..moved.1]) == Pos(line, 0)
  {
    hide RecountFrom, Land;
    assert cs[..0] == [];
    RecountNil(ORIGIN);
    RowStartExists(cs, line);
    PadOnlyIfMissing(cs, 0, ORIGIN, Pos(line, 0));
    LandsAt(cs, 0, ORIGIN, Pos(line, 0));
    var r := Land(cs, 0, ORIGIN, Pos(line, 0));
    assert r.Apply(cs) == cs;
  }

  // A newline in front is one more, blank, row.
  lemma NewlineFirst(c: Cell, cs: seq<Cell>)
    requires c.ch == '\n'
    ensures Rows([c] + cs) == [[]] + Rows(cs)
  {
    RowsConcat([c], cs);
    hide Rows;
    SingleNewline(c);
    var s := Rows(cs);
    assert [] + s[0] == s[0];
    assert s == [s[0]] + s[1..];
  }

  lemma SingleNewline(c: Cell)
    requires c.ch == '\n'
    ensures Rows([c]) == [[], []]
  {
    assert [c][..0] == [];
  }

  // The rows from the cursor on, after `count` lines are deleted there.
  function DropRows(rows: seq<seq<Cell>>, count: int): (r: seq<seq<Cell>>)
    requires |rows| > 0
    ensures |r| > 0
  {
    if count <= 0 then rows else if count < |rows| then rows[count..] else [[]]
  }

  // `count` blank rows in front.
  lemma BlanksFirst(count: nat, path: seq<string>, cs: seq<Cell>)
    ensures Rows(CellsOf(Repeat('\n', count), path) + cs) == Blanks(count) + Rows(cs)
  {
    hide Rows;
    RowsNewlines(count, path);
    RowsConcat(CellsOf(Repeat('\n', count), path), cs);
    var s := Rows(cs);
    assert [] + s[0] == s[0];
    assert Blanks(count + 1)[..count] == Blanks(count);
    assert s == [s[0]] + s[1..];
  }

  // `count` rows deleted from row `at` on.
  function WithoutRows(rows: seq<seq<Cell>>, at: nat, count: nat): seq<seq<Cell>>
    requires at + count < |rows|
  {
    rows[..at] + rows[at + count..]
  }

  // `count` blank rows inserted in front of row `at`.
  function WithBlanks(rows: seq<seq<Cell>>, at: nat, count: nat): seq<seq<Cell>>
    requires at < |rows|
  {
    rows[..at] + Blanks(count) + rows[at..]
  }

  lemma DeletedRows(a: seq<Cell>, b: seq<Cell>, b': seq<Cell>, count: nat)
    requires ClearStarts(Rows(a + b)) && Recount(a).col == 0
    requires 0 <= Recount(a).line && Recount(a).line + count < |Rows(a + b)|
    requires Rows(b') == DropRows(Rows(b), count)
    ensures Rows(a + b') == WithoutRows(Rows(a + b), Recount(a).line, count)
  {
    hide Rows, RecountFrom;
    AtRowStart(a, b);
    RowsAgain(a, b', Rows(a + b), Recount(a).line, Rows(b'));
  }

  lemma InsertedRows(a: seq<Cell>, b: seq<Cell>, path: seq<string>, count: nat)
    requires ClearStarts(Rows(a + b)) && Recount(a).col == 0
    ensures 0 <= Recount(a).line < |Rows(a + b)|
    ensures Rows(a + (CellsOf(Repeat('\n', count), path) + b)) == WithBlanks(Rows(a + b), Recount(a).line, count)
  {
    hide Rows, RecountFrom;
    AtRowStart(a, b);
    var rows, line := Rows(a + b), Recount(a).line;
    BlanksFirst(count, path, b);
    RowsAgain(a, CellsOf(Repeat('\n', count), path) + b, rows, line, Blanks(count) + rows[line..]);
    assert rows[..line] + (Blanks(count) + rows[line..]) == WithBlanks(rows, line, count);
  }

  lemma StillClear(rows: seq<seq<Cell>>, at: nat, count: nat)
    requires ClearStarts(rows)
    ensures at + count < |rows| ==> ClearStarts(WithoutRows(rows, at, count))
    ensures at < |rows| ==> ClearStarts(WithBlanks(rows, at, count))
  {
  }

  lemma DeletedLength(rows: seq<seq<Cell>>, at: nat, count: nat)
    requires at + count < |rows|
    ensures |WithoutRows(rows, at, count)| == |rows| - count
    ensures forall k: nat :: k + count < |rows| ==> |WithBlanks(WithoutRows(rows, at, count), k, count)| == |rows|
  {
  }

  // Rows deleted at the top of a region and blanks inserted at its bottom.
  lemma RegionUp(rows: seq<seq<Cell>>, top: nat, bottom: nat, count: nat)
    requires top + count <= bottom < |rows|
    ensures WithBlanks(WithoutRows(rows, top, count), bottom - count, count)
         == rows[..top] + rows[top + count..bottom] + Blanks(count) + rows[bottom..]
  {
    var cut := WithoutRows(rows, top, count);
    assert cut[..bottom - count] == rows[..top] + rows[top + count..bottom];
    assert cut[bottom - count..] == rows[bottom..];
  }

  // Rows deleted at the bottom of a region and blanks inserted at its top.
  lemma RegionDown(rows: seq<seq<Cell>>, top: nat, bottom: nat, count: nat)
    requires top + count <= bottom < |rows|
    ensures WithBlanks(WithoutRows(rows, bottom - count, count), top, count)
         == rows[..top] + Blanks(count) + rows[top..bottom - count] + rows[bottom..]
  {
    var cut := WithoutRows(rows, bottom - count, count);
    assert cut[..top] == rows[..top];
    assert cut[top..] == rows[top..bottom - count] + rows[bottom..];
  }
}
