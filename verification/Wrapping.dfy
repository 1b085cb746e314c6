/**
 Automatic breaks: how a run of graphic characters is cut where the rows are full.
 */
module Wrapping {
  import opened Grid

  // The mark of an automatic break, with the newline that makes it.
  const WRAP_STRING_NEWLINE: string := "\U{2936}\U{200B}\n"

  // The pieces between the breaks so far, and the column the last one has reached.
  datatype Layout = Layout(pieces: seq<string>, col: int)

  function LayCharacter(l: Layout, ch: char, wrapWidth: int): Layout
    requires l.pieces != []
  {
    var nextColumn := UpdateColumn(ch, l.col);
    if nextColumn > wrapWidth then Layout(l.pieces + [[ch]], UpdateColumn(ch, 0))
    else Layout(l.pieces[..|l.pieces| - 1] + [Last(l.pieces) + [ch]], nextColumn)
  }

  function Lay(col: int, str: string, wrapWidth: int): (l: Layout)
    ensures l.pieces != []
  {
    if str == "" then Layout([""], col)
    else LayCharacter(Lay(col, str[..|str| - 1], wrapWidth), str[|str| - 1], wrapWidth)
  }

  // The pieces with a mark and a newline between them.
  function Shown(pieces: seq<string>): string
    requires pieces != []
  {
    if |pieces| == 1 then pieces[0]
    else Shown(pieces[..|pieces| - 1]) + WRAP_STRING_NEWLINE + Last(pieces)
  }

  function Concatenation(pieces: seq<string>): string {
    if pieces == [] then "" else Concatenation(pieces[..|pieces| - 1]) + Last(pieces)
  }

  // One more character is shown behind what is there, after a break if the row is full.
  lemma ShownNext(l: Layout, ch: char, wrapWidth: int)
    requires l.pieces != []
    ensures Shown(LayCharacter(l, ch, wrapWidth).pieces) ==
            Shown(l.pieces) + (if UpdateColumn(ch, l.col) > wrapWidth then WRAP_STRING_NEWLINE else "") + [ch]
  {
    var front, last := l.pieces[..|l.pieces| - 1], Last(l.pieces);
    if UpdateColumn(ch, l.col) > wrapWidth {
      assert (l.pieces + [[ch]])[..|l.pieces|] == l.pieces;
    } else {
      assert (front + [last + [ch]])[..|front|] == front;
      if front != [] {
        assert Shown(l.pieces) == Shown(front) + WRAP_STRING_NEWLINE + last;
      }
    }
  }

  predicate Graphic(str: string) {
    forall i :: 0 <= i < |str| ==> Plain(str[i]) && str[i] != '\n'
  }

  // The break in front of a piece is needed: its first character does not fit behind the last piece.
  predicate NeededBefore(pieces: seq<string>, i: nat, col: int, wrapWidth: int)
    requires 0 < i < |pieces|
  {
    pieces[i] != "" && (if i == 1 then col else 0) + Columns(pieces[i - 1]) + CharColumns(pieces[i][0]) > wrapWidth
  }

  // The pieces hold `str`, and each fits: the first in what the row has left from `col` on,
  // the others in a row of their own.  There is no break that is not needed.
  predicate Fitting(l: Layout, str: string, col: int, wrapWidth: int) {
    && l.pieces != []
    && Concatenation(l.pieces) == str
    && l.col == Columns(Last(l.pieces)) + (if |l.pieces| == 1 then col else 0)
    && l.col <= wrapWidth
    && col + Columns(l.pieces[0]) <= wrapWidth
    && (forall i :: 0 < i < |l.pieces| ==> Columns(l.pieces[i]) <= wrapWidth)
    && (forall i :: 0 < i < |l.pieces| ==> NeededBefore(l.pieces, i, col, wrapWidth))
  }

  lemma BreakFits(l: Layout, str: string, ch: char, col: int, wrapWidth: int)
    requires Fitting(l, str, col, wrapWidth) && wrapWidth >= 1 && l.col + CharColumns(ch) > wrapWidth
    ensures Fitting(Layout(l.pieces + [[ch]], CharColumns(ch)), str + [ch], col, wrapWidth)
  {
    hide Columns;
    OneCharacter(ch);
    var pieces := l.pieces + [[ch]];
    assert pieces[..|l.pieces|] == l.pieces;
    forall i | 0 < i < |pieces| ensures NeededBefore(pieces, i, col, wrapWidth) {
      assert i < |l.pieces| ==> NeededBefore(l.pieces, i, col, wrapWidth);
    }
  }

  lemma SamePieceFits(l: Layout, str: string, ch: char, col: int, wrapWidth: int)
    requires Fitting(l, str, col, wrapWidth) && l.col + CharColumns(ch) <= wrapWidth
    ensures Fitting(Layout(l.pieces[..|l.pieces| - 1] + [Last(l.pieces) + [ch]], l.col + CharColumns(ch)),
                    str + [ch], col, wrapWidth)
  {
    hide Columns;
    OneCharacter(ch);
    ColumnsConcat(Last(l.pieces), [ch]);
    var front, last := l.pieces[..|l.pieces| - 1], Last(l.pieces);
    var pieces := front + [last + [ch]];
    assert pieces[..|pieces| - 1] == front;
    assert Concatenation(front) + last + [ch] == Concatenation(front) + (last + [ch]);
    forall i | 0 < i < |pieces| ensures NeededBefore(pieces, i, col, wrapWidth) {
      assert NeededBefore(l.pieces, i, col, wrapWidth);
    }
  }

  lemma NoneLaid(col: nat, wrapWidth: int)
    requires col <= wrapWidth
    ensures Fitting(Lay(col, "", wrapWidth), "", col, wrapWidth)
  {
    assert [""][..0] == [];
  }

  lemma LayCharacterFits(l: Layout, str: string, ch: char, col: nat, wrapWidth: int)
    requires Fitting(l, str, col, wrapWidth) && wrapWidth >= 1 && Plain(ch) && ch != '\n'
    ensures l.pieces != [] && Fitting(LayCharacter(l, ch, wrapWidth), str + [ch], col, wrapWidth)
  {
    assert l.pieces != [];
    hide Fitting;
    if UpdateColumn(ch, l.col) > wrapWidth {
      BreakFits(l, str, ch, col, wrapWidth);
    } else {
      SamePieceFits(l, str, ch, col, wrapWidth);
    }
  }

  lemma {:induction false} LayFits(col: nat, str: string, wrapWidth: int)
    requires Graphic(str) && col <= wrapWidth && wrapWidth >= 1
    ensures Fitting(Lay(col, str, wrapWidth), str, col, wrapWidth)
    decreases |str|
  {
    hide Fitting, LayCharacter;
    if str == "" {
      NoneLaid(col, wrapWidth);
    } else {
      var front, ch := str[..|str| - 1], str[|str| - 1];
      LayFits(col, front, wrapWidth);
      assert front + [ch] == str;
      LayCharacterFits(Lay(col, front, wrapWidth), front, ch, col, wrapWidth);
    }
  }

  lemma WrapRecount(p: Pos, path: seq<string>)
    ensures RecountFrom(p, CellsOf(WRAP_STRING_NEWLINE, path)) == Pos(p.line + 1, 0)
  {
    var mark := CellsOf(WRAP_STRING_NEWLINE[..2], path);
    assert CellsOf(WRAP_STRING_NEWLINE, path) == mark + [Cell('\n', path)];
    InRowRecount(WRAP_STRING_NEWLINE[..2], p, path);
    RecountSnoc(p, mark, Cell('\n', path));
  }
}
