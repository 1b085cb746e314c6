/**
 The short way of `cursorLeft`: text in front of the cursor is taken over to the other side.
 */
module Shuffling {
  import opened Grid
  import opened Document
  import opened Walk

  // The columns at the end of a text node that cursorLeft takes over to the other side: as many
  // characters as hold `count` columns, or -1.
  function StepsBack(tstr: string, count: nat): (tcount: int)
    ensures -1 <= tcount <= |tstr|
  {
    if count == 0 then 0
    else if tstr == "" then -1
    else
      var ch := Last(tstr);
      if ch == '\n' || ch == '\r' || ch == FORM_FEED || ch == 't' || CharColumns(ch) > count then -1
      else
        StepsOn(StepsBack(tstr[..|tstr| - 1], count - CharColumns(ch)), 1)
  }

  // Some characters more, if there is a way at all.
  function StepsOn(tcount: int, more: nat): int {
    if tcount < 0 then tcount else tcount + more
  }

  predicate Shifts(before: seq<Token>, count: nat) {
    before != [] && Last(before).Text? && StepsBack(Last(before).data, count) > 0
  }

  // A cached column less some columns, if it is known and not 0.
  function Less(cached: int, columns: nat): int {
    if cached > 0 then cached - columns else cached
  }

  // The column that is cached by the long way to the left: in front of column 0 it is 0, or it is
  // taken for reached if the document ends where the row begins.
  function LeftColumn(doc: seq<Token>, p: Pos, count: nat): int {
    if p.col >= count || (p.line > 0 && Falls(doc, 0, p.line)) then p.col - count else 0
  }

  lemma {:induction false} StepsBackColumns(tstr: string, count: nat)
    requires StepsBack(tstr, count) >= 0
    ensures var tail := tstr[|tstr| - StepsBack(tstr, count)..]; InRow(tail) && Columns(tail) == count
    decreases |tstr|
  {
    if count == 0 {
      assert tstr[|tstr|..] == "";
    } else {
      var front, ch := tstr[..|tstr| - 1], Last(tstr);
      hide Columns;
      StepsBackColumns(front, count - CharColumns(ch));
      var tail := front[|front| - StepsBack(front, count - CharColumns(ch))..];
      assert tstr[|tstr| - StepsBack(tstr, count)..] == tail + [ch];
      ColumnsConcat(tail, [ch]);
      OneCharacter(ch);
    }
  }

  // Only a cursor that has so many columns in front of it is moved the short way.
  lemma ShiftsInRow(before: seq<Token>, count: nat)
    requires Shifts(before, count)
    ensures Recount(Cells(before, [])).col >= count
  {
    hide Cells, PathAfter, RecountFrom, Columns, StepsBack;
    var l, tstr := before[..|before| - 1], Last(before).data;
    var k := |tstr| - StepsBack(tstr, count);
    StepsBackColumns(tstr, count);
    assert tstr == tstr[..k] + tstr[k..] && before == l + [Last(before)];
    HeadTail(l, tstr[..k], tstr[k..]);
    var head, path := Cells(l + [Text(tstr[..k])], []), PathAfter(before, []);
    RecountConcat(ORIGIN, head, CellsOf(tstr[k..], path));
    RecountMonotone(ORIGIN, head);
    InRowRecount(tstr[k..], Recount(head), path);
  }

  // How many characters at the end of `tstr` make up `count` columns of one row; -1 if there
  // are not so many.  A `t` is taken for a tab.
  method StepBack(tstr: string, count: nat) returns (tcount: int)
    ensures tcount == StepsBack(tstr, count)
    ensures tcount >= 0 ==> var tail := tstr[|tstr| - tcount..]; InRow(tail) && Columns(tail) == count
  {
    hide Columns;
    var len := |tstr|;
    var tcols := 0;
    tcount := 0;
    NoColumns();
    assert tstr[len..] == "" && tstr[..len] == tstr;
    while true
      invariant 0 <= tcount <= len
      invariant InRow(tstr[len - tcount..]) && Columns(tstr[len - tcount..]) == tcols <= count
      invariant StepsBack(tstr, count) == StepsOn(StepsBack(tstr[..len - tcount], count - tcols), tcount)
      decreases len - tcount
    {
      if tcols == count {
        break;
      }
      if tcount == len {
        tcount := -1;
        break;
      }
      tcount := tcount + 1;
      var ch := tstr[len - tcount];
      assert tstr[..len - (tcount - 1)][..len - tcount] == tstr[..len - tcount];
      var chcols := CharColumns(ch);
      if ch == '\n' || ch == '\r' || ch == FORM_FEED || ch == 't' || chcols < 0 || tcols + chcols > count {
        tcount := -1;
        break;
      }
      assert tstr[len - tcount..] == [ch] + tstr[len - (tcount - 1)..];
      ColumnsConcat([ch], tstr[len - (tcount - 1)..]);
      OneCharacter(ch);
      tcols := tcols + chcols;
    }
  }

  lemma HeadTail(l: seq<Token>, head: string, tail: string)
    ensures Cells(l + [Text(head + tail)], []) ==
            Cells(l + [Text(head)], []) + CellsOf(tail, PathAfter(l + [Text(head + tail)], []))
  {
    hide Cells, PathAfter;
    Snoc(l, Text(head + tail), []);
    Snoc(l, Text(head), []);
    CellsOfConcat(head, tail, PathAfter(l, []));
  }

  lemma Shuffled(l: seq<Token>, head: string, tail: string, data: string, rest: seq<Token>)
    ensures var was, now := l + [Text(head + tail)] + ([Text(data)] + rest), l + [Text(head)] + ([Text(tail + data)] + rest);
            Cells(now, []) == Cells(was, []) && Depth(now, 0) == Depth(was, 0)
  {
    hide Cells, PathAfter, Depth;
    TextsMerge(l, head + tail, data, rest);
    TextsMerge(l, head, tail + data, rest);
    assert head + (tail + data) == head + tail + data;
    assert l + [Text(head + tail)] + ([Text(data)] + rest) == l + [Text(head + tail), Text(data)] + rest;
    assert l + [Text(head)] + ([Text(tail + data)] + rest) == l + [Text(head), Text(tail + data)] + rest;
  }

  // The last `tcount` characters in front of the cursor go behind it.
  method ShuffleText(before: seq<Token>, after: seq<Token>, tcount: nat)
    returns (before': seq<Token>, after': seq<Token>)
    requires before != [] && Last(before).Text? && tcount <= |Last(before).data|
    ensures Cells(before' + after', []) == Cells(before + after, [])
    ensures Depth(before' + after', 0) == Depth(before + after, 0)
    ensures PathAfter(before', []) == PathAfter(before, [])
    ensures SpansKept(before + after, before' + after')
    ensures var data := Last(before).data;
            Cells(before, []) == Cells(before', []) + CellsOf(data[|data| - tcount..], PathAfter(before, []))
  {
    hide Cells, PathAfter, Depth;
    var l, tstr := before[..|before| - 1], Last(before).data;
    var head, tail := tstr[..|tstr| - tcount], tstr[|tstr| - tcount..];
    before' := l + [Text(head)];
    assert before == l + [Text(tstr)] && head + tail == tstr;
    HeadTail(l, head, tail);
    Snoc(l, Text(head), []);
    Snoc(l, Text(tstr), []);
    FlatConcat(before, after);
    assert BARE in l ==> BARE in before;
    if after != [] && after[0].Text? {
      after' := [Text(tail + after[0].data)] + after[1..];
      assert after == [Text(after[0].data)] + after[1..];
      Shuffled(l, head, tail, after[0].data, after[1..]);
    } else {
      after' := [Text(tail)] + after;
      assert before' + after' == l + [Text(head), Text(tail)] + after;
      TextsMerge(l, head, tail, after);
    }
    FlatConcat(before', after');
  }

  lemma OneNewline()
    ensures Recount(Cells([Text("\n")], [])) == Pos(1, 0)
    ensures !Shifts([Text("\n")], 1) && EndsWithRow([Text("\n")] + [], 1)
  {
    var doc := [Text("\n")];
    assert doc + [] == doc && doc[1..] == [];
    assert Cells(doc, []) == [Cell('\n', [])];
    assert [Cell('\n', [])][..0] == [];
  }
}
