/**
 Deleting to the right of the cursor, in the current row.  `passed` holds the span tags
 already stepped over, `rest` what is still to the right of them.
 */
module Erasing {
  import opened Grid
  import opened Document

  predicate Enough(seen: int, count: int) {
    count >= 0 && seen >= count
  }

  // How many cells go: up to the end of the row, or until `count` columns are seen (a negative
  // count never is).
  function ErasedFrom(cs: seq<Cell>, k: nat, seen: int, count: int): (n: nat)
    requires k <= |cs|
    ensures k <= n <= |cs|
    decreases |cs| - k
  {
    if k == |cs| || cs[k].ch == '\n' || Enough(seen, count) then k
    else ErasedFrom(cs, k + 1, seen + CharColumns(cs[k].ch), count)
  }

  function Erased(cs: seq<Cell>, count: int): (n: nat)
    ensures n <= |cs|
  {
    ErasedFrom(cs, 0, 0, count)
  }

  // The deleted cells are a stretch of the row: the shortest that has the columns asked for, or
  // all the rest of the row if it has fewer.
  lemma {:induction false} ErasedIsRowPart(cs: seq<Cell>, k: nat, seen: int, count: int)
    requires k <= |cs| && (count < 0 || seen <= count)
    ensures var n := ErasedFrom(cs, k, seen, count);
            var columns := Columns(Chars(cs[k..n]));
            && (forall i :: k <= i < n ==> cs[i].ch != '\n')
            && (n == |cs| || cs[n].ch == '\n' || (count >= 0 && columns == count - seen))
            && (count >= 0 ==> columns <= count - seen)
            && (count >= 0 && k < n ==> Columns(Chars(cs[k..n - 1])) < count - seen)
    decreases |cs| - k
  {
    hide Columns;
    var n := ErasedFrom(cs, k, seen, count);
    if n == k {
      assert Chars(cs[k..k]) == "";
      NoColumns();
    } else {
      ErasedIsRowPart(cs, k + 1, seen + CharColumns(cs[k].ch), count);
      FirstColumn(cs, k, n);
      if n == k + 1 {
        assert Chars(cs[k..n - 1]) == "";
        NoColumns();
      } else {
        FirstColumn(cs, k, n - 1);
      }
    }
  }

  lemma FirstColumn(cs: seq<Cell>, k: nat, n: nat)
    requires k < n <= |cs|
    ensures Columns(Chars(cs[k..n])) == CharColumns(cs[k].ch) + Columns(Chars(cs[k + 1..n]))
  {
    hide Columns;
    assert Chars(cs[k..n]) == [cs[k].ch] + Chars(cs[k + 1..n]);
    ColumnsConcat([cs[k].ch], Chars(cs[k + 1..n]));
    OneCharacter(cs[k].ch);
  }

  // Without its first cells, all in the first row, a stretch keeps its other rows.
  lemma RowsWithout(cs: seq<Cell>, n: nat)
    requires n <= |cs| && forall i :: 0 <= i < n ==> cs[i].ch != '\n'
    ensures n <= |Rows(cs)[0]| && Rows(cs)[0][..n] == cs[..n]
    ensures Rows(cs[n..]) == [Rows(cs)[0][n..]] + Rows(cs)[1..]
  {
    hide Rows;
    assert cs == cs[..n] + cs[n..];
    RowsOneLine(cs[..n]);
    RowsConcat(cs[..n], cs[n..]);
    var s := Rows(cs[n..]);
    assert Rows(cs) == [cs[..n] + s[0]] + s[1..];
    assert s == [s[0]] + s[1..];
  }

  // The rows that are left: the first one has lost its beginning, the others are as before.
  lemma ErasedRows(cs: seq<Cell>, count: int)
    ensures var row, n := Rows(cs)[0], Erased(cs, count);
            && n == Erased(row, count) <= |row|
            && Rows(cs[n..]) == [row[n..]] + Rows(cs)[1..]
            && (count < 0 ==> n == |row|)
  {
    hide Rows, ErasedFrom, Columns;
    var n, row := Erased(cs, count), Rows(cs)[0];
    ErasedIsRowPart(cs, 0, 0, count);
    RowsWithout(cs, n);
    ErasedOfRow(cs, row, count);
    if count < 0 {
      FirstRow(cs[n..]);
      assert Rows(cs[n..])[0] == row[n..];
    }
  }

  // Where every character has a column, as many cells go as columns.
  lemma ErasedOneColumn(row: seq<Cell>, count: nat)
    requires OneColumn(row) && forall i :: 0 <= i < |row| ==> row[i].ch != '\n'
    ensures Erased(row, count) == if count > |row| then |row| else count
  {
    hide ErasedFrom, Columns;
    var n := Erased(row, count);
    ErasedIsRowPart(row, 0, 0, count);
    OneColumnColumns(row[0..n]);
  }

  // Only the first row matters.
  lemma ErasedOfRow(cs: seq<Cell>, row: seq<Cell>, count: int)
    requires row == Rows(cs)[0]
    ensures Erased(row, count) == Erased(cs, count)
  {
    hide Rows, ErasedFrom;
    FirstRowIsPrefix(cs);
    SameErased(cs, row, 0, 0, count);
  }

  lemma {:induction false} SameErased(cs: seq<Cell>, row: seq<Cell>, k: nat, seen: int, count: int)
    requires k <= |row| && row <= cs && (|row| == |cs| || cs[|row|].ch == '\n')
    requires forall i :: 0 <= i < |row| ==> row[i].ch != '\n'
    ensures ErasedFrom(row, k, seen, count) == ErasedFrom(cs, k, seen, count)
    decreases |row| - k
  {
    if k < |row| && !Enough(seen, count) {
      SameErased(cs, row, k + 1, seen + CharColumns(row[k].ch), count);
    }
  }

  // The first row is what stands in front of the first newline.
  lemma {:induction false} FirstRowIsPrefix(cs: seq<Cell>)
    ensures var row := Rows(cs)[0];
            && row <= cs && (|row| == |cs| || cs[|row|].ch == '\n')
            && (forall i :: 0 <= i < |row| ==> row[i].ch != '\n')
    decreases |cs|
  {
    if cs == [] || cs[0].ch == '\n' {
      FirstRow(cs);
    } else {
      FirstRowIsPrefix(cs[1..]);
      hide Rows;
      RowsWithout(cs, 1);
      var row := Rows(cs)[0];
      assert Rows(cs[1..])[0] == row[1..];
      assert row == [cs[0]] + row[1..] && cs == [cs[0]] + cs[1..];
    }
  }

  lemma {:induction false} FirstRow(cs: seq<Cell>)
    ensures cs == [] || cs[0].ch == '\n' <==> Rows(cs)[0] == []
    decreases |cs|
  {
    if |cs| > 1 {
      FirstRow(cs[..|cs| - 1]);
    }
  }

  // The invariant of the traversal of the cells `cs`: `k` of them are deleted, no other has
  // been passed, and it is to stop at `end`.
  ghost predicate Erasing(passed: seq<Token>, rest: seq<Token>, path: seq<string>, cs: seq<Cell>, k: nat)
  {
    && k <= |cs|
    && Cells(passed, path) == []
    && Cells(rest, PathAfter(passed, path)) == cs[k..]
  }

  // The text case: how many characters of the node go.
  method ScanErase(text: string, seen0: nat, count0: int, curColumn: int, ghost cs: seq<Cell>, ghost k: nat)
    returns (i: nat, seen: nat, count: int, asked: bool)
    requires k + |text| <= |cs|
    requires forall j :: 0 <= j < |text| ==> text[j] == cs[k + j].ch && Plain(text[j])
    ensures i <= |text| && (i < |text| ==> Enough(seen, count))
    ensures count0 < 0 && i == |text| ==> count < 0
    ensures ErasedFrom(cs, k, seen0, count0) == ErasedFrom(cs, k + i, seen, count)
  {
    i, seen, count, asked := 0, seen0, count0, false;
    while i < |text|
      invariant i <= |text| && count == count0
      invariant ErasedFrom(cs, k, seen0, count0) == ErasedFrom(cs, k + i, seen, count)
    {
      if Enough(seen, count) {
        break;
      }
      var ch := text[i];
      if ' ' <= ch < '\U{7f}' {
        seen := seen + 1;
      } else if ch == '\r' || ch == '\n' || ch == FORM_FEED {
        count := seen;
        break;
      } else {
        asked := true;
        var col := UpdateColumn(ch, curColumn + seen);
        seen := col - curColumn;
      }
      i := i + 1;
    }
  }

  // Skip a node without characters.
  lemma PassTag(passed: seq<Token>, t: Token, rest: seq<Token>, path: seq<string>, cs: seq<Cell>, k: nat)
    requires t.Open? || t.Close?
    requires Erasing(passed, [t] + rest, path, cs, k)
    ensures Erasing(passed + [t], rest, path, cs, k)
  {
    Snoc(passed, t, path);
  }

  lemma FirstText(text: string, rest: seq<Token>, path: seq<string>)
    ensures Cells([Text(text)] + rest, path) == CellsOf(text, path) + Cells(rest, path)
    ensures forall d: int :: d >= 0 ==> Depth([Text(text)] + rest, d) == Depth(rest, d)
  {
    assert ([Text(text)] + rest)[1..] == rest;
  }

  // Delete part of a text node, or all of it.
  lemma EraseText(passed: seq<Token>, text: string, rest: seq<Token>, path: seq<string>, cs: seq<Cell>, k: nat, i: nat)
    requires i <= |text| && Erasing(passed, [Text(text)] + rest, path, cs, k)
    ensures k + |text| <= |cs| && forall j :: 0 <= j < |text| ==> text[j] == cs[k + j].ch
    ensures Erasing(passed, if i == |text| then rest else [Text(text[i..])] + rest, path, cs, k + i)
  {
    hide PathAfter;
    var p := PathAfter(passed, path);
    hide Cells;
    FirstText(text, rest, p);
    FirstText(text[i..], rest, p);
    var more := Cells(rest, p);
    assert cs[k..] == CellsOf(text, p) + more;
    CellsOfSplit(text, i, p);
    assert cs[k + i..] == cs[k..][i..];
    forall j | 0 <= j < |text|
      ensures text[j] == cs[k + j].ch
    {
      assert cs[k + j] == cs[k..][j];
    }
  }

  // Removing the tags of a span with nothing in it changes what encloses nothing.
  lemma RemoveSpan(passed: seq<Token>, style: string, rest: seq<Token>, path: seq<string>, cs: seq<Cell>, k: nat)
    requires Erasing(passed + [Open(style)], [Close] + rest, path, cs, k)
    ensures Erasing(passed, rest, path, cs, k)
    ensures forall d: int :: Depth(passed + [Open(style)] + ([Close] + rest), d) == Depth(passed + rest, d)
  {
    Snoc(passed, Open(style), path);
    assert PathAfter(passed, path) + [style] != [] && (PathAfter(passed, path) + [style])[..|PathAfter(passed, path)|] == PathAfter(passed, path);
    assert ([Close] + rest)[1..] == rest;
    forall d: int
      ensures Depth(passed + [Open(style)] + ([Close] + rest), d) == Depth(passed + rest, d)
    {
      DepthConcat(passed + [Open(style)], [Close] + rest, d);
      DepthConcat(passed, rest, d);
      DepthSnoc(passed, Open(style), d);
    }
  }

  lemma EraseTextDepth(passed: seq<Token>, text: string, text': string, rest: seq<Token>, d: int)
    ensures Depth(passed + ([Text(text)] + rest), d) == Depth(passed + rest, d)
    ensures Depth(passed + ([Text(text')] + rest), d) == Depth(passed + rest, d)
  {
    hide Depth;
    DepthConcat(passed, [Text(text)] + rest, d);
    DepthConcat(passed, [Text(text')] + rest, d);
    DepthConcat(passed, rest, d);
    DepthConcat([Text(text)], rest, Depth(passed, d));
    DepthConcat([Text(text')], rest, Depth(passed, d));
    DepthSnoc([], Text(text), Depth(passed, d));
    DepthSnoc([], Text(text'), Depth(passed, d));
    assert [] + [Text(text)] == [Text(text)] && [] + [Text(text')] == [Text(text')];
    DepthNil(Depth(passed, d));
  }

  lemma DepthNil(d: int)
    ensures d >= -1 ==> Depth([], d) == d
  {
  }

  // Go up past the ends of spans, removing those that have lost all their children.  The span
  // that holds the input line is not among them: its start tag is to the left of the cursor.
  method ClimbErase(passed0: seq<Token>, rest0: seq<Token>, ghost path: seq<string>, ghost cs: seq<Cell>, ghost k: nat)
    returns (passed: seq<Token>, rest: seq<Token>)
    requires Erasing(passed0, rest0, path, cs, k)
    ensures Erasing(passed, rest, path, cs, k)
    ensures rest0 == [] || !rest0[0].Close? ==> passed == passed0 && rest == rest0
    ensures forall d: int :: Depth(passed + rest, d) == Depth(passed0 + rest0, d)
    ensures BARE in passed + rest ==> BARE in passed0 + rest0
    ensures |rest| <= |rest0| && (rest != [] ==> !rest[0].Close?)
    ensures rest0 != [] && rest0[0].Close? ==> |rest| < |rest0|
  {
    hide Cells, PathAfter, Depth, Erasing;
    passed, rest := passed0, rest0;
    while rest != [] && rest[0].Close?
      invariant Erasing(passed, rest, path, cs, k)
      invariant forall d: int :: Depth(passed + rest, d) == Depth(passed0 + rest0, d)
      invariant BARE in passed + rest ==> BARE in passed0 + rest0
      invariant rest == rest0 || |rest| < |rest0|
      invariant rest0 == [] || !rest0[0].Close? ==> passed == passed0 && rest == rest0
    {
      var parent := rest[0];
      assert rest == [Close] + rest[1..];
      if passed != [] && Last(passed).Open? {
        var p := passed[..|passed| - 1];
        assert passed == p + [Open(Last(passed).style)];
        RemoveSpan(p, Last(passed).style, rest[1..], path, cs, k);
        passed, rest := p, rest[1..];
      } else {
        PassTag(passed, parent, rest[1..], path, cs, k);
        assert passed + [parent] + rest[1..] == passed + rest;
        passed, rest := passed + [parent], rest[1..];
      }
    }
  }

  // The text case of the loop: the node is removed, or its first characters are.
  method EraseFromText(passed: seq<Token>, rest0: seq<Token>, seen0: nat, count0: int, curColumn: int,
                       ghost path: seq<string>, ghost cs: seq<Cell>, ghost k0: nat)
    returns (rest: seq<Token>, seen: nat, count: int, asked: bool, ghost k: nat)
    requires rest0 != [] && rest0[0].Text? && !Enough(seen0, count0)
    requires Erasing(passed, rest0, path, cs, k0) && AllPlain(cs)
    ensures Erasing(passed, rest, path, cs, k) && k0 <= k <= |cs|
    ensures ErasedFrom(cs, k, seen, count) == ErasedFrom(cs, k0, seen0, count0)
    ensures forall d: int :: Depth(passed + rest, d) == Depth(passed + rest0, d)
    ensures |rest| < |rest0| || (|rest| == |rest0| && Enough(seen, count))
    ensures |rest| < |rest0| ==> rest == rest0[1..]
    ensures |rest| == |rest0| ==> rest[0].Text? && rest[0].data != "" && rest[1..] == rest0[1..]
    ensures count0 < 0 && |rest| < |rest0| ==> count < 0
  {
    hide Cells, PathAfter, Depth, Erasing, ErasedFrom;
    var text := rest0[0].data;
    assert rest0 == [Text(text)] + rest0[1..];
    EraseText(passed, text, rest0[1..], path, cs, k0, 0);
    var i;
    i, seen, count, asked := ScanErase(text, seen0, count0, curColumn, cs, k0);
    EraseText(passed, text, rest0[1..], path, cs, k0, i);
    forall d: int
      ensures Depth(passed + ([Text(text)] + rest0[1..]), d) == Depth(passed + rest0[1..], d)
      ensures Depth(passed + ([Text(text[i..])] + rest0[1..]), d) == Depth(passed + rest0[1..], d)
    {
      EraseTextDepth(passed, text, text[i..], rest0[1..], d);
    }
    if i >= |text| {
      rest := rest0[1..];
    } else {
      rest := [Text(text[i..])] + rest0[1..];
    }
    k := k0 + i;
  }

  // The element case: into the span, or past it if it has no child.
  method PassSpan(passed0: seq<Token>, rest0: seq<Token>, ghost path: seq<string>, ghost cs: seq<Cell>, ghost k: nat)
    returns (passed: seq<Token>, rest: seq<Token>)
    requires rest0 != [] && rest0[0].Open? && Erasing(passed0, rest0, path, cs, k)
    ensures Erasing(passed, rest, path, cs, k)
    ensures passed + rest == passed0 + rest0 && |rest| < |rest0|
  {
    hide Cells, PathAfter, Depth, Erasing;
    assert rest0 == [rest0[0]] + rest0[1..];
    PassTag(passed0, rest0[0], rest0[1..], path, cs, k);
    passed, rest := passed0 + [rest0[0]], rest0[1..];
    if rest != [] && rest[0].Close? {
      assert rest == [rest[0]] + rest[1..];
      PassTag(passed, rest[0], rest[1..], path, cs, k);
      passed, rest := passed + [rest[0]], rest[1..];
    }
  }

  // eraseCharactersRight with doDelete: the document right of the cursor afterwards.
  method EraseRight(after: seq<Token>, count0: int, curColumn: int, ghost path: seq<string>)
    returns (after': seq<Token>, asked: bool)
    requires Depth(after, |path|) == 0 && AllPlain(Cells(after, path))
    ensures Cells(after', path) == Cells(after, path)[Erased(Cells(after, path), count0)..]
    ensures Depth(after', |path|) == 0
    ensures SpansKept(after, after')
    ensures Flat(after) && count0 < 0 && after' != [] ==>
              after'[0].Br? || (after'[0].Text? && after'[0].data != "")
  {
    hide Cells, PathAfter, Depth, Erasing, ErasedFrom;
    ghost var cs, k := Cells(after, path), 0;
    var passed, rest, seen: nat, count := [], after, 0, count0;
    asked := false;
    StartErase(after, path);
    while true
      invariant Erasing(passed, rest, path, cs, k) && k <= |cs|
      invariant ErasedFrom(cs, k, seen, count) == Erased(cs, count0)
      invariant Depth(passed + rest, |path|) == 0
      invariant Flat(after) ==> passed == [] && Flat(rest)
      invariant BARE in passed + rest ==> BARE in after
      invariant count0 < 0 ==> count < 0 || Enough(seen, count)
      invariant count0 < 0 && Enough(seen, count) ==> rest != [] && rest[0].Text? && rest[0].data != ""
      decreases !Enough(seen, count), |rest|
    {
      if (rest != [] && rest[0].Br?) || Enough(seen, count) {
        break;
      }
      if rest != [] && rest[0].Text? {
        var more;
        rest, seen, count, more, k := EraseFromText(passed, rest, seen, count, curColumn, path, cs, k);
        asked := asked || more;
        continue;
      }
      if rest != [] && rest[0].Open? {
        passed, rest := PassSpan(passed, rest, path, cs, k);
        if rest != [] && !rest[0].Close? {
          continue;
        }
      }
      passed, rest := ClimbErase(passed, rest, path, cs, k);
      if rest == [] {
        break;
      }
    }
    EndErase(passed, rest, path, cs, k, seen, count);
    after' := passed + rest;
  }

  lemma StartErase(after: seq<Token>, path: seq<string>)
    ensures Erasing([], after, path, Cells(after, path), 0) && [] + after == after
  {
  }

  lemma EndErase(passed: seq<Token>, rest: seq<Token>, path: seq<string>, cs: seq<Cell>, k: nat, seen: int, count: int)
    requires Erasing(passed, rest, path, cs, k)
    requires rest == [] || rest[0].Br? || Enough(seen, count)
    ensures ErasedFrom(cs, k, seen, count) == k && Cells(passed + rest, path) == cs[k..]
  {
    Concat(passed, rest, path);
    if rest != [] && rest[0].Br? {
      assert cs[k] == cs[k..][0];
    }
  }

  lemma NothingErased(cs: seq<Cell>)
    ensures Erased(cs, 0) == 0
  {
  }
}
