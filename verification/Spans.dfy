/**
 The document around the cursor: splitting a span there, and taking a newline away.
 */
module Spans {
  import opened Grid
  import opened Document
  import opened Erasing
  import Styles

  lemma CloseFirst(rest: seq<Token>, path: seq<string>, style: string)
    ensures Cells([Close] + rest, path + [style]) == Cells(rest, path)
    ensures forall d: int :: d >= 0 ==> Depth([Close] + rest, d + 1) == Depth(rest, d)
  {
    assert ([Close] + rest)[1..] == rest;
    assert (path + [style])[..|path|] == path;
  }

  lemma OpenFirst(rest: seq<Token>, path: seq<string>, style: string)
    ensures Cells([Open(style)] + rest, path) == Cells(rest, path + [style])
  {
    assert ([Open(style)] + rest)[1..] == rest;
  }

  lemma DepthFirst(t: Token, rest: seq<Token>, d: int)
    requires d >= 0
    ensures Depth([t] + rest, d) == Depth(rest, d + t.Nesting())
  {
    assert ([t] + rest)[1..] == rest;
  }

  lemma {:induction false} StyledPath(toks: seq<Token>, path: seq<string>)
    requires BARE !in toks && Styles.AllStyled(path)
    ensures Styles.AllStyled(PathAfter(toks, path))
    decreases |toks|
  {
    if toks != [] {
      assert toks[0] in toks && forall t :: t in toks[1..] ==> t in toks;
      StyledPath(toks[1..], toks[0].PathAfter(path));
    }
  }

  // What follows in the innermost span, and what comes after the span.
  method SiblingsInSpan(after: seq<Token>, d: nat) returns (following: seq<Token>, rest: seq<Token>)
    requires d > 0 && Depth(after, d) == 0
    ensures after == following + [Close] + rest && Balanced(following)
  {
    hide Depth;
    var i, inner := 0, 0;
    assert after[..0] == [] && after[0..] == after;
    DepthNil(0);
    while after[i..] == [] || after[i] != Close || inner > 0
      invariant i <= |after| && inner >= 0
      invariant Depth(after[..i], 0) == inner && Depth(after[i..], d + inner) == 0
      decreases |after| - i
    {
      DepthNil(d + inner);
      assert after[..i + 1] == after[..i] + [after[i]];
      DepthSnoc(after[..i], after[i], 0);
      assert after[i..] == [after[i]] + after[i + 1..];
      DepthFirst(after[i], after[i + 1..], d + inner);
      inner := inner + after[i].Nesting();
      i := i + 1;
    }
    following, rest := after[..i], after[i + 1..];
  }

  // Splitting a span at the cursor leaves every character inside the same styles.
  lemma SpanSplits(following: seq<Token>, rest: seq<Token>, style: string, outer: seq<string>)
    requires Balanced(following)
    ensures var after := if following != [] then [Open(style)] + following + [Close] + rest else rest;
            && Cells(after, outer) == Cells(following + [Close] + rest, outer + [style])
            && forall d: int :: d > 0 ==> Depth([Close] + after, d) == Depth(following + [Close] + rest, d)
  {
    hide Cells, PathAfter, Depth;
    if following == [] {
      assert following + [Close] + rest == [Close] + rest;
      CloseFirst(rest, outer, style);
    } else {
      var path := outer + [style];
      var inside := following + ([Close] + rest);
      assert [Open(style)] + following + [Close] + rest == [Open(style)] + inside;
      assert following + [Close] + rest == inside;
      OpenFirst(inside, outer, style);
      forall d: int | d > 0
        ensures Depth([Close] + ([Open(style)] + inside), d) == Depth(inside, d)
      {
        DepthFirst(Close, [Open(style)] + inside, d);
        DepthFirst(Open(style), inside, d - 1);
      }
    }
  }

  // The spans around text of the given kind.
  function WithKind(path: seq<string>, kind: char): seq<string> {
    if kind == 'E' then path + [""] else path
  }

  lemma UnstyledSpan(path: seq<string>, kind: char)
    ensures Styles.Enclosing(WithKind(path, kind)) == Styles.Enclosing(path)
  {
    Styles.EnclosingSnoc(path, "");
    Styles.Unfold("");
  }

  lemma FirstBreak(rest: seq<Token>, path: seq<string>)
    ensures Cells([Br] + rest, path) == [Cell('\n', path)] + Cells(rest, path)
    ensures forall d: int :: d >= 0 ==> Depth([Br] + rest, d) == Depth(rest, d)
  {
    assert ([Br] + rest)[1..] == rest;
  }

  predicate NewlineAhead(after: seq<Token>) {
    after != [] && (after[0].Br? || (after[0].Text? && after[0].data != "" && after[0].data[0] == '\n'))
  }

  lemma NewlineInText(text: string, rest: seq<Token>, path: seq<string>)
    requires text != "" && text[0] == '\n'
    ensures Cells([Text(text)] + rest, path) == [Cell('\n', path)] + Cells([Text(text[1..])] + rest, path)
    ensures forall d: int :: d >= 0 ==> Depth([Text(text)] + rest, d) == Depth([Text(text[1..])] + rest, d)
  {
    hide Cells, PathAfter, Depth;
    assert text == "\n" + text[1..];
    FirstText(text, rest, path);
    FirstText(text[1..], rest, path);
    CellsOfConcat("\n", text[1..], path);
  }

  // A flat rest that does not begin with a newline or break has characters in the row, or
  // there is nothing of it.
  lemma NoRowBelow(after: seq<Token>, path: seq<string>)
    requires Flat(after) && !NewlineAhead(after)
    requires after != [] ==> after[0].Br? || (after[0].Text? && after[0].data != "")
    requires Rows(Cells(after, path))[0] == []
    ensures after == [] && Rows(Cells(after, path)) == [[]]
  {
    FirstRow(Cells(after, path));
  }

  // The newline that comes next goes, if one does.
  method DeleteNewline(after: seq<Token>, ghost path: seq<string>) returns (after': seq<Token>, ok: bool)
    ensures ok <==> NewlineAhead(after)
    ensures ok ==> Cells(after, path) == [Cell('\n', path)] + Cells(after', path)
    ensures !ok ==> after' == after
    ensures forall d: int :: d >= 0 ==> Depth(after', d) == Depth(after, d)
    ensures SpansKept(after, after')
  {
    hide Cells, PathAfter, Depth;
    after', ok := after, true;
    if after != [] && after[0].Text? {
      var text := after[0].data;
      assert after == [Text(text)] + after[1..];
      if |text| == 0 || text[0] != '\n' {
        ok := false;
      } else {
        after' := [Text(text[1..])] + after[1..];
        NewlineInText(text, after[1..], path);
      }
    } else if after != [] && after[0].Br? {
      after' := after[1..];
      assert after == [Br] + after';
      FirstBreak(after', path);
    } else {
      ok := false;
    }
  }
}
