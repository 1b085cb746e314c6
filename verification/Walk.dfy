/**
 The traversals of the document: moving forwards to a goal, and deleting to the right.
 `left` is what the traversal has passed, `right` what is still ahead of it; the node it
 stands at is the first of `right`.  The input line is out of the document meanwhile.
 */
module Walk {
  import opened Grid
  import opened Document
  import opened Landing

  ghost predicate Wf(doc: seq<Token>) {
    Balanced(doc) && AllPlain(Cells(doc, []))
  }

  // What moving on from the end of `left`, taken to be at `p`, comes to.
  ghost function Ahead(left: seq<Token>, right: seq<Token>, p: Pos, goal: Pos): (seq<Cell>, nat)
  {
    Concat(left, right, []);
    Outcome(Cells(left + right, []), |Cells(left, [])|, p, goal)
  }

  // The position counted so far never overshoots the goal.
  predicate Within(p: Pos, goal: Pos) {
    && 0 <= p.line && 0 <= p.col
    && (goal.line >= 0 ==> p.line <= goal.line)
    && ((goal.line < 0 || p.line == goal.line) && goal.col >= 0 ==> p.col <= goal.col)
    && (p.line == goal.line && goal.col < 0 ==> p.col == 0)
  }

  lemma TextAt(l: seq<Token>, s: string, rest: seq<Token>)
    ensures var path := PathAfter(l, []);
            && Cells(l + [Text(s)] + rest, []) == Cells(l, []) + CellsOf(s, path) + Cells(rest, path)
            && Cells(l + rest, []) == Cells(l, []) + Cells(rest, path)
    ensures Depth(l + [Text(s)] + rest, 0) == Depth(l + rest, 0)
  {
    var path := PathAfter(l, []);
    Snoc(l, Text(s), []);
    Concat(l + [Text(s)], rest, []);
    Concat(l, rest, []);
    DepthSnoc(l, Text(s), 0);
    DepthConcat(l + [Text(s)], rest, 0);
    DepthConcat(l, rest, 0);
  }

  // Adjacent text nodes and their merger show the same.
  lemma TextsMerge(l: seq<Token>, a: string, b: string, rest: seq<Token>)
    ensures Cells(l + [Text(a + b)] + rest, []) == Cells(l + [Text(a), Text(b)] + rest, [])
    ensures Depth(l + [Text(a + b)] + rest, 0) == Depth(l + [Text(a), Text(b)] + rest, 0)
    ensures Cells(l + [Text(a)], []) == Cells(l, []) + CellsOf(a, PathAfter(l, []))
    ensures PathAfter(l + [Text(a)], []) == PathAfter(l, [])
  {
    hide Cells, PathAfter, Depth;
    var path := PathAfter(l, []);
    Snoc(l, Text(a), []);
    TextAt(l, a + b, rest);
    TextAt(l + [Text(a)], b, rest);
    TextAt(l, a, rest);
    assert l + [Text(a), Text(b)] + rest == l + [Text(a)] + [Text(b)] + rest;
    CellsOfConcat(a, b, path);
  }

  // Merge a text node with the text nodes just before it.
  method MergeTexts(left: seq<Token>, right: seq<Token>) returns (l: seq<Token>, data: string, start: nat)
    requires right != [] && right[0].Text?
    ensures start <= |data| && (l == [] || !Last(l).Text?)
    ensures Cells(l + [Text(data)] + right[1..], []) == Cells(left + right, [])
    ensures Depth(l + [Text(data)] + right[1..], 0) == Depth(left + right, 0)
    ensures Cells(left, []) == Cells(l, []) + CellsOf(data[..start], PathAfter(l, []))
    ensures PathAfter(left, []) == PathAfter(l, []) && l <= left
    ensures data[start..] == right[0].data
  {
    hide Cells, PathAfter, Depth;
    l, data, start := left, right[0].data, 0;
    assert left + right == l + [Text(data)] + right[1..];
    while l != [] && Last(l).Text?
      invariant start <= |data| && l <= left
      invariant Cells(l + [Text(data)] + right[1..], []) == Cells(left + right, [])
      invariant Depth(l + [Text(data)] + right[1..], 0) == Depth(left + right, 0)
      invariant Cells(left, []) == Cells(l, []) + CellsOf(data[..start], PathAfter(l, []))
      invariant PathAfter(left, []) == PathAfter(l, [])
      invariant data[start..] == right[0].data
    {
      var before, l' := Last(l).data, l[..|l| - 1];
      assert l == l' + [Text(before)];
      TextsMerge(l', before, data, right[1..]);
      assert l' + [Text(before), Text(data)] + right[1..] == l + [Text(data)] + right[1..];
      assert (before + data)[..|before| + start] == before + data[..start];
      CellsOfConcat(before, data[..start], PathAfter(l', []));
      l, data, start := l', before + data, |before| + start;
    }
  }

  ghost predicate Scanned(l: seq<Token>, data: string, i: nat, rest: seq<Token>, p: Pos, goal: Pos,
                          want: (seq<Cell>, nat))
  {
    var doc := Cells(l + [Text(data)] + rest, []);
    && i <= |data| && |Cells(l, [])| + i <= |doc|
    && Outcome(doc, |Cells(l, [])| + i, p, goal) == want
  }

  // The cells around offset `i` of a text node.
  lemma InText(l: seq<Token>, data: string, i: nat, rest: seq<Token>)
    requires i <= |data|
    ensures var doc, k := Cells(l + [Text(data)] + rest, []), |Cells(l, [])| + i;
            && k <= |doc|
            && (i < |data| ==> k < |doc| && doc[k] == Cell(data[i], PathAfter(l, [])))
            && doc[..k] == Cells(l, []) + CellsOf(data[..i], PathAfter(l, []))
            && doc[k..] == CellsOf(data[i..], PathAfter(l, [])) + Cells(rest, PathAfter(l, []))
  {
    hide Cells, PathAfter, Depth;
    TextAt(l, data, rest);
    CellsOfSplit(data, i, PathAfter(l, []));
  }

  lemma ScanStep(l: seq<Token>, data: string, i: nat, rest: seq<Token>, p: Pos, goal: Pos, want: (seq<Cell>, nat))
    requires i < |data| && Scanned(l, data, i, rest, p, goal, want)
    requires !Stops(p, goal) && !(data[i] == '\n' && p.line == goal.line)
    ensures Scanned(l, data, i + 1, rest, Advance(p, data[i]), goal, want)
  {
    hide Cells, PathAfter, Depth;
    InText(l, data, i, rest);
    Stepped(Cells(l + [Text(data)] + rest, []), |Cells(l, [])| + i, p, goal);
  }

  lemma ScanPad(l: seq<Token>, data: string, i: nat, rest: seq<Token>, p: Pos, goal: Pos, want: (seq<Cell>, nat))
    requires i < |data| && Scanned(l, data, i, rest, p, goal, want)
    requires p.col < goal.col && data[i] == '\n' && p.line == goal.line
    ensures Scanned(l, data[..i] + Repeat(' ', goal.col - p.col) + data[i..], i + goal.col - p.col, rest, goal, goal, want)
  {
    hide Cells, PathAfter, Depth;
    var path := PathAfter(l, []);
    var spaces := Repeat(' ', goal.col - p.col);
    var data' := data[..i] + spaces + data[i..];
    InText(l, data, i, rest);
    TextAt(l, data', rest);
    CellsOfConcat(data[..i] + spaces, data[i..], path);
    CellsOfConcat(data[..i], spaces, path);
    Padded(Cells(l + [Text(data)] + rest, []), |Cells(l, [])| + i, p, goal, Cells(l + [Text(data')] + rest, []));
  }

  // The recount of what the traversal has passed inside a text node.
  ghost function Counted(l: seq<Token>, data: string, i: nat): Pos
    requires i <= |data|
  {
    Recount(Cells(l, []) + CellsOf(data[..i], PathAfter(l, [])))
  }

  lemma CountStep(l: seq<Token>, data: string, i: nat)
    requires i < |data|
    ensures Counted(l, data, i + 1) == Advance(Counted(l, data, i), data[i])
  {
    hide Cells, PathAfter, RecountFrom;
    var path := PathAfter(l, []);
    assert CellsOf(data[..i + 1], path) == CellsOf(data[..i], path) + [Cell(data[i], path)];
    assert Cells(l, []) + CellsOf(data[..i + 1], path) == Cells(l, []) + CellsOf(data[..i], path) + [Cell(data[i], path)];
    RecountSnoc(ORIGIN, Cells(l, []) + CellsOf(data[..i], path), Cell(data[i], path));
  }

  lemma CountPad(l: seq<Token>, data: string, i: nat, n: nat)
    requires i <= |data|
    ensures Counted(l, data[..i] + Repeat(' ', n) + data[i..], i + n) ==
            Pos(Counted(l, data, i).line, Counted(l, data, i).col + n)
  {
    hide Cells, PathAfter, RecountFrom;
    var path := PathAfter(l, []);
    var data' := data[..i] + Repeat(' ', n) + data[i..];
    assert data'[..i + n] == data[..i] + Repeat(' ', n);
    CellsOfConcat(data[..i], Repeat(' ', n), path);
    var before, pad := Cells(l, []) + CellsOf(data[..i], path), CellsOf(Repeat(' ', n), path);
    assert Cells(l, []) + CellsOf(data'[..i + n], path) == before + pad;
    RecountConcat(ORIGIN, before, pad);
    RecountSpaces(Recount(before), n, path);
  }

  predicate PlainText(data: string) {
    forall j :: 0 <= j < |data| ==> Plain(data[j])
  }

  // ---------- Row breaks ----------

  function Breaks(data: string): nat {
    if data == "" then 0 else Breaks(data[..|data| - 1]) + if Last(data) == '\n' then 1 else 0
  }

  lemma NoBreaks()
    ensures Breaks("") == 0
  {
  }

  lemma OneMoreBreak(data: string, start: nat, i: nat)
    requires start <= i < |data|
    ensures Breaks(data[start..i + 1]) == Breaks(data[start..i]) + if data[i] == '\n' then 1 else 0
  {
    assert data[start..i + 1][..i - start] == data[start..i];
  }

  lemma {:induction false} BreaksConcat(a: string, b: string)
    ensures Breaks(a + b) == Breaks(a) + Breaks(b)
    decreases |b|
  {
    if b == "" {
      assert a + b == a;
    } else {
      assert (a + b)[..|a + b| - 1] == a + b[..|b| - 1];
      BreaksConcat(a, b[..|b| - 1]);
    }
  }

  function BreaksOf(t: Token): nat {
    match t
    case Br => 1
    case Text(data) => Breaks(data)
    case _ => 0
  }

  function BreaksIn(toks: seq<Token>): nat {
    if toks == [] then 0 else BreaksOf(toks[0]) + BreaksIn(toks[1..])
  }

  // A node that ends with a row break.
  predicate EndsRow(t: Token) {
    t.Br? || (t.Text? && t.data != "" && Last(t.data) == '\n')
  }

  // The document without the ends of spans that it ends with.
  function Opened(toks: seq<Token>): (open: seq<Token>)
    ensures |open| <= |toks| && (open != [] ==> !Last(open).Close?)
  {
    if toks != [] && Last(toks).Close? then Opened(toks[..|toks| - 1]) else toks
  }

  // Going on from row `line` to the start of row `goal` comes to the end of the document: the row
  // is not there, or there is nothing in it, not even an empty node or the start of a span.
  predicate Falls(right: seq<Token>, line: int, goal: int) {
    var open := Opened(right);
    || open == [] || line + BreaksIn(open) < goal
    || (line + BreaksIn(open) == goal && EndsRow(Last(open)))
  }

  lemma {:induction false} OpenedFirst(t: Token, rest: seq<Token>)
    ensures Opened([t] + rest) == if Opened(rest) == [] && t.Close? then [] else [t] + Opened(rest)
    decreases |rest|
  {
    var toks := [t] + rest;
    if rest == [] {
      assert toks == [t] && toks[..0] == [];
    } else if Last(rest).Close? {
      assert toks[..|toks| - 1] == [t] + rest[..|rest| - 1];
      OpenedFirst(t, rest[..|rest| - 1]);
    }
  }

  lemma {:induction false} LastBreaks(toks: seq<Token>)
    requires toks != [] && EndsRow(Last(toks))
    ensures BreaksIn(toks) > 0
  {
    if |toks| == 1 {
      assert toks[1..] == [];
    } else {
      assert Last(toks[1..]) == Last(toks);
      LastBreaks(toks[1..]);
    }
  }

  // The end of a span on the way makes no difference.
  lemma FallsPastClose(rest: seq<Token>, line: int, goal: int)
    ensures Falls([Close] + rest, line, goal) == Falls(rest, line, goal)
  {
    OpenedFirst(Close, rest);
    var open := Opened(rest);
    assert ([Close] + open)[1..] == open;
  }

  // A node that is passed whole.
  lemma FallsPast(t: Token, rest: seq<Token>, line: int, goal: int)
    requires !t.Close? && line < goal && line + BreaksOf(t) <= goal
    requires line + BreaksOf(t) == goal ==> EndsRow(t)
    ensures line + BreaksOf(t) < goal && Opened(rest) != [] ==>
              Falls([t] + rest, line, goal) == Falls(rest, line + BreaksOf(t), goal)
    ensures line + BreaksOf(t) == goal && Opened(rest) != [] ==> !Falls([t] + rest, line, goal)
    ensures Opened(rest) == [] ==> Falls([t] + rest, line, goal)
  {
    OpenedFirst(t, rest);
    var open := Opened(rest);
    assert ([t] + open)[1..] == open;
    if open != [] && EndsRow(Last(open)) {
      LastBreaks(open);
    }
  }

  lemma {:induction false} BreaksInConcat(a: seq<Token>, b: seq<Token>)
    ensures BreaksIn(a + b) == BreaksIn(a) + BreaksIn(b)
  {
    if a == [] {
      assert a + b == b;
    } else {
      assert (a + b)[1..] == a[1..] + b;
      BreaksInConcat(a[1..], b);
    }
  }

  lemma {:induction false} OpenedBreaks(toks: seq<Token>)
    ensures BreaksIn(Opened(toks)) == BreaksIn(toks)
    decreases |toks|
  {
    if toks != [] && Last(toks).Close? {
      var front := toks[..|toks| - 1];
      assert toks == front + [Close];
      BreaksInConcat(front, [Close]);
      assert [Close][1..] == [];
      OpenedBreaks(front);
    }
  }

  lemma {:induction false} BreaksRecount(data: string, p: Pos, path: seq<string>)
    ensures RecountFrom(p, CellsOf(data, path)).line == p.line + Breaks(data)
    decreases |data|
  {
    if data != "" {
      var front := data[..|data| - 1];
      assert CellsOf(data, path) == CellsOf(front, path) + [Cell(Last(data), path)];
      RecountSnoc(p, CellsOf(front, path), Cell(Last(data), path));
      BreaksRecount(front, p, path);
    }
  }

  // The row breaks of the nodes are the rows of the recount.
  lemma {:induction false} BreaksAreRows(toks: seq<Token>, p: Pos, path: seq<string>)
    ensures RecountFrom(p, Cells(toks, path)).line == p.line + BreaksIn(toks)
    decreases |toks|
  {
    hide RecountFrom;
    if toks == [] {
      RecountNil(p);
    } else {
      var here := toks[0].Cells(path);
      RecountConcat(p, here, Cells(toks[1..], toks[0].PathAfter(path)));
      BreaksAreRows(toks[1..], RecountFrom(p, here), toks[0].PathAfter(path));
      match toks[0] {
        case Text(data) => BreaksRecount(data, p, path);
        case Br =>
          RecountNil(p);
          RecountSnoc(p, [], Cell('\n', path));
          assert [] + [Cell('\n', path)] == [Cell('\n', path)];
        case _ => RecountNil(p);
      }
    }
  }

  // Row `line` is the last one, and there is nothing in it but the ends of spans.
  predicate EndsWithRow(doc: seq<Token>, line: int) {
    Recount(Cells(doc, [])).line == line && Opened(doc) != [] && EndsRow(Last(Opened(doc)))
  }

  lemma {:induction false} OpenedCells(doc: seq<Token>)
    ensures Cells(Opened(doc), []) == Cells(doc, [])
    decreases |doc|
  {
    hide Cells, PathAfter;
    if doc != [] && Last(doc).Close? {
      var front := doc[..|doc| - 1];
      assert doc == front + [Close];
      Snoc(front, Close, []);
      OpenedCells(front);
    }
  }

  // Then the newline that begins the row is the last there is.
  lemma EndsWithBreak(doc: seq<Token>, line: int)
    requires EndsWithRow(doc, line)
    ensures Cells(doc, []) != [] && Last(Cells(doc, [])).ch == '\n' && Recount(Cells(doc, [])) == Pos(line, 0)
  {
    hide Cells, PathAfter;
    OpenedCells(doc);
    var open := Opened(doc);
    var front, t := open[..|open| - 1], Last(open);
    assert open == front + [t];
    Snoc(front, t, []);
    var cs := Cells(doc, []);
    assert Last(cs).ch == '\n' by {
      assert Last(cs) == Last(t.Cells(PathAfter(front, [])));
    }
    assert cs == cs[..|cs| - 1] + [Last(cs)];
    RecountSnoc(ORIGIN, cs[..|cs| - 1], Last(cs));
  }

  // So nothing in the row is in front of the cursor.
  lemma NothingInFront(left: seq<Token>, right: seq<Token>, line: int)
    requires EndsWithRow(left + right, line) && Recount(Cells(left, [])).line == line
    ensures Cells(left, []) == [] || Last(Cells(left, [])).ch == '\n'
  {
    hide Cells, PathAfter, Recount;
    EndsWithBreak(left + right, line);
    Concat(left, right, []);
    var l, r := Cells(left, []), Cells(right, PathAfter(left, []));
    if r != [] {
      assert (l + r)[..|l|] == l && (l + r)[..|l + r|] == l + r;
      Between(l + r, |l|, |l + r| - 1);
      NextPlace(l + r, |l + r| - 1);
      assert false;
    } else {
      assert l + r == l;
    }
  }

  // Going to a row below the first that is there.
  lemma FallsAtRow(doc: seq<Token>, line: int)
    requires 0 < line <= Recount(Cells(doc, [])).line
    ensures Falls(doc, 0, line) <==> EndsWithRow(doc, line)
  {
    hide Cells, RecountFrom;
    OpenedBreaks(doc);
    BreaksAreRows(doc, ORIGIN, []);
  }

  // A text in which the row begins, with something behind that.
  lemma StaysInText(data: string, i: nat, rest: seq<Token>, line: int, goal: int)
    requires i < |data| && line + Breaks(data[..i]) >= goal
    ensures !Falls([Text(data)] + rest, line, goal)
  {
    hide Breaks;
    OpenedFirst(Text(data), rest);
    var open := Opened(rest);
    assert ([Text(data)] + open)[1..] == open;
    assert data == data[..i] + data[i..];
    BreaksConcat(data[..i], data[i..]);
    if open != [] && EndsRow(Last(open)) {
      LastBreaks(open);
    } else if open == [] && Last(data) == '\n' {
      OneMoreBreak(data, i, |data| - 1);
      assert data[i..|data| - 1 + 1] == data[i..];
    }
  }

  // Read a text node from offset `start`, stopping inside it once at the goal.
  method ScanText(l: seq<Token>, data0: string, start: nat, rest: seq<Token>, p: Pos, goal: Pos)
    returns (data: string, i: nat, line: int, column: int, ghost row: nat)
    requires start <= |data0| && PlainText(data0)
    requires !Stops(p, goal) && Within(p, goal)
    ensures i <= |data| && PlainText(data) && Within(Pos(line, column), goal)
    ensures i < |data| ==> Stops(Pos(line, column), goal)
    ensures forall want :: Scanned(l, data0, start, rest, p, goal, want)
                       ==> Scanned(l, data, i, rest, Pos(line, column), goal, want)
    ensures Counted(l, data0, start) == p ==> Counted(l, data, i) == Pos(line, column)
    ensures row <= |data0| && (Counted(l, data0, start) == p ==> Counted(l, data0, row).line == line)
    ensures data == data0 || Stops(Pos(line, column), goal)
    ensures goal.col <= 0 ==> start <= i && data == data0 && line == p.line + Breaks(data0[start..i])
                              && (line >= goal.line ==> i > 0 && data0[i - 1] == '\n')
  {
    hide Cells, PathAfter, Depth, Scanned, Counted, Breaks;
    NoBreaks();
    assert data0[start..start] == "";
    data, i, line, column := data0, start, p.line, p.col;
    row := start;
    while i < |data|
      invariant i <= |data| && PlainText(data) && Within(Pos(line, column), goal)
      invariant forall want :: Scanned(l, data0, start, rest, p, goal, want)
                           ==> Scanned(l, data, i, rest, Pos(line, column), goal, want)
      invariant Counted(l, data0, start) == p ==> Counted(l, data, i) == Pos(line, column)
      invariant row <= |data0| && (Counted(l, data0, start) == p ==> Counted(l, data0, row).line == line)
      invariant (data == data0 && row == i) || Stops(Pos(line, column), goal)
      invariant goal.col <= 0 ==> start <= i && data == data0 && line == p.line + Breaks(data0[start..i])
                                  && (line >= goal.line ==> i > 0 && data0[i - 1] == '\n')
      decreases !Stops(Pos(line, column), goal), |data| - i
    {
      if line >= goal.line && column >= goal.col {
        break;
      }
      var ch := data[i];
      var nextColumn := UpdateColumn(ch, column);
      forall want | Scanned(l, data, i, rest, Pos(line, column), goal, want) && !(ch == '\n' && line == goal.line)
        ensures Scanned(l, data, i + 1, rest, Advance(Pos(line, column), ch), goal, want)
      {
        ScanStep(l, data, i, rest, Pos(line, column), goal, want);
      }
      CountStep(l, data, i);
      if goal.col <= 0 {
        OneMoreBreak(data0, start, i);
      }
      if nextColumn == -1 {
        if line == goal.line {
          var nspaces := goal.col - column;
          forall want | Scanned(l, data, i, rest, Pos(line, column), goal, want)
            ensures Scanned(l, data[..i] + Repeat(' ', nspaces) + data[i..], i + nspaces, rest, goal, goal, want)
          {
            ScanPad(l, data, i, rest, Pos(line, column), goal, want);
          }
          CountPad(l, data, i, nspaces);
          data := data[..i] + Repeat(' ', nspaces) + data[i..];
          i := i + nspaces;
          column := goal.col;
        } else {
          line := line + 1;
          column := 0;
          i, row := i + 1, i + 1;
        }
      } else {
        column := nextColumn;
        i, row := i + 1, i + 1;
      }
    }
  }

  // Append to a text node at the end of `left`, or add one.
  method AppendData(left: seq<Token>, data: string) returns (left': seq<Token>)
    ensures Cells(left', []) == Cells(left, []) + CellsOf(data, PathAfter(left, []))
    ensures PathAfter(left', []) == PathAfter(left, []) && Depth(left', 0) == Depth(left, 0)
    ensures left == [] && data != "" ==> left' == [Text(data)]
    ensures SpansKept(left, left')
  {
    hide Cells, PathAfter, Depth;
    if left != [] && Last(left).Text? {
      var l, before := left[..|left| - 1], Last(left).data;
      assert left == l + [Text(before)];
      left' := l + [Text(before + data)];
      CellsOfConcat(before, data, PathAfter(l, []));
      DepthSnoc(l, Text(before), 0);
      DepthSnoc(l, Text(before + data), 0);
      Snoc(l, Text(before), []);
      Snoc(l, Text(before + data), []);
    } else {
      left' := left + [Text(data)];
      Snoc(left, Text(data), []);
      DepthSnoc(left, Text(data), 0);
    }
  }

  // The same, but no empty node is made.
  method AppendText(left: seq<Token>, data: string) returns (left': seq<Token>)
    ensures Cells(left', []) == Cells(left, []) + CellsOf(data, PathAfter(left, []))
    ensures PathAfter(left', []) == PathAfter(left, []) && Depth(left', 0) == Depth(left, 0)
    ensures left == [] && data != "" ==> left' == [Text(data)]
    ensures SpansKept(left, left')
    ensures data == "" ==> left' == left
  {
    left' := left;
    if data != "" {
      left' := AppendData(left, data);
    }
  }

  // Stepping over a span's start or end passes no character.
  lemma PassTag(left: seq<Token>, t: Token, rest: seq<Token>)
    requires t.Open? || t.Close?
    ensures Cells(left + [t], []) == Cells(left, []) && left + [t] + rest == left + ([t] + rest)
  {
    hide Cells, PathAfter;
    Snoc(left, t, []);
  }

  lemma PassBreak(left: seq<Token>, rest: seq<Token>, p: Pos, goal: Pos)
    requires !Stops(p, goal) && p.line != goal.line
    ensures Ahead(left + [Br], rest, Advance(p, '\n'), goal) == Ahead(left, [Br] + rest, p, goal)
    ensures Recount(Cells(left + [Br], [])) == Advance(Recount(Cells(left, [])), '\n')
  {
    hide Cells, PathAfter, Depth, RecountFrom;
    var path := PathAfter(left, []);
    Snoc(left, Br, []);
    Concat(left + [Br], rest, []);
    assert left + [Br] + rest == left + ([Br] + rest);
    RecountSnoc(ORIGIN, Cells(left, []), Cell('\n', path));
    Stepped(Cells(left + [Br] + rest, []), |Cells(left, [])|, p, goal);
  }

  // Padding the row that the break ends.
  lemma PadAtBreak(left: seq<Token>, left': seq<Token>, rest: seq<Token>, p: Pos, goal: Pos)
    requires p.col < goal.col && p.line == goal.line
    requires Cells(left', []) == Cells(left, []) + CellsOf(Repeat(' ', goal.col - p.col), PathAfter(left, []))
    requires PathAfter(left', []) == PathAfter(left, [])
    ensures Ahead(left', [Br] + rest, goal, goal) == Ahead(left, [Br] + rest, p, goal)
    ensures Recount(Cells(left, [])) == p ==> Recount(Cells(left', [])) == goal
  {
    hide Cells, PathAfter, Depth, RecountFrom;
    var path := PathAfter(left, []);
    var spaces := CellsOf(Repeat(' ', goal.col - p.col), path);
    Concat(left', [Br] + rest, []);
    Concat(left, [Br] + rest, []);
    Concat([Br], rest, path);
    BreakCells(path);
    Padded(Cells(left + ([Br] + rest), []), |Cells(left, [])|, p, goal, Cells(left' + ([Br] + rest), []));
    RecountConcat(ORIGIN, Cells(left, []), spaces);
    RecountSpaces(Recount(Cells(left, [])), goal.col - p.col, path);
  }

  lemma BreakCells(path: seq<string>)
    ensures Cells([Br], path) == [Cell('\n', path)] && PathAfter([Br], path) == path
  {
    assert [Br][1..] == [];
  }

  // Standing at a text node is standing at the scanning offset of the merged node.
  lemma BeforeScan(left: seq<Token>, right: seq<Token>, l: seq<Token>, data: string, start: nat, p: Pos, goal: Pos)
    requires right != [] && right[0].Text? && start <= |data|
    requires Cells(l + [Text(data)] + right[1..], []) == Cells(left + right, [])
    requires Cells(left, []) == Cells(l, []) + CellsOf(data[..start], PathAfter(l, []))
    ensures Scanned(l, data, start, right[1..], p, goal, Ahead(left, right, p, goal))
    ensures Counted(l, data, start) == Recount(Cells(left, []))
  {
    hide Cells, PathAfter, Depth, RecountFrom;
    InText(l, data, start, right[1..]);
  }

  // The node passed up to offset `i` and, if anything is left of it, split there.
  function Passed(l: seq<Token>, data: string, i: nat): seq<Token>
    requires i <= |data|
  {
    l + [Text(data[..i])]
  }

  function Rest(data: string, i: nat, rest: seq<Token>): seq<Token>
    requires i <= |data|
  {
    if i < |data| then [Text(data[i..])] + rest else rest
  }

  lemma AfterScan(l: seq<Token>, data: string, i: nat, rest: seq<Token>)
    requires i <= |data|
    ensures Cells(Passed(l, data, i) + Rest(data, i, rest), []) == Cells(l + [Text(data)] + rest, [])
    ensures Depth(Passed(l, data, i) + Rest(data, i, rest), 0) == Depth(l + [Text(data)] + rest, 0)
    ensures Cells(Passed(l, data, i), []) == Cells(l, []) + CellsOf(data[..i], PathAfter(l, []))
  {
    hide Cells, PathAfter, Depth;
    Snoc(l, Text(data[..i]), []);
    if i < |data| {
      TextsMerge(l, data[..i], data[i..], rest);
      assert data[..i] + data[i..] == data;
      assert Passed(l, data, i) + Rest(data, i, rest) == l + [Text(data[..i]), Text(data[i..])] + rest;
    } else {
      assert data[..i] == data;
    }
  }

  // Putting `pad` at the end of the document, to reach a row or column it does not have.
  lemma FellOff(left: seq<Token>, left': seq<Token>, p: Pos, goal: Pos)
    requires Balanced(left)
    requires Cells(left', []) == Cells(left, []) + CellsOf(Repeat('\n', goal.line - p.line) + Repeat(' ', goal.col - p.col), [])
    ensures Ahead(left, [], p, goal) == (Cells(left', []), |Cells(left', [])|)
  {
    hide Cells, PathAfter, Depth;
    assert left + [] == left;
    var cs, k := Cells(left, []), |Cells(left, [])|;
    if Stops(p, goal) {
      Stopped(cs, k, p, goal);
    } else {
      var pad := Land(cs, k, p, goal).pad;
      assert cs[..k] + pad + cs[k..] == cs + pad;
    }
  }

  // A cached coordinate is unknown or what a recount gives.
  predicate CacheOk(cached: int, counted: int) {
    cached < 0 || cached == counted
  }

  // The coordinates kept after falling off the end are the goal's.
  lemma FellOffCount(left: seq<Token>, left': seq<Token>, p: Pos, goal: Pos)
    requires Within(p, goal) && Recount(Cells(left, [])) == p
    requires Cells(left', []) == Cells(left, []) + CellsOf(Repeat('\n', goal.line - p.line) + Repeat(' ', goal.col - p.col), [])
    ensures CacheOk(goal.line, Recount(Cells(left', [])).line)
    ensures p.line < goal.line ==>
              (CacheOk(goal.col, Recount(Cells(left', [])).col) <==> goal.col <= 0 || p.col == 0)
    ensures p.line >= goal.line ==> CacheOk(goal.col, Recount(Cells(left', [])).col)
  {
    hide Cells, PathAfter, Depth, RecountFrom;
    var n, m := goal.line - p.line, goal.col - p.col;
    RecountConcat(ORIGIN, Cells(left, []), CellsOf(Repeat('\n', n) + Repeat(' ', m), []));
    assert Repeat('\n', n) == Repeat('\n', Max(0, n));
    PadAtEnd(p, Max(0, n), m);
  }

  lemma PlainTextOf(l: seq<Token>, data: string, rest: seq<Token>)
    requires AllPlain(Cells(l + [Text(data)] + rest, []))
    ensures PlainText(data)
  {
    hide Cells, PathAfter, Depth;
    forall i | 0 <= i < |data|
      ensures Plain(data[i])
    {
      InText(l, data, i, rest);
    }
  }

  lemma WfAfterScan(l: seq<Token>, data0: string, data: string, rest: seq<Token>)
    requires Wf(l + [Text(data0)] + rest) && PlainText(data)
    ensures Wf(l + [Text(data)] + rest)
  {
    hide Cells, PathAfter, Depth;
    TextAt(l, data0, rest);
    TextAt(l, data, rest);
    var path := PathAfter(l, []);
    var cs, cs0 := Cells(l + [Text(data)] + rest, []), Cells(l + [Text(data0)] + rest, []);
    var a, b := Cells(l, []), Cells(rest, path);
    forall i | 0 <= i < |cs|
      ensures Plain(cs[i].ch)
    {
      if i < |a| {
        assert cs[i] == cs0[i];
      } else if i >= |a| + |data| {
        assert cs[i] == cs0[i - |data| + |data0|];
      }
    }
  }

  // On the way to the start of a row, a node is passed whole, or the row begins inside it.
  ghost predicate NodePassed(right: seq<Token>, right': seq<Token>, p: Pos, p': Pos, goal: Pos)
    requires right != []
  {
    || (&& right' == right[1..] && p'.line == p.line + BreaksOf(right[0])
        && (p'.line >= goal.line ==> EndsRow(right[0])))
    || (&& Stops(p', goal) && right' != [] && !right'[0].Close?
        && !Falls(right, p.line, goal.line))
  }

  lemma SteppedText(right: seq<Token>, data: string, start: nat, i: nat, p: Pos, p': Pos, goal: Pos)
    requires right != [] && right[0].Text? && start <= i <= |data| && data[start..] == right[0].data
    requires p'.line == p.line + Breaks(data[start..i]) && p.line < goal.line
    requires p'.line >= goal.line ==> i > 0 && data[i - 1] == '\n'
    requires i < |data| ==> Stops(p', goal)
    ensures NodePassed(right, Rest(data, i, right[1..]), p, p', goal)
  {
    hide Falls;
    NoBreaks();
    var text := right[0].data;
    assert right == [Text(text)] + right[1..];
    assert data[start..i] == text[..i - start];
    if i < |data| {
      StaysInText(text, i - start, right[1..], p.line, goal.line);
    } else {
      assert text[..i - start] == text;
      assert i == start ==> text[..0] == "";
    }
  }

  // The text case of the loop: merge, scan, split.
  method VisitText(left: seq<Token>, right: seq<Token>, p: Pos, goal: Pos)
    returns (left': seq<Token>, right': seq<Token>, p': Pos)
    requires Wf(left + right) && right != [] && right[0].Text?
    requires Within(p, goal) && !Stops(p, goal)
    ensures Wf(left' + right') && Within(p', goal) && SpansKept(left + right, left' + right')
    ensures Ahead(left', right', p', goal) == Ahead(left, right, p, goal)
    ensures Recount(Cells(left, [])) == p ==>
              Recount(Cells(left', [])) == p' && HasRow(Cells(left + right, []), p'.line)
    ensures Cells(left' + right', []) == Cells(left + right, []) || Stops(p', goal)
    ensures |right'| < |right| || Stops(p', goal)
    ensures goal.col <= 0 ==> NodePassed(right, right', p, p', goal)
  {
    hide Cells, PathAfter, Depth, RecountFrom, Scanned, Counted, Passed, Rest, Breaks, Falls;
    var rest := right[1..];
    var l, data0, start := MergeTexts(left, right);
    BeforeScan(left, right, l, data0, start, p, goal);
    PlainTextOf(l, data0, rest);
    var data, i, line, column, row := ScanText(l, data0, start, rest, p, goal);
    assert Scanned(l, data, i, rest, Pos(line, column), goal, Ahead(left, right, p, goal));
    left', right', p' := Passed(l, data, i), Rest(data, i, rest), Pos(line, column);
    AfterScan(l, data, i, rest);
    WfAfterScan(l, data0, data, rest);
    ScannedIsAhead(l, data, i, rest, p', goal, Ahead(left, right, p, goal));
    RowOf(l, data0, row, rest);
    RestLength(data, i, rest);
    CountedPassed(l, data, i);
    if goal.col <= 0 {
      SteppedText(right, data, start, i, p, p', goal);
    }
    ScanKeepsSpans(left, right, l, data, i);
  }

  lemma ScanKeepsSpans(left: seq<Token>, right: seq<Token>, l: seq<Token>, data: string, i: nat)
    requires right != [] && i <= |data| && l <= left
    ensures SpansKept(left + right, Passed(l, data, i) + Rest(data, i, right[1..]))
  {
    FlatConcat(left, right);
    assert BARE in l ==> BARE in left;
    assert BARE in right[1..] ==> BARE in right;
  }

  lemma RestLength(data: string, i: nat, rest: seq<Token>)
    requires i <= |data|
    ensures |Rest(data, i, rest)| == |rest| + (if i < |data| then 1 else 0)
  {
  }

  lemma CountedPassed(l: seq<Token>, data: string, i: nat)
    requires i <= |data|
    ensures Recount(Cells(Passed(l, data, i), [])) == Counted(l, data, i)
  {
    AfterScan(l, data, i, []);
  }

  lemma ScannedIsAhead(l: seq<Token>, data: string, i: nat, rest: seq<Token>, p: Pos, goal: Pos, want: (seq<Cell>, nat))
    requires i <= |data| && Scanned(l, data, i, rest, p, goal, want)
    ensures Ahead(Passed(l, data, i), Rest(data, i, rest), p, goal) == want
  {
    hide Cells, PathAfter, Depth, Passed, Rest;
    AfterScan(l, data, i, rest);
  }

  // A place counted inside a text node is in a row the document has.
  lemma RowOf(l: seq<Token>, data: string, i: nat, rest: seq<Token>)
    requires i <= |data|
    ensures HasRow(Cells(l + [Text(data)] + rest, []), Counted(l, data, i).line)
  {
    hide Cells, PathAfter, Depth, RecountFrom;
    InText(l, data, i, rest);
    var cs := Cells(l + [Text(data)] + rest, []);
    Between(cs, |Cells(l, [])| + i, |cs|);
    assert cs[..|cs|] == cs;
  }

  // The break case of the loop: a new row, or spaces up to the goal before the break.
  method VisitBreak(left: seq<Token>, right: seq<Token>, p: Pos, goal: Pos)
    returns (left': seq<Token>, right': seq<Token>, p': Pos)
    requires Wf(left + right) && right != [] && right[0].Br?
    requires Within(p, goal) && !Stops(p, goal)
    ensures Wf(left' + right') && Within(p', goal) && SpansKept(left + right, left' + right')
    ensures Ahead(left', right', p', goal) == Ahead(left, right, p, goal)
    ensures Recount(Cells(left, [])) == p ==>
              Recount(Cells(left', [])) == p' && HasRow(Cells(left + right, []), p'.line)
    ensures Cells(left' + right', []) == Cells(left + right, []) || Stops(p', goal)
    ensures |right'| < |right| || Stops(p', goal)
    ensures goal.col <= 0 ==> NodePassed(right, right', p, p', goal)
  {
    hide Cells, PathAfter, Depth, RecountFrom;
    var rest := right[1..];
    assert [Br] + rest == right && left + [Br] + rest == left + right;
    PlaceInDocument(left + [Br], rest);
    if p.line == goal.line {
      left' := AppendText(left, Repeat(' ', goal.col - p.col));
      FlatConcat(left, right);
      FlatConcat(left', right);
      right', p' := right, goal;
      PadAtBreak(left, left', rest, p, goal);
      PlaceInDocument(left, right);
      DepthConcat(left', right, 0);
      DepthConcat(left, right, 0);
      Concat(left', right, []);
      Concat(left, right, []);
      WfPad(Cells(left, []), CellsOf(Repeat(' ', goal.col - p.col), PathAfter(left, [])), Cells(right, PathAfter(left, [])));
    } else {
      left', right', p' := left + [Br], rest, Pos(p.line + 1, 0);
      PassBreak(left, rest, p, goal);
    }
  }

  lemma WfPad(a: seq<Cell>, pad: seq<Cell>, b: seq<Cell>)
    requires AllPlain(a + b) && Blank(pad)
    ensures AllPlain(a + pad + b)
  {
    forall i | 0 <= i < |a + pad + b|
      ensures Plain((a + pad + b)[i].ch)
    {
      if i < |a| {
        assert (a + pad + b)[i] == (a + b)[i];
      } else if i >= |a| + |pad| {
        assert (a + pad + b)[i] == (a + b)[i - |pad|];
      }
    }
  }

  lemma PlaceInDocument(left: seq<Token>, right: seq<Token>)
    ensures HasRow(Cells(left + right, []), Recount(Cells(left, [])).line)
  {
    hide Cells, PathAfter, Depth, RecountFrom;
    Concat(left, right, []);
    var cs := Cells(left + right, []);
    assert cs[..|Cells(left, [])|] == Cells(left, []) && cs[..|cs|] == cs;
    Between(cs, |Cells(left, [])|, |cs|);
  }

  // Go up past the ends of spans.
  method Climb(left0: seq<Token>, right0: seq<Token>) returns (left: seq<Token>, right: seq<Token>)
    ensures left + right == left0 + right0 && |right| <= |right0|
    ensures Cells(left, []) == Cells(left0, [])
    ensures right != [] ==> !right[0].Close?
    ensures right0 != [] && right0[0].Close? ==> |right| < |right0|
    ensures Climbed(right0, right) && (left0 == [] && right0 == [] ==> left == [])
  {
    hide Cells, PathAfter, Depth;
    left, right := left0, right0;
    while right != [] && right[0].Close?
      invariant left + right == left0 + right0 && |right| <= |right0|
      invariant Cells(left, []) == Cells(left0, [])
      invariant right == right0 || |right| < |right0|
      invariant right0[|right0| - |right|..] == right
      invariant forall i :: 0 <= i < |right0| - |right| ==> right0[i].Close?
    {
      PassTag(left, right[0], right[1..]);
      left, right := left + [right[0]], right[1..];
    }
  }

  // Add the rows and columns that the document does not have, at its end.
  method Extend(left: seq<Token>, p: Pos, goal: Pos) returns (left': seq<Token>)
    requires Wf(left) && Within(p, goal)
    ensures Wf(left') && SpansKept(left, left')
    ensures left == [] && p.line < goal.line && goal.col <= p.col ==> left' == [Text(Repeat('\n', goal.line - p.line))]
    ensures Cells(left', []) == Cells(left, []) + CellsOf(Repeat('\n', goal.line - p.line) + Repeat(' ', goal.col - p.col), [])
  {
    hide Cells, PathAfter, Depth, RecountFrom;
    BalancedPath(left);
    left' := AppendText(left, Repeat('\n', goal.line - p.line));
    left' := AppendText(left', Repeat(' ', goal.col - p.col));
    CellsOfConcat(Repeat('\n', goal.line - p.line), Repeat(' ', goal.col - p.col), []);
    var pad := CellsOf(Repeat('\n', goal.line - p.line) + Repeat(' ', goal.col - p.col), []);
    assert Cells(left', []) == Cells(left, []) + pad;
    WfPad(Cells(left, []), pad, []);
    assert Cells(left, []) + [] == Cells(left, []);
    assert Cells(left, []) + pad + [] == Cells(left, []) + pad;
  }

  // One node of the loop: text, break, or into a span.
  method Visit(left: seq<Token>, right: seq<Token>, p: Pos, goal: Pos)
    returns (left': seq<Token>, right': seq<Token>, p': Pos)
    requires Wf(left + right) && right != [] && !right[0].Close?
    requires Within(p, goal) && !Stops(p, goal)
    ensures Wf(left' + right') && Within(p', goal) && SpansKept(left + right, left' + right')
    ensures Ahead(left', right', p', goal) == Ahead(left, right, p, goal)
    ensures Recount(Cells(left, [])) == p ==>
              Recount(Cells(left', [])) == p' && HasRow(Cells(left + right, []), p'.line)
    ensures Cells(left' + right', []) == Cells(left + right, []) || Stops(p', goal)
    ensures |right'| < |right| || Stops(p', goal)
    ensures goal.col <= 0 ==> NodePassed(right, right', p, p', goal)
  {
    hide Cells, PathAfter, Depth, RecountFrom, Ahead;
    match right[0] {
      case Br => left', right', p' := VisitBreak(left, right, p, goal);
      case Text(_) => left', right', p' := VisitText(left, right, p, goal);
      case Open(_) =>
        PassTag(left, right[0], right[1..]);
        assert [right[0]] + right[1..] == right;
        left', right', p' := left + [right[0]], right[1..], p;
        PlaceInDocument(left, right);
        SameAhead(left, right, left', right', p, goal);
    }
  }

  // The main loop of moveTo, with the input line taken out of the document.  To the start of a
  // row, the column cached is that of the row's start, or the goal's if the document ends there.
  method MoveFrom(left0: seq<Token>, right0: seq<Token>, p: Pos, goal: Pos)
    returns (left: seq<Token>, right: seq<Token>, line: int, column: int)
    requires Wf(left0 + right0) && Within(p, goal)
    ensures Wf(left + right) && SpansKept(left0 + right0, left + right)
    ensures (Cells(left + right, []), |Cells(left, [])|) == Ahead(left0, right0, p, goal)
    ensures goal.line >= 0 && goal.col >= 0 ==> Pos(line, column) == goal
    ensures Recount(Cells(left0, [])) == p ==>
              && CacheOk(line, Recount(Cells(left, [])).line)
              && (CacheOk(column, Recount(Cells(left, [])).col) <==> MoveSafe(Cells(left0 + right0, []), goal))
    ensures Stops(p, goal) ==> Pos(line, column) == p
    ensures !Stops(p, goal) && goal.col <= 0 ==>
              column == if Falls(right0, p.line, goal.line) then goal.col else 0
    ensures left0 == [] && right0 == [] && p.line < goal.line && goal.col <= p.col ==>
              left == [Text(Repeat('\n', goal.line - p.line))] && right == []
  {
    hide Cells, PathAfter, Depth, RecountFrom, Ahead, Falls, BreaksOf, EndsRow;
    ghost var cs0, want := Cells(left0 + right0, []), Ahead(left0, right0, p, goal);
    ghost var good, falls := Recount(Cells(left0, [])) == p, Falls(right0, p.line, goal.line);
    left, right, line, column := left0, right0, p.line, p.col;
    PlaceInDocument(left, right);
    while line < goal.line || column < goal.col
      invariant Wf(left + right) && Within(Pos(line, column), goal)
      invariant SpansKept(left0 + right0, left + right)
      invariant Ahead(left, right, Pos(line, column), goal) == want
      invariant good ==> Recount(Cells(left, [])) == Pos(line, column) && HasRow(cs0, line)
      invariant Cells(left + right, []) == cs0 || Stops(Pos(line, column), goal)
      invariant Stops(p, goal) ==> Pos(line, column) == p
      invariant goal.col <= 0 && !Stops(p, goal) ==>
                  if Stops(Pos(line, column), goal) then !falls else falls == Falls(right, line, goal.line)
      invariant left0 == [] && right0 == [] ==> left == [] && right == [] && Pos(line, column) == p
      decreases !Stops(Pos(line, column), goal), |right|
    {
      ghost var r0, l0 := right, line;
      if right != [] && !right[0].Close? {
        var p' := Pos(line, column);
        left, right, p' := Visit(left, right, p', goal);
        line, column := p'.line, p'.col;
      }
      ghost var l, r := left, right;
      left, right := Climb(left, right);
      SameAhead(l, r, left, right, Pos(line, column), goal);
      if goal.col <= 0 {
        StepFalls(r0, r, right, l0, Pos(line, column), goal);
      }
      if right == [] {
        assert left + [] == left;
        left, line, column := FallOff(left, Pos(line, column), goal, cs0);
        return;
      }
    }
    StoppedAhead(left, right, Pos(line, column), goal);
  }

  // One round of the loop: the question whether it falls off stays the same until it is settled.
  lemma StepFalls(right0: seq<Token>, r: seq<Token>, right: seq<Token>, line0: int, p: Pos, goal: Pos)
    requires goal.col <= 0 && 0 <= line0 < goal.line && Within(p, goal)
    requires if right0 != [] && !right0[0].Close? then NodePassed(right0, r, Pos(line0, 0), p, goal)
             else r == right0 && p.line == line0
    requires Climbed(r, right)
    ensures right == [] ==> Falls(right0, line0, goal.line)
    ensures right != [] ==>
              if Stops(p, goal) then !Falls(right0, line0, goal.line)
              else Falls(right0, line0, goal.line) == Falls(right, p.line, goal.line)
  {
    hide Falls, BreaksOf, EndsRow;
    ClimbFalls(r, right, p.line, goal.line);
    if right0 != [] && !right0[0].Close? && r == right0[1..] && p.line == line0 + BreaksOf(right0[0]) {
      assert right0 == [right0[0]] + r;
      if p.line < goal.line || EndsRow(right0[0]) {
        FallsPast(right0[0], r, line0, goal.line);
      }
    }
    if right == [] {
      NothingOpen(right0, line0, goal.line);
    }
  }

  // Only ends of spans stand between them.
  predicate Climbed(r: seq<Token>, right: seq<Token>) {
    && |right| <= |r| && r[|r| - |right|..] == right
    && (forall i :: 0 <= i < |r| - |right| ==> r[i].Close?)
    && (right != [] ==> !right[0].Close?)
  }

  lemma {:induction false} ClimbFalls(r: seq<Token>, right: seq<Token>, line: int, goal: int)
    requires Climbed(r, right)
    ensures Falls(r, line, goal) == Falls(right, line, goal)
    ensures Opened(r) == [] <==> right == []
    decreases |r|
  {
    hide Falls;
    if |right| < |r| {
      assert r == [Close] + r[1..];
      FallsPastClose(r[1..], line, goal);
      OpenedFirst(Close, r[1..]);
      assert r[1..][|r[1..]| - |right|..] == right;
      ClimbFalls(r[1..], right, line, goal);
    } else {
      assert r == right;
      if right != [] {
        OpenedFirst(right[0], right[1..]);
        assert right == [right[0]] + right[1..];
      }
    }
  }

  lemma NothingOpen(right: seq<Token>, line: int, goal: int)
    ensures Opened(right) == [] ==> Falls(right, line, goal)
  {
  }

  // The end of cursorHome is reached: the document is extended and the goal taken as reached.
  method FallOff(left0: seq<Token>, p: Pos, goal: Pos, ghost cs0: seq<Cell>)
    returns (left: seq<Token>, line: int, column: int)
    requires Wf(left0 + []) && Within(p, goal)
    requires Cells(left0 + [], []) == cs0 || Stops(p, goal)
    ensures left0 == [] && p.line < goal.line && goal.col <= p.col ==> left == [Text(Repeat('\n', goal.line - p.line))]
    ensures Wf(left + []) && Pos(line, column) == goal && SpansKept(left0, left + [])
    ensures (Cells(left + [], []), |Cells(left, [])|) == Ahead(left0, [], p, goal)
    ensures Recount(Cells(left0, [])) == p && HasRow(cs0, p.line) ==>
              && CacheOk(line, Recount(Cells(left, [])).line)
              && (CacheOk(column, Recount(Cells(left, [])).col) <==> MoveSafe(cs0, goal))
  {
    hide Cells, PathAfter, Depth, RecountFrom, Ahead;
    assert left0 + [] == left0;
    left := Extend(left0, p, goal);
    assert left + [] == left;
    FellOff(left0, left, p, goal);
    if Recount(Cells(left0, [])) == p {
      FellOffCount(left0, left, p, goal);
    }
    line, column := goal.line, goal.col;
  }

  lemma SameAhead(l: seq<Token>, r: seq<Token>, l': seq<Token>, r': seq<Token>, p: Pos, goal: Pos)
    requires l + r == l' + r' && Cells(l, []) == Cells(l', [])
    ensures Ahead(l, r, p, goal) == Ahead(l', r', p, goal)
  {
  }

  lemma StoppedAhead(left: seq<Token>, right: seq<Token>, p: Pos, goal: Pos)
    requires Stops(p, goal)
    ensures Ahead(left, right, p, goal) == (Cells(left + right, []), |Cells(left, [])|)
  {
    hide Cells;
    Concat(left, right, []);
    Stopped(Cells(left + right, []), |Cells(left, [])|, p, goal);
  }
}
