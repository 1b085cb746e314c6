/**
 The terminal's document editor.  The document inside cursorHome is `before` + the input line
 + `after`; output goes in front of the input line.
 */
module Terminal {
  import opened Grid
  import opened Document
  import opened Landing
  import opened Walk
  import opened Erasing
  import opened Counting
  import opened RowEdits
  import opened Wrapping
  import opened Options
  import opened Slips
  import opened Arriving
  import opened Spans
  import opened Shuffling
  import opened Sequences
  import opened Streams
  import opened Sheets
  import opened Tracks
  import opened Inks
  import Styles
  import Sgr
  import Scan = Scanner

  class Terminal {
    var before: seq<Token>
    var after: seq<Token>

    // Cursor coordinates relative to cursorHome; negative if unknown.
    var currentCursorLine: int
    var currentCursorColumn: int
    // The first step, if there is one, that has left a wrong coordinate in the cache.
    ghost var slip: Option<Slip>

    // The styles wanted for text to come, and whether the spans may not declare them yet.
    var currentStyles: seq<string>
    var adjustStyleNeeded: bool
    // The spans around the cursor when they were last adjusted.
    ghost var adjustedAt: seq<string>
    // Whether there may be spans without a style, as those of error output are.
    ghost var bare: bool

    var scrollRegionTop: int
    var scrollRegionBottom: int
    var numRows: int
    var wrapWidth: int
    var savedCursorLine: int
    var savedCursorColumn: int

    const scanner: Scan.Scanner

    // All text handed on for printing and all sequences dispatched so far.
    ghost var printed: string
    ghost var dispatched: seq<Scan.Event>

    // The text printed so far with the styles it was put in, and how often that was not in the
    // styles wanted.
    ghost var inked: seq<Ink>
    ghost var astray: nat

    // What the document shows to the left of the cursor, to the right of it, and in all.
    ghost function Left(): seq<Cell>
      reads `before
    {
      Cells(before, [])
    }

    ghost function Right(): seq<Cell>
      reads `before, `after
    {
      Cells(after, PathAfter(before, []))
    }

    ghost function Screen(): seq<Cell>
      reads `before, `after
    {
      Cells(before + after, [])
    }

    // The cursor's place, recounted.
    ghost function Cursor(): (p: Pos)
      reads `before
      ensures p.line >= 0 && p.col >= 0
    {
      Recount(Left())
    }

    // The widths of the rows, and the cursor's place in them.
    ghost function Geometry(): Shape
      reads `before, `after
    {
      Sides();
      SheetIs(Left(), Right());
      Sheets.Sheet(WidthsOf(Screen()), Cursor())
    }

    lemma GeometryOf()
      ensures Geometry() == SheetOf(Left(), Right())
    {
      Sides();
    }

    // Each cached coordinate is unknown or equal to the recount.
    ghost predicate Coherent()
      reads `before, `currentCursorLine, `currentCursorColumn
    {
      CacheOk(currentCursorLine, Cursor().line) && CacheOk(currentCursorColumn, Cursor().col)
    }

    // Unless they are to be adjusted, the spans around the cursor declare what the last adjustment
    // has made of the styles wanted.
    ghost predicate StylesHeld()
      reads `before, `currentStyles, `adjustStyleNeeded, `adjustedAt
    {
      !adjustStyleNeeded ==> Styles.Held(PathAfter(before, []), adjustedAt, currentStyles)
    }

    ghost predicate Dressed()
      reads `before, `after, `adjustedAt, `bare
    {
      bare || (BARE !in before + after && Styles.AllStyled(adjustedAt))
    }

    twostate lemma StayDressed()
      requires old(Dressed()) && bare == old(bare) && adjustedAt == old(adjustedAt)
      requires SpansKept(old(before + after), before + after)
      ensures Dressed() && (old(Flat(before + after)) ==> Flat(before + after))
    {
    }

    // Text has gone astray only where there was a span without a style, or there is one now.
    twostate predicate NoneAstray(kind: char)
      reads `astray, `bare
    {
      && old(astray) <= astray
      && (!old(bare) && kind != 'E' ==> astray == old(astray) && !bare)
    }

    // The spans at which the styles of text to come are adjusted, or have been.
    ghost function Around(): seq<string>
      reads `before, `adjustStyleNeeded, `adjustedAt
    {
      if adjustStyleNeeded then PathAfter(before, []) else adjustedAt
    }

    // What has been written, and the styles wanted for what comes.
    ghost function Written(): Page
      requires scanner.Valid()
      reads this, scanner, scanner.prevNumParameters
    {
      Page(scanner.Value(), currentStyles, inked)
    }

    ghost predicate Valid()
      reads `before, `after, `currentCursorLine, `currentCursorColumn, `slip, `currentStyles,
            `adjustStyleNeeded, `adjustedAt, `bare
    {
      && Wf(before + after)
      && StylesHeld() && Dressed()
      && (slip == None ==> Coherent()) && (slip.Some? ==> IsSlip(slip.value))
      && (forall d :: d in currentStyles ==> Sgr.IsEntry(d))
    }

    // A slip that has happened stays the first.
    twostate predicate FirstStays()
      reads `slip
    {
      old(slip).Some? ==> slip == old(slip)
    }

    // What has come of the stream so far.
    ghost function Progress(): Scan.Trace
      requires scanner.Valid()
      reads this, scanner, scanner.prevNumParameters
    {
      Scan.Trace(scanner.Value(), printed, dispatched)
    }

    constructor ()
      ensures Valid() && before == [] && after == [] && slip == None && scrollRegionBottom == -1
      ensures currentCursorLine == -1 && currentCursorColumn == -1
      ensures fresh(scanner) && scanner.Valid() && Progress() == Scan.Trace(Scan.START, "", [])
      ensures Written() == Page(Scan.START, [], []) && astray == 0 && !bare
    {
      before, after := [], [];
      currentCursorLine, currentCursorColumn := -1, -1;
      slip := None;
      currentStyles, adjustStyleNeeded := [], false;
      scrollRegionTop, scrollRegionBottom := 0, -1;
      numRows, wrapWidth := 24, 80;
      savedCursorLine, savedCursorColumn := 0, 0;
      scanner := new Scan.Scanner();
      printed, dispatched := "", [];
      adjustedAt, inked, astray, bare := [], [], 0, false;
    }

    lemma Sides()
      ensures Screen() == Left() + Right()
    {
      Concat(before, after, []);
    }

    lemma PlainSides()
      requires AllPlain(Screen())
      ensures AllPlain(Left()) && AllPlain(Right())
    {
      hide Cells, PathAfter;
      Sides();
      forall i | 0 <= i < |Left()|
        ensures Plain(Left()[i].ch)
      {
        assert Screen()[i] == Left()[i];
      }
      forall i | 0 <= i < |Right()|
        ensures Plain(Right()[i].ch)
      {
        assert Screen()[|Left()| + i] == Right()[i];
      }
    }

    method ResetCursorCache()
      modifies `currentCursorLine, `currentCursorColumn
      ensures Coherent()
      ensures currentCursorLine == -1 && currentCursorColumn == -1
    {
      currentCursorLine, currentCursorColumn := -1, -1;
    }

    method UpdateCursorCache()
      requires Valid()
      modifies `currentCursorLine, `currentCursorColumn
      ensures Valid() && Coherent()
      ensures Pos(currentCursorLine, currentCursorColumn) == Cursor()
    {
      PlainSides();
      var p := Delta2D(before);
      currentCursorLine, currentCursorColumn := p.line, p.col;
    }

    method GetCursorLine() returns (line: int)
      requires Valid()
      modifies `currentCursorLine, `currentCursorColumn
      ensures Valid()
      ensures old(Coherent()) ==> Coherent() && line == Cursor().line
      ensures line == currentCursorLine >= 0
      ensures currentCursorColumn == old(currentCursorColumn) || currentCursorColumn >= 0
      ensures old(currentCursorLine) >= 0 ==> unchanged(this)
      ensures Cursor() == old(Cursor()) && ScreenRows() == old(ScreenRows()) && (old(RowsReady()) ==> RowsReady())
    {
      if currentCursorLine < 0 {
        UpdateCursorCache();
      }
      line := currentCursorLine;
    }

    method GetCursorColumn() returns (column: int)
      requires Valid()
      modifies `currentCursorLine, `currentCursorColumn
      ensures Valid()
      ensures old(Coherent()) ==> Coherent() && column == Cursor().col
      ensures column == currentCursorColumn >= 0
      ensures currentCursorLine == old(currentCursorLine) || currentCursorLine >= 0
      ensures old(currentCursorColumn) >= 0 ==> unchanged(this)
    {
      if currentCursorColumn < 0 {
        UpdateCursorCache();
      }
      column := currentCursorColumn;
    }

    // A move was the first slip if it was unsafe and there was none before.
    twostate predicate Slips(cs: seq<Cell>, goal: Pos)
      reads `slip
    {
      slip == Slipped(old(slip), MoveSafe(cs, goal), UnsafeMove(cs, goal))
    }

    // moveTo relative to cursorHome: forwards from the cached cursor when it is not past the
    // goal, otherwise from the start of the document.
    method MoveTo(goalLine: int, goalColumn: int)
      requires Valid()
      modifies `before, `after, `currentCursorLine, `currentCursorColumn, `adjustStyleNeeded, `slip
      ensures Valid() && Slips(old(Screen()), Pos(goalLine, goalColumn)) && adjustStyleNeeded
      ensures old(Coherent()) ==> Arrived(old(Screen()), Pos(goalLine, goalColumn), Screen(), |Left()|)
      ensures old(Coherent()) ==> (Coherent() <==> MoveSafe(old(Screen()), Pos(goalLine, goalColumn)))
      ensures goalLine >= 0 && goalColumn >= 0 ==> currentCursorLine == goalLine && currentCursorColumn == goalColumn
      ensures old(Coherent()) && goalLine >= 0 && goalColumn >= 0 ==>
                Cursor() == Reached(old(Screen()), Pos(goalLine, goalColumn))
      ensures old(Flat(before + after)) ==> Flat(before + after)
      ensures goalColumn < 0 <= old(currentCursorColumn) && old(currentCursorLine) == goalLine >= 0 ==>
                currentCursorColumn == if goalLine > 0 && Falls(old(before + after), 0, goalLine) then goalColumn else 0
    {
      hide Cells, PathAfter, Depth, RecountFrom, Arrived, Recount, MoveSafe, Reached, Falls, Flat, Valid, Slips;
      var goal := Pos(goalLine, goalColumn);
      var left, right, p := [], before + after, ORIGIN;
      OldSlip();
      if currentCursorLine >= 0 && currentCursorColumn >= 0
         && goalLine >= currentCursorLine && (goalLine > currentCursorLine || goalColumn >= currentCursorColumn) {
        left, right, p := before, after, Pos(currentCursorLine, currentCursorColumn);
      }
      assert [] + (before + after) == before + after;
      NothingCounted();
      assert left == [] ==> left == left[..0];
      MoveOn(left, right, p, goal);
    }

    lemma OldSlip()
      requires Valid()
      ensures slip == None ==> Coherent()
    {
    }

    // The same from a given place in the document, whose position is `p` unless the cache was wrong.
    method MoveOn(left: seq<Token>, right: seq<Token>, p: Pos, goal: Pos)
      requires Valid() && left + right == before + after && Within(p, goal)
      requires left == [] || AtOrBefore(p, goal)
      requires slip == None ==> Recount(Cells(left, [])) == p
      modifies `before, `after, `currentCursorLine, `currentCursorColumn, `adjustStyleNeeded, `slip
      ensures Valid() && Slips(old(Screen()), goal) && adjustStyleNeeded
      ensures Recount(Cells(left, [])) == p ==>
                && Arrived(old(Screen()), goal, Screen(), |Left()|)
                && (Coherent() <==> MoveSafe(old(Screen()), goal))
                && (goal.line >= 0 && goal.col >= 0 ==> Cursor() == Reached(old(Screen()), goal))
      ensures goal.line >= 0 && goal.col >= 0 ==> Pos(currentCursorLine, currentCursorColumn) == goal
      ensures old(Flat(before + after)) ==> Flat(before + after)
      ensures Stops(p, goal) ==> Pos(currentCursorLine, currentCursorColumn) == p
      ensures !Stops(p, goal) && goal.col <= 0 ==>
                currentCursorColumn == if Falls(right, p.line, goal.line) then goal.col else 0
    {
      hide Cells, PathAfter, Depth, RecountFrom, Land, Arrived, Recount, MoveSafe, Reached, Ahead, Falls, Flat, Styles.Held, Dressed, Chars;
      adjustStyleNeeded := true;
      ghost var cs, good := Screen(), Recount(Cells(left, [])) == p;
      if good {
        Arrives(left, right, p, goal);
      }
      before, after, currentCursorLine, currentCursorColumn := MoveFrom(left, right, p, goal);
      Concat(before, after, []);
      StayDressed();
      slip := Slipped(slip, MoveSafe(cs, goal), UnsafeMove(cs, goal));
      if good && goal.line >= 0 && goal.col >= 0 {
        ArrivedReaches(cs, goal, Screen(), |Left()|);
        assert Screen()[..|Left()|] == Left();
      }
    }

    // moveTo relative to the cursor, to the start of a row below.
    method MoveDown(deltaLines: int)
      requires Valid() && deltaLines > 0
      modifies `before, `after, `currentCursorLine, `currentCursorColumn, `adjustStyleNeeded
      ensures Valid() && Coherent() && adjustStyleNeeded
      ensures Arrived(old(Screen()), Pos(old(Cursor()).line + deltaLines, 0), Screen(), |Left()|)
      ensures old(Flat(before + after)) ==> Flat(before + after)
      ensures currentCursorColumn == -1
      ensures old(before) == [] && old(after) == [] ==> before == [Text(Repeat('\n', deltaLines))] && after == []
    {
      hide Cells, PathAfter, Depth, RecountFrom, Land;
      adjustStyleNeeded := true;
      ghost var lines, b, a := Cursor().line, before, after;
      var line, column;
      before, after, line, column := MoveFrom(before, after, ORIGIN, Pos(deltaLines, 0));
      Concat(before, after, []);
      ResetCursorCache();
      DownIsAbsolute(b, a, deltaLines);
    }

    method CursorLineStart(deltaLines: int)
      requires Valid()
      modifies `before, `after, `currentCursorLine, `currentCursorColumn, `adjustStyleNeeded, `slip
      ensures Valid() && slip == old(slip)
      ensures old(Coherent()) ==> Coherent()
      ensures old(Coherent()) || deltaLines > 0 ==>
                Arrived(old(Screen()), Pos(old(Cursor()).line + deltaLines, 0), Screen(), |Left()|)
      ensures old(Flat(before + after)) ==> Flat(before + after)
      ensures deltaLines > 0 ==> currentCursorColumn == -1
      ensures deltaLines == 0 ==> currentCursorColumn == 0
      ensures deltaLines > 0 && old(before) == [] && old(after) == [] ==>
                before == [Text(Repeat('\n', deltaLines))] && after == []
    {
      hide Cells, PathAfter, Depth, RecountFrom, Land;
      if deltaLines > 0 {
        MoveDown(deltaLines);
      } else {
        var line := GetCursorLine();
        MoveTo(line + deltaLines, 0);
      }
    }

    method CursorDown(deltaLines: int)
      requires Valid()
      modifies `before, `after, `currentCursorLine, `currentCursorColumn, `adjustStyleNeeded, `slip
      ensures Valid()
      ensures old(Coherent()) ==>
                var goal := Pos(old(Cursor()).line + deltaLines, old(Cursor()).col);
                && Arrived(old(Screen()), goal, Screen(), |Left()|)
                && (Coherent() <==> MoveSafe(old(Screen()), goal))
                && Slips(old(Screen()), goal)
      ensures FirstStays()
      ensures deltaLines >= 0 ==> currentCursorColumn >= 0
    {
      hide Cells, PathAfter, Depth, RecountFrom, Land;
      var line := GetCursorLine();
      var column := GetCursorColumn();
      MoveTo(line + deltaLines, column);
    }

    method CursorRight(count: int)
      requires Valid()
      modifies `before, `after, `currentCursorLine, `currentCursorColumn, `adjustStyleNeeded, `slip
      ensures Valid() && slip == old(slip)
      ensures old(Coherent()) ==> Coherent()
      ensures old(Coherent()) ==>
                Arrived(old(Screen()), Pos(old(Cursor()).line, old(Cursor()).col + count), Screen(), |Left()|)
      ensures count >= 0 ==> currentCursorColumn >= 0
    {
      hide Cells, PathAfter, Depth, RecountFrom, Land;
      var line := GetCursorLine();
      var column := GetCursorColumn();
      CursorRowExists();
      MoveTo(line, column + count);
    }

    lemma CursorRowExists()
      ensures HasRow(Screen(), Cursor().line)
    {
      PlaceInDocument(before, after);
    }

    method SaveCursor()
      requires Valid()
      modifies `currentCursorLine, `currentCursorColumn, `savedCursorLine, `savedCursorColumn
      ensures Valid()
      ensures old(Coherent()) ==> Coherent() && Pos(savedCursorLine, savedCursorColumn) == Cursor()
    {
      hide Cells, PathAfter, Depth, RecountFrom, Land;
      savedCursorLine := GetCursorLine();
      savedCursorColumn := GetCursorColumn();
    }

    method RestoreCursor()
      requires Valid()
      modifies `before, `after, `currentCursorLine, `currentCursorColumn, `adjustStyleNeeded, `slip
      ensures Valid()
      ensures old(Coherent()) ==>
                var goal := Pos(savedCursorLine, savedCursorColumn);
                && Arrived(old(Screen()), goal, Screen(), |Left()|)
                && (Coherent() <==> MoveSafe(old(Screen()), goal))
                && Slips(old(Screen()), goal)
      ensures FirstStays()
    {
      hide Cells, PathAfter, Depth, RecountFrom, Land;
      MoveTo(savedCursorLine, savedCursorColumn);
    }

    // eraseCharactersRight with doDelete.
    method DeleteCharactersRight(count: int)
      requires Valid()
      modifies `after, `currentCursorLine, `currentCursorColumn
      ensures Valid()
      ensures old(Coherent()) ==> Coherent()
      ensures old(currentCursorColumn) >= 0 ==>
                currentCursorColumn == old(currentCursorColumn) && currentCursorLine == old(currentCursorLine)
      ensures Left() == old(Left())
      ensures Right() == old(Right())[Erased(old(Right()), count)..]
      ensures Geometry() == Cut(old(Geometry()), count)
      ensures old(Flat(before + after)) ==>
                && Flat(before + after)
                && (count < 0 && after != [] ==> after[0].Br? || (after[0].Text? && after[0].data != ""))
    {
      hide Cells, PathAfter, Depth, RecountFrom, ErasedFrom, Erased, WidthsOf, Cut;
      Sides();
      GeometryOf();
      CutCells(Left(), Right(), count);
      PlainSides();
      NestedSides();
      var asked;
      FlatConcat(before, after);
      after, asked := EraseRight(after, count, 0, PathAfter(before, []));
      FlatConcat(before, after);
      DepthConcat(before, after, 0);
      Sides();
      GeometryOf();
      if asked {
        var _ := GetCursorColumn();
      }
    }

    lemma NestedSides()
      requires Balanced(before + after)
      ensures Depth(before, 0) == |PathAfter(before, [])|
      ensures Depth(after, |PathAfter(before, [])|) == 0
    {
      DepthConcat(before, after, 0);
      DepthIsPath(before, []);
    }

    // Output goes into the text node in front of the cursor, or a new one.
    method InsertRawOutput(str: string)
      requires Wf(before + after) && PlainText(str)
      modifies `before
      ensures Wf(before + after) && (old(Dressed()) ==> Dressed())
      ensures Left() == old(Left()) + CellsOf(str, old(PathAfter(before, [])))
      ensures Right() == old(Right()) && PathAfter(before, []) == old(PathAfter(before, []))
    {
      hide Cells, PathAfter, Depth;
      ghost var path, b := PathAfter(before, []), before;
      Sides();
      before := AppendData(before, str);
      DepthConcat(b, after, 0);
      DepthConcat(before, after, 0);
      Sides();
      assert AllPlain(old(Screen()));
      assert AllPlain(CellsOf(str, path));
      PlainInsert(old(Left()), CellsOf(str, path), Right());
      assert Screen() == old(Left()) + CellsOf(str, path) + Right();
      assert Balanced(before + after);
    }

    // Move the input line out of the innermost span, behind it; what followed the input line
    // in the span goes into a span of the same style after it.
    method PopStyle()
      requires Wf(before + after) && PathAfter(before, []) != []
      modifies `before, `after
      ensures Wf(before + after) && (BARE in before + after ==> BARE in old(before + after))
      ensures Left() == old(Left()) && Right() == old(Right())
      ensures var path := old(PathAfter(before, [])); PathAfter(before, []) == path[..|path| - 1]
    {
      hide Cells, PathAfter, Depth, Styles.AllStyled;
      ghost var b, a := before, after;
      var path := PathAfter(before, []);
      var style, outer := Last(path), path[..|path| - 1];
      NestedSides();
      Sides();
      var following, rest := SiblingsInSpan(after, |path|);
      if BARE !in before {
        StyledPath(before, []);
      }
      before := before + [Close];
      after := if following != [] then [Open(style)] + following + [Close] + rest else rest;
      Snoc(b, Close, []);
      SpanSplits(following, rest, style, outer);
      assert outer + [style] == path;
      DepthFirst(Close, after, |path|);
      DepthSnoc(b, Close, 0);
      DepthConcat(before, after, 0);
      Sides();
      assert Depth(before, 0) == |path| - 1;
      assert Depth(after, |path| - 1) == 0;
      assert Balanced(before + after);
      assert Screen() == old(Screen());
    }

    // Make the spans around the cursor declare the wanted styles.
    method AdjustStyle()
      requires Valid()
      modifies `before, `after, `adjustStyleNeeded, `adjustedAt
      ensures Valid() && (Coherent() <==> old(Coherent()))
      ensures !adjustStyleNeeded && adjustedAt == old(PathAfter(before, []))
      ensures Left() == old(Left()) && Right() == old(Right())
      ensures var path := old(PathAfter(before, []));
              && Styles.Enclosing(PathAfter(before, [])) == Styles.Adjusted(path, currentStyles)
              && (Styles.Enclosing(PathAfter(before, [])) == currentStyles <==> Styles.NothingStays(path, currentStyles))
              && (Styles.AllStyled(path) ==> Styles.Enclosing(PathAfter(before, [])) == currentStyles)
    {
      hide Cells, PathAfter, Depth, RecountFrom, Recount, Screen, Rows, Styles.NothingStays, Styles.Agreeing;
      hide Styles.Declarations, Styles.Enclosing, Styles.Styled, Styles.JoinStyles;
      adjustStyleNeeded := false;
      var path := PathAfter(before, []);
      adjustedAt := path;
      if BARE !in before + after {
        StyledPath(before, []);
      }
      var popCount, keptStyles := Styles.Compare(Styles.Styled(path), currentStyles);
      Styles.AdjustedIsWanted(path, currentStyles);
      if Styles.AllStyled(path) {
        Styles.AdjustedWhenStyled(path, currentStyles);
      }
      PopStyles(popCount);
      AddStyles(keptStyles);
    }

    // The wanted styles that are not declared yet, if there are any, in a new span.
    method AddStyles(keptStyles: nat)
      requires Wf(before + after) && keptStyles <= |currentStyles|
      requires forall d :: d in currentStyles ==> Sgr.IsEntry(d)
      modifies `before, `after
      ensures Wf(before + after) && (BARE in before + after ==> BARE in old(before + after))
      ensures Left() == old(Left()) && Right() == old(Right())
      ensures Styles.Enclosing(PathAfter(before, []))
           == Styles.Enclosing(old(PathAfter(before, []))) + currentStyles[keptStyles..]
    {
      hide Cells, PathAfter, Depth, RecountFrom, Wf, Styles.Declarations, Styles.Enclosing;
      if keptStyles < |currentStyles| {
        assert forall d :: d in currentStyles[keptStyles..] ==> d in currentStyles && Sgr.IsEntry(d);
        PushSpan(currentStyles[keptStyles..]);
      } else {
        assert Styles.Enclosing(PathAfter(before, [])) + [] == Styles.Enclosing(PathAfter(before, []));
      }
    }

    method PopStyles(popCount: nat)
      requires Wf(before + after) && popCount <= |PathAfter(before, [])|
      modifies `before, `after
      ensures Wf(before + after) && (BARE in before + after ==> BARE in old(before + after))
      ensures Left() == old(Left()) && Right() == old(Right())
      ensures var path := old(PathAfter(before, [])); PathAfter(before, []) == path[..|path| - popCount]
    {
      hide Cells, PathAfter, Depth;
      ghost var path := PathAfter(before, []);
      var i := 0;
      assert path[..|path|] == path;
      while i < popCount
        invariant i <= popCount && Wf(before + after) && (BARE in before + after ==> BARE in old(before + after))
        invariant Left() == old(Left()) && Right() == old(Right())
        invariant PathAfter(before, []) == path[..|path| - i]
      {
        PopStyle();
        assert path[..|path| - i][..|path| - i - 1] == path[..|path| - (i + 1)];
        i := i + 1;
      }
    }

    // Put the input line into a new span with the given declarations.
    method PushSpan(styles: seq<string>)
      requires Wf(before + after)
      requires styles != [] && forall d :: d in styles ==> Styles.IsDeclaration(d)
      modifies `before, `after
      ensures Wf(before + after) && (BARE in before + after ==> BARE in old(before + after))
      ensures Left() == old(Left()) && Right() == old(Right())
      ensures Styles.Enclosing(PathAfter(before, [])) == Styles.Enclosing(old(PathAfter(before, []))) + styles
    {
      hide Cells, PathAfter, Depth, RecountFrom;
      hide Styles.Declarations, Styles.Enclosing, Styles.Styled, Styles.JoinStyles;
      ghost var b, a, path := before, after, PathAfter(before, []);
      var style := Styles.JoinStyles(styles);
      NestedSides();
      Sides();
      before := before + [Open(style)];
      after := [Close] + after;
      Snoc(b, Open(style), []);
      CloseFirst(a, path, style);
      Sides();
      DepthConcat(b, a, 0);
      DepthSnoc(b, Open(style), 0);
      DepthConcat(before, after, 0);
      assert Depth(before, 0) == |path| + 1;
      assert Depth(after, |path| + 1) == 0;
      assert Balanced(before + after);
      assert Screen() == old(Screen());
      Styles.SplitJoin(styles);
      Styles.EnclosingSnoc(path, style);
    }

    // cursorLeft: within the text node in front of the cursor if it holds that many columns,
    // otherwise by moveTo.
    method CursorLeft(count0: nat)
      requires Valid()
      modifies `before, `after, `currentCursorLine, `currentCursorColumn, `adjustStyleNeeded, `slip
      ensures Valid() && slip == old(slip)
      ensures old(Coherent()) ==>
                && Coherent()
                && Screen() == old(Screen())
                && Cursor() == Pos(old(Cursor()).line, Max(0, old(Cursor()).col - count0))
      ensures old(Coherent()) && count0 > 0 ==>
                currentCursorColumn == if Shifts(old(before), count0) then old(Less(currentCursorColumn, count0))
                                       else LeftColumn(old(before + after), old(Cursor()), count0)
    {
      hide Cells, PathAfter, Depth, RecountFrom, StepsBack, LeftColumn;
      var count := count0;
      if count == 0 {
        return;
      }
      if before != [] && Last(before).Text? {
        var tcount := StepBack(Last(before).data, count);
        if tcount > 0 {
          ShiftLeft(tcount, count);
          count := 0;
        }
      }
      if count > 0 {
        MoveLeft(count);
      }
    }

    // The long way: moveTo a column to the left in the same row.
    method MoveLeft(count: nat)
      requires Valid()
      modifies `before, `after, `currentCursorLine, `currentCursorColumn, `adjustStyleNeeded, `slip
      ensures Valid() && slip == old(slip)
      ensures old(Coherent()) ==>
                && Coherent()
                && Screen() == old(Screen())
                && Cursor() == Pos(old(Cursor()).line, Max(0, old(Cursor()).col - count))
      ensures old(Coherent()) && count > 0 ==>
                currentCursorColumn == LeftColumn(old(before + after), old(Cursor()), count)
    {
      hide Cells, PathAfter, Depth, RecountFrom, Rows, Land, Falls;
      Sides();
      CursorRowExists();
      assert Screen()[..|Left()|] == Left();
      MoveLeftLands(Screen(), |Left()|, count);
      var line := GetCursorLine();
      var column := GetCursorColumn();
      MoveTo(line, column - count);
      Sides();
      assert Screen()[..|Left()|] == Left();
    }

    // Take `tcount` characters, that is `tcols` columns, over to the right of the cursor.
    method ShiftLeft(tcount: nat, tcols: nat)
      requires Valid()
      requires before != [] && Last(before).Text? && 0 < tcount <= |Last(before).data|
      requires var data := Last(before).data;
               var tail := data[|data| - tcount..];
               InRow(tail) && Columns(tail) == tcols
      modifies `before, `after, `currentCursorColumn
      ensures Valid() && Screen() == old(Screen())
      ensures old(Coherent()) ==> Coherent()
      ensures Cursor() == Pos(old(Cursor()).line, old(Cursor()).col - tcols) && tcols <= old(Cursor()).col
      ensures currentCursorColumn == old(Less(currentCursorColumn, tcols))
    {
      hide Cells, PathAfter, Depth, RecountFrom, Columns;
      ghost var data := Last(before).data;
      ghost var tail, path := data[|data| - tcount..], PathAfter(before, []);
      before, after := ShuffleText(before, after, tcount);
      RecountConcat(ORIGIN, Left(), CellsOf(tail, path));
      InRowRecount(tail, Cursor(), path);
      if currentCursorColumn > 0 {
        currentCursorColumn := currentCursorColumn - tcols;
      }
    }

    // The cells of the cursor's row in front of the cursor.
    ghost function RowOffset(): nat
      reads `before
    {
      |Last(Rows(Left()))|
    }

    // insertSimpleOutput in replace mode: the columns from the cursor to `endColumn` are
    // deleted and the text put in their place, in an error span of its own if `kind` is 'E'.
    // `path` are the spans the text ends up in.
    method InsertSimpleOutput(str: string, kind: char, endColumn: int) returns (ghost path: seq<string>)
      requires Valid() && PlainText(str) && InRow(str)
      modifies `before, `after, `currentCursorLine, `currentCursorColumn, `adjustStyleNeeded, `adjustedAt, `printed, `inked, `astray, `bare, `slip
      ensures Valid() && printed == old(printed) + str
      ensures Left() == old(Left()) + CellsOf(str, path)
      ensures str == "" ==> before == old(before) && after == old(after)
      ensures str == "" ==> Right() == old(Right()) && slip == old(slip) && currentCursorColumn == old(currentCursorColumn)
      ensures str != "" ==> Replaced(str, endColumn, path) && currentCursorColumn == endColumn
      ensures str == "" ==> adjustedAt == old(adjustedAt) && adjustStyleNeeded == old(adjustStyleNeeded)
      ensures inked == old(inked) + InkOf(str, Styles.Enclosing(path))
      ensures astray == old(astray) + if str == "" || Styles.Enclosing(path) == currentStyles then 0 else 1
      ensures bare == (old(bare) || (kind == 'E' && str != "")) && NoneAstray(kind)
      ensures str != "" ==>
                && Styles.Enclosing(path) == Styles.Adjusted(old(Around()), currentStyles)
                && (Styles.Enclosing(path) == currentStyles <==> Styles.NothingStays(old(Around()), currentStyles))
                && (Styles.AllStyled(old(Around())) ==> Styles.Enclosing(path) == currentStyles)
    {
      hide Cells, PathAfter, Styles.Enclosing, Styles.Styled, Styles.AllStyled, Styles.Adjusted, Styles.NothingStays;
      hide Around, Valid, Left, Right, InkOf, Slipped, TypedOver, Typed, Geometry, Columns, Erased, Rows, Screen, Cursor;
      path := [];
      printed := printed + str;
      if str == "" {
        NoText();
        NoInk(Styles.Enclosing(path));
        return;
      }
      path := PutText(str, kind, endColumn);
      inked := inked + InkOf(str, Styles.Enclosing(path));
      astray := astray + if Styles.Enclosing(path) == currentStyles then 0 else 1;
    }

    // The spans are adjusted first, and the text is put into them.
    method PutText(str: string, kind: char, endColumn: int) returns (ghost path: seq<string>)
      requires Valid() && PlainText(str) && InRow(str)
      modifies `before, `after, `currentCursorLine, `currentCursorColumn, `adjustStyleNeeded, `adjustedAt, `bare, `slip
      ensures Valid() && currentCursorColumn == endColumn && bare == (old(bare) || kind == 'E')
      ensures Left() == old(Left()) + CellsOf(str, path)
      ensures Replaced(str, endColumn, path)
      ensures Styles.Enclosing(path) == Styles.Adjusted(old(Around()), currentStyles)
      ensures Styles.Enclosing(path) == currentStyles <==> Styles.NothingStays(old(Around()), currentStyles)
      ensures !old(bare) || Styles.AllStyled(old(Around())) ==> Styles.Enclosing(path) == currentStyles
    {
      hide Cells, PathAfter, Depth, RecountFrom, Erased, Columns, Recount, Rows, WidthsOf, Geometry, Valid, Screen;
      hide Styles.Enclosing, Styles.AllStyled, Styles.Adjusted, Styles.NothingStays, Around, WithKind;
      hide Coherent, Slipped, TypedOver, Typed, StylesHeld, Dressed, Left, Right, Cursor, RowOffset, ScreenRows;
      AdjustIfNeeded();
      UnstyledSpan(PathAfter(before, []), kind);
      path := ReplaceColumns(str, kind, endColumn);
    }

    // Adjust the spans if that is asked for; if not, they are still as they were adjusted last.
    method AdjustIfNeeded()
      requires Valid()
      modifies `before, `after, `adjustStyleNeeded, `adjustedAt
      ensures Valid() && !adjustStyleNeeded && adjustedAt == old(Around())
      ensures Left() == old(Left()) && Right() == old(Right()) && Geometry() == old(Geometry())
      ensures Cursor() == old(Cursor()) && RowOffset() == old(RowOffset()) && ScreenRows() == old(ScreenRows())
      ensures Styles.Enclosing(PathAfter(before, [])) == Styles.Adjusted(adjustedAt, currentStyles)
      ensures Styles.Enclosing(PathAfter(before, [])) == currentStyles <==> Styles.NothingStays(adjustedAt, currentStyles)
      ensures Styles.AllStyled(adjustedAt) ==> Styles.Enclosing(PathAfter(before, [])) == currentStyles
      ensures !bare ==> Styles.AllStyled(adjustedAt)
    {
      hide Cells, PathAfter, Depth, Recount, Geometry, Wf, Coherent, Styles.Enclosing, Styles.Adjusted, Styles.NothingStays;
      Sides();
      GeometryOf();
      if adjustStyleNeeded {
        AdjustStyle();
      }
      Styles.AdjustedIsWanted(adjustedAt, currentStyles);
      if Styles.AllStyled(adjustedAt) {
        Styles.AdjustedWhenStyled(adjustedAt, currentStyles);
      }
      Sides();
      GeometryOf();
    }

    // What has become of the columns from the cursor on: as many as `endColumn` is ahead are gone,
    // and if that is right for the text, it is typed over the cursor's row.
    twostate predicate Replaced(str: string, endColumn: int, path: seq<string>)
      reads `before, `after, `slip
    {
      var p, width := old(Cursor()), Columns(str);
      && slip == Slipped(old(slip), CacheOk(endColumn, p.col + width), LostColumn(p.col + width, endColumn))
      && (old(slip) == None ==> Right() == old(Right())[Erased(old(Right()), endColumn - p.col)..])
      && (old(slip) == None && endColumn == p.col + width ==>
            && TypedOver(old(ScreenRows()), p, old(RowOffset()), CellsOf(str, path), ScreenRows())
            && Geometry() == Typed(old(Geometry()), width))
    }

    // The columns up to `endColumn` go, the text comes.
    method ReplaceColumns(str: string, kind: char, endColumn: int) returns (ghost path: seq<string>)
      requires Valid() && PlainText(str) && InRow(str)
      modifies `before, `after, `currentCursorLine, `currentCursorColumn, `bare, `slip
      ensures Valid() && currentCursorColumn == endColumn && bare == (old(bare) || kind == 'E')
      ensures Left() == old(Left()) + CellsOf(str, path)
      ensures Replaced(str, endColumn, path)
      ensures path == WithKind(old(PathAfter(before, [])), kind) && PathAfter(before, []) == old(PathAfter(before, []))
    {
      hide Cells, PathAfter, Depth, RecountFrom, Erased, Columns, Recount, Rows, TypedOver, Wf, WidthsOf, Typed, Styles.Held, Geometry, Flat, Styles.Enclosing, Dressed, Chars;
      Sides();
      GeometryOf();
      var column := GetCursorColumn();
      var widthInColumns := endColumn - column;
      DeleteCharactersRight(widthInColumns);
      path := WithKind(PathAfter(before, []), kind);
      NewColumn(Left(), str, path);
      ghost var col := Cursor().col + Columns(str);
      ReplaceIsOverwrite(Left(), old(Right()), CellsOf(str, path));
      CharsOfCells(str, path);
      GeometryOf();
      TypedCells(Left(), old(Right()), str, path);
      path := InsertText(str, kind);
      Sides();
      GeometryOf();
      currentCursorColumn := endColumn;
      slip := Slipped(slip, CacheOk(endColumn, col), LostColumn(col, endColumn));
    }

    // The text goes in front of the cursor, error output in a span of its own.
    method InsertText(str: string, kind: char) returns (ghost path: seq<string>)
      requires Wf(before + after) && Dressed() && PlainText(str)
      modifies `before, `bare
      ensures Wf(before + after) && Dressed() && bare == (old(bare) || kind == 'E')
      ensures path == WithKind(old(PathAfter(before, [])), kind) && PathAfter(before, []) == old(PathAfter(before, []))
      ensures Left() == old(Left()) + CellsOf(str, path) && Right() == old(Right())
    {
      hide Cells, PathAfter;
      path := WithKind(PathAfter(before, []), kind);
      if kind == 'E' {
        InsertErrorSpan(str);
        bare := true;
      } else {
        InsertRawOutput(str);
      }
    }

    // A span of class error, in front of the input line.
    method InsertErrorSpan(str: string)
      requires Wf(before + after) && PlainText(str)
      modifies `before
      ensures Wf(before + after)
      ensures Left() == old(Left()) + CellsOf(str, old(PathAfter(before, [])) + [""])
      ensures Right() == old(Right()) && PathAfter(before, []) == old(PathAfter(before, []))
    {
      hide Cells, PathAfter, Depth;
      ghost var path, b := PathAfter(before, []), before;
      NestedSides();
      Sides();
      before := before + [Open(""), Text(str), Close];
      assert before == b + [Open("")] + [Text(str)] + [Close];
      Snoc(b, Open(""), []);
      Snoc(b + [Open("")], Text(str), []);
      Snoc(b + [Open("")] + [Text(str)], Close, []);
      DepthSnoc(b, Open(""), 0);
      DepthSnoc(b + [Open("")], Text(str), 0);
      DepthSnoc(b + [Open("")] + [Text(str)], Close, 0);
      assert (path + [""])[..|path|] == path;
      DepthConcat(before, after, 0);
      Sides();
      PlainInsert(old(Left()), CellsOf(str, path + [""]), Right());
      assert Screen() == old(Left()) + CellsOf(str, path + [""]) + Right();
    }

    // The wrap mark, a row break, and the rest of the row after it.
    method InsertWrapBreak()
      requires Valid()
      modifies `before, `currentCursorLine, `currentCursorColumn
      ensures Valid()
      ensures old(Coherent()) ==> Coherent()
      ensures Left() == old(Left()) + CellsOf(WRAP_STRING_NEWLINE, old(PathAfter(before, [])))
      ensures Right() == old(Right()) && PathAfter(before, []) == old(PathAfter(before, []))
      ensures currentCursorColumn == 0 && Cursor() == Pos(old(Cursor()).line + 1, 0)
    {
      hide Cells, PathAfter, Depth, RecountFrom;
      ghost var path := PathAfter(before, []);
      var oldLine := currentCursorLine;
      WrapRecount(Cursor(), path);
      RecountConcat(ORIGIN, Left(), CellsOf(WRAP_STRING_NEWLINE, path));
      InsertRawOutput(WRAP_STRING_NEWLINE);
      if oldLine >= 0 {
        currentCursorLine := oldLine + 1;
      }
      currentCursorColumn := 0;
    }

    // One round of deleteLinesIgnoreScroll: the rest of the row and the newline after it.
    method DeleteOneLine() returns (ok: bool)
      requires Valid()
      modifies `after, `currentCursorLine, `currentCursorColumn
      ensures Valid() && (old(Coherent()) ==> Coherent())
      ensures Left() == old(Left())
      ensures old(Flat(before + after)) ==>
                && Flat(before + after)
                && (ok <==> |old(Rows(Right()))| > 1)
                && Rows(Right()) == if ok then old(Rows(Right()))[1..] else [[]]
    {
      hide Cells, PathAfter, Depth, RecountFrom, ErasedFrom, Rows;
      ErasedRows(Right(), -1);
      ghost var rows := Rows(Right());
      DeleteCharactersRight(-1);
      assert rows[0][|rows[0]|..] == [];
      assert Rows(Right()) == [[]] + rows[1..];
      NestedSides();
      Sides();
      ghost var a, cs, path := after, Right(), PathAfter(before, []);
      after, ok := DeleteNewline(after, path);
      if ok {
        NewlineFirst(Cell('\n', path), Right());
        PlainWithout(Left(), Cell('\n', path), Right());
        assert Rows(Right()) == ([[]] + Rows(Right()))[1..];
        assert Right() == cs[1..];
      }
      if old(Flat(before + after)) {
        FlatConcat(before, a);
        FlatConcat(before, after);
        if !ok {
          NoRowBelow(a, path);
        }
      }
      DepthConcat(before, after, 0);
      Sides();
    }

    method DeleteLinesIgnoreScroll(count: int)
      requires Valid()
      modifies `after, `currentCursorLine, `currentCursorColumn
      ensures Valid() && (old(Coherent()) ==> Coherent())
      ensures Left() == old(Left()) && before == old(before)
      ensures old(Flat(before + after)) ==>
                Flat(before + after) && Rows(Right()) == DropRows(old(Rows(Right())), count)
    {
      hide Cells, PathAfter, Depth, RecountFrom, Rows;
      var i := count;
      while i > 0
        invariant Valid() && (old(Coherent()) ==> Coherent())
        invariant Left() == old(Left()) && before == old(before)
        invariant old(Flat(before + after)) ==>
                    Flat(before + after) && Rows(Right()) == DropRows(old(Rows(Right())), count - i)
        invariant i == count || 0 <= i < count
      {
        i := i - 1;
        ghost var left := Rows(Right());
        var ok := DeleteOneLine();
        if !ok {
          assert old(Flat(before + after)) ==> |left| == 1 && DropRows(old(Rows(Right())), count) == [[]];
          break;
        }
      }
    }

    // insertLinesIgnoreScroll: newlines behind the input line.
    method InsertLinesIgnoreScroll(count: int)
      requires Valid()
      modifies `after
      ensures Valid()
      ensures Left() == old(Left()) && before == old(before)
      ensures Right() == CellsOf(Repeat('\n', count), PathAfter(before, [])) + old(Right())
      ensures old(Flat(before + after)) ==> Flat(before + after)
    {
      hide Cells, PathAfter, Depth, RecountFrom;
      NestedSides();
      Sides();
      ghost var a, path := after, PathAfter(before, []);
      var text := Repeat('\n', count);
      after := [Text(text)] + after;
      Erasing.FirstText(text, a, path);
      FlatConcat(before, a);
      FlatConcat(before, after);
      DepthConcat(before, after, 0);
      Sides();
      PlainInsert(Left(), CellsOf(text, path), old(Right()));
      assert Screen() == Left() + CellsOf(text, path) + old(Right());
    }

    // ---------- Rows inserted, deleted, scrolled ----------

    function GetScrollBottom(): int
      reads `scrollRegionBottom, `numRows
    {
      if scrollRegionBottom < 0 then numRows else scrollRegionBottom
    }

    // No spans, no zero-width character at the start of a row, and a right cache.
    ghost predicate RowsReady()
      reads `before, `after, `currentCursorLine, `currentCursorColumn
    {
      Flat(before + after) && ClearStarts(ScreenRows()) && Coherent()
    }

    ghost function ScreenRows(): seq<seq<Cell>>
      reads `before, `after
    {
      Rows(Screen())
    }

    lemma AtRow(cs: seq<Cell>, line: nat)
      requires Arrived(cs, Pos(line, 0), Screen(), |Left()|) && line < |Rows(cs)|
      ensures Screen() == cs && Cursor() == Pos(line, 0)
    {
      hide Cells, PathAfter, RecountFrom, Rows, Land;
      RowsRecount(cs);
      MoveToRowStart(cs, line);
      Sides();
      assert Screen()[..|Left()|] == Left();
    }

    // deleteLinesIgnoreScroll at the start of a row: that row and those below it go.
    method DeleteRows(count: nat)
      requires Valid()
      modifies `after, `currentCursorLine, `currentCursorColumn
      ensures Valid()
      ensures old(RowsReady()) && old(Cursor()).col == 0 && old(Cursor()).line + count < |old(ScreenRows())| ==>
                && RowsReady() && Cursor() == old(Cursor())
                && ScreenRows() == WithoutRows(old(ScreenRows()), Cursor().line, count)
      ensures before == old(before) && (old(Coherent()) ==> Coherent())
    {
      hide Cells, PathAfter, Depth, RecountFrom, Rows;
      Sides();
      ghost var right := Right();
      DeleteLinesIgnoreScroll(count);
      Sides();
      if old(RowsReady()) && old(Cursor()).col == 0 && old(Cursor()).line + count < |old(ScreenRows())| {
        DeletedRows(Left(), right, Right(), count);
        StillClear(old(ScreenRows()), Cursor().line, count);
      }
    }

    // insertLinesIgnoreScroll at the start of a row: blank rows in front of it.
    method InsertRows(count: nat)
      requires Valid()
      modifies `after
      ensures Valid()
      ensures old(RowsReady()) && old(Cursor()).col == 0 ==>
                && RowsReady() && Cursor() == old(Cursor()) && 0 <= Cursor().line < |old(ScreenRows())|
                && ScreenRows() == WithBlanks(old(ScreenRows()), Cursor().line, count)
    {
      hide Cells, PathAfter, Depth, RecountFrom, Rows;
      Sides();
      ghost var right := Right();
      InsertLinesIgnoreScroll(count);
      Sides();
      if old(RowsReady()) && old(Cursor()).col == 0 {
        InsertedRows(Left(), right, PathAfter(before, []), count);
        StillClear(old(ScreenRows()), Cursor().line, count);
      }
    }

    // moveTo the start of a row.
    method MoveToRow(line: int)
      requires Valid()
      modifies `before, `after, `currentCursorLine, `currentCursorColumn, `adjustStyleNeeded, `slip
      ensures Valid() && slip == old(slip)
      ensures old(RowsReady()) && 0 <= line < |old(ScreenRows())| ==>
                RowsReady() && ScreenRows() == old(ScreenRows()) && Cursor() == Pos(line, 0)
      ensures line >= 0 ==> currentCursorColumn == 0
      ensures old(Coherent()) ==> Coherent() && (line >= 0 ==> Cursor() == Pos(line, 0))
    {
      hide Cells, PathAfter, Depth, RecountFrom, Rows;
      ghost var cs := Screen();
      MoveTo(line, 0);
      if old(RowsReady()) && 0 <= line < |old(ScreenRows())| {
        AtRow(cs, line);
      }
    }

    // Blank rows come in at the cursor's row; the last rows of the region go out.
    method InsertLines(count: nat)
      requires Valid()
      modifies `before, `after, `currentCursorLine, `currentCursorColumn, `adjustStyleNeeded, `slip
      ensures Valid() && slip == old(slip)
      ensures old(Coherent()) ==> Coherent() && Cursor() == Pos(old(Cursor()).line, 0)
      ensures var line, rows := old(Cursor()).line, old(ScreenRows());
              var bottom := if scrollRegionBottom >= 0 then scrollRegionBottom else numRows;
              old(RowsReady()) && line <= bottom - count && bottom < |rows| ==>
                && RowsReady() && Cursor() == Pos(line, 0)
                && ScreenRows() == rows[..line] + Blanks(count) + rows[line..bottom - count] + rows[bottom..]
    {
      hide Valid, Coherent, Screen, ScreenRows, Cursor, ClearStarts, Flat, WithoutRows, WithBlanks;
      ghost var rows := ScreenRows();
      if Cursor().line <= GetScrollBottom() - count && GetScrollBottom() < |rows| {
        RegionDown(rows, Cursor().line, GetScrollBottom(), count);
        DeletedLength(rows, GetScrollBottom() - count, count);
      }
      var line := GetCursorLine();
      MoveToRow(GetScrollBottom() - count);
      DeleteRows(count);
      MoveToRow(line);
      InsertRows(count);
    }

    // The rows from the cursor's on go out; blank rows come in at the end of the region.
    method DeleteLines(count: nat)
      requires Valid()
      modifies `before, `after, `currentCursorLine, `currentCursorColumn, `adjustStyleNeeded, `slip
      ensures Valid() && slip == old(slip)
      ensures old(Coherent()) ==> Coherent() && Cursor() == Pos(old(Cursor()).line, 0)
      ensures var line, rows := old(Cursor()).line, old(ScreenRows());
              var bottom := if scrollRegionBottom >= 0 then scrollRegionBottom else numRows;
              old(RowsReady()) && old(Cursor()).col == 0 && line <= bottom - count && bottom < |rows| ==>
                && RowsReady() && Cursor() == Pos(line, 0)
                && ScreenRows() == rows[..line] + rows[line + count..bottom] + Blanks(count) + rows[bottom..]
    {
      hide Valid, Coherent, Screen, ScreenRows, Cursor, ClearStarts, Flat, WithoutRows, WithBlanks;
      ghost var rows := ScreenRows();
      if Cursor().line <= GetScrollBottom() - count && GetScrollBottom() < |rows| {
        RegionUp(rows, Cursor().line, GetScrollBottom(), count);
        DeletedLength(rows, Cursor().line, count);
      }
      DeleteRows(count);
      var line := GetCursorLine();
      LineStartAt(GetScrollBottom() - line - count);
      InsertRows(count);
      MoveToRow(line);
    }

    // cursorLineStart to a row that exists.
    method LineStartAt(deltaLines: int)
      requires Valid()
      modifies `before, `after, `currentCursorLine, `currentCursorColumn, `adjustStyleNeeded, `slip
      ensures Valid() && slip == old(slip) && (old(Coherent()) ==> Coherent())
      ensures old(RowsReady()) && 0 <= old(Cursor()).line + deltaLines < |old(ScreenRows())| ==>
                && RowsReady() && ScreenRows() == old(ScreenRows())
                && Cursor() == Pos(old(Cursor()).line + deltaLines, 0)
    {
      hide Cells, PathAfter, Depth, RecountFrom, Rows;
      ghost var cs, line := Screen(), Cursor().line + deltaLines;
      CursorLineStart(deltaLines);
      if old(RowsReady()) && 0 <= line < |old(ScreenRows())| {
        AtRow(cs, line);
      }
    }

    // The first rows of the region go out; blank rows come in at its end.
    method ScrollForward(count: nat)
      requires Valid()
      modifies `before, `after, `currentCursorLine, `currentCursorColumn, `adjustStyleNeeded, `slip
      ensures Valid() && slip == old(slip)
      ensures old(Coherent()) ==> Coherent() && Cursor() == Pos(old(Cursor()).line, 0)
      ensures var line, top, rows := old(Cursor()).line, scrollRegionTop, old(ScreenRows());
              var bottom := if scrollRegionBottom >= 0 then scrollRegionBottom else numRows;
              old(RowsReady()) && 0 <= top <= bottom - count && bottom < |rows| ==>
                && RowsReady() && Cursor() == Pos(line, 0)
                && ScreenRows() == rows[..top] + rows[top + count..bottom] + Blanks(count) + rows[bottom..]
      ensures currentCursorColumn == 0
    {
      hide Valid, Coherent, Screen, ScreenRows, Cursor, ClearStarts, Flat, WithoutRows, WithBlanks;
      ghost var rows := ScreenRows();
      RowOfCursor();
      if 0 <= scrollRegionTop <= GetScrollBottom() - count && GetScrollBottom() < |rows| {
        RegionUp(rows, scrollRegionTop, GetScrollBottom(), count);
        DeletedLength(rows, scrollRegionTop, count);
      }
      var line := GetCursorLine();
      MoveToRow(scrollRegionTop);
      DeleteRows(count);
      var scrollRegionSize := GetScrollBottom() - scrollRegionTop;
      LineStartAt(scrollRegionSize - count);
      InsertRows(count);
      MoveToRow(line);
    }

    lemma RowOfCursor()
      ensures Cursor().line < |ScreenRows()|
    {
      CursorRowExists();
      RowsRecount(Screen());
    }

    // The last rows of the region go out; blank rows come in at its start.
    method ScrollReverse(count: nat)
      requires Valid()
      modifies `before, `after, `currentCursorLine, `currentCursorColumn, `adjustStyleNeeded, `slip
      ensures Valid() && slip == old(slip)
      ensures old(Coherent()) ==> Coherent() && Cursor() == Pos(old(Cursor()).line, 0)
      ensures var line, top, rows := old(Cursor()).line, scrollRegionTop, old(ScreenRows());
              var bottom := if scrollRegionBottom >= 0 then scrollRegionBottom else numRows;
              old(RowsReady()) && 0 <= top <= bottom - count && bottom < |rows| ==>
                && RowsReady() && Cursor() == Pos(line, 0)
                && ScreenRows() == rows[..top] + Blanks(count) + rows[top..bottom - count] + rows[bottom..]
    {
      hide Valid, Coherent, Screen, ScreenRows, Cursor, ClearStarts, Flat, WithoutRows, WithBlanks;
      ghost var rows := ScreenRows();
      RowOfCursor();
      if 0 <= scrollRegionTop <= GetScrollBottom() - count && GetScrollBottom() < |rows| {
        RegionDown(rows, scrollRegionTop, GetScrollBottom(), count);
        DeletedLength(rows, GetScrollBottom() - count, count);
      }
      var line := GetCursorLine();
      MoveToRow(GetScrollBottom() - count);
      DeleteRows(count);
      MoveToRow(scrollRegionTop);
      InsertRows(count);
      MoveToRow(line);
    }

    // ---------- Sequences ----------

    // Select Graphic Rendition: one parameter after the other.
    method SelectGraphicRendition(parameters: seq<int>)
      requires Valid()
      modifies `currentStyles, `adjustStyleNeeded
      ensures Valid() && adjustStyleNeeded
      ensures currentStyles == Sgr.Run(old(currentStyles), parameters)
    {
      hide Cells, PathAfter, Depth, RecountFrom, Sgr.Apply;
      var i := 0;
      assert parameters[..0] == [];
      while i < |parameters|
        invariant i <= |parameters| && forall d :: d in currentStyles ==> Sgr.IsEntry(d)
        invariant currentStyles == Sgr.Run(old(currentStyles), parameters[..i])
      {
        assert parameters[..i + 1][..i] == parameters[..i];
        Sgr.ApplyEntries(currentStyles, parameters[i]);
        currentStyles := Sgr.ApplyParameter(currentStyles, parameters[i]);
        i := i + 1;
      }
      assert parameters[..i] == parameters;
      adjustStyleNeeded := true;
    }

    // ---------- Control sequences ----------

    // The cursor has been moved as the sequence says, to the left only as far as the row goes.
    twostate predicate Moved(last: char, parameters: seq<int>)
      requires parameters != []
      reads `before, `after, `currentCursorLine, `currentCursorColumn, `slip
    {
      if last == 'D' then
        && slip == old(slip)
        && (old(Coherent()) ==>
              && Coherent() && Screen() == old(Screen())
              && Cursor() == Pos(old(Cursor()).line, Max(0, old(Cursor()).col - Number(parameters))))
      else if last == 'C' then
        && slip == old(slip)
        && (old(Coherent()) ==>
              Coherent() && Arrived(old(Screen()), Destination(last, parameters, old(Cursor())), Screen(), |Left()|))
      else
        old(Coherent()) ==>
          var goal := Destination(last, parameters, old(Cursor()));
          Arrived(old(Screen()), goal, Screen(), |Left()|) && Slips(old(Screen()), goal)
    }

    // The terminal with the pending text printed would be in the state that is followed.
    ghost predicate Awaits(t: Track, str: string, prevEnd: nat, i: nat, curColumn: int)
      requires prevEnd <= i <= |str|
      reads `before, `after, `scrollRegionBottom, `savedCursorLine, `savedCursorColumn
    {
      && IsViewOf(t.view, Typed(Geometry(), Columns(str[prevEnd..i])))
      && t.bottom == scrollRegionBottom && t.saved == Pos(savedCursorLine, savedCursorColumn)
      && (if t.sure then Exact(str, prevEnd, i, curColumn) else prevEnd == i)
    }

    ghost predicate Came(o: Outcome, str: string, prevEnd: nat, i: nat, curColumn: int)
      requires prevEnd <= i <= |str|
      reads `before, `after, `scrollRegionBottom, `savedCursorLine, `savedCursorColumn, `slip
    {
      if o.Fine? then slip == None && Awaits(o.track, str, prevEnd, i, curColumn) else SlipAsTold(o, slip)
    }

    // The stream has been followed so far, and the terminal stands as it says.
    ghost predicate Follows(o: Outcome, str: string, prevEnd: nat, i: nat, curColumn: int)
      requires scanner.Valid() && prevEnd <= i <= |str|
      reads this, scanner, scanner.prevNumParameters
    {
      if o.Fine? then
        && slip == None && o.track.scan == scanner.Value()
        && (if scanner.controlSequenceState.Initial? then Awaits(o.track, str, prevEnd, i, curColumn) else Stands(o.track))
      else SlipAsTold(o, slip)
    }

    // An escape character changes the state of the machine only.
    lemma EscapeComes(t: Track, str: string, i: nat, curColumn: int)
      requires i <= |str| && Came(Fine(t), str, i, i, curColumn)
      ensures slip == None && forall scan :: Stands(t.(scan := scan))
    {
      NoColumns();
      TypedTwice(Geometry(), 0, 0);
    }

    lemma NothingAwaited(str: string, i: nat, curColumn: int)
      requires i <= |str|
      ensures curColumn == Cursor().col ==> forall t :: Stands(t) ==> Awaits(t, str, i, i, curColumn)
    {
      NoColumns();
      TypedTwice(Geometry(), 0, 0);
    }

    lemma CameTurned(o: Outcome, str: string, i: nat, curColumn: int)
      requires i <= |str| && Turned(o) && (slip == None && o.Fine? && o.track.sure ==> curColumn == Cursor().col)
      ensures Came(o, str, i, i, curColumn)
    {
      NoColumns();
      TypedTwice(Geometry(), 0, 0);
    }

    // The terminal is in the state that is followed.
    ghost predicate Stands(t: Track)
      reads `before, `after, `scrollRegionBottom, `savedCursorLine, `savedCursorColumn
    {
      && IsViewOf(t.view, Geometry())
      && t.bottom == scrollRegionBottom && t.saved == Pos(savedCursorLine, savedCursorColumn)
    }

    // What has been followed is what has come about.
    ghost predicate Turned(o: Outcome)
      reads `before, `after, `scrollRegionBottom, `savedCursorLine, `savedCursorColumn, `slip
    {
      if o.Fine? then slip == None && Stands(o.track) else SlipAsTold(o, slip)
    }

    // The machine is in the state that is followed, too.
    ghost predicate Traced(o: Outcome)
      requires scanner.Valid()
      reads this, scanner, scanner.prevNumParameters
    {
      Turned(o) && (o.Fine? ==> o.track.scan == scanner.Value())
    }

    lemma TurnedFine(t: Track)
      ensures slip == None && Stands(t) ==> Turned(Fine(t))
      ensures Turned(Unclear)
    {
    }

    // Part of the cursor's row has gone, or rows have come and gone.
    lemma TurnedEdit(t: Track, was: Shape, last: char, count: nat)
      requires slip == None && IsViewOf(t.view, was)
      requires t.bottom == scrollRegionBottom && t.saved == Pos(savedCursorLine, savedCursorColumn)
      requires if last in "KP" then Geometry() == Cut(was, if last == 'K' then -1 else count)
               else Cursor() == Pos(was.pos.line, 0)
      ensures Turned(Fine(t.(view := if last == 'K' then Cuts(t.view, -1)
                                     else if last == 'P' then Cuts(t.view, count)
                                     else Scrolls(t.view))))
    {
      hide Geometry, WidthsOf, Cut;
      GeometryIs();
      ViewFits(t.view, was);
    }

    // The cursor has been moved.
    lemma TurnedMove(t: Track, cs: seq<Cell>, was: Shape, last: char, parameters: seq<int>)
      requires parameters != [] && IsViewOf(t.view, was) && was.widths == WidthsOf(cs)
      requires t.bottom == scrollRegionBottom && t.saved == Pos(savedCursorLine, savedCursorColumn)
      requires var goal := Destination(last, parameters, was.pos);
               if last == 'D' then slip == None && Geometry() == Backed(was, Number(parameters))
               else Geometry() == Gone(was.widths, goal) && slip == Slipped(None, MoveSafe(cs, goal), UnsafeMove(cs, goal))
      ensures Turned(if last == 'D' then Fine(t.(view := Backs(t.view, Number(parameters))))
                     else Goes(t, Destination(last, parameters, t.view.Place())))
    {
      hide Geometry, WidthsOf, Gone, Goes, Destination, Slipped, MoveSafe, Backed;
      ViewFits(t.view, was);
      if last != 'D' {
        WentIsGoes(t, cs, was, Destination(last, parameters, was.pos));
      }
    }

    lemma ScreenIs()
      ensures Screen() == Cells(before + after, [])
    {
    }

    lemma GeometryIs()
      ensures Geometry() == Sheets.Sheet(WidthsOf(Screen()), Cursor())
    {
    }

    lemma WentIsGoes(t: Track, cs: seq<Cell>, was: Shape, goal: Pos)
      requires IsViewOf(t.view, was) && was.widths == WidthsOf(cs)
      requires t.bottom == scrollRegionBottom && t.saved == Pos(savedCursorLine, savedCursorColumn)
      requires Geometry() == Gone(was.widths, goal)
      requires slip == Slipped(None, MoveSafe(cs, goal), UnsafeMove(cs, goal))
      ensures Turned(Goes(t, goal))
    {
      hide Geometry, WidthsOf, Gone, MoveSafe, Reaches, Goes;
      SafeIsReaching(cs, goal);
      GoesFits(t, was, goal);
    }

    // A move has been made, wherever it ends, and it was the slip if it went wrong.
    twostate predicate Went(goal: Pos)
      reads `before, `after, `slip
    {
      Geometry() == Gone(old(Geometry()).widths, goal) && Slips(old(Screen()), goal)
    }

    lemma GoneThere(cs: seq<Cell>, goal: Pos)
      requires Arrived(cs, goal, Screen(), |Left()|)
      ensures Geometry() == Gone(WidthsOf(cs), goal)
    {
      hide Cells, PathAfter, WidthsOf, Gone, Arrived, Recount;
      ArrivedSheet(cs, goal, Screen(), |Left()|);
      Here();
    }

    // No row is missing above the first, and only a missing row makes a move unsafe.
    lemma RowsAbove(cs: seq<Cell>)
      ensures forall goal: Pos :: goal.line <= 0 || goal.col <= 0 ==> MoveSafe(cs, goal)
    {
    }

    // The sequences A, B, C, D, H and d.
    method MoveCursor(last: char, parameters: seq<int>)
      requires Valid() && parameters != [] && last in "ABCDHd"
      modifies `before, `after, `currentCursorLine, `currentCursorColumn, `adjustStyleNeeded, `slip
      ensures Valid() && FirstStays() && Moved(last, parameters)
      ensures slip != old(slip) ==> slip.Some? && slip.value.UnsafeMove? && !QuietSequence(last, false, parameters)
      ensures old(slip) == None && last != 'D' ==> Went(Destination(last, parameters, old(Cursor())))
      ensures old(slip) == None && last == 'D' ==> slip == None && Geometry() == Backed(old(Geometry()), Number(parameters))
    {
      hide Cells, PathAfter, Depth, RecountFrom, Rows, Wf, Right, Arrived, FirstParameter, SecondParameter, Recount;
      hide WidthsOf, Gone, IsSlip;
      CursorRowExists();
      ghost var cs, goal := Screen(), Destination(last, parameters, Cursor());
      RowsAbove(cs);
      var n: int := Number(parameters);
      match last {
        case 'A' => CursorDown(-n);
        case 'B' => CursorDown(n);
        case 'C' => CursorRight(n);
        case 'D' => CursorLeft(n);
        case 'd' =>
          var column := GetCursorColumn();
          MoveTo(n - 1, column);
        case _ =>
          MoveTo(FirstParameter(parameters) - 1, SecondParameter(parameters, 1) - 1);
      }
      if old(slip) == None && last != 'D' {
        GoneThere(cs, goal);
      }
    }

    method FollowMove(last: char, parameters: seq<int>, ghost t: Track)
      requires Valid() && parameters != [] && last in "ABCDHd"
      modifies `before, `after, `currentCursorLine, `currentCursorColumn, `adjustStyleNeeded, `slip
      ensures Valid() && FirstStays() && Moved(last, parameters)
      ensures slip != old(slip) ==> slip.Some? && slip.value.UnsafeMove? && !QuietSequence(last, false, parameters)
      ensures old(slip) == None && old(Stands(t)) ==>
                Turned(if last == 'D' then Fine(t.(view := Backs(t.view, Number(parameters))))
                       else Goes(t, Destination(last, parameters, t.view.Place())))
    {
      hide Valid, Moved, WidthsOf, Gone, Geometry, Screen, Goes, Backed, Destination, QuietSequence, MoveSafe, Slipped;
      hide Turned, IsViewOf, Cursor;
      ghost var cs, was := Screen(), Geometry();
      GeometryIs();
      MoveCursor(last, parameters);
      if old(slip) == None && IsViewOf(t.view, was) && t.bottom == scrollRegionBottom
         && t.saved == Pos(savedCursorLine, savedCursorColumn) {
        TurnedMove(t, cs, was, last, parameters);
      }
    }

    // Rows have been put in or taken out at the cursor or at the top of the scroll region, or the
    // rest of the cursor's row has been erased.
    twostate predicate Edited(last: char, count: nat)
      reads `before, `after, `currentCursorLine, `currentCursorColumn, `scrollRegionTop, `scrollRegionBottom, `numRows
    {
      var line, top, rows := old(Cursor()).line, scrollRegionTop, old(ScreenRows());
      var bottom := if scrollRegionBottom >= 0 then scrollRegionBottom else numRows;
      && (last in "LMST" && old(Coherent()) ==> Cursor() == Pos(line, 0))
      &&
      match last
      case 'K' => Left() == old(Left()) && Right() == old(Right())[Erased(old(Right()), -1)..]
      case 'P' => Left() == old(Left()) && Right() == old(Right())[Erased(old(Right()), count)..]
      case 'L' =>
        old(RowsReady()) && line <= bottom - count && bottom < |rows| ==>
          && RowsReady() && Cursor() == Pos(line, 0)
          && ScreenRows() == rows[..line] + Blanks(count) + rows[line..bottom - count] + rows[bottom..]
      case 'M' =>
        old(RowsReady()) && old(Cursor()).col == 0 && line <= bottom - count && bottom < |rows| ==>
          && RowsReady() && Cursor() == Pos(line, 0)
          && ScreenRows() == rows[..line] + rows[line + count..bottom] + Blanks(count) + rows[bottom..]
      case 'S' =>
        old(RowsReady()) && 0 <= top <= bottom - count && bottom < |rows| ==>
          && RowsReady() && Cursor() == Pos(line, 0)
          && ScreenRows() == rows[..top] + rows[top + count..bottom] + Blanks(count) + rows[bottom..]
      case _ =>
        old(RowsReady()) && 0 <= top <= bottom - count && bottom < |rows| ==>
          && RowsReady() && Cursor() == Pos(line, 0)
          && ScreenRows() == rows[..top] + Blanks(count) + rows[top..bottom - count] + rows[bottom..]
    }

    // The sequences K, L, M, P, S and T.
    method Edit(last: char, count: nat)
      requires Valid() && last in "KLMPST"
      modifies `before, `after, `currentCursorLine, `currentCursorColumn, `adjustStyleNeeded, `slip
      ensures Valid() && slip == old(slip) && Edited(last, count)
      ensures last in "LMST" && old(Coherent()) ==> Cursor() == Pos(old(Cursor()).line, 0)
      ensures last in "KP" ==> Geometry() == Cut(old(Geometry()), if last == 'K' then -1 else count)
    {
      hide Cells, PathAfter, Depth, RecountFrom, Rows, Wf, Screen, Left, Right, ScreenRows, RowsReady, Cursor, Erased, Blanks;
      match last {
        case 'K' => DeleteCharactersRight(-1);
        case 'L' => InsertLines(count);
        case 'M' => DeleteLines(count);
        case 'P' => DeleteCharactersRight(count);
        case 'S' => ScrollForward(count);
        case _ => ScrollReverse(count);
      }
    }

    method FollowEdit(last: char, count: nat, ghost t: Track)
      requires Valid() && last in "KLMPST"
      modifies `before, `after, `currentCursorLine, `currentCursorColumn, `adjustStyleNeeded, `slip
      ensures Valid() && slip == old(slip) && Edited(last, count)
      ensures old(slip) == None && old(Stands(t)) ==>
                Turned(Fine(t.(view := if last == 'K' then Cuts(t.view, -1)
                                       else if last == 'P' then Cuts(t.view, count)
                                       else Scrolls(t.view))))
    {
      hide Edited, WidthsOf, Geometry, Cut, Cuts, Scrolls, Wf, Coherent;
      ghost var was := Geometry();
      GeometryIs();
      Edit(last, count);
      if old(slip) == None && IsViewOf(t.view, was) && t.bottom == scrollRegionBottom
         && t.saved == Pos(savedCursorLine, savedCursorColumn) {
        TurnedEdit(t, was, last, count);
      }
    }

    // The mode was set or reset: with 1048 or 1049 the cursor is saved or comes back.
    twostate predicate ModeSet(last: char, question: bool, cur: int)
      reads `before, `after, `currentCursorLine, `currentCursorColumn, `slip, `savedCursorLine, `savedCursorColumn
    {
      if last == 'h' && question && cur == 1048 then
        before == old(before) && after == old(after) && slip == old(slip)
        && (old(Coherent()) ==> Pos(savedCursorLine, savedCursorColumn) == Cursor())
      else if last == 'l' && question && (cur == 1048 || cur == 1049) then
        old(Coherent()) ==>
          var goal := Pos(savedCursorLine, savedCursorColumn);
          Arrived(old(Screen()), goal, Screen(), |Left()|) && Slips(old(Screen()), goal)
      else
        before == old(before) && after == old(after) && slip == old(slip)
    }

    // The sequences h and l.  False for insert mode and the alternate screen.
    method SetMode(last: char, question: bool, cur: int, ghost t: Track) returns (ok: bool)
      requires Valid() && last in "hl"
      modifies `before, `after, `currentCursorLine, `currentCursorColumn, `adjustStyleNeeded, `slip,
               `savedCursorLine, `savedCursorColumn
      ensures Valid() && FirstStays() && ModeSet(last, question, cur)
      ensures slip != old(slip) ==>
                slip.Some? && slip.value.UnsafeMove? && last == 'l' && question && cur in {1048, 1049}
      ensures if last == 'h' && question && cur == 1048
              then old(slip) == None ==> Pos(savedCursorLine, savedCursorColumn) == old(Cursor())
              else Pos(savedCursorLine, savedCursorColumn) == old(Pos(savedCursorLine, savedCursorColumn))
      ensures old(slip) == None && last == 'l' && question && cur in {1048, 1049} ==>
                Went(Pos(savedCursorLine, savedCursorColumn))
      ensures old(slip) == None && old(Stands(t)) ==>
                Turned(if last == 'h' && question && cur == 1048 then Fine(t.(saved := t.view.Place()))
                       else if last == 'l' && question && cur in {1048, 1049} then Goes(t, t.saved)
                       else Fine(t))
      ensures ok <==> last == 'l' || (if question then cur !in {47, 1047, 1049} else cur != 4)
    {
      hide Cells, PathAfter, Depth, RecountFrom, Wf, Screen, Right, Arrived, MoveSafe, WidthsOf, Gone, Geometry, Goes;
      ghost var cs := Screen();
      GeometryIs();
      if IsViewOf(t.view, Geometry()) {
        ViewFits(t.view, Geometry());
      }
      ok := true;
      if last == 'h' {
        if question {
          if cur == 1048 {
            SaveCursor();
          }
          ok := cur != 47 && cur != 1047 && cur != 1049;
        } else {
          ok := cur != 4;
        }
      } else if question && (cur == 1048 || cur == 1049) {
        RestoreCursor();
        if old(slip) == None {
          GoneThere(cs, Pos(savedCursorLine, savedCursorColumn));
          if old(Stands(t)) {
            WentIsGoes(t, cs, old(Geometry()), t.saved);
          }
        }
      }
    }

    // What a control sequence has done.
    twostate predicate Controlled(last: char, question: bool, parameters: seq<int>)
      requires parameters != []
      reads `before, `after, `currentCursorLine, `currentCursorColumn, `slip, `adjustStyleNeeded,
            `currentStyles, `scrollRegionTop, `scrollRegionBottom, `numRows, `savedCursorLine, `savedCursorColumn
    {
      && (last == 'm' ==> currentStyles == Sgr.Run(old(currentStyles), parameters) && adjustStyleNeeded)
      && (last != 'm' ==> currentStyles == old(currentStyles))
      && (last in "ABCDHd" ==> Moved(last, parameters))
      && (last in "KLMPST" ==> Edited(last, Number(parameters)))
      && (last in "hl" ==> ModeSet(last, question, Last(parameters)))
      && (if last == 'r' then
            scrollRegionTop == FirstParameter(parameters) - 1 && scrollRegionBottom == SecondParameter(parameters, -1)
          else
            scrollRegionTop == old(scrollRegionTop) && scrollRegionBottom == old(scrollRegionBottom))
      && (last !in "ABCDHdKLMPSThl" ==>
            && before == old(before) && after == old(after)
            && currentCursorLine == old(currentCursorLine) && currentCursorColumn == old(currentCursorColumn))
      && (last !in "ABHdl" ==> slip == old(slip))
    }

    method SetScrollRegion(top: int, bottom: int, ghost t: Track)
      modifies `scrollRegionTop, `scrollRegionBottom
      ensures scrollRegionTop == top && scrollRegionBottom == bottom
      ensures slip == None && old(Stands(t)) ==> Turned(Fine(t.(bottom := bottom)))
    {
      hide Geometry;
      scrollRegionTop, scrollRegionBottom := top, bottom;
    }

    // handleControlSequence.  False for a sequence outside the model: insert mode, the
    // alternate screen, and the erasing forms that keep or overrun the cursor's row.
    method HandleControlSequence(last: char, question: bool, parameters: seq<int>, ghost t: Track) returns (ok: bool)
      requires Valid() && parameters != []
      modifies `before, `after, `currentCursorLine, `currentCursorColumn, `adjustStyleNeeded, `slip,
               `currentStyles, `scrollRegionTop, `scrollRegionBottom, `savedCursorLine, `savedCursorColumn
      ensures Valid() && FirstStays()
      ensures ok ==> Controlled(last, question, parameters)
      ensures currentStyles == if last == 'm' then Sgr.Run(old(currentStyles), parameters) else old(currentStyles)
      ensures ok <==> Supported(last, question, Last(parameters))
      ensures Quiet(Scan.ControlSequence(last, question, parameters)) ==> slip == old(slip)
      ensures slip != old(slip) ==> slip.Some? && slip.value.UnsafeMove?
      ensures old(slip) == None && old(Stands(t)) ==> Turned(Controls(t, last, question, parameters))
    {
      hide Cells, PathAfter, Depth, RecountFrom, Rows, Wf, Screen, Right, ScreenRows, RowsReady, Sgr.Run, Edited, Arrived;
      hide FirstParameter, SecondParameter, Moved, ModeSet, Geometry, Gone, Goes, Destination, Cut, Backed, WidthsOf, Backs, Cuts, Scrolls, Turned, Stands, Valid, Cursor, Left;
      ok := true;
      var cur := Last(parameters);
      if last in "ABCDHd" {
        FollowMove(last, parameters, t);
      } else if last in "hl" {
        ok := SetMode(last, question, cur, t);
      } else if last == 'm' {
        SelectGraphicRendition(parameters);
      } else if last == 'r' {
        SetScrollRegion(FirstParameter(parameters) - 1, SecondParameter(parameters, -1), t);
      } else if last == 'K' && cur >= 1 {
        ok := false;
      } else if last in "KLMPST" {
        FollowEdit(last, Number(parameters), t);
      } else {
        ok := last != '@' && last != 'J';
      }
      TurnedFine(t);
    }

    // Once a scroll region is set, the sequences S, T, L and M keep every row outside it: L and M
    // with the cursor in it, and M at the start of a row.
    method RegionOnly(top: nat, bottom: nat, last: char, count: nat, ghost t: Track)
      requires Valid() && RowsReady() && last in "LMST"
      requires 1 <= top && 1 <= count && top - 1 + count <= bottom < |ScreenRows()|
      requires last in "LM" ==> top - 1 <= Cursor().line <= bottom - count
      requires last == 'M' ==> Cursor().col == 0
      modifies `before, `after, `currentCursorLine, `currentCursorColumn, `adjustStyleNeeded, `slip,
               `currentStyles, `scrollRegionTop, `scrollRegionBottom, `savedCursorLine, `savedCursorColumn
      ensures Valid() && RowsReady() && Cursor() == Pos(old(Cursor()).line, 0)
      ensures |ScreenRows()| == |old(ScreenRows())|
      ensures ScreenRows()[..top - 1] == old(ScreenRows())[..top - 1]
      ensures ScreenRows()[bottom..] == old(ScreenRows())[bottom..]
    {
      hide Valid, Cells, Turned, Stands, Moved, ModeSet, Edited, Sgr.Run, Coherent, RowsReady, Left, Quiet, Controls;
      var ok := HandleControlSequence('r', false, [top, bottom], t);
      EditRegion(last, count, t);
    }

    method EditRegion(last: char, count: nat, ghost t: Track)
      requires Valid() && RowsReady() && last in "LMST"
      requires 0 <= scrollRegionTop && scrollRegionTop + count <= scrollRegionBottom < |ScreenRows()|
      requires last in "LM" ==> scrollRegionTop <= Cursor().line <= scrollRegionBottom - count
      requires last == 'M' ==> Cursor().col == 0
      modifies `before, `after, `currentCursorLine, `currentCursorColumn, `adjustStyleNeeded, `slip,
               `currentStyles, `scrollRegionTop, `scrollRegionBottom, `savedCursorLine, `savedCursorColumn
      ensures Valid() && RowsReady() && Cursor() == Pos(old(Cursor()).line, 0)
      ensures |ScreenRows()| == |old(ScreenRows())|
      ensures scrollRegionTop == old(scrollRegionTop) && scrollRegionBottom == old(scrollRegionBottom)
      ensures ScreenRows()[..scrollRegionTop] == old(ScreenRows())[..scrollRegionTop]
      ensures ScreenRows()[scrollRegionBottom..] == old(ScreenRows())[scrollRegionBottom..]
    {
      hide Valid, Cells, Turned, Stands, Moved, ModeSet, Sgr.Run, Coherent, RowsReady, ScreenRows, Left, Right, Erased, Cursor, Quiet, Controls;
      var ok := HandleControlSequence(last, false, [count], t);
    }

    // ---------- The stream ----------

    // The part of the chunk not yet handed on for printing, and the column it ends in: after a
    // backspace the column in front of it may be unknown, and is then taken for -1.
    ghost predicate Pending(str: string, prevEnd: nat, i: nat, curColumn: int)
      requires prevEnd <= i <= |str|
      reads `before, `after, `currentCursorLine, `currentCursorColumn, `slip
    {
      var slice := str[prevEnd..i];
      && InRow(slice) && PlainText(slice)
      && (slip == None ==>
            && (Exact(str, prevEnd, i, curColumn) || (curColumn == Columns(slice) - 1 && Cursor().col == 0))
            && UnknownInFront())
    }

    // The cached column is unknown only in column 0.
    ghost predicate UnknownInFront()
      reads `before, `currentCursorColumn
    {
      currentCursorColumn >= 0 || (currentCursorColumn == -1 && Cursor().col == 0)
    }

    // The column in which the pending text ends is right.
    ghost predicate Exact(str: string, prevEnd: nat, i: nat, curColumn: int)
      requires prevEnd <= i <= |str|
      reads `before
    {
      curColumn == Cursor().col + Columns(str[prevEnd..i])
    }

    // The cursor is at the start of a row below the first, and the document ends there.
    ghost predicate AtEnd()
      reads `before, `after
    {
      Cursor().col == 0 && Cursor().line > 0 && EndsWithRow(before + after, Cursor().line)
    }

    lemma NotAtEnd()
      requires Left() != [] && Last(Left()).ch != '\n'
      ensures !AtEnd()
    {
      hide Cells, EndsWithRow, Recount;
      if AtEnd() {
        NothingInFront(before, after, Cursor().line);
      }
    }

    // Hand on str[prevEnd..i].
    method Flush(str: string, prevEnd: nat, i: nat, kind: char, curColumn: int)
      requires Valid() && prevEnd <= i <= |str| && Pending(str, prevEnd, i, curColumn)
      modifies `before, `after, `currentCursorLine, `currentCursorColumn, `adjustStyleNeeded, `adjustedAt, `printed, `inked, `astray, `bare, `slip
      ensures Valid() && FirstStays() && printed == old(printed) + str[prevEnd..i]
      ensures Cursor() == Pos(old(Cursor()).line, old(Cursor()).col + Columns(str[prevEnd..i]))
      ensures Chars(Left()) == old(Chars(Left())) + str[prevEnd..i]
      ensures old(slip) == None && old(Exact(str, prevEnd, i, curColumn)) ==>
                && slip == None && Cursor().col == curColumn
                && Right() == old(Right())[Erased(old(Right()), Columns(str[prevEnd..i]))..]
      ensures astray == old(astray) +
                if prevEnd == i || Styles.NothingStays(old(Around()), currentStyles) then 0 else 1
      ensures NoneAstray(kind)
      ensures astray == old(astray) ==> inked == old(inked) + InkOf(str[prevEnd..i], currentStyles)
      ensures Settled(curColumn)
      ensures prevEnd == i ==> before == old(before) && after == old(after) && slip == old(slip)
      ensures prevEnd < i ==> !AtEnd()
      ensures old(slip) == None && (prevEnd == i || old(Exact(str, prevEnd, i, curColumn))) ==>
                Geometry() == Typed(old(Geometry()), Columns(str[prevEnd..i]))
      ensures slip == PrintSlip(old(slip), str[prevEnd..i], old(Cursor()).col, curColumn)
    {
      hide Cells, PathAfter, Depth, RecountFrom, Columns, ErasedFrom, Recount, Rows, Wf, WidthsOf, Geometry, Typed, TypedOver;
      hide Styles.Enclosing, Styles.Adjusted, Styles.NothingStays, Styles.AllStyled, Styles.Held, Around, StylesHeld, InkOf;
      hide EndsWithRow, IsSlip, Coherent, Screen, AtEnd, Chars, PlainText;
      NothingErased(Right());
      NoColumns();
      TypedTwice(Geometry(), 0, 0);
      ghost var left := Left();
      ghost var path := InsertSimpleOutput(str[prevEnd..i], kind, curColumn);
      if prevEnd == i {
        NoInk(currentStyles);
        NoInk(Styles.Enclosing(path));
      }
      CharsOfText(left, str[prevEnd..i], path);
      NewColumn(left, str[prevEnd..i], path);
      if prevEnd < i {
        assert Last(Left()) == Cell(str[i - 1], path);
        NotAtEnd();
      }
    }

    // The same, followed.
    method FlushFollowed(str: string, prevEnd: nat, i: nat, kind: char, curColumn: int, ghost t: Track)
      requires Valid() && prevEnd <= i <= |str| && Pending(str, prevEnd, i, curColumn)
      modifies `before, `after, `currentCursorLine, `currentCursorColumn, `adjustStyleNeeded, `adjustedAt, `printed, `inked, `astray, `bare, `slip
      ensures Valid() && FirstStays() && printed == old(printed) + str[prevEnd..i]
      ensures Chars(Left()) == old(Chars(Left())) + str[prevEnd..i]
      ensures NoneAstray(kind)
      ensures astray == old(astray) ==> inked == old(inked) + InkOf(str[prevEnd..i], currentStyles)
      ensures Settled(curColumn)
      ensures slip == PrintSlip(old(slip), str[prevEnd..i], old(Cursor()).col, curColumn)
      ensures old(slip) == None && old(Exact(str, prevEnd, i, curColumn)) ==>
                slip == None && Right() == old(Right())[Erased(old(Right()), Columns(str[prevEnd..i]))..]
      ensures old(slip) == None && old(Awaits(t, str, prevEnd, i, curColumn)) ==>
                slip == None && Stands(t) && (t.sure ==> curColumn == Cursor().col)
      ensures prevEnd == i ==> before == old(before) && after == old(after)
      ensures prevEnd < i ==> !AtEnd()
      ensures Cursor() == Pos(old(Cursor()).line, old(Cursor()).col + Columns(str[prevEnd..i]))
    {
      hide Valid, Pending, Left, Right, Screen, Cursor, Typed, Geometry, Columns, Settled, PrintSlip, AtEnd, Erased;
      Flush(str, prevEnd, i, kind, curColumn);
    }

    // What a control character has done to a document `cs` with the cursor at offset `at`; `both`
    // if a carriage return has taken the newline after it.
    ghost predicate Acted(ch: char, cs: seq<Cell>, at: nat, both: bool)
      requires at <= |cs|
      reads `before, `after, `scrollRegionBottom
    {
      var p := Recount(cs[..at]);
      match ch
      case '\r' => Arrived(cs, Pos(if both then p.line + 1 else p.line, 0), Screen(), |Left()|)
      case '\n' => p.line != scrollRegionBottom - 1 ==> Arrived(cs, Pos(p.line + 1, p.col), Screen(), |Left()|)
      case '\t' => Arrived(cs, Pos(p.line, NextTabCol(p.col)), Screen(), |Left()|)
      case '\U{08}' => Screen() == cs && Cursor() == Pos(p.line, Max(0, p.col - 1))
      case _ => Screen() == cs && |Left()| == at
    }

    lemma NothingDone(ch: char)
      requires ch !in "\r\n\t\U{08}"
      ensures |Left()| <= |Screen()| && Acted(ch, Screen(), |Left()|, false)
    {
      Here();
    }

    lemma Here()
      ensures |Left()| <= |Screen()| && Screen()[..|Left()|] == Left() && Screen()[|Left()|..] == Right()
    {
      Sides();
    }

    // A carriage return, with the newline after it if there is one and the cursor is not in the
    // last row of the scroll region.
    method CarriageReturn(newlineNext: bool) returns (both: bool)
      requires Valid()
      modifies `before, `after, `currentCursorLine, `currentCursorColumn, `adjustStyleNeeded, `slip
      ensures Valid() && slip == old(slip) && (both ==> newlineNext)
      ensures slip == None ==> Cursor().col == 0
      ensures slip == None ==> (both <==> newlineNext && old(Cursor()).line != scrollRegionBottom - 1)
      ensures |old(Left())| <= |old(Screen())| && (slip == None ==> Acted('\r', old(Screen()), |old(Left())|, both))
      ensures old(currentCursorColumn) >= -1 ==> currentCursorColumn >= -1
      ensures both && old(before) == [] && old(after) == [] ==>
                before == [Text("\n")] && after == [] && currentCursorColumn == -1
    {
      hide Cells, PathAfter, Depth, RecountFrom, Land;
      Here();
      both := false;
      if newlineNext {
        var line := GetCursorLine();
        both := line != scrollRegionBottom - 1;
      }
      ghost var cs, line := Screen(), Cursor().line;
      if both {
        CursorLineStart(1);
        assert Repeat('\n', 1) == "\n";
        Sides();
        ArrivedAtStart(cs, line + 1, Screen(), |Left()|);
      } else {
        CursorLineStart(0);
        Sides();
        if slip == None {
          ArrivedAtStart(cs, line, Screen(), |Left()|);
        }
      }
      assert Screen()[..|Left()|] == Left();
    }

    // A newline that is not taken for a carriage return and newline: in the last row of the scroll
    // region the rows move instead of the cursor.
    method LineFeed()
      requires Valid()
      modifies `before, `after, `currentCursorLine, `currentCursorColumn, `adjustStyleNeeded, `slip
      ensures Valid() && FirstStays()
      ensures currentCursorColumn >= 0
      ensures old(slip) == None ==>
                if old(Cursor()).line == scrollRegionBottom - 1 then slip == None
                else Slips(old(Screen()), Pos(old(Cursor()).line + 1, old(Cursor()).col))
      ensures slip == None ==> currentCursorColumn == Cursor().col
      ensures |old(Left())| <= |old(Screen())| && (old(slip) == None ==> Acted('\n', old(Screen()), |old(Left())|, false))
      ensures old(slip) == None && old(Cursor()).line == scrollRegionBottom - 1 ==>
                Edited('S', 1) && Cursor() == Pos(old(Cursor()).line, 0)
    {
      hide Cells, PathAfter, Depth, RecountFrom, Arrived, MoveSafe;
      Here();
      var line := GetCursorLine();
      if line == scrollRegionBottom - 1 {
        ScrollForward(1);
      } else {
        CursorDown(1);
      }
    }

    // To the next tab stop of the row.
    method Tab()
      requires Valid()
      modifies `before, `after, `currentCursorLine, `currentCursorColumn, `adjustStyleNeeded, `slip
      ensures Valid() && slip == old(slip)
      ensures currentCursorColumn >= 0 && (slip == None ==> currentCursorColumn == Cursor().col)
      ensures |old(Left())| <= |old(Screen())| && (slip == None ==> Acted('\t', old(Screen()), |old(Left())|, false))
    {
      hide Cells, PathAfter, Depth, RecountFrom, Arrived;
      Here();
      var column := GetCursorColumn();
      var nextStop := NextTabCol(column);
      CursorRight(nextStop - currentCursorColumn);
    }

    // One column to the left.  The column that is cached afterwards is unknown exactly if it was
    // unknown before and the character in front of the cursor is simply taken over to the other
    // side, or if that cannot be done, the cursor is in column 0 of a row below the first, and the
    // document ends where that row begins.
    method Backspace()
      requires Valid()
      modifies `before, `after, `currentCursorLine, `currentCursorColumn, `adjustStyleNeeded, `slip
      ensures Valid() && slip == old(slip) && (old(Coherent()) ==> Coherent())
      ensures old(Coherent()) ==>
                (currentCursorColumn < 0 <==>
                   if Shifts(old(before), 1) then old(currentCursorColumn) < 0
                   else old(Cursor()).col == 0 && old(Cursor()).line > 0 && EndsWithRow(old(before + after), old(Cursor()).line))
      ensures old(Coherent()) && old(currentCursorColumn) >= -1 ==> currentCursorColumn >= -1
      ensures |old(Left())| <= |old(Screen())| && (old(slip) == None ==> Acted('\U{08}', old(Screen()), |old(Left())|, false))
    {
      hide Cells, PathAfter, Depth, RecountFrom, Falls, EndsWithRow;
      Here();
      CursorRowExists();
      if Cursor().line > 0 {
        FallsAtRow(before + after, Cursor().line);
      }
      CursorLeft(1);
    }

    // What a line feed makes of the slip: outside the last row of the scroll region it moves to the
    // row below.
    ghost function FeedSlip(was: Option<Slip>, cs: seq<Cell>, at: nat): Option<Slip>
      requires at <= |cs|
      reads `scrollRegionBottom
    {
      var p := Recount(cs[..at]);
      var goal := Pos(p.line + 1, p.col);
      Slipped(was, p.line == scrollRegionBottom - 1 || MoveSafe(cs, goal), UnsafeMove(cs, goal))
    }

    lemma FeedSlipCause(was: Option<Slip>, cs: seq<Cell>, at: nat)
      requires at <= |cs|
      ensures var slip := FeedSlip(was, cs, at);
              slip != was ==> was == None && slip.Some? && slip.value.UnsafeMove? && Recount(cs[..at]).col > 0
    {
    }

    // One round keeps account: text is lost track of only if it was pending in a wrong column, and
    // a move is unsafe only if it is that of a newline which does not come right at the start of a
    // row.  A backspace leaves the column right unless nothing is pending and the document ends at
    // the cursor, and nothing else makes a right column wrong.
    twostate predicate Stepped(str: string, prevEnd: nat, i: nat, curColumn: int,
                               prevEnd': nat, next: nat, curColumn': int)
      requires prevEnd <= i < |str| && prevEnd' <= next <= |str|
      reads `before, `after, `slip
    {
      && FirstStays()
      && (slip != old(slip) ==>
            && slip.Some?
            && if slip.value.LostColumn? then !old(Exact(str, prevEnd, i, curColumn))
               else str[i] == '\n' && !(prevEnd == i && curColumn == 0))
      && (slip == None ==>
            if str[i] == Scan.BACKSPACE then
              Exact(str, prevEnd', next, curColumn') <==> !(prevEnd == i && old(AtEnd()))
            else
              old(Exact(str, prevEnd, i, curColumn)) ==> Exact(str, prevEnd', next, curColumn'))
    }

    // The column in which text is taken to go on is right, or unknown after a backspace.
    ghost predicate Settled(curColumn: int)
      reads `before, `currentCursorColumn, `slip
    {
      slip == None ==>
        (curColumn == Cursor().col || (curColumn == -1 && Cursor().col == 0)) && UnknownInFront()
    }

    lemma NothingPending(str: string, i: nat, curColumn: int)
      requires i <= |str| && Settled(curColumn)
      ensures Pending(str, i, i, curColumn)
      ensures Exact(str, i, i, curColumn) <==> curColumn == Cursor().col
    {
      NoColumns();
    }

    lemma OneMorePending(str: string, prevEnd: nat, i: nat, curColumn: int)
      requires prevEnd <= i < |str| && Pending(str, prevEnd, i, curColumn) && Plain(str[i]) && str[i] != '\n'
      ensures str[prevEnd..i + 1] == str[prevEnd..i] + [str[i]]
      ensures Pending(str, prevEnd, i + 1, UpdateColumn(str[i], curColumn))
      ensures Exact(str, prevEnd, i + 1, UpdateColumn(str[i], curColumn)) <==> Exact(str, prevEnd, i, curColumn)
    {
      ColumnsConcat(str[prevEnd..i], [str[i]]);
      OneCharacter(str[i]);
    }

    // A control character has had its effect on the cells `cs`, with the cursor at offset `at`.
    lemma TurnedObey(t: Track, was: Shape, cs: seq<Cell>, at: nat, ch: char, both: bool)
      requires at <= |cs| && was == Sheets.Sheet(WidthsOf(cs), Recount(cs[..at])) && IsViewOf(t.view, was)
      requires t.bottom == scrollRegionBottom && t.saved == Pos(savedCursorLine, savedCursorColumn)
      requires slip == (if ch == '\n' then FeedSlip(None, cs, at) else None)
      requires Acted(ch, cs, at, both)
      requires ch !in "\r\n\t\U{08}" ==> Geometry() == was
      requires both ==> ch == '\r' && was.pos.line != scrollRegionBottom - 1
      requires ch == '\n' && was.pos.line == scrollRegionBottom - 1 ==> Cursor() == Pos(was.pos.line, 0)
      ensures Turned(ObeysAll(t, ch, both))
    {
      hide Geometry, WidthsOf, Recount, Gone, Goes, MoveSafe, Arrived, Typed;
      GeometryIs();
      ViewFits(t.view, was);
      var p := was.pos;
      match ch {
        case '\r' =>
          var goal := Pos(if both then p.line + 1 else p.line, 0);
          GoneThere(cs, goal);
          SafeIsReaching(cs, goal);
          WentIsGoes(t.(sure := true), cs, was, goal);
          if both {
            ReturnAndFeed(t);
          }
        case '\n' =>
          if p.line != scrollRegionBottom - 1 {
            GoneThere(cs, Pos(p.line + 1, p.col));
            WentIsGoes(t.(sure := true), cs, was, Pos(p.line + 1, p.col));
          }
        case '\t' =>
          GoneThere(cs, Pos(p.line, NextTabCol(p.col)));
          SafeIsReaching(cs, Pos(p.line, NextTabCol(p.col)));
          WentIsGoes(t.(sure := true), cs, was, Pos(p.line, NextTabCol(p.col)));
        case _ =>
      }
    }

    // What a control character does to the document; a carriage return may take the newline after
    // it.
    method Obey(ch: char, newlineNext: bool, curColumn: int, ghost t: Track) returns (both: bool, curColumn': int)
      requires Valid() && Settled(curColumn)
      modifies `before, `after, `currentCursorLine, `currentCursorColumn, `adjustStyleNeeded, `slip
      ensures Valid() && Settled(curColumn') && (both ==> ch == '\r' && newlineNext)
      ensures ch == '\r' ==> curColumn' == 0
      ensures |old(Left())| <= |old(Screen())|
      ensures slip == if ch == '\n' then FeedSlip(old(slip), old(Screen()), |old(Left())|) else old(slip)
      ensures old(slip) == None ==> Acted(ch, old(Screen()), |old(Left())|, both)
      ensures slip == None ==>
                if ch == Scan.BACKSPACE then curColumn' == Cursor().col <==> !old(AtEnd())
                else curColumn == old(Cursor()).col ==> curColumn' == Cursor().col
      ensures old(slip) == None && old(Stands(t)) ==> Turned(ObeysAll(t, ch, both))
      ensures slip == None && old(Stands(t)) && (t.sure ==> curColumn == old(Cursor()).col) && ObeysAll(t, ch, both).Fine? ==>
                (ObeysAll(t, ch, both).track.sure ==> curColumn' == Cursor().col)
    {
      hide Cells, PathAfter, Depth, RecountFrom, Recount, Screen, Right, Wf, Arrived, MoveSafe, EndsWithRow, Edited;
      hide Geometry, ObeysAll, Turned, WidthsOf, Shifts;
      both, curColumn' := false, curColumn;
      ghost var cs, at, was := Screen(), |Left()|, Geometry();
      GeometryIs();
      ScreenIs();
      if Shifts(before, 1) {
        ShiftsInRow(before, 1);
      }
      Here();
      match ch {
        case '\r' =>
          both := CarriageReturn(newlineNext);
          curColumn' := 0;
        case '\n' =>
          LineFeed();
          curColumn' := currentCursorColumn;
        case '\U{08}' =>
          Backspace();
          curColumn' := currentCursorColumn;
        case '\t' =>
          Tab();
          curColumn' := currentCursorColumn;
        case _ =>
          NothingDone(ch);
      }
      if old(slip) == None && old(Stands(t)) {
        TurnedObey(t, was, cs, at, ch, both);
        ObeysAllSure(t, ch, both);
        if ch == Scan.BACKSPACE && old(AtEnd()) {
          EndMayEnd(t.view, old(before + after), was);
        }
      }
    }

    // The pending text is printed in front of a control character: then that has its effect on the
    // document, which shows `shown` before, with the cursor at `at`.
    method PrintAndObey(str: string, prevEnd: nat, i: nat, kind: char, curColumn: int, ghost t: Track)
      returns (next: nat, curColumn': int, ghost shown: seq<Cell>, ghost at: nat)
      requires Valid() && prevEnd <= i < |str| && Pending(str, prevEnd, i, curColumn)
      modifies `before, `after, `currentCursorLine, `currentCursorColumn, `adjustStyleNeeded, `adjustedAt, `printed, `inked, `astray, `bare, `slip
      ensures Valid() && printed == old(printed) + str[prevEnd..i]
      ensures NoneAstray(kind)
      ensures astray == old(astray) ==> inked == old(inked) + InkOf(str[prevEnd..i], currentStyles)
      ensures next == i + 1 || (next == i + 2 <= |str| && str[i] == '\r' && str[i + 1] == '\n')
      ensures Pending(str, next, next, curColumn') && (str[i] == '\r' ==> curColumn' == 0)
      ensures Stepped(str, prevEnd, i, curColumn, next, next, curColumn')
      ensures at <= |shown| && Chars(shown[..at]) == old(Chars(Left())) + str[prevEnd..i]
      ensures old(slip) == None && old(Exact(str, prevEnd, i, curColumn)) ==>
                shown[at..] == old(Right())[Erased(old(Right()), Columns(str[prevEnd..i]))..]
      ensures var printed := PrintSlip(old(slip), str[prevEnd..i], old(Cursor()).col, curColumn);
              && slip == (if str[i] == '\n' then FeedSlip(printed, shown, at) else printed)
              && (slip == None ==> Acted(str[i], shown, at, next == i + 2))
      ensures old(slip) == None && old(Awaits(t, str, prevEnd, i, curColumn)) ==>
                Came(ObeysAll(t, str[i], next == i + 2), str, next, next, curColumn')
    {
      hide Cells, PathAfter, Depth, RecountFrom, Columns, Recount, Acted, Erased, Screen, Right, Wf;
      hide Coherent, IsSlip, PrintSlip, FeedSlip, MoveSafe, Slipped, CacheOk, EndsWithRow, Typed, Geometry, ObeysAll, Turned, Came, Awaits, Stands;
      NoColumns();
      PrintSlipCause(slip, str[prevEnd..i], Cursor().col, curColumn);
      ghost var awaited := old(slip) == None && old(Awaits(t, str, prevEnd, i, curColumn));
      FlushFollowed(str, prevEnd, i, kind, curColumn, t);
      Here();
      shown, at := Screen(), |Left()|;
      FeedSlipCause(slip, shown, at);
      var both;
      both, curColumn' := Obey(str[i], i + 1 < |str| && str[i + 1] == '\n', curColumn, t);
      next := i + if both then 2 else 1;
      NothingPending(str, next, curColumn');
      if awaited {
        CameTurned(ObeysAll(t, str[i], both), str, next, curColumn');
      }
    }

    // The same with the machine, which an escape character takes into a sequence.
    method InsertControl(str: string, prevEnd: nat, i: nat, kind: char, curColumn: int, ghost t: Track)
      returns (next: nat, curColumn': int)
      requires Valid() && scanner.Valid() && scanner.controlSequenceState.Initial?
      requires prevEnd <= i < |str| && Pending(str, prevEnd, i, curColumn) && Scan.IsControl(str[i])
      modifies this, scanner, scanner.prevNumParameters
      ensures Valid() && scanner.Valid()
      ensures scanner.prevNumParameters == null || fresh(scanner.prevNumParameters)
           || scanner.prevNumParameters == old(scanner.prevNumParameters)
      ensures i < next <= |str|
      ensures NoneAstray(kind)
      ensures astray == old(astray) ==> PageAt(str, next, next) == Writes(old(PageAt(str, prevEnd, i)), str[i..next])
      ensures scanner.controlSequenceState.Initial? ==> Pending(str, next, next, curColumn')
      ensures Observed(str, next, next) ==
                Scan.Stream(Scan.Trace(old(scanner.Value()), old(printed) + str[prevEnd..i], old(dispatched)), str[i..next])
      ensures wrapWidth == old(wrapWidth)
      ensures Stepped(str, prevEnd, i, curColumn, next, next, curColumn')
      ensures str[i] != Scan.ESC ==> scanner.controlSequenceState.Initial?
      ensures str[i] == '\r' ==> curColumn' == 0 && (next == i + 1 || (next == i + 2 && str[i + 1] == '\n'))
      ensures str[i] != '\r' ==> next == i + 1
      ensures old(slip) == None && old(t.scan == scanner.Value() && Awaits(t, str, prevEnd, i, curColumn)) ==>
                Follows(Follow(t, str[i..next], wrapWidth), str, next, next, curColumn')
    {
      hide Valid, Cursor, Exact, Columns, Scan.Stream, Recount, Acted, Erased, Screen, Left, Right, PrintSlip, FeedSlip;
      hide Awaits, Follow, Turned, ObeysAll, AtEnd, Writes;
      ghost var page := PageAt(str, prevEnd, i);
      var ch := str[i];
      ghost var trace := Scan.Trace(scanner.Value(), printed + str[prevEnd..i], dispatched);
      assert str[i..i + 1] == [ch];
      Scan.StreamOne(trace, ch);
      ghost var shown, at;
      next, curColumn', shown, at := PrintAndObey(str, prevEnd, i, kind, curColumn, t);
      if ch == Scan.ESC {
        var e := scanner.Feed(ch);
      }
      if next == i + 2 {
        Scan.StreamControls(trace, str[i..i + 2]);
      }
      assert str[i..next] == if next == i + 2 then "\r\n" else [ch];
      WriteControls(page, str[i..next]);
      NoInk(currentStyles);
      assert str[next..next] == "";
      if old(slip) == None && old(t.scan == scanner.Value() && Awaits(t, str, prevEnd, i, curColumn)) {
        FollowControl(t, str[i..next], wrapWidth);
        ObeysAllSure(t, ch, next == i + 2);
        if ch == Scan.ESC {
          EscapeComes(t, str, next, curColumn');
        }
      }
    }

    // A character outside any sequence.  What has been printed and what is pending afterwards
    // are as the stream of characters up to `next` has it.
    method InsertCharacter(str: string, prevEnd: nat, i: nat, kind: char, curColumn: int, ghost t: Track)
      returns (prevEnd': nat, next: nat, curColumn': int)
      requires Valid() && scanner.Valid() && scanner.controlSequenceState.Initial?
      requires prevEnd <= i < |str| && Pending(str, prevEnd, i, curColumn) && str[i] != FORM_FEED
      modifies this, scanner, scanner.prevNumParameters
      ensures Valid() && scanner.Valid()
      ensures prevEnd' <= next && i < next <= |str|
      ensures NoneAstray(kind)
      ensures astray == old(astray) ==> PageAt(str, prevEnd', next) == Writes(old(PageAt(str, prevEnd, i)), str[i..next])
      ensures scanner.prevNumParameters == null || fresh(scanner.prevNumParameters)
           || scanner.prevNumParameters == old(scanner.prevNumParameters)
      ensures scanner.controlSequenceState.Initial? ==> Pending(str, prevEnd', next, curColumn')
      ensures Observed(str, prevEnd', next) ==
                Scan.Stream(Scan.Trace(old(scanner.Value()), old(printed) + str[prevEnd..i], old(dispatched)), str[i..next])
      ensures wrapWidth == old(wrapWidth)
      ensures Stepped(str, prevEnd, i, curColumn, prevEnd', next, curColumn')
      ensures str[i] != Scan.ESC ==> scanner.controlSequenceState.Initial?
      ensures str[i] == '\r' ==> curColumn' == 0 && prevEnd' == next && (next == i + 1 || (next == i + 2 && str[i + 1] == '\n'))
      ensures str[i] != '\r' ==> next == i + 1
      ensures Scan.IsControl(str[i]) ==> prevEnd' == next
      ensures !Scan.IsControl(str[i]) ==>
                && prevEnd' <= i && next == i + 1 && scanner.controlSequenceState.Initial?
                && Shows(str, prevEnd, i, curColumn, str[i], prevEnd', curColumn', old(Chars(Left())))
      ensures old(slip) == None && old(t.scan == scanner.Value() && Awaits(t, str, prevEnd, i, curColumn)) ==>
                Follows(Follow(t, str[i..next], wrapWidth), str, prevEnd', next, curColumn')
    {
      hide Cells, PathAfter, Depth, RecountFrom, Columns, Scan.Stream, Recount, Acted, Erased, Screen, Right, Wf;
      hide Awaits, Stands, Follow, AtEnd, Geometry, Writes;
      ghost var page := PageAt(str, prevEnd, i);
      if Scan.IsControl(str[i]) {
        next, curColumn' := InsertControl(str, prevEnd, i, kind, curColumn, t);
        prevEnd' := next;
      } else {
        ghost var before := Scan.Trace(scanner.Value(), printed + str[prevEnd..i], dispatched);
        assert str[i..i + 1] == [str[i]];
        Scan.StreamOne(before, str[i]);
        next := i + 1;
        WritesOne(page, str[i]);
        InkConcat(str[prevEnd..i], [str[i]], currentStyles);
        assert str[prevEnd..next] == str[prevEnd..i] + [str[i]] && InkOf([str[i]], currentStyles) == [Ink(str[i], currentStyles)];
        prevEnd', curColumn' := InsertGraphic(str, prevEnd, i, kind, curColumn, t);
        if t.scan.state.Initial? {
          FollowGraphic(t, str[i], wrapWidth);
        }
      }
    }

    // Written and pending text together, with the styles wanted for what comes.
    ghost function PageAt(str: string, prevEnd: nat, i: nat): Page
      requires scanner.Valid() && prevEnd <= i <= |str|
      reads this, scanner, scanner.prevNumParameters
    {
      Page(scanner.Value(), currentStyles,
           inked + if scanner.controlSequenceState.Initial? then InkOf(str[prevEnd..i], currentStyles) else [])
    }

    // Printed and pending text together, as the stream up to `i` has it.
    ghost function Observed(str: string, prevEnd: nat, i: nat): Scan.Trace
      requires scanner.Valid() && prevEnd <= i <= |str|
      reads this, scanner, scanner.prevNumParameters
    {
      Scan.Trace(scanner.Value(),
                 printed + if scanner.controlSequenceState.Initial? then str[prevEnd..i] else "",
                 dispatched)
    }

    // The next character is shown as the layout of the text has it.
    ghost predicate Shows(str: string, prevEnd: nat, i: nat, curColumn: int, ch: char,
                          prevEnd': nat, curColumn': int, was: string)
      requires prevEnd <= i < |str| && prevEnd' <= i + 1
      reads this
    {
      var full := UpdateColumn(ch, curColumn) > wrapWidth;
      && curColumn' == UpdateColumn(ch, if full then 0 else curColumn)
      && Chars(Left()) + str[prevEnd'..i + 1] ==
         was + str[prevEnd..i] + (if full then WRAP_STRING_NEWLINE else "") + [ch]
    }

    lemma AwaitsGraphic(t: Track, was: Shape, str: string, prevEnd: nat, i: nat, curColumn: int, prevEnd': nat, curColumn': int)
      requires prevEnd <= i < |str| && t.sure && Plain(str[i]) && str[i] != '\n'
      requires IsViewOf(t.view, Typed(was, Columns(str[prevEnd..i]))) && curColumn == was.pos.col + Columns(str[prevEnd..i])
      requires t.bottom == scrollRegionBottom && t.saved == Pos(savedCursorLine, savedCursorColumn)
      requires if UpdateColumn(str[i], curColumn) > wrapWidth then
                 Geometry() == Broken(Typed(was, Columns(str[prevEnd..i]))) && prevEnd' == i && curColumn' == UpdateColumn(str[i], 0)
               else
                 Geometry() == was && prevEnd' == prevEnd && curColumn' == UpdateColumn(str[i], curColumn)
      ensures Awaits(t.(view := Tracks.Shows(t.view, str[i], wrapWidth)), str, prevEnd', i + 1, curColumn')
    {
      hide Columns, Geometry;
      var n, w := Columns(str[prevEnd..i]), CharColumns(str[i]);
      assert str[prevEnd'..i + 1] == str[prevEnd'..i] + [str[i]];
      ColumnsConcat(str[prevEnd'..i], [str[i]]);
      OneCharacter(str[i]);
      NoColumns();
      GeometryIs();
      ViewFits(t.view, Typed(was, n));
      TypedTwice(was, n, w);
      ViewFits(Wraps(t.view), Broken(Typed(was, n)));
    }

    // The row is full: what is pending is printed, and a new row started.
    method WrapRow(str: string, prevEnd: nat, i: nat, kind: char, curColumn: int)
      requires Valid() && prevEnd <= i < |str| && Pending(str, prevEnd, i, curColumn)
      modifies `before, `after, `currentCursorLine, `currentCursorColumn, `adjustStyleNeeded, `adjustedAt, `printed, `inked, `astray, `bare, `slip
      ensures Valid() && Pending(str, i, i, 0) && Exact(str, i, i, 0)
      ensures FirstStays()
      ensures slip != old(slip) ==> slip.Some? && slip.value.LostColumn? && !old(Exact(str, prevEnd, i, curColumn))
      ensures NoneAstray(kind)
      ensures astray == old(astray) ==> inked == old(inked) + InkOf(str[prevEnd..i], currentStyles)
      ensures printed == old(printed) + str[prevEnd..i]
      ensures Chars(Left()) == old(Chars(Left())) + str[prevEnd..i] + WRAP_STRING_NEWLINE
      ensures old(slip) == None && old(Exact(str, prevEnd, i, curColumn)) ==>
                slip == None && Geometry() == Broken(Typed(old(Geometry()), Columns(str[prevEnd..i])))
    {
      hide Cells, PathAfter, Depth, RecountFrom, Columns, Recount, Wf, Erased, IsSlip, CharColumns, Rows;
      hide Geometry, Typed, Broken, WidthsOf, AtEnd;
      NoColumns();
      Flush(str, prevEnd, i, kind, curColumn);
      CharsOfText(Left(), WRAP_STRING_NEWLINE, PathAfter(before, []));
      GeometryOf();
      BrokenCells(Left(), Right(), PathAfter(before, []));
      InsertWrapBreak();
      GeometryOf();
      NothingPending(str, i, 0);
    }

    // A character to be shown; one that would go beyond the wrap width starts a new row.
    method InsertGraphic(str: string, prevEnd: nat, i: nat, kind: char, curColumn: int, ghost t: Track)
      returns (prevEnd': nat, curColumn': int)
      requires Valid() && prevEnd <= i < |str| && Pending(str, prevEnd, i, curColumn)
      requires Plain(str[i]) && !Scan.IsControl(str[i])
      modifies `before, `after, `currentCursorLine, `currentCursorColumn, `adjustStyleNeeded, `adjustedAt, `printed, `inked, `astray, `bare, `slip
      ensures Valid() && prevEnd' <= i && Pending(str, prevEnd', i + 1, curColumn')
      ensures Stepped(str, prevEnd, i, curColumn, prevEnd', i + 1, curColumn')
      ensures NoneAstray(kind)
      ensures astray == old(astray) ==>
                inked + InkOf(str[prevEnd'..i + 1], currentStyles) == old(inked) + InkOf(str[prevEnd..i + 1], currentStyles)
      ensures printed + str[prevEnd'..i + 1] == old(printed) + str[prevEnd..i + 1]
      ensures Shows(str, prevEnd, i, curColumn, str[i], prevEnd', curColumn', old(Chars(Left())))
      ensures old(slip) == None && t.sure && old(Awaits(t, str, prevEnd, i, curColumn)) ==>
                && slip == None
                && Awaits(t.(view := Tracks.Shows(t.view, str[i], wrapWidth)), str, prevEnd', i + 1, curColumn')
    {
      hide Valid, Pending, Left, UpdateColumn, Geometry, AtEnd, EndsWithRow, Columns, Cursor, IsViewOf, Typed, Broken;
      ghost var was := Geometry();
      GeometryIs();
      var ch := str[i];
      prevEnd' := prevEnd;
      assert str[prevEnd..i + 1] == str[prevEnd..i] + [ch];
      InkConcat(str[prevEnd..i], [ch], currentStyles);
      var nextColumn := UpdateColumn(ch, curColumn);
      if nextColumn > wrapWidth {
        WrapRow(str, prevEnd, i, kind, curColumn);
        prevEnd' := i;
        assert str[i..i + 1] == [ch];
        nextColumn := UpdateColumn(ch, 0);
        OneMorePending(str, i, i, 0);
      } else {
        OneMorePending(str, prevEnd, i, curColumn);
      }
      curColumn' := nextColumn;
      if old(slip) == None && t.sure && old(Awaits(t, str, prevEnd, i, curColumn)) {
        AwaitsGraphic(t, was, str, prevEnd, i, curColumn, prevEnd', curColumn');
      }
    }

    // Of a text without control characters, what is shown and what is pending up to `i` are as
    // its layout has them.
    ghost predicate LaidOut(str: string, prevEnd: nat, i: nat, curColumn: int, column: int, left: string)
      requires prevEnd <= i <= |str|
      reads this, scanner
    {
      scanner.controlSequenceState.Initial? && LaidAt(str, prevEnd, i, curColumn, column, left, Chars(Left()))
    }

    // The same of what was shown earlier.
    ghost predicate LaidAt(str: string, prevEnd: nat, i: nat, curColumn: int, column: int, left: string, was: string)
      requires prevEnd <= i <= |str|
      reads `wrapWidth
    {
      var l := Lay(column, str[..i], wrapWidth);
      curColumn == l.col && was + str[prevEnd..i] == left + Shown(l.pieces)
    }

    lemma LaidOutNext(str: string, prevEnd: nat, i: nat, curColumn: int, prevEnd': nat, curColumn': int,
                      was: string, column: int, left: string)
      requires prevEnd <= i < |str| && prevEnd' <= i + 1 && scanner.controlSequenceState.Initial?
      requires LaidAt(str, prevEnd, i, curColumn, column, left, was)
      requires Shows(str, prevEnd, i, curColumn, str[i], prevEnd', curColumn', was)
      ensures LaidOut(str, prevEnd', i + 1, curColumn', column, left)
    {
      hide Cells, Shown;
      assert str[..i + 1][..i] == str[..i];
      var l := Lay(column, str[..i], wrapWidth);
      ShownNext(l, str[i], wrapWidth);
    }

    // What a finished sequence has done.
    twostate predicate Handled(e: Scan.Event)
      reads `before, `after, `currentCursorLine, `currentCursorColumn, `slip, `adjustStyleNeeded,
            `currentStyles, `scrollRegionTop, `scrollRegionBottom, `numRows, `savedCursorLine, `savedCursorColumn
    {
      match e
      case Escape(ch) =>
        if ch == '7' then ModeSet('h', true, 1048)
        else if ch == '8' then ModeSet('l', true, 1048)
        else if ch == 'M' then Edited('L', 1)
        else before == old(before) && after == old(after)
      case ControlSequence(last, question, parameters) => parameters != [] && Controlled(last, question, parameters)
      case _ => before == old(before) && after == old(after)
    }

    // The two-character sequences: 7 and 8 save and restore the cursor, M inserts a row.
    method HandleEscape(ch: char, ghost t: Track)
      requires Valid()
      modifies `before, `after, `currentCursorLine, `currentCursorColumn, `adjustStyleNeeded, `slip,
               `savedCursorLine, `savedCursorColumn
      ensures Valid() && FirstStays() && Handled(Scan.Escape(ch))
      ensures Quiet(Scan.Escape(ch)) ==> slip == old(slip)
      ensures slip != old(slip) ==> slip.Some? && slip.value.UnsafeMove?
      ensures old(slip) == None && old(Stands(t)) ==> Turned(Does(t, Scan.Escape(ch)))
    {
      hide Cells, PathAfter, Depth, RecountFrom, Rows, Wf, Screen, Right, ScreenRows, RowsReady;
      hide Geometry, Gone, Goes, WidthsOf, Arrived, MoveSafe, Sgr.IsEntry;
      ghost var cs, was := Screen(), Geometry();
      GeometryIs();
      if ch == '7' {
        SaveCursor();
      } else if ch == '8' {
        RestoreCursor();
        if old(slip) == None && old(Stands(t)) {
          GoneThere(cs, t.saved);
          WentIsGoes(t, cs, was, t.saved);
        }
      } else if ch == 'M' {
        InsertLines(1);
      }
      GeometryIs();
      if IsViewOf(t.view, was) {
        ViewFits(t.view, was);
      }
    }

    // What a finished sequence does.  False if it is outside the model.
    method Dispatch(e: Scan.Event, ghost t: Track) returns (ok: bool)
      requires Valid() && (e.ControlSequence? ==> e.parameters != [])
      modifies `before, `after, `currentCursorLine, `currentCursorColumn, `adjustStyleNeeded, `slip,
               `currentStyles, `scrollRegionTop, `scrollRegionBottom, `savedCursorLine, `savedCursorColumn, `dispatched
      ensures Valid() && FirstStays()
      ensures ok ==> Handled(e)
      ensures Quiet(e) ==> slip == old(slip)
      ensures slip != old(slip) ==> slip.Some? && slip.value.UnsafeMove?
      ensures dispatched == old(dispatched) + [e]
      ensures ok ==> currentStyles == Restyled(old(currentStyles), e)
      ensures old(slip) == None && old(Stands(t)) ==> Turned(Does(t, e)) && (!ok ==> Does(t, e) == Unclear)
    {
      hide Cells, PathAfter, Depth, RecountFrom, Rows, Wf, Screen, Right, ScreenRows, RowsReady, Sgr.Run, Controlled;
      hide Geometry, Controls, Turned, Stands, ModeSet, Edited, Goes, Quiet, Scrolls;
      ok := true;
      match e {
        case Escape(ch) => HandleEscape(ch, t);
        case ControlSequence(last, question, parameters) =>
          ok := HandleControlSequence(last, question, parameters, t);
          UnclearIfNotSupported(t, last, question, parameters);
        case SystemControl(code, _) => ok := code != 72;
        case _ =>
      }
      dispatched := dispatched + [e];
      TurnedFine(t);
    }

    // One more character of a sequence, and what the sequence does if that finishes it.
    method ContinueSequence(ch: char, ghost t: Track) returns (ok: bool)
      requires Valid() && scanner.Valid() && !scanner.controlSequenceState.Initial?
      modifies this, scanner, scanner.prevNumParameters
      ensures Valid() && scanner.Valid() && FirstStays()
      ensures scanner.prevNumParameters == null || fresh(scanner.prevNumParameters)
           || scanner.prevNumParameters == old(scanner.prevNumParameters)
      ensures wrapWidth == old(wrapWidth)
      ensures slip != old(slip) ==>
                slip.Some? && slip.value.UnsafeMove? && !Quiet(Scan.Step(old(scanner.Value()), ch).1)
      ensures inked == old(inked) && astray == old(astray) && bare == old(bare) && (ok ==> Written() == Write(old(Written()), ch))
      ensures ok ==> Progress() == Scan.Observe(old(Progress()), ch)
      ensures old(slip) == None && old(t.scan == scanner.Value() && Stands(t)) ==>
                Traced(Feed(t, ch, wrapWidth)) && (!ok ==> Feed(t, ch, wrapWidth) == Unclear)
    {
      hide Cells, PathAfter, Depth, RecountFrom, Recount, Scan.Step, Quiet, Handled, Geometry, Does;
      ok := true;
      Scan.Dispatches(scanner.Value(), ch);
      var e := scanner.Feed(ch);
      if e != Scan.Nothing {
        DoesKeeps(t.(scan := scanner.Value(), sure := true), e);
        ok := Dispatch(e, t.(scan := scanner.Value(), sure := true));
      }
    }

    // The state from which a stream is followed.
    ghost function Tracked(): Track
      requires scanner.Valid()
      reads this, scanner, scanner.prevNumParameters
    {
      Track(scanner.Value(), Whole(Geometry()), true, scrollRegionBottom, Pos(savedCursorLine, savedCursorColumn))
    }

    lemma TrackedStands(u: Track)
      requires scanner.Valid()
      ensures Stands(Tracked()) && Tracked().scan == scanner.Value()
      ensures Stands(u) && u.scan == scanner.Value() ==> Refines(Tracked(), u)
    {
      hide Geometry;
    }

    // All there is to know of the terminal, with the pending text printed.
    ghost function Now(str: string, prevEnd: nat, i: nat, curColumn: int): Track
      requires scanner.Valid() && prevEnd <= i <= |str|
      reads this, scanner, scanner.prevNumParameters
    {
      Track(scanner.Value(), Whole(Typed(Geometry(), Columns(str[prevEnd..i]))), Exact(str, prevEnd, i, curColumn),
            scrollRegionBottom, Pos(savedCursorLine, savedCursorColumn))
    }

    lemma NowAwaits(str: string, prevEnd: nat, i: nat, curColumn: int, u: Track)
      requires scanner.Valid() && prevEnd <= i <= |str|
      ensures var t := Now(str, prevEnd, i, curColumn);
              && t.scan == scanner.Value()
              && (prevEnd == i || Exact(str, prevEnd, i, curColumn) ==> Awaits(t, str, prevEnd, i, curColumn))
              && (Awaits(u, str, prevEnd, i, curColumn) && u.scan == t.scan ==>
                    Refines(t, u) && Awaits(t, str, prevEnd, i, curColumn))
    {
      hide Geometry, Typed;
    }

    lemma FollowsRefined(o: Outcome, u: Outcome, str: string, prevEnd: nat, i: nat, curColumn: int)
      requires scanner.Valid() && prevEnd <= i <= |str|
      requires Follows(o, str, prevEnd, i, curColumn) && RefinesOutcome(o, u)
      requires scanner.controlSequenceState.Initial? && u.Fine? && !u.track.sure ==> prevEnd == i
      ensures Follows(u, str, prevEnd, i, curColumn)
    {
      hide Geometry, Typed;
    }

    // How the reading of a chunk stands at `i`, having started at `start`; `left` and `column`
    // are what was shown and the column then, and `was` the slip there had been.
    ghost predicate Told(str: string, prevEnd: nat, i: nat, curColumn: int,
                         start: Scan.Trace, column: int, left: string, was: Option<Slip>)
      reads this, scanner, scanner.prevNumParameters
    {
      && Valid() && scanner.Valid()
      && prevEnd <= i <= |str|
      && (scanner.controlSequenceState.Initial? ==> Pending(str, prevEnd, i, curColumn))
      && Observed(str, prevEnd, i) == Scan.Stream(start, str[..i])
      && (start.scan.state.Initial? && Showable(str) ==> LaidOut(str, prevEnd, i, curColumn, column, left))
      && (start.scan.state.Initial? && TextLines(str) ==> scanner.controlSequenceState.Initial?)
      && (slip != was ==> was == None && Explained(start, str[..i], slip))
      && (slip == None && scanner.controlSequenceState.Initial? && !Risky(start, str[..i], true) ==>
            Exact(str, prevEnd, i, curColumn))
      && (scanner.controlSequenceState.Initial? && AfterReturn(start, str[..i]) ==> prevEnd == i && curColumn == 0)
      && (scanner.controlSequenceState.Initial? && AfterShown(start, str[..i]) ==> prevEnd < i)
    }

    // The same, and the stream has been followed from the state `from`.
    ghost predicate Reading(str: string, prevEnd: nat, i: nat, curColumn: int,
                            start: Scan.Trace, column: int, left: string, was: Option<Slip>, from: Track)
      reads this, scanner, scanner.prevNumParameters
    {
      && Told(str, prevEnd, i, curColumn, start, column, left, was)
      && (was == None ==> Follows(Follow(from, str[..i], wrapWidth), str, prevEnd, i, curColumn))
    }

    // What the reading of the chunk leaves if it stops early.
    ghost predicate Stopped(str: string, was: Option<Slip>, from: Track)
      reads `slip, `wrapWidth
    {
      var o := Follow(from, str, wrapWidth);
      was == None ==> !o.Fine? && SlipAsTold(o, slip)
    }

    // A character outside any sequence, told and followed.
    method TellOutside(str: string, prevEnd: nat, i: nat, kind: char, curColumn: int, ghost start: Scan.Trace,
                       ghost column: int, ghost left: string, ghost was: Option<Slip>, ghost t: Track)
      returns (prevEnd': nat, next: nat, curColumn': int)
      requires i < |str| && Told(str, prevEnd, i, curColumn, start, column, left, was)
      requires scanner.controlSequenceState.Initial? && str[i] != FORM_FEED
      modifies this, scanner, scanner.prevNumParameters
      ensures Valid() && scanner.Valid() && FirstStays() && wrapWidth == old(wrapWidth)
      ensures scanner.prevNumParameters == null || fresh(scanner.prevNumParameters)
           || scanner.prevNumParameters == old(scanner.prevNumParameters)
      ensures i < next && Told(str, prevEnd', next, curColumn', start, column, left, was)
      ensures prevEnd' <= next <= |str|
      ensures NoneAstray(kind)
      ensures astray == old(astray) ==> PageAt(str, prevEnd', next) == Writes(old(PageAt(str, prevEnd, i)), str[i..next])
      ensures Scan.IsControl(str[i]) ==> prevEnd' == next
      ensures !Scan.IsControl(str[i]) ==> next == i + 1
      ensures Stepped(str, prevEnd, i, curColumn, prevEnd', next, curColumn')
      ensures slip != was ==> was == None && Explained(start, str, slip)
      ensures old(slip) == None && old(t.scan == scanner.Value() && Awaits(t, str, prevEnd, i, curColumn)) ==>
                Follows(Follow(t, str[i..next], wrapWidth), str, prevEnd', next, curColumn')
    {
      hide Cells, PathAfter, Depth, RecountFrom, Columns, Recount, Scan.Stream, Scan.Step, Lay, Shown, Risky, AfterReturn;
      hide Wf, Screen, Right, ScreenRows, RowsReady, Rows, Shows, LaidAt, Coherent, MoveSafe, CacheOk, IsSlip;
      hide Follow, Follows, Awaits, Stands, AfterShown, Geometry, AtEnd, PageAt, Writes;
      ghost var shown := Chars(Left());
      if start.scan.state.Initial? && TextLines(str) {
        assert TextLineAt(str, i);
      }
      ghost var laid := start.scan.state.Initial? && Showable(str);
      if laid {
        assert LaidAt(str, prevEnd, i, curColumn, column, left, shown);
      }
      prevEnd', next, curColumn' := InsertCharacter(str, prevEnd, i, kind, curColumn, t);
      if laid {
        LaidOutNext(str, prevEnd, i, curColumn, prevEnd', curColumn', shown, column, left);
      }
      assert str[..next] == str[..i] + str[i..next];
      assert str[i..next] == if next == i + 2 then "\r\n" else [str[i]];
      Scan.Chunking(start, str[..i], str[i..next]);
      RiskNext(start, str[..i], str[i..next]);
      RiskStays(start, str[..next], str[next..]);
      assert str[..next] + str[next..] == str;
    }

    // One round of the loop of insertString: a character outside any sequence.
    method ReadOutside(str: string, prevEnd: nat, i: nat, kind: char, curColumn: int, ghost start: Scan.Trace,
                       ghost column: int, ghost left: string, ghost was: Option<Slip>, ghost from: Track)
      returns (ok: bool, prevEnd': nat, next: nat, curColumn': int)
      requires i < |str| && Reading(str, prevEnd, i, curColumn, start, column, left, was, from)
      requires scanner.controlSequenceState.Initial?
      modifies this, scanner, scanner.prevNumParameters
      ensures Valid() && scanner.Valid() && FirstStays() && wrapWidth == old(wrapWidth)
      ensures scanner.prevNumParameters == null || fresh(scanner.prevNumParameters)
           || scanner.prevNumParameters == old(scanner.prevNumParameters)
      ensures if ok then
                && i < next <= |str| && prevEnd' <= next
                && Reading(str, prevEnd', next, curColumn', start, column, left, was, from)
                && Stepped(str, prevEnd, i, curColumn, prevEnd', next, curColumn')
              else Stopped(str, was, from)
      ensures ok && old(slip) == None && (prevEnd == i || old(Exact(str, prevEnd, i, curColumn))) ==>
                Follows(Follow(old(Now(str, prevEnd, i, curColumn)), str[i..next], wrapWidth), str, prevEnd', next, curColumn')
      ensures slip != was ==> was == None && Explained(start, str, slip)
      ensures ok <==> str[i] != FORM_FEED
      ensures NoneAstray(kind)
      ensures ok && astray == old(astray) ==>
                PageAt(str, prevEnd', next) == Writes(old(PageAt(str, prevEnd, i)), str[i..next])
      ensures start.scan.state.Initial? && (Showable(str) || TextLines(str)) ==> ok
    {
      hide Columns, Scan.Stream, Scan.Step, Risky, Left, Cursor, Follow, Awaits, Stands, Geometry, AtEnd, Now, Refines, WidthsOf, PageAt, Writes;
      hide Pending, Observed, LaidOut, AfterReturn, AfterShown, Exact, Valid, SlipAsTold;
      if TextLines(str) {
        assert TextLineAt(str, i);
      }
      NothingTold();
      ok, prevEnd', next, curColumn' := true, prevEnd, i, curColumn;
      ghost var o := Follow(from, str[..i], wrapWidth);
      ghost var u := if o.Fine? then o.track else from;
      ghost var t := Now(str, prevEnd, i, curColumn);
      if str[i] == FORM_FEED {
        ok := false;
        RiskStays(start, str[..i], str[i..]);
        assert str[..i] + str[i..] == str;
        FollowStops(from, str, i, wrapWidth);
        return;
      }
      NowAwaits(str, prevEnd, i, curColumn, u);
      hide Told;
      prevEnd', next, curColumn' := TellOutside(str, prevEnd, i, kind, curColumn, start, column, left, was, t);
      assert str[..next] == str[..i] + str[i..next];
      FollowConcat(from, str[..i], str[i..next], wrapWidth);
      if was == None && !o.Fine? {
        StillTold(o, old(slip), slip);
      } else if was == None {
        FollowRefines(t, u, str[i..next], wrapWidth);
        if !Scan.IsControl(str[i]) {
          assert str[i..next] == [str[i]];
          FollowGraphic(u, str[i], wrapWidth);
        }
        FollowsRefined(Follow(t, str[i..next], wrapWidth), Follow(u, str[i..next], wrapWidth), str, prevEnd', next, curColumn');
      }
    }

    // One round of the loop of insertString: a character of a sequence.
    method ReadInside(str: string, prevEnd: nat, i: nat, curColumn: int, ghost start: Scan.Trace,
                      ghost column: int, ghost left: string, ghost was: Option<Slip>, ghost from: Track)
      returns (ok: bool, prevEnd': nat, curColumn': int)
      requires i < |str| && Reading(str, prevEnd, i, curColumn, start, column, left, was, from)
      requires !scanner.controlSequenceState.Initial?
      modifies this, scanner, scanner.prevNumParameters
      ensures Valid() && scanner.Valid() && FirstStays() && wrapWidth == old(wrapWidth)
      ensures scanner.prevNumParameters == null || fresh(scanner.prevNumParameters)
           || scanner.prevNumParameters == old(scanner.prevNumParameters)
      ensures if ok then Reading(str, prevEnd', i + 1, curColumn', start, column, left, was, from)
              else Stopped(str, was, from)
      ensures old(slip) == None ==>
                var o := Feed(old(Tracked()), str[i], wrapWidth);
                if ok then Follows(o, str, prevEnd', i + 1, curColumn') else o == Unclear
      ensures slip != was ==> was == None && Explained(start, str, slip)
      ensures start.scan.state.Initial? && (Showable(str) || TextLines(str)) ==> ok
      ensures astray == old(astray) && bare == old(bare)
      ensures ok ==> prevEnd' <= i + 1 && PageAt(str, prevEnd', i + 1) == Write(old(PageAt(str, prevEnd, i)), str[i])
    {
      hide Cells, PathAfter, Depth, RecountFrom, Columns, Recount, Scan.Stream, Scan.Step, Lay, Shown, Risky, AfterReturn;
      hide Wf, Screen, Right, ScreenRows, RowsReady, Rows, Quiet, MoveSafe, IsSlip, Coherent, CacheOk, Handled, LaidOut;
      hide Follow, Feed, Awaits, Stands, AfterShown, Geometry, Tracked, Refines, SlipAsTold, Write;
      ok, prevEnd', curColumn' := true, prevEnd, curColumn;
      assert str[..i + 1] == str[..i] + [str[i]];
      Scan.StreamSnoc(start, str[..i], str[i]);
      RiskSnoc(start, str[..i], str[i]);
      RiskStays(start, str[..i + 1], str[i + 1..]);
      assert str[..i + 1] + str[i + 1..] == str;
      ghost var o := Follow(from, str[..i], wrapWidth);
      ghost var u := if o.Fine? then o.track else from;
      ghost var t := Tracked();
      TrackedStands(u);
      FollowSnoc(from, str[..i], str[i], wrapWidth);
      PageIsWritten(str, prevEnd, i);
      ok := ContinueSequence(str[i], t);
      if !ok {
        FollowStops(from, str, i, wrapWidth);
      } else if scanner.controlSequenceState.Initial? {
        prevEnd' := i + 1;
        curColumn' := GetCursorColumn();
        NothingPending(str, i + 1, curColumn');
        assert str[i + 1..i + 1] == "";
        NothingAwaited(str, i + 1, curColumn');
      }
      if ok {
        PageIsWritten(str, prevEnd', i + 1);
      }
      NothingTold();
      if was == None && !o.Fine? {
        StillTold(o, old(slip), slip);
      } else if was == None {
        FeedRefines(t, u, str[i], wrapWidth);
        if ok {
          FollowsRefined(Feed(t, str[i], wrapWidth), Feed(u, str[i], wrapWidth), str, prevEnd', i + 1, curColumn');
        }
      }
    }

    lemma RowsCounted()
      ensures |Geometry().widths| == |ScreenRows()|
    {
    }

    // Whatever is true of the state that is followed may be known better.
    lemma TrackedRefines(t: Track, u: Track)
      requires scanner.Valid() && Stands(t) && t.scan == scanner.Value() && Refines(t, u)
      ensures Refines(Tracked(), u)
    {
      hide Geometry;
    }

    lemma RefinedStands(u: Track)
      requires scanner.Valid() && slip == None && Refines(Tracked(), u)
      ensures Traced(Fine(u))
    {
      hide Geometry;
    }

    lemma StandsTracked(str: string, curColumn: int)
      requires scanner.Valid() && (slip == None ==> curColumn == Cursor().col)
      ensures slip == None ==> Follows(Fine(Tracked()), str, 0, 0, curColumn)
    {
      hide Geometry;
      GeometryIs();
      NoColumns();
      TypedTwice(Geometry(), 0, 0);
    }

    lemma StartReading(str: string, curColumn: int)
      requires Valid() && scanner.Valid() && curColumn == currentCursorColumn >= 0
      ensures Reading(str, 0, 0, curColumn, Progress(), curColumn, Chars(Left()), slip, Tracked())
    {
      hide Geometry, Wf, Cells, Recount, Risky, AfterReturn, AfterShown, Scan.Stream, Follow, Follows;
      NoColumns();
      NotAfterReturn(Progress());
      Scan.StreamNothing(Progress());
      FollowNothing(Tracked(), wrapWidth);
      assert str[..0] == "" && str[0..0] == "" && Chars(Left()) + str[0..0] == Chars(Left()) + Shown([""]);
      StandsTracked(str, curColumn);
    }

    lemma ExactColumns(str: string, prevEnd: nat, i: nat, curColumn: int)
      requires prevEnd <= i <= |str|
      ensures Exact(str, prevEnd, i, curColumn) <==> curColumn == Cursor().col + Columns(str[prevEnd..i])
    {
    }

    // With nothing pending, the page is what has been written.
    lemma PageIsWritten(str: string, prevEnd: nat, i: nat)
      requires scanner.Valid() && prevEnd <= i <= |str|
      requires !scanner.controlSequenceState.Initial? || prevEnd == i
      ensures PageAt(str, prevEnd, i) == Written()
    {
      NoInk(currentStyles);
      assert str[i..i] == "" && inked + [] == inked;
    }

    // What is pending at the end of the chunk is printed.
    method FlushRest(str: string, prevEnd: nat, kind: char, curColumn: int, ghost start: Scan.Trace,
                     ghost column: int, ghost left: string, ghost was: Option<Slip>, ghost from: Track)
      requires Reading(str, prevEnd, |str|, curColumn, start, column, left, was, from)
      modifies `before, `after, `currentCursorLine, `currentCursorColumn, `adjustStyleNeeded, `adjustedAt, `printed, `inked, `astray, `bare, `slip
      ensures Valid() && scanner.Valid() && FirstStays()
      ensures Progress() == Scan.Stream(start, str)
      ensures NoneAstray(kind) && (astray == old(astray) ==> Written() == old(PageAt(str, prevEnd, |str|)))
      ensures slip != was ==> was == None && Explained(start, str, slip)
      ensures was == None ==> Traced(Follow(from, str, wrapWidth))
      ensures start.scan.state.Initial? && Showable(str) ==>
                Chars(Left()) == left + Shown(Lay(column, str, wrapWidth).pieces)
    {
      hide Cells, PathAfter, Depth, RecountFrom, Columns, Recount, Scan.Stream, Risky, AfterReturn, AfterShown;
      hide Wf, Screen, Right, ScreenRows, RowsReady, Rows, Geometry, Follow, AtEnd, Typed, Lay, Shown, Coherent;
      hide Awaits, Stands, Cursor, Left, Exact, Settled, Erased, CacheOk, IsSlip, SlipAsTold, WidthsOf;
      assert str[..|str|] == str;
      ghost var o := Follow(from, str, wrapWidth);
      if scanner.controlSequenceState.Initial? {
        ExactColumns(str, prevEnd, |str|, curColumn);
        PrintSlipCause(slip, str[prevEnd..|str|], Cursor().col, curColumn);
        FlushFollowed(str, prevEnd, |str|, kind, curColumn, if o.Fine? then o.track else from);
      }
      if was == None && !o.Fine? {
        StillTold(o, old(slip), slip);
      }
    }

    // The loop of insertString over the characters of the chunk.
    method ReadAll(str: string, kind: char, curColumn0: int, ghost start: Scan.Trace,
                   ghost column: int, ghost left: string, ghost was: Option<Slip>, ghost from: Track)
      returns (ok: bool, prevEnd: nat, curColumn: int)
      requires Reading(str, 0, 0, curColumn0, start, column, left, was, from)
      modifies this, scanner, scanner.prevNumParameters
      ensures Valid() && scanner.Valid() && FirstStays() && wrapWidth == old(wrapWidth)
      ensures scanner.prevNumParameters == null || fresh(scanner.prevNumParameters)
           || scanner.prevNumParameters == old(scanner.prevNumParameters)
      ensures ok ==> prevEnd <= |str| && Reading(str, prevEnd, |str|, curColumn, start, column, left, was, from)
      ensures !ok && was == None ==> Traced(Follow(from, str, wrapWidth)) && !Follow(from, str, wrapWidth).Fine?
      ensures !ok && slip != was ==> was == None && Explained(start, str, slip)
      ensures start.scan.state.Initial? && (Showable(str) || TextLines(str)) ==> ok
      ensures NoneAstray(kind)
      ensures ok && astray == old(astray) ==> PageAt(str, prevEnd, |str|) == Writes(old(PageAt(str, 0, 0)), str)
    {
      hide Cells, PathAfter, Depth, RecountFrom, Columns, Recount, Scan.Stream, Scan.Step, Risky, AfterReturn, AfterShown;
      hide Wf, Screen, Right, ScreenRows, RowsReady, Rows, Geometry, Follow, Stands, AtEnd, Lay, Shown, WidthsOf, PageAt, Writes, Write;
      hide Stepped, Follows, Now, IsSlip, Coherent, StylesHeld, Exact, Awaits, Chars, Observed, Pending, Settled, Refines, Dressed;
      hide LaidOut, TextLines, Showable;
      ok, prevEnd, curColumn := true, 0, curColumn0;
      var i: nat := 0;
      ghost var page := PageAt(str, 0, 0);
      WritesNothing(page);
      assert str[..0] == "";
      while i < |str|
        invariant ok && i <= |str| && Reading(str, prevEnd, i, curColumn, start, column, left, was, from)
        invariant FirstStays() && wrapWidth == old(wrapWidth)
        invariant prevEnd <= i && scanner.Valid() && NoneAstray(kind)
        invariant astray == old(astray) ==> PageAt(str, prevEnd, i) == Writes(page, str[..i])
        invariant scanner.prevNumParameters == null || fresh(scanner.prevNumParameters)
               || scanner.prevNumParameters == old(scanner.prevNumParameters)
        decreases |str| - i
      {
        ghost var was' := i;
        if scanner.controlSequenceState.Initial? {
          ok, prevEnd, i, curColumn := ReadOutside(str, prevEnd, i, kind, curColumn, start, column, left, was, from);
        } else {
          ok, prevEnd, curColumn := ReadInside(str, prevEnd, i, curColumn, start, column, left, was, from);
          i := i + 1;
        }
        if !ok {
          break;
        }
        WritesFurther(page, str, was', i);
      }
      assert str[..|str|] == str;
    }

    lemma MovedBelow(from: Track, str: string)
      requires from.view.Whole? && scanner.Valid() && Traced(Follow(from, str, wrapWidth))
      ensures slip != None && Follow(from, str, wrapWidth) != Unclear ==>
                && slip.value.UnsafeMove?
                && slip.value.goal.line >= |from.view.shape.widths| && slip.value.goal.col > 0
    {
      hide Follow, Stands;
      UnsafeIsBelow(from, str, wrapWidth);
    }

    // insertString: the chunk goes through the machine a character at a time.  False if it
    // holds something outside the model, where the reading then stops.
    method InsertString(str: string, kind: char) returns (ok: bool)
      requires Valid() && scanner.Valid()
      modifies this, scanner, scanner.prevNumParameters
      ensures Valid() && scanner.Valid() && FirstStays() && wrapWidth == old(wrapWidth)
      ensures scanner.prevNumParameters == null || fresh(scanner.prevNumParameters)
           || scanner.prevNumParameters == old(scanner.prevNumParameters)
      ensures ok ==> Progress() == Scan.Stream(old(Progress()), str)
      ensures old(slip) == None ==>
                var o := Follow(old(Tracked()), str, wrapWidth);
                Traced(o) && (o.Fine? ==> ok)
      ensures NoneAstray(kind) && (ok && astray == old(astray) ==> Written() == Writes(old(Written()), str))
      ensures old(slip) == None && slip != None && Follow(old(Tracked()), str, wrapWidth) != Unclear ==>
                && slip.value.UnsafeMove?
                && slip.value.goal.line >= |old(ScreenRows())| && slip.value.goal.col > 0
      ensures slip != old(slip) ==> old(slip) == None && Explained(old(Progress()), str, slip)
      ensures old(scanner.controlSequenceState).Initial? && TextLines(str) ==> ok && slip == old(slip)
      ensures old(scanner.controlSequenceState).Initial? && Showable(str) && old(slip) == None ==>
                && ok
                && Chars(Left()) == old(Chars(Left())) + Shown(Lay(old(Cursor()).col, str, wrapWidth).pieces)
    {
      hide Cells, PathAfter, Depth, RecountFrom, Columns, Recount, Scan.Stream, Scan.Step, Risky, AfterReturn, AfterShown;
      hide Wf, Screen, Right, ScreenRows, RowsReady, Rows, Geometry, Follow, Stands, AtEnd, Reading, Lay, Shown, WidthsOf, PageAt, Writes, Write;
      hide Stepped, Follows, Now, IsSlip, Coherent, StylesHeld, Exact, Awaits, Chars, Observed, Pending, Settled, Refines, Dressed, Traced;
      var curColumn := GetCursorColumn();
      ghost var start, column, left, was, from := Progress(), curColumn, Chars(Left()), slip, Tracked();
      RowsCounted();
      StartReading(str, curColumn);
      PageIsWritten(str, 0, 0);
      var prevEnd;
      ok, prevEnd, curColumn := ReadAll(str, kind, curColumn, start, column, left, was, from);
      if ok {
        FlushRest(str, prevEnd, kind, curColumn, start, column, left, was, from);
      }
      if start.scan.state.Initial? && TextLines(str) {
        NoRisk(start, str);
      }
      if was == None {
        MovedBelow(from, str);
      }
    }

    // The text comes in chunks, which may be cut anywhere: what is printed and dispatched in all is
    // that of the text in one piece, and as long as that can be followed, so are the cursor's place
    // and the shape of the screen.
    method InsertChunks(chunks: seq<string>, kind: char) returns (ok: bool)
      requires Valid() && scanner.Valid()
      modifies this, scanner, scanner.prevNumParameters
      ensures Valid() && scanner.Valid() && FirstStays() && wrapWidth == old(wrapWidth)
      ensures NoneAstray(kind)
      ensures ok && astray == old(astray) ==> Written() == Writes(old(Written()), Scan.Flatten(chunks))
      ensures ok ==> Progress() == Scan.Stream(old(Progress()), Scan.Flatten(chunks))
      ensures old(slip) == None ==>
                var o := Follow(old(Tracked()), Scan.Flatten(chunks), wrapWidth);
                o.Fine? ==> ok && Traced(o)
    {
      hide Scan.Stream, Cells, Recount, Wf, Risky, Follow, Geometry, Stands, Writes, Written;
      ok := true;
      ghost var from, page := Tracked(), Written();
      WritesNothing(page);
      assert chunks[..0] == [];
      FollowNothing(from, wrapWidth);
      for n := 0 to |chunks|
        invariant Valid() && scanner.Valid() && FirstStays() && wrapWidth == old(wrapWidth)
        invariant scanner.prevNumParameters == null || fresh(scanner.prevNumParameters)
               || scanner.prevNumParameters == old(scanner.prevNumParameters)
        invariant NoneAstray(kind)
        invariant astray == old(astray) ==> Written() == Writes(page, Scan.Flatten(chunks[..n]))
        invariant Progress() == Scan.StreamAll(old(Progress()), chunks[..n])
        invariant old(slip) == None && Follow(from, Scan.Flatten(chunks[..n]), wrapWidth).Fine? ==>
                    slip == None && Refines(Tracked(), Follow(from, Scan.Flatten(chunks[..n]), wrapWidth).track)
      {
        assert chunks[..n + 1][..n] == chunks[..n];
        ghost var o := Follow(from, Scan.Flatten(chunks[..n]), wrapWidth);
        FollowConcat(from, Scan.Flatten(chunks[..n]), chunks[n], wrapWidth);
        if o.Fine? && old(slip) == None {
          FollowRefines(Tracked(), o.track, chunks[n], wrapWidth);
        }
        WritesConcat(page, Scan.Flatten(chunks[..n]), chunks[n]);
        ghost var known := Follow(Tracked(), chunks[n], wrapWidth);
        ok := InsertString(chunks[n], kind);
        if old(slip) == None && Follow(from, Scan.Flatten(chunks[..n + 1]), wrapWidth).Fine? {
          TrackedRefines(known.track, Follow(from, Scan.Flatten(chunks[..n + 1]), wrapWidth).track);
        }
        if !ok {
          if Follow(from, Scan.Flatten(chunks), wrapWidth).Fine? {
            FollowFlat(from, chunks, n + 1, wrapWidth);
          }
          return;
        }
      }
      assert chunks[..|chunks|] == chunks;
      Scan.AnyChunking(old(Progress()), chunks);
      if old(slip) == None && Follow(from, Scan.Flatten(chunks), wrapWidth).Fine? {
        RefinedStands(Follow(from, Scan.Flatten(chunks), wrapWidth).track);
      }
    }

    // A carriage return with its newline, a backspace and an "x" on a new screen: the backspace
    // leaves the column unknown, the "x" is taken for ending in column 0, and it ends in column 1.
    static method BackspaceAtTheEnd() returns (t: Terminal)
      ensures fresh(t) && t.Valid() && t.Cursor() == Pos(1, 1) && t.currentCursorColumn == 0
      ensures t.slip == Some(LostColumn(1, 0)) && !t.Coherent()
    {
      hide Cells, Recount, Columns, EndsWithRow, Shifts, Wf, Rows, Erased, Arrived, MoveSafe, PathAfter, TypedOver;
      hide Styles.Enclosing, Styles.Adjusted, Styles.AllStyled, Sgr.IsEntry, WithKind, Styles.NothingStays, Styles.Held, InkOf, Typed;
      t := new Terminal();
      NothingShown();
      NothingAt();
      OneNewline();
      var both := t.CarriageReturn(true);
      t.Here();
      t.Backspace();
      var curColumn := UpdateColumn('x', t.currentCursorColumn);
      ghost var left := t.Left();
      ghost var path := t.InsertSimpleOutput("x", 'O', curColumn);
      NewColumn(left, "x", path);
      OneCharacter('x');
    }
  }
}
