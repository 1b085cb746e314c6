/**
 What a stream of output makes of the cursor and of the shape of the screen, character by
 character, and where a move goes wrong.
 */
module Tracks {
  import opened Grid
  import opened Landing
  import opened Sheets
  import opened Sequences
  import opened Document
  import opened Options
  import opened Slips
  import Scan = Scanner
  import opened Walk

  type Shape = s: Sheet | IsSheet(s) witness Sheet([0], ORIGIN)

  // What is known of the screen: its whole shape, or only where the cursor stands, once rows have
  // been put in or taken out.
  datatype View =
    | Whole(shape: Shape)
    | Only(line: nat, col: nat)
  {
    function Place(): (p: Pos)
      ensures p.line >= 0 && p.col >= 0
    {
      match this
      case Whole(s) => s.pos
      case Only(line, col) => Pos(line, col)
    }
  }

  // The view is one of the screen.
  predicate IsViewOf(v: View, s: Shape) {
    match v
    case Whole(shape) => shape == s
    case Only(line, col) => s.pos == Pos(line, col)
  }

  // The state between two characters.  If the column is not sure, it may be taken for -1 where it
  // is 0, after a backspace.
  datatype Track = Track(scan: Scan.Scan, view: View, sure: bool, bottom: int, saved: Pos)

  // The cursor is followed; or a move to `goal` in rows of these widths does not end there; or it
  // cannot be told, or is not part of the model.
  datatype Outcome =
    | Fine(track: Track)
    | Unsafe(widths: seq<nat>, goal: Pos)
    | Unclear

  // The slip that has happened is the one the outcome tells of.
  ghost predicate SlipAsTold(o: Outcome, slip: Option<Slip>) {
    o.Unsafe? ==>
      slip.Some? && slip.value.UnsafeMove? && slip.value.goal == o.goal && WidthsOf(slip.value.cells) == o.widths
  }

  lemma NothingTold()
    ensures forall slip: Option<Slip> :: SlipAsTold(Unclear, slip)
  {
  }

  lemma StillTold(o: Outcome, was: Option<Slip>, slip: Option<Slip>)
    requires SlipAsTold(o, was) && (was.Some? ==> slip == was)
    ensures SlipAsTold(o, slip)
  {
  }

  // ---------- What is done to the view ----------

  function Types(v: View, n: nat): View {
    match v
    case Whole(s) => Whole(Typed(s, n))
    case Only(line, col) => Only(line, col + n)
  }

  function Wraps(v: View): View {
    match v
    case Whole(s) => Whole(Broken(s))
    case Only(line, col) => Only(line + 1, 0)
  }

  function Cuts(v: View, count: int): View {
    match v
    case Whole(s) => Whole(Cut(s, count))
    case Only(_, _) => v
  }

  function Backs(v: View, count: nat): View {
    match v
    case Whole(s) => Whole(Backed(s, count))
    case Only(line, col) => Only(line, Max(0, col - count))
  }

  // Rows have been put in or taken out, and the cursor is at the start of its row.
  function Scrolls(v: View): View {
    Only(v.Place().line, 0)
  }

  function Goes(t: Track, goal: Pos): Outcome {
    match t.view
    case Whole(s) =>
      if Reaches(s.widths, goal) then Fine(t.(view := Whole(Gone(s.widths, goal)))) else Unsafe(s.widths, goal)
    case Only(line, col) =>
      if 0 <= goal.line && (goal.line <= line || goal.col <= 0) then Fine(t.(view := Only(goal.line, Max(0, goal.col))))
      else if goal.line < 0 && goal.col <= 0 then Fine(t.(view := Only(0, 0)))
      else Unclear
  }

  // A character that is shown, in a new row if it would go beyond the width.
  function Shows(v: View, ch: char, wrapWidth: int): View {
    Types(if UpdateColumn(ch, v.Place().col) > wrapWidth then Wraps(v) else v, CharColumns(ch))
  }

  // The cursor is at the start of a row below the first that may be the end of the document.
  predicate MayEnd(v: View) {
    && v.Place().col == 0 && v.Place().line > 0
    && (v.Whole? ==> v.shape.pos.line == |v.shape.widths| - 1 && Last(v.shape.widths) == 0)
  }

  // ---------- The stream ----------

  // A control character outside any sequence.
  function Obeys(t: Track, ch: char): Outcome {
    var p := t.view.Place();
    match ch
    case '\r' => Goes(t.(sure := true), Pos(p.line, 0))
    case '\n' =>
      if p.line == t.bottom - 1 then Fine(t.(view := Scrolls(t.view), sure := true))
      else Goes(t.(sure := true), Pos(p.line + 1, p.col))
    case '\t' => Goes(t.(sure := true), Pos(p.line, NextTabCol(p.col)))
    case '\U{08}' => Fine(t.(view := Backs(t.view, 1), sure := !MayEnd(t.view)))
    case _ => Fine(t)
  }

  // A carriage return may take the newline after it.
  function ObeysAll(t: Track, ch: char, both: bool): Outcome {
    match Obeys(t, ch)
    case Fine(u) => if both then Obeys(u, '\n') else Fine(u)
    case o => o
  }

  function Controls(t: Track, last: char, question: bool, parameters: seq<int>): Outcome
    requires parameters != []
  {
    if !Supported(last, question, Last(parameters)) then Unclear
    else
      match last
      case 'A' | 'B' | 'C' | 'd' | 'H' => Goes(t, Destination(last, parameters, t.view.Place()))
      case 'D' => Fine(t.(view := Backs(t.view, Number(parameters))))
      case 'K' => Fine(t.(view := Cuts(t.view, -1)))
      case 'P' => Fine(t.(view := Cuts(t.view, Number(parameters))))
      case 'L' | 'M' | 'S' | 'T' => Fine(t.(view := Scrolls(t.view)))
      case 'h' => if question && Last(parameters) == 1048 then Fine(t.(saved := t.view.Place())) else Fine(t)
      case 'l' => if question && Last(parameters) in {1048, 1049} then Goes(t, t.saved) else Fine(t)
      case 'r' => Fine(t.(bottom := SecondParameter(parameters, -1)))
      case _ => Fine(t)
  }

  // A finished sequence; the column is counted again after it.
  function Does(t: Track, e: Scan.Event): Outcome {
    match e
    case Escape(ch) =>
      if ch == '7' then Fine(t.(saved := t.view.Place()))
      else if ch == '8' then Goes(t, t.saved)
      else if ch == 'M' then Fine(t.(view := Scrolls(t.view)))
      else Fine(t)
    case ControlSequence(last, question, parameters) =>
      if parameters != [] then Controls(t, last, question, parameters) else Unclear
    case SystemControl(code, _) => if code == 72 then Unclear else Fine(t)
    case _ => Fine(t)
  }

  function Feed(t: Track, ch: char, wrapWidth: int): Outcome {
    if t.scan.state.Initial? && ch != Scan.ESC then
      if Scan.IsControl(ch) then Obeys(t, ch)
      else if ch == FORM_FEED || !t.sure then Unclear
      else Fine(t.(view := Shows(t.view, ch, wrapWidth)))
    else
      var (scan, e) := Scan.Step(t.scan, ch);
      if e.Nothing? then Fine(t.(scan := scan)) else Does(t.(scan := scan, sure := true), e)
  }

  // A stream of output, until it goes wrong.
  function Follow(t: Track, str: string, wrapWidth: int): Outcome
    decreases |str|
  {
    if str == "" then Fine(t)
    else
      match Follow(t, str[..|str| - 1], wrapWidth)
      case Fine(t') => Feed(t', Last(str), wrapWidth)
      case o => o
  }

  lemma UnclearIfNotSupported(t: Track, last: char, question: bool, parameters: seq<int>)
    requires parameters != []
    ensures !Supported(last, question, Last(parameters)) ==> Controls(t, last, question, parameters) == Unclear
  {
  }

  lemma DoesKeeps(t: Track, e: Scan.Event)
    ensures Does(t, e).Fine? ==> Does(t, e).track.scan == t.scan && Does(t, e).track.sure == t.sure
  {
  }

  lemma ObeysKeeps(t: Track, ch: char)
    ensures Obeys(t, ch).Fine? ==> Obeys(t, ch).track.scan == t.scan
  {
  }

  lemma FollowNothing(t: Track, wrapWidth: int)
    ensures Follow(t, "", wrapWidth) == Fine(t)
  {
  }

  lemma FollowSnoc(t: Track, a: string, ch: char, wrapWidth: int)
    ensures Follow(t, a + [ch], wrapWidth) == match Follow(t, a, wrapWidth)
                                              case Fine(u) => Feed(u, ch, wrapWidth)
                                              case o => o
  {
    assert (a + [ch])[..|a + [ch]| - 1] == a;
  }

  lemma FollowOne(t: Track, ch: char, wrapWidth: int)
    ensures Follow(t, [ch], wrapWidth) == Feed(t, ch, wrapWidth)
  {
    FollowNothing(t, wrapWidth);
    FollowSnoc(t, "", ch, wrapWidth);
    assert "" + [ch] == [ch];
  }

  // One control character outside any sequence, or a carriage return with its newline.
  lemma FollowControl(t: Track, str: string, wrapWidth: int)
    requires t.scan.state.Initial? && ((|str| == 1 && Scan.IsControl(str[0])) || str == "\r\n")
    ensures if str[0] == Scan.ESC then
              Follow(t, str, wrapWidth) == Fine(t.(scan := t.scan.(state := Scan.SeenEsc))) && ObeysAll(t, str[0], false) == Fine(t)
            else
              Follow(t, str, wrapWidth) == ObeysAll(t, str[0], |str| == 2)
  {
    hide Follow, Obeys;
    FollowOne(t, str[0], wrapWidth);
    if |str| == 1 {
      assert str == [str[0]];
      if str[0] == Scan.ESC {
        NotObeyed(t);
      }
    } else {
      FollowSnoc(t, [str[0]], '\n', wrapWidth);
      assert [str[0]] + ['\n'] == str;
      ObeysKeeps(t, '\r');
    }
  }

  lemma NotObeyed(t: Track)
    ensures Obeys(t, Scan.ESC) == Fine(t)
  {
  }

  lemma FollowGraphic(t: Track, ch: char, wrapWidth: int)
    requires t.scan.state.Initial? && !Scan.IsControl(ch)
    ensures Follow(t, [ch], wrapWidth) ==
            if ch == FORM_FEED || !t.sure then Unclear else Fine(t.(view := Shows(t.view, ch, wrapWidth)))
  {
    FollowOne(t, ch, wrapWidth);
  }

  lemma {:induction false} FollowConcat(t: Track, a: string, b: string, wrapWidth: int)
    ensures Follow(t, a + b, wrapWidth) == match Follow(t, a, wrapWidth)
                                           case Fine(u) => Follow(u, b, wrapWidth)
                                           case o => o
    decreases |b|
  {
    hide Feed;
    if b == "" {
      assert a + b == a;
    } else {
      assert (a + b)[..|a + b| - 1] == a + b[..|b| - 1];
      FollowConcat(t, a, b[..|b| - 1], wrapWidth);
    }
  }

  // A stream that is not fine up to some character, or with it, is not fine in all.
  lemma FollowStops(t: Track, str: string, i: nat, wrapWidth: int)
    requires i < |str|
    ensures !Follow(t, str[..i], wrapWidth).Fine? ==> Follow(t, str, wrapWidth) == Follow(t, str[..i], wrapWidth)
    ensures match Follow(t, str[..i], wrapWidth)
            case Fine(u) =>
              !Feed(u, str[i], wrapWidth).Fine? ==> Follow(t, str, wrapWidth) == Feed(u, str[i], wrapWidth)
            case _ => true
  {
    hide Feed, Follow;
    assert str == str[..i] + str[i..] && str == str[..i + 1] + str[i + 1..] && str[..i + 1] == str[..i] + [str[i]];
    FollowConcat(t, str[..i], str[i..], wrapWidth);
    FollowConcat(t, str[..i + 1], str[i + 1..], wrapWidth);
    FollowSnoc(t, str[..i], str[i], wrapWidth);
  }

  lemma {:induction false} FollowFlat(t: Track, chunks: seq<string>, n: nat, wrapWidth: int)
    requires n <= |chunks| && Follow(t, Scan.Flatten(chunks), wrapWidth).Fine?
    ensures Follow(t, Scan.Flatten(chunks[..n]), wrapWidth).Fine?
    decreases |chunks|
  {
    hide Follow;
    if n == |chunks| {
      assert chunks[..n] == chunks;
    } else {
      var front := chunks[..|chunks| - 1];
      FollowConcat(t, Scan.Flatten(front), chunks[|chunks| - 1], wrapWidth);
      FollowFlat(t, front, n, wrapWidth);
      assert front[..n] == chunks[..n];
    }
  }

  // ---------- What the view says of the screen ----------

  // A move whose outcome is known ends at its goal exactly if it is fine.
  lemma GoesFits(t: Track, s: Shape, goal: Pos)
    requires IsViewOf(t.view, s)
    ensures match Goes(t, goal)
            case Fine(u) => Reaches(s.widths, goal) && IsViewOf(u.view, Gone(s.widths, goal)) && u == t.(view := u.view)
            case Unsafe(widths, there) => !Reaches(s.widths, goal) && widths == s.widths && there == goal
            case Unclear => true
  {
  }

  lemma ViewFits(v: View, s: Shape)
    requires IsViewOf(v, s)
    ensures v.Place() == s.pos
    ensures forall n: nat :: IsViewOf(Types(v, n), Typed(s, n)) && IsViewOf(Backs(v, n), Backed(s, n))
    ensures IsViewOf(Wraps(v), Broken(s)) && forall n: int :: IsViewOf(Cuts(v, n), Cut(s, n))
  {
  }

  // The newline after a carriage return goes to the start of the next row.
  lemma ReturnAndFeed(t: Track)
    requires t.view.Place().line != t.bottom - 1
    ensures ObeysAll(t, '\r', true) == Goes(t.(sure := true), Pos(t.view.Place().line + 1, 0))
  {
    if t.view.Whole? {
      var s := t.view.shape;
      assert Gone(s.widths, Pos(s.pos.line, 0)).widths == s.widths;
    }
  }

  // After anything but a backspace the column is sure if it was, and often if it was not.
  lemma ObeysAllSure(t: Track, ch: char, both: bool)
    ensures var o := ObeysAll(t, ch, both);
            o.Fine? ==>
              && o.track.scan == t.scan
              && (ch == Scan.BACKSPACE && !both ==> o.track.sure == !MayEnd(t.view))
              && (ch !in "\r\n\t\U{08}" && !both ==> o.track.sure == t.sure)
  {
    hide Gone;
  }

  // Where a document ends at the cursor, its last row is empty.
  lemma EndMayEnd(v: View, doc: seq<Token>, s: Shape)
    requires IsViewOf(v, s) && s.widths == WidthsOf(Cells(doc, []))
    requires s.pos.col == 0 && s.pos.line > 0 && EndsWithRow(doc, s.pos.line)
    ensures MayEnd(v)
  {
    hide WidthsOf, Recount, EndsWithRow, Cells;
    EndsWithBreak(doc, s.pos.line);
    PlaceOfWidths(Cells(doc, []));
  }

  // ---------- Only moves below all rows go wrong ----------

  // Rows do not get fewer as long as all are known, and a move goes wrong only below them, to a
  // column that is not the first, from a last row that is not empty.
  predicate KeepsRows(v: View, o: Outcome) {
    match o
    case Fine(u) => u.view.Whole? ==> v.Whole? && |v.shape.widths| <= |u.view.shape.widths|
    case Unsafe(widths, goal) =>
      && v.Whole? && widths == v.shape.widths && |widths| > 0
      && goal.line >= |widths| && goal.col > 0 && Last(widths) != 0
    case Unclear => true
  }

  lemma GoesRows(t: Track, goal: Pos)
    ensures KeepsRows(t.view, Goes(t, goal))
  {
  }

  lemma ObeysRows(t: Track, ch: char)
    ensures KeepsRows(t.view, Obeys(t, ch))
  {
    hide Goes;
    var p := t.view.Place();
    GoesRows(t.(sure := true), Pos(p.line, 0));
    GoesRows(t.(sure := true), Pos(p.line + 1, p.col));
    GoesRows(t.(sure := true), Pos(p.line, NextTabCol(p.col)));
  }

  lemma DoesRows(t: Track, e: Scan.Event)
    ensures KeepsRows(t.view, Does(t, e))
  {
    hide Goes, Supported, Destination;
    GoesRows(t, t.saved);
    if e.ControlSequence? && e.parameters != [] {
      GoesRows(t, Destination(e.last, e.parameters, t.view.Place()));
    }
  }

  lemma FeedRows(t: Track, ch: char, wrapWidth: int)
    ensures KeepsRows(t.view, Feed(t, ch, wrapWidth))
  {
    hide Obeys, Does, Scan.Step;
    ObeysRows(t, ch);
    var (scan, e) := Scan.Step(t.scan, ch);
    DoesRows(t.(scan := scan, sure := true), e);
  }

  // A stream goes wrong only by a move below all the rows there were when it began, to a column
  // that is not the first, from a last row that is not empty.
  lemma {:induction false} UnsafeIsBelow(t: Track, str: string, wrapWidth: int)
    requires t.view.Whole?
    ensures match Follow(t, str, wrapWidth)
            case Fine(u) => u.view.Whole? ==> |t.view.shape.widths| <= |u.view.shape.widths|
            case Unsafe(widths, goal) =>
              |t.view.shape.widths| <= |widths| <= goal.line && goal.col > 0 && Last(widths) != 0
            case Unclear => true
    decreases |str|
  {
    hide Feed;
    if str != "" {
      UnsafeIsBelow(t, str[..|str| - 1], wrapWidth);
      var o := Follow(t, str[..|str| - 1], wrapWidth);
      if o.Fine? {
        FeedRows(o.track, Last(str), wrapWidth);
      }
    }
  }

  // ---------- What cannot be told ----------

  predicate Refused(e: Scan.Event) {
    match e
    case ControlSequence(last, question, parameters) => parameters == [] || !Supported(last, question, Last(parameters))
    case SystemControl(code, _) => code == 72
    case _ => false
  }

  // Rows are put in, taken out or scrolled.
  predicate MovesRows(e: Scan.Event) {
    match e
    case Escape(ch) => ch == 'M'
    case ControlSequence(last, _, _) => last in "LMST"
    case _ => false
  }

  // With the whole shape known, all is told of every character but a form feed, a refused sequence,
  // and text right behind a backspace that may have lost the column; and the shape stays known until
  // rows are put in, taken out or scrolled.
  lemma AllIsTold(t: Track, ch: char, wrapWidth: int)
    requires t.view.Whole?
    ensures var outside, e := t.scan.state.Initial? && ch != Scan.ESC, Scan.Step(t.scan, ch).1;
            match Feed(t, ch, wrapWidth)
            case Unclear => if outside then !Scan.IsControl(ch) && (ch == FORM_FEED || !t.sure) else Refused(e)
            case Fine(u) =>
              u.view.Only? ==> if outside then ch == '\n' && t.view.Place().line == t.bottom - 1 else MovesRows(e)
            case _ => true
  {
    hide Scan.Step, Gone, Typed, Broken, Cut, Backed, Destination, Supported, Reaches;
  }

  // ---------- Printed sequences ----------

  // Nothing is done as long as a sequence has not come to its end.
  lemma {:induction false} FollowSilent(t: Track, str: string, wrapWidth: int)
    requires t.scan.state.Initial? && str != "" && str[0] == Scan.ESC
    requires Scan.Stream(Scan.Trace(t.scan, "", []), str).events == []
    ensures var r := Scan.Stream(Scan.Trace(t.scan, "", []), str);
            !r.scan.state.Initial? && r.printed == "" && Follow(t, str, wrapWidth) == Fine(t.(scan := r.scan))
    decreases |str|
  {
    var front, ch := str[..|str| - 1], Last(str);
    assert str == front + [ch];
    var r := Scan.Stream(Scan.Trace(t.scan, "", []), front);
    Scan.StreamSnoc(Scan.Trace(t.scan, "", []), front, ch);
    FollowSnoc(t, front, ch, wrapWidth);
    if front == "" {
      Scan.StreamNothing(Scan.Trace(t.scan, "", []));
      FollowNothing(t, wrapWidth);
    } else {
      hide Scan.Stream, Follow, Scan.Step;
      FollowSilent(t, front, wrapWidth);
      Scan.Dispatches(r.scan, ch);
    }
  }

  // A printed control sequence is done, whole, by its parameters.
  lemma FollowPrinted(t: Track, closed: seq<int>, current: int, last: char, wrapWidth: int)
    requires t.scan == Scan.START && Scan.IsFinal(last) && Scan.IsParameter(current)
    requires forall i :: 0 <= i < |closed| ==> Scan.IsParameter(closed[i])
    ensures Follow(t, Scan.Print(false, closed, current, last), wrapWidth) ==
            Controls(t.(sure := true), last, false, closed + [current])
  {
    hide Scan.Stream, Follow, Controls;
    var opening := Scan.PrintOpening(false, closed, current);
    Scan.ReadOpening(Scan.Trace(t.scan, "", []), false, closed, current);
    assert opening[0] == Scan.ESC;
    FollowSilent(t, opening, wrapWidth);
    assert Scan.Print(false, closed, current, last) == opening + [last];
    FollowSnoc(t, opening, last, wrapWidth);
  }

  // The moves by a count, printed with the count or without one: n rows up or down, n columns to the
  // right or to the left, and to row n of the same column.
  lemma CountedMoves(t: Track, n: nat, wrapWidth: int)
    requires t.scan == Scan.START && n < 0x8000_0000
    ensures var p, u := t.view.Place(), t.(sure := true);
            && Follow(t, Scan.Print(false, [], n, 'A'), wrapWidth) == Goes(u, Pos(p.line - n, p.col))
            && Follow(t, Scan.Print(false, [], n, 'B'), wrapWidth) == Goes(u, Pos(p.line + n, p.col))
            && Follow(t, Scan.Print(false, [], n, 'C'), wrapWidth) == Goes(u, Pos(p.line, p.col + n))
            && Follow(t, Scan.Print(false, [], n, 'D'), wrapWidth) == Fine(u.(view := Backs(u.view, n)))
            && Follow(t, Scan.Print(false, [], n, 'd'), wrapWidth) == Goes(u, Pos(n - 1, p.col))
            && Follow(t, Scan.Print(false, [], n, 'P'), wrapWidth) == Fine(u.(view := Cuts(u.view, n)))
  {
    hide Follow, Goes, Backs, Cuts;
    OneParameter(t, n, 'A', wrapWidth);
    OneParameter(t, n, 'B', wrapWidth);
    OneParameter(t, n, 'C', wrapWidth);
    OneParameter(t, n, 'D', wrapWidth);
    OneParameter(t, n, 'd', wrapWidth);
    OneParameter(t, n, 'P', wrapWidth);
  }

  lemma OneParameter(t: Track, n: int, last: char, wrapWidth: int)
    requires t.scan == Scan.START && Scan.IsParameter(n) && Scan.IsFinal(last)
    ensures Follow(t, Scan.Print(false, [], n, last), wrapWidth) == Controls(t.(sure := true), last, false, [n])
  {
    hide Follow, Controls;
    FollowPrinted(t, [], n, last, wrapWidth);
    assert [] + [n] == [n];
  }

  // Without a count they do what they do with 1.
  lemma OmittedCount(t: Track, last: char, wrapWidth: int)
    requires t.scan == Scan.START && last in "ABCDdPLMST"
    ensures Follow(t, Scan.Print(false, [], -1, last), wrapWidth) == Follow(t, Scan.Print(false, [], 1, last), wrapWidth)
  {
    hide Follow, Goes, Backs, Cuts;
    OneParameter(t, -1, last, wrapWidth);
    OneParameter(t, 1, last, wrapWidth);
  }

  // The moves to a place, counted from 1; what is left out is 1.
  lemma PlacedMoves(t: Track, row: nat, column: nat, wrapWidth: int)
    requires t.scan == Scan.START && row < 0x8000_0000 && column < 0x8000_0000
    ensures var u := t.(sure := true);
            && Follow(t, Scan.Print(false, [row], column, 'H'), wrapWidth) == Goes(u, Pos(row - 1, column - 1))
            && Follow(t, Scan.Print(false, [], row, 'H'), wrapWidth) == Goes(u, Pos(row - 1, 0))
            && Follow(t, Scan.Print(false, [row], -1, 'H'), wrapWidth) == Goes(u, Pos(row - 1, 0))
            && Follow(t, Scan.Print(false, [], -1, 'H'), wrapWidth) == Goes(u, ORIGIN)
            && Follow(t, Scan.Print(false, [row], column, 'r'), wrapWidth) == Fine(u.(bottom := column))
            && Follow(t, Scan.Print(false, [], -1, 'r'), wrapWidth) == Fine(u.(bottom := -1))
  {
    hide Follow, Goes;
    FollowPrinted(t, [row], column, 'H', wrapWidth);
    FollowPrinted(t, [], row, 'H', wrapWidth);
    FollowPrinted(t, [row], -1, 'H', wrapWidth);
    FollowPrinted(t, [], -1, 'H', wrapWidth);
    FollowPrinted(t, [row], column, 'r', wrapWidth);
    FollowPrinted(t, [], -1, 'r', wrapWidth);
    var r: int, c: int := row, column;
    assert [] + [r] == [r] && [] + [-1] == [-1] && [r] + [c] == [r, c] && [r] + [-1] == [r, -1];
  }

  // The cursor saved and brought back.
  lemma SavedAndBack(t: Track, wrapWidth: int)
    requires t.scan == Scan.START
    ensures Follow(t, [Scan.ESC, '7'], wrapWidth) == Fine(t.(sure := true, saved := t.view.Place()))
    ensures Follow(t, [Scan.ESC, '8'], wrapWidth) == Goes(t.(sure := true), t.saved)
  {
    hide Goes;
    FollowNothing(t, wrapWidth);
    FollowOne(t, Scan.ESC, wrapWidth);
    FollowSnoc(t, [Scan.ESC], '7', wrapWidth);
    FollowSnoc(t, [Scan.ESC], '8', wrapWidth);
    assert [Scan.ESC] + ['7'] == [Scan.ESC, '7'] && [Scan.ESC] + ['8'] == [Scan.ESC, '8'];
  }

  // ---------- Knowing more ----------

  // The same state with more known of it.
  predicate Refines(t: Track, u: Track) {
    && t.scan == u.scan && t.bottom == u.bottom && t.saved == u.saved
    && (u.sure ==> t.sure)
    && (t.view == u.view || (t.view.Whole? && u.view.Only? && IsViewOf(u.view, t.view.shape)))
  }

  predicate RefinesOutcome(o: Outcome, u: Outcome) {
    && (u.Fine? ==> o.Fine? && Refines(o.track, u.track))
    && (u.Unsafe? ==> o == u)
  }

  lemma GoesRefines(t: Track, u: Track, goal: Pos)
    requires Refines(t, u)
    ensures RefinesOutcome(Goes(t, goal), Goes(u, goal))
  {
    if t.view.Whole? {
      GoesFits(u, t.view.shape, goal);
    }
  }

  lemma ObeysRefines(t: Track, u: Track, ch: char)
    requires Refines(t, u)
    ensures RefinesOutcome(Obeys(t, ch), Obeys(u, ch))
  {
    hide Goes;
    var p := t.view.Place();
    GoesRefines(t.(sure := true), u.(sure := true), Pos(p.line, 0));
    GoesRefines(t.(sure := true), u.(sure := true), Pos(p.line + 1, p.col));
    GoesRefines(t.(sure := true), u.(sure := true), Pos(p.line, NextTabCol(p.col)));
  }

  lemma DoesRefines(t: Track, u: Track, e: Scan.Event)
    requires Refines(t, u)
    ensures RefinesOutcome(Does(t, e), Does(u, e))
  {
    hide Goes, Supported, Destination;
    GoesRefines(t, u, t.saved);
    if e.ControlSequence? && e.parameters != [] {
      GoesRefines(t, u, Destination(e.last, e.parameters, t.view.Place()));
    }
  }

  lemma FeedRefines(t: Track, u: Track, ch: char, wrapWidth: int)
    requires Refines(t, u)
    ensures RefinesOutcome(Feed(t, ch, wrapWidth), Feed(u, ch, wrapWidth))
  {
    hide Obeys, Does, Scan.Step;
    ObeysRefines(t, u, ch);
    var (scan, e) := Scan.Step(t.scan, ch);
    DoesRefines(t.(scan := scan, sure := true), u.(scan := scan, sure := true), e);
  }

  // Who knows more follows at least as far.
  lemma {:induction false} FollowRefines(t: Track, u: Track, str: string, wrapWidth: int)
    requires Refines(t, u)
    ensures RefinesOutcome(Follow(t, str, wrapWidth), Follow(u, str, wrapWidth))
    decreases |str|
  {
    hide Feed, Refines;
    if str != "" {
      FollowRefines(t, u, str[..|str| - 1], wrapWidth);
      var o := Follow(u, str[..|str| - 1], wrapWidth);
      if o.Fine? {
        FeedRefines(Follow(t, str[..|str| - 1], wrapWidth).track, o.track, Last(str), wrapWidth);
      }
    }
  }
}
