/**
 Where `moveTo` leaves the document and the cursor, wherever it has started.
 */
module Arriving {
  import opened Grid
  import opened Document
  import opened Landing
  import opened Walk

  // The rows and the cursor after a move that reads the cells `cs` from their start.
  ghost predicate Arrived(cs: seq<Cell>, goal: Pos, screen: seq<Cell>, offset: nat)
  {
    var slow := Outcome(cs, 0, ORIGIN, goal);
    && offset <= |screen| && slow.1 <= |slow.0|
    && screen == slow.0
    && Recount(screen[..offset]) == Recount(slow.0[..slow.1])
    && (OneColumn(cs) ==> offset == slow.1)
  }

  lemma NothingShown()
    ensures Cells([], []) == []
  {
  }

  // Wherever it starts, a move that has counted right so far comes to the same.
  lemma Arrives(left: seq<Token>, right: seq<Token>, p: Pos, goal: Pos)
    requires Recount(Cells(left, [])) == p && (left == [] || AtOrBefore(p, goal))
    ensures var fast := Ahead(left, right, p, goal);
            fast.1 <= |fast.0| && Arrived(Cells(left + right, []), goal, fast.0, fast.1)
  {
    hide Cells, PathAfter, RecountFrom, Land;
    Concat(left, right, []);
    var cs, k := Cells(left + right, []), |Cells(left, [])|;
    assert cs[..k] == Cells(left, []) && cs[..0] == [];
    RecountNil(ORIGIN);
    if left == [] {
      NothingShown();
    } else {
      FastIsSlow(cs, 0, k, goal);
    }
  }

  lemma DownIsAbsolute(left: seq<Token>, right: seq<Token>, deltaLines: int)
    requires deltaLines > 0
    ensures var p := Recount(Cells(left, []));
            var down := Ahead(left, right, ORIGIN, Pos(deltaLines, 0));
            down.1 <= |down.0| && Arrived(Cells(left + right, []), Pos(p.line + deltaLines, 0), down.0, down.1)
  {
    hide Cells, PathAfter, RecountFrom, Land;
    var p := Recount(Cells(left, []));
    RecountMonotone(ORIGIN, Cells(left, []));
    Concat(left, right, []);
    RelativeIsAbsolute(Cells(left + right, []), |Cells(left, [])|, ORIGIN, p, deltaLines);
    Arrives(left, right, p, Pos(p.line + deltaLines, 0));
  }

  // The place reached, and the only change to the rows: blanks put in at one place.
  lemma ArrivedReaches(cs: seq<Cell>, goal: Pos, screen: seq<Cell>, offset: nat)
    requires Arrived(cs, goal, screen, offset) && goal.line >= 0 && goal.col >= 0
    ensures Recount(screen[..offset]) == Reached(cs, goal)
  {
    hide RecountFrom, Land;
    assert cs[..0] == [];
    RecountNil(ORIGIN);
    LandsAt(cs, 0, ORIGIN, goal);
  }

  lemma ArrivedConserves(cs: seq<Cell>, goal: Pos, screen: seq<Cell>, offset: nat)
    requires Arrived(cs, goal, screen, offset)
    ensures exists at, pad :: 0 <= at <= |cs| && Blank(pad) && screen == cs[..at] + pad + cs[at..]
    ensures goal.line >= 0 && goal.col >= 0 && (exists j :: 0 <= j <= |cs| && Recount(cs[..j]) == goal) ==> screen == cs
  {
    hide RecountFrom;
    assert cs[..0] == [];
    RecountNil(ORIGIN);
    var r := Land(cs, 0, ORIGIN, goal);
    PadIsBlank(cs, 0, ORIGIN, goal);
    assert screen == cs[..r.at] + r.pad + cs[r.at..];
    if goal.line >= 0 && goal.col >= 0 {
      PadOnlyIfMissing(cs, 0, ORIGIN, goal);
      assert r.pad == [] ==> screen == cs;
    }
  }

  // The start of a row, there or not, is reached.
  lemma ArrivedAtStart(cs: seq<Cell>, line: nat, screen: seq<Cell>, offset: nat)
    requires Arrived(cs, Pos(line, 0), screen, offset)
    ensures Recount(screen[..offset]) == Pos(line, 0)
  {
    ArrivedReaches(cs, Pos(line, 0), screen, offset);
  }
}
