/**
 Where a cursor movement ends, told on the cells alone: the place it stops at and the blank
 cells it adds to get there.
 */
module Landing {
  import opened Grid

  // The cursor is put after `pad`, which is inserted at offset `at`.
  datatype Landing = Landing(at: nat, pad: seq<Cell>) {
    function Offset(): nat {
      at + |pad|
    }

    function Apply(cs: seq<Cell>): seq<Cell>
      requires at <= |cs|
    {
      cs[..at] + pad + cs[at..]
    }
  }

  // Reading on from offset `k`, which is at `p`: stop at the first place not before the goal,
  // padding a row that is too short with spaces and a text that has too few rows with newlines.
  function Land(cs: seq<Cell>, k: nat, p: Pos, goal: Pos): (r: Landing)
    requires k <= |cs|
    ensures k <= r.at <= |cs|
    decreases |cs| - k
  {
    if Stops(p, goal) then
      Landing(k, [])
    else if k == |cs| then
      Landing(k, CellsOf(Repeat('\n', goal.line - p.line) + Repeat(' ', goal.col - p.col), []))
    else if cs[k].ch == '\n' && p.line == goal.line then
      Landing(k, CellsOf(Repeat(' ', goal.col - p.col), cs[k].path))
    else
      Land(cs, k + 1, Advance(p, cs[k].ch), goal)
  }

  // The rows after a landing, and the cursor's offset in them.
  function Outcome(cs: seq<Cell>, k: nat, p: Pos, goal: Pos): (seq<Cell>, nat)
    requires k <= |cs|
  {
    var r := Land(cs, k, p, goal);
    (r.Apply(cs), r.Offset())
  }

  predicate Stops(p: Pos, goal: Pos) {
    p.line >= goal.line && p.col >= goal.col
  }

  lemma Stopped(cs: seq<Cell>, k: nat, p: Pos, goal: Pos)
    requires k <= |cs| && Stops(p, goal)
    ensures Outcome(cs, k, p, goal) == (cs, k)
  {
    assert cs == cs[..k] + [] + cs[k..];
  }

  lemma Stepped(cs: seq<Cell>, k: nat, p: Pos, goal: Pos)
    requires k < |cs| && !Stops(p, goal) && !(cs[k].ch == '\n' && p.line == goal.line)
    ensures Outcome(cs, k, p, goal) == Outcome(cs, k + 1, Advance(p, cs[k].ch), goal)
  {
  }

  // Padding the short row and going on from its end changes nothing in the outcome.
  lemma Padded(cs: seq<Cell>, k: nat, p: Pos, goal: Pos, cs': seq<Cell>)
    requires k < |cs| && !Stops(p, goal) && cs[k].ch == '\n' && p.line == goal.line
    requires cs' == cs[..k] + CellsOf(Repeat(' ', goal.col - p.col), cs[k].path) + cs[k..]
    ensures Outcome(cs, k, p, goal) == Outcome(cs', k + goal.col - p.col, goal, goal)
  {
    Stopped(cs', k + goal.col - p.col, goal, goal);
  }

  predicate Blank(cs: seq<Cell>) {
    forall i :: 0 <= i < |cs| ==> cs[i].ch == ' ' || cs[i].ch == '\n'
  }

  // Only blanks are added: no character is lost, reordered, duplicated or restyled.
  lemma {:induction false} PadIsBlank(cs: seq<Cell>, k: nat, p: Pos, goal: Pos)
    requires k <= |cs|
    ensures Blank(Land(cs, k, p, goal).pad)
    decreases |cs| - k
  {
    if !Stops(p, goal) && k < |cs| && !(cs[k].ch == '\n' && p.line == goal.line) {
      PadIsBlank(cs, k + 1, Advance(p, cs[k].ch), goal);
    }
  }

  // The cells have a row `line`.
  predicate HasRow(cs: seq<Cell>, line: int) {
    Recount(cs).line >= line
  }

  // Where a move to a goal below or right of the start really ends: in a row that exists, at
  // the goal; past the last row, at a column that is short by the width of the last row.
  function Reached(cs: seq<Cell>, goal: Pos): Pos {
    if HasRow(cs, goal.line) then goal
    else Pos(goal.line, Max(0, goal.col - Recount(cs).col))
  }

  function Max(a: int, b: int): int {
    if a < b then b else a
  }

  // Whether a move can be trusted: the goal's row is there, or the goal is at the start of a
  // row, or the last row ends where it begins.
  predicate MoveSafe(cs: seq<Cell>, goal: Pos) {
    HasRow(cs, goal.line) || goal.col <= 0 || Recount(cs).col == 0
  }

  // moveTo comes to its goal if and only if the move is safe.
  lemma LandsRightIffSafe(cs: seq<Cell>, goal: Pos)
    requires goal.line >= 0 && goal.col >= 0
    ensures var r := Land(cs, 0, ORIGIN, goal);
            Recount(r.Apply(cs)[..r.Offset()]) == goal <==> MoveSafe(cs, goal)
  {
    hide RecountFrom, Land;
    assert cs[..0] == [];
    RecountNil(ORIGIN);
    LandsAt(cs, 0, ORIGIN, goal);
  }

  // Down one row from the end of "abc", past the last row: the cursor comes to column 0, three
  // columns short of where it is taken to be.
  lemma LineFeedPastTheEnd()
    ensures var cs := CellsOf("abc", []);
            var r := Land(cs, 0, ORIGIN, Pos(1, 3));
            Recount(cs) == Pos(0, 3) && Recount(r.Apply(cs)[..r.Offset()]) == Pos(1, 0)
  {
    var cs := CellsOf("abc", []);
    assert Columns("abc") == 3 by {
      assert "abc"[..2] == "ab" && "ab"[..1] == "a" && "a"[..0] == "";
    }
    hide RecountFrom, Land, Columns;
    InRowRecount("abc", ORIGIN, []);
    assert cs[..0] == [];
    RecountNil(ORIGIN);
    LandsAt(cs, 0, ORIGIN, Pos(1, 3));
  }

  lemma {:induction false} LandsAt(cs: seq<Cell>, k: nat, p: Pos, goal: Pos)
    requires k <= |cs| && p == Recount(cs[..k]) && AtOrBefore(p, goal) && goal.col >= 0
    ensures var r := Land(cs, k, p, goal); Recount(r.Apply(cs)[..r.Offset()]) == Reached(cs, goal)
    decreases |cs| - k
  {
    var r := Land(cs, k, p, goal);
    if Stops(p, goal) || k == |cs| || (cs[k].ch == '\n' && p.line == goal.line) {
      assert r.Apply(cs)[..r.Offset()] == cs[..k] + r.pad;
      RecountConcat(ORIGIN, cs[..k], r.pad);
      StopsAt(cs, k, p, goal);
    } else {
      NextPlace(cs, k);
      LandsAt(cs, k + 1, Advance(p, cs[k].ch), goal);
    }
  }

  lemma StopsAt(cs: seq<Cell>, k: nat, p: Pos, goal: Pos)
    requires k <= |cs| && p == Recount(cs[..k]) && AtOrBefore(p, goal) && goal.col >= 0
    requires Stops(p, goal) || k == |cs| || (cs[k].ch == '\n' && p.line == goal.line)
    ensures RecountFrom(p, Land(cs, k, p, goal).pad) == Reached(cs, goal)
  {
    hide RecountFrom;
    Between(cs, k, |cs|);
    assert cs[..|cs|] == cs;
    if Stops(p, goal) {
      RecountNil(p);
    } else if k == |cs| {
      assert cs[..k] == cs;
      PadAtEnd(p, goal.line - p.line, goal.col - p.col);
    } else {
      RecountSpaces(p, goal.col - p.col, cs[k].path);
    }
  }

  lemma PadAtEnd(p: Pos, n: nat, m: int)
    ensures RecountFrom(p, CellsOf(Repeat('\n', n) + Repeat(' ', m), []))
         == Pos(p.line + n, (if n == 0 then p.col else 0) + Max(0, m))
  {
    hide RecountFrom;
    var s, t := Repeat('\n', n), Repeat(' ', Max(0, m));
    assert t == Repeat(' ', m);
    CellsOfConcat(s, t, []);
    RecountConcat(p, CellsOf(s, []), CellsOf(t, []));
    RecountNewlines(p, n, []);
    RecountSpaces(if n == 0 then p else Pos(p.line + n, 0), Max(0, m), []);
  }

  // Nothing is added exactly when the goal is already a place in the cells.
  lemma {:induction false} PadOnlyIfMissing(cs: seq<Cell>, k: nat, p: Pos, goal: Pos)
    requires k <= |cs| && p == Recount(cs[..k]) && AtOrBefore(p, goal) && goal.col >= 0
    ensures Land(cs, k, p, goal).pad == [] <==> exists j :: k <= j <= |cs| && Recount(cs[..j]) == goal
    decreases |cs| - k
  {
    if Stops(p, goal) {
      assert Recount(cs[..k]) == goal;
    } else if k == |cs| {
      assert cs[..k] == cs;
    } else {
      NextPlace(cs, k);
      if cs[k].ch == '\n' && p.line == goal.line {
        forall j | k < j <= |cs|
          ensures Recount(cs[..j]) != goal
        {
          Between(cs, k + 1, j);
        }
      } else {
        PadOnlyIfMissing(cs, k + 1, Advance(p, cs[k].ch), goal);
      }
    }
  }

  // The fast path: reading on from any place at or before the goal gives the same rows and
  // ends at the same position as reading from the start.
  lemma {:induction false} FastIsSlow(cs: seq<Cell>, j: nat, k: nat, goal: Pos)
    requires j <= k <= |cs| && AtOrBefore(Recount(cs[..k]), goal)
    ensures var slow := Outcome(cs, j, Recount(cs[..j]), goal);
            var fast := Outcome(cs, k, Recount(cs[..k]), goal);
            slow.0 == fast.0 && Recount(slow.0[..slow.1]) == Recount(fast.0[..fast.1])
    ensures OneColumn(cs) ==> Outcome(cs, j, Recount(cs[..j]), goal) == Outcome(cs, k, Recount(cs[..k]), goal)
    decreases k - j
  {
    hide RecountFrom;
    if j < k {
      var p, q := Recount(cs[..j]), Recount(cs[..k]);
      Between(cs, j, k);
      Between(cs, j + 1, k);
      NextPlace(cs, j);
      if Stops(p, goal) {
        assert p == q == goal;
        assert Landing(j, []).Apply(cs) == cs == Landing(k, []).Apply(cs);
        if OneColumn(cs) {
          PlaceUnique(cs, j, k);
        }
      } else {
        FastIsSlow(cs, j + 1, k, goal);
      }
    }
  }

  // Counting rows from here, or from the top, comes to the same for the start of a row.
  lemma {:induction false} RelativeIsAbsolute(cs: seq<Cell>, k: nat, p: Pos, q: Pos, deltaLines: int)
    requires k <= |cs| && p.col >= 0 && q.col >= 0
    ensures Land(cs, k, p, Pos(p.line + deltaLines, 0)) == Land(cs, k, q, Pos(q.line + deltaLines, 0))
    decreases |cs| - k
  {
    if deltaLines > 0 {
      if k < |cs| {
        var p', q' := Advance(p, cs[k].ch), Advance(q, cs[k].ch);
        RelativeIsAbsolute(cs, k + 1, p', q', deltaLines - (p'.line - p.line));
      } else {
        assert Repeat(' ', -p.col) == Repeat(' ', -q.col) == "";
      }
    }
  }

  // Every column to the left of a place is a place of the same row.
  lemma {:induction false} PlacesToTheLeft(cs: seq<Cell>, k: nat, col: nat)
    requires k <= |cs| && col <= Recount(cs[..k]).col
    ensures exists j :: 0 <= j <= k && Recount(cs[..j]) == Pos(Recount(cs[..k]).line, col)
    decreases k
  {
    hide RecountFrom;
    if Recount(cs[..k]).col == col {
      assert Recount(cs[..k]) == Pos(Recount(cs[..k]).line, col);
    } else {
      assert k > 0 by {
        assert cs[..0] == [];
        RecountNil(ORIGIN);
      }
      NextPlace(cs, k - 1);
      Between(cs, k - 1, k);
      PlacesToTheLeft(cs, k - 1, col);
    }
  }

  // A goal left of the row's start is its start.
  lemma {:induction false} LeftOfRow(cs: seq<Cell>, k: nat, p: Pos, goal: Pos)
    requires k <= |cs| && p.col >= 0 && goal.col < 0
    ensures Land(cs, k, p, goal) == Land(cs, k, p, Pos(goal.line, 0))
    decreases |cs| - k
  {
    if !Stops(p, goal) {
      if k < |cs| {
        LeftOfRow(cs, k + 1, Advance(p, cs[k].ch), goal);
      } else {
        assert Repeat(' ', goal.col - p.col) == Repeat(' ', -p.col) == "";
      }
    }
  }

  // Moving left in the cursor's row adds nothing and ends that many columns to the left, or
  // at the start of the row.
  lemma MoveLeftLands(cs: seq<Cell>, k: nat, count: nat)
    requires k <= |cs|
    ensures var p := Recount(cs[..k]);
            var moved := Outcome(cs, 0, ORIGIN, Pos(p.line, p.col - count));
            && moved.0 == cs && moved.1 <= |cs|
            && Recount(cs[..moved.1]) == Pos(p.line, Max(0, p.col - count))
  {
    hide RecountFrom, Land;
    var p := Recount(cs[..k]);
    var goal := Pos(p.line, Max(0, p.col - count));
    Between(cs, 0, k);
    Between(cs, k, |cs|);
    assert cs[..0] == [] && cs[..|cs|] == cs;
    RecountNil(ORIGIN);
    if p.col < count {
      LeftOfRow(cs, 0, ORIGIN, Pos(p.line, p.col - count));
    }
    PlacesToTheLeft(cs, k, goal.col);
    PadOnlyIfMissing(cs, 0, ORIGIN, goal);
    LandsAt(cs, 0, ORIGIN, goal);
    var r := Land(cs, 0, ORIGIN, goal);
    assert r.Apply(cs) == cs;
  }
}
