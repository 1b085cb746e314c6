/**
 What leaves a wrong coordinate in the cursor's cache.
 */
module Slips {
  import opened Grid
  import opened Landing
  import opened Walk
  import opened Options

  // A step that leaves a wrong coordinate in the cache: a move that is not safe, or text that is
  // printed with a wrong idea of the column it ends in.
  datatype Slip =
    | UnsafeMove(cells: seq<Cell>, goal: Pos)
    | LostColumn(column: int, cached: int)

  predicate IsSlip(s: Slip) {
    match s
    case UnsafeMove(cells, goal) => !MoveSafe(cells, goal)
    case LostColumn(column, cached) => !CacheOk(cached, column)
  }

  // The first slip after a step that is one unless it is all right.
  function Slipped(was: Option<Slip>, right: bool, s: Slip): Option<Slip> {
    if was.Some? || right then was else Some(s)
  }

  // The slip after text has been printed that is taken for ending in column `cached`.
  function PrintSlip(was: Option<Slip>, text: string, column: int, cached: int): Option<Slip> {
    if text == "" then was
    else Slipped(was, CacheOk(cached, column + Columns(text)), LostColumn(column + Columns(text), cached))
  }

  lemma PrintSlipCause(was: Option<Slip>, text: string, column: int, cached: int)
    ensures var slip := PrintSlip(was, text, column, cached);
            slip != was ==> was == None && slip.Some? && slip.value.LostColumn? && cached != column + Columns(text)
  {
  }
}
