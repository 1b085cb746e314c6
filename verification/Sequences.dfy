/**
 The control sequences: their parameters, and those that are part of the model.
 */
module Sequences {
  import opened Grid
  import Scan = Scanner

  // A count, which is 1 if it is left out.
  function Number(parameters: seq<int>): nat
    requires parameters != []
  {
    if Last(parameters) < 0 then 1 else Last(parameters)
  }

  // An omitted count does what 1 does, a given one is taken as it is.
  lemma OmittedIsOne(front: seq<int>, n: nat)
    ensures Number(front + [-1]) == Number(front + [1]) == 1 && Number(front + [n]) == n
  {
  }

  // The first of several parameters as it is; the only one is 1 if it is left out.
  function FirstParameter(parameters: seq<int>): int
    requires parameters != []
  {
    if |parameters| >= 2 || parameters[0] >= 0 then parameters[0] else 1
  }

  function SecondParameter(parameters: seq<int>, default: int): int
    requires parameters != []
  {
    if |parameters| >= 3 || (|parameters| == 2 && parameters[1] >= 0) then parameters[1] else default
  }

  // The sequences inside the model.
  predicate Supported(last: char, question: bool, cur: int) {
    match last
    case '@' => false
    case 'J' => false
    case 'K' => cur < 1
    case 'h' => if question then cur !in {47, 1047, 1049} else cur != 4
    case _ => true
  }

  // A sequence that cannot ask for a place in a row that is missing, except for the row's start.
  predicate Quiet(e: Scan.Event) {
    match e
    case Escape(ch) => ch != '8'
    case ControlSequence(last, question, parameters) => parameters != [] && QuietSequence(last, question, parameters)
    case _ => true
  }

  predicate QuietSequence(last: char, question: bool, parameters: seq<int>)
    requires parameters != []
  {
    match last
    case 'B' => Number(parameters) == 0
    case 'd' => Number(parameters) <= 1
    case 'H' => FirstParameter(parameters) <= 1 || SecondParameter(parameters, 1) <= 1
    case 'l' => !(question && Last(parameters) in {1048, 1049})
    case _ => true
  }

  // Where a sequence that moves the cursor sends it.
  function Destination(last: char, parameters: seq<int>, p: Pos): Pos
    requires parameters != []
  {
    var n := Number(parameters);
    match last
    case 'A' => Pos(p.line - n, p.col)
    case 'B' => Pos(p.line + n, p.col)
    case 'C' => Pos(p.line, p.col + n)
    case 'd' => Pos(n - 1, p.col)
    case _ => Pos(FirstParameter(parameters) - 1, SecondParameter(parameters, 1) - 1)
  }
}
