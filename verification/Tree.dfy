/**
 The node tree behind the document order: every balanced document with the input line in it
 is the order of a forest, and the recursive delta2D over that forest is the recount.
 */
module Tree {
  import opened Options
  import opened Grid
  import opened Document

  datatype Node =
    | TextNode(data: string)
    | BreakNode
    | Span(style: string, children: seq<Node>)
    | InputLine

  // A node boundary in document order: a token, or the input line.
  datatype Item = Tok(t: Token) | Input

  function Items(toks: seq<Token>): (items: seq<Item>)
    ensures |items| == |toks| && forall i :: 0 <= i < |toks| ==> items[i] == Tok(toks[i])
  {
    seq(|toks|, i requires 0 <= i < |toks| => Tok(toks[i]))
  }

  function Flatten(nodes: seq<Node>): seq<Item> {
    if nodes == [] then []
    else
      (match nodes[0]
       case TextNode(data) => [Tok(Text(data))]
       case BreakNode => [Tok(Br)]
       case InputLine => [Input]
       case Span(style, children) => [Tok(Open(style))] + Flatten(children) + [Tok(Close)])
      + Flatten(nodes[1..])
  }

  // ---------- delta2D ----------

  // The position after the nodes, or at the input line if it is among them.
  function Delta2D(nodes: seq<Node>, p: Pos): (Pos, bool) {
    if nodes == [] then (p, false)
    else
      var (q, seen) :=
        (match nodes[0]
         case TextNode(data) => (RecountFrom(p, CellsOf(data, [])), false)
         case BreakNode => (Pos(p.line + 1, 0), false)
         case InputLine => (p, true)
         case Span(_, children) => Delta2D(children, p));
      if seen then (q, true) else Delta2D(nodes[1..], q)
  }

  // What is counted of a stretch of items: the cells in front of the input line.
  function Counted(items: seq<Item>, p: Pos): (Pos, bool) {
    if items == [] then (p, false)
    else
      match items[0]
      case Input => (p, true)
      case Tok(t) => Counted(items[1..], RecountFrom(p, t.Cells([])))
  }

  lemma {:induction false} CountedConcat(a: seq<Item>, b: seq<Item>, p: Pos)
    ensures Counted(a + b, p) == if Counted(a, p).1 then Counted(a, p) else Counted(b, Counted(a, p).0)
    decreases |a|
  {
    if a == [] {
      assert a + b == b;
    } else {
      assert (a + b)[1..] == a[1..] + b;
      if a[0].Tok? {
        CountedConcat(a[1..], b, RecountFrom(p, a[0].t.Cells([])));
      }
    }
  }

  lemma CountedOne(item: Item, p: Pos)
    ensures Counted([item], p) == match item { case Input => (p, true) case Tok(t) => (RecountFrom(p, t.Cells([])), false) }
  {
    assert [item][1..] == [];
  }

  lemma BreakAdvances(p: Pos)
    ensures RecountFrom(p, Br.Cells([])) == Pos(p.line + 1, 0)
  {
    RecountSnoc(p, [], Cell('\n', []));
    RecountNil(p);
    assert [] + [Cell('\n', [])] == Br.Cells([]);
  }

  lemma {:induction false} Delta2DIsCounted(nodes: seq<Node>, p: Pos)
    ensures Delta2D(nodes, p) == Counted(Flatten(nodes), p)
  {
    hide Counted, RecountFrom;
    if nodes == [] {
      CountedNothing(p);
    } else {
      var more := Flatten(nodes[1..]);
      match nodes[0]
      case TextNode(data) =>
        CountedConcat([Tok(Text(data))], more, p);
        CountedOne(Tok(Text(data)), p);
        Delta2DIsCounted(nodes[1..], RecountFrom(p, CellsOf(data, [])));
      case BreakNode =>
        CountedConcat([Tok(Br)], more, p);
        CountedOne(Tok(Br), p);
        BreakAdvances(p);
        Delta2DIsCounted(nodes[1..], Pos(p.line + 1, 0));
      case InputLine =>
        CountedConcat([Input], more, p);
        CountedOne(Input, p);
      case Span(style, children) =>
        var inside := Flatten(children);
        CountedConcat([Tok(Open(style))] + inside + [Tok(Close)], more, p);
        CountedConcat([Tok(Open(style))] + inside, [Tok(Close)], p);
        CountedConcat([Tok(Open(style))], inside, p);
        CountedOne(Tok(Open(style)), p);
        RecountNil(p);
        Delta2DIsCounted(children, p);
        var (q, seen) := Delta2D(children, p);
        CountedOne(Tok(Close), q);
        RecountNil(q);
        if !seen {
          Delta2DIsCounted(nodes[1..], q);
        }
    }
  }

  lemma CountedNothing(p: Pos)
    ensures Counted([], p) == (p, false)
  {
  }

  // A position does not depend on the styles around the characters.
  lemma {:induction false} StylesDoNotCount(a: seq<Cell>, b: seq<Cell>, p: Pos)
    requires |a| == |b| && forall i :: 0 <= i < |a| ==> a[i].ch == b[i].ch
    ensures RecountFrom(p, a) == RecountFrom(p, b)
    decreases |a|
  {
    if a != [] {
      StylesDoNotCount(a[..|a| - 1], b[..|b| - 1], p);
    }
  }

  lemma {:induction false} CountedTokens(toks: seq<Token>, p: Pos, path: seq<string>)
    ensures Counted(Items(toks), p) == (RecountFrom(p, Cells(toks, path)), false)
    decreases |toks|
  {
    hide RecountFrom;
    if toks == [] {
      RecountNil(p);
    } else {
      assert Items(toks)[1..] == Items(toks[1..]);
      var path' := toks[0].PathAfter(path);
      StylesDoNotCount(toks[0].Cells([]), toks[0].Cells(path), p);
      CountedTokens(toks[1..], RecountFrom(p, toks[0].Cells([])), path');
      RecountConcat(p, toks[0].Cells(path), Cells(toks[1..], path'));
    }
  }

  // delta2D from the start of the document to the input line is the recount of the cells in
  // front of it.
  lemma Delta2DIsRecount(nodes: seq<Node>, before: seq<Token>, after: seq<Token>)
    requires Flatten(nodes) == Items(before) + [Input] + Items(after)
    ensures Delta2D(nodes, ORIGIN) == (Recount(Cells(before, [])), true)
  {
    hide Counted, RecountFrom;
    Delta2DIsCounted(nodes, ORIGIN);
    CountedConcat(Items(before) + [Input], Items(after), ORIGIN);
    CountedConcat(Items(before), [Input], ORIGIN);
    CountedTokens(before, ORIGIN, []);
    CountedOne(Input, Recount(Cells(before, [])));
  }

  // ---------- Every balanced document is a forest ----------

  function ItemDepth(items: seq<Item>, d: int): int {
    if d < 0 then -1
    else if items == [] then d
    else ItemDepth(items[1..], if items[0].Tok? then d + items[0].t.Nesting() else d)
  }

  lemma {:induction false} ItemDepthConcat(a: seq<Item>, b: seq<Item>, d: int)
    ensures ItemDepth(a + b, d) == ItemDepth(b, ItemDepth(a, d))
    decreases |a|
  {
    if a == [] {
      assert a + b == b;
    } else if d >= 0 {
      assert (a + b)[1..] == a[1..] + b;
      ItemDepthConcat(a[1..], b, if a[0].Tok? then d + a[0].t.Nesting() else d);
    }
  }

  lemma {:induction false} ItemDepthTokens(toks: seq<Token>, d: int)
    ensures ItemDepth(Items(toks), d) == Depth(toks, d)
    decreases |toks|
  {
    if toks != [] && d >= 0 {
      assert Items(toks)[1..] == Items(toks[1..]);
      ItemDepthTokens(toks[1..], d + toks[0].Nesting());
    }
  }

  function Own(node: Node): seq<Item> {
    match node
    case TextNode(data) => [Tok(Text(data))]
    case BreakNode => [Tok(Br)]
    case InputLine => [Input]
    case Span(style, children) => [Tok(Open(style))] + Flatten(children) + [Tok(Close)]
  }

  lemma FlattenFirst(first: Node, others: seq<Node>)
    ensures Flatten([first] + others) == Own(first) + Flatten(others)
  {
    var nodes := [first] + others;
    assert nodes[0] == first && nodes[1..] == others;
  }

  lemma FlattenNone()
    ensures Flatten([]) == []
  {
  }

  lemma DepthStep(items: seq<Item>, d: nat)
    requires items != []
    ensures ItemDepth(items, d) == ItemDepth(items[1..], if items[0].Tok? then d + items[0].t.Nesting() else d)
  {
  }

  lemma DepthOfNone(d: nat)
    ensures ItemDepth([], d) == d
  {
  }

  // The siblings up to the end of the span they are in, and what is left.
  lemma {:induction false} Siblings(items: seq<Item>, d: nat) returns (nodes: seq<Node>, rest: seq<Item>)
    requires ItemDepth(items, d) == 0
    ensures items == Flatten(nodes) + rest
    ensures ItemDepth(rest, d) == 0 && (rest == [] || rest[0] == Tok(Close))
    decreases |items|, 1
  {
    hide Flatten, ItemDepth;
    if items == [] || items[0] == Tok(Close) {
      nodes, rest := [], items;
      FlattenNone();
    } else {
      DepthStep(items, d);
      var first, more := FirstNode(items, d);
      var others;
      others, rest := Siblings(more, d);
      nodes := [first] + others;
      FlattenFirst(first, others);
      assert Own(first) + more == Own(first) + Flatten(others) + rest;
    }
  }

  lemma {:induction false} FirstNode(items: seq<Item>, d: nat) returns (first: Node, more: seq<Item>)
    requires ItemDepth(items, d) == 0 && items != [] && items[0] != Tok(Close)
    ensures items == Own(first) + more
    ensures ItemDepth(more, d) == 0 && |more| < |items|
    decreases |items|, 0
  {
    hide Flatten, ItemDepth;
    DepthStep(items, d);
    match items[0] {
      case Input => first, more := InputLine, items[1..];
      case Tok(Text(data)) => first, more := TextNode(data), items[1..];
      case Tok(Br) => first, more := BreakNode, items[1..];
      case Tok(Open(style)) =>
        var children, rest := Siblings(items[1..], d + 1);
        DepthOfNone(d + 1);
        DepthStep(rest, d + 1);
        first, more := Span(style, children), rest[1..];
        assert rest == [Tok(Close)] + more;
        assert items == [Tok(Open(style))] + (Flatten(children) + ([Tok(Close)] + more));
    }
  }

  lemma EveryDocumentIsATree(before: seq<Token>, after: seq<Token>)
    requires Balanced(before + after)
    ensures exists nodes :: Flatten(nodes) == Items(before) + [Input] + Items(after)
  {
    var items := Items(before) + [Input] + Items(after);
    DepthConcat(before, after, 0);
    ItemDepthTokens(before, 0);
    ItemDepthTokens(after, Depth(before, 0));
    ItemDepthConcat(Items(before) + [Input], Items(after), 0);
    ItemDepthConcat(Items(before), [Input], 0);
    assert [Input][1..] == [];
    var nodes, rest := Siblings(items, 0);
    assert Flatten(nodes) + [] == Flatten(nodes);
  }

  // ---------- Walking the nodes ----------

  // A span that a place is inside of, with the siblings in front of it and behind it.
  datatype Around = Around(before: seq<Node>, style: string, behind: seq<Node>)

  // A place between two siblings: the spans it is inside of, the innermost last, and the siblings
  // to both sides.  The current node is the first one behind it, or null.
  datatype Place = Place(up: seq<Around>, before: seq<Node>, behind: seq<Node>)

  function Enter(p: Place, style: string, children: seq<Node>): Place
    requires p.behind != []
  {
    Place(p.up + [Around(p.before, style, p.behind[1..])], [], children)
  }

  function Leave(p: Place): Place
    requires p.up != []
  {
    var a := Last(p.up);
    Place(p.up[..|p.up| - 1], a.before + [Span(a.style, p.before + p.behind)], a.behind)
  }

  // The walk: to the first child of a span, from another node to its next sibling, and from the
  // last sibling to the one behind its parent.
  function Step(p: Place): Option<Place> {
    if p.behind != [] then
      match p.behind[0]
      case Span(style, children) => Some(Enter(p, style, children))
      case _ => Some(Place(p.up, p.before + [p.behind[0]], p.behind[1..]))
    else if p.up != [] then Some(Leave(p))
    else None
  }

  // The whole forest, and what of its document order is in front of the place and behind it.
  function Forest(p: Place): seq<Node>
    decreases |p.up|
  {
    if p.up == [] then p.before + p.behind
    else
      var a := Last(p.up);
      Forest(Place(p.up[..|p.up| - 1], a.before, [Span(a.style, p.before + p.behind)] + a.behind))
  }

  function Opening(up: seq<Around>): seq<Item> {
    if up == [] then []
    else
      var a := Last(up);
      Opening(up[..|up| - 1]) + Flatten(a.before) + [Tok(Open(a.style))]
  }

  function Closing(up: seq<Around>): seq<Item> {
    if up == [] then [] else var a := Last(up); [Tok(Close)] + Flatten(a.behind) + Closing(up[..|up| - 1])
  }

  function Passed(p: Place): seq<Item> {
    Opening(p.up) + Flatten(p.before)
  }

  function Coming(p: Place): seq<Item> {
    Flatten(p.behind) + Closing(p.up)
  }

  lemma {:induction false} FlattenConcat(a: seq<Node>, b: seq<Node>)
    ensures Flatten(a + b) == Flatten(a) + Flatten(b)
    decreases |a|
  {
    hide Flatten;
    if a == [] {
      FlattenNone();
      assert a + b == b;
    } else {
      var first, more := a[0], a[1..];
      assert a == [first] + more && a + b == [first] + (more + b);
      FlattenFirst(first, more);
      FlattenFirst(first, more + b);
      FlattenConcat(more, b);
    }
  }

  lemma FlattenOne(node: Node)
    ensures Flatten([node]) == Own(node)
  {
    FlattenFirst(node, []);
    FlattenNone();
    assert [node] + [] == [node];
  }

  // What is in front of a place and what is behind it make up the document order.
  lemma {:induction false} PlaceInOrder(p: Place)
    ensures Flatten(Forest(p)) == Passed(p) + Coming(p)
    decreases |p.up|
  {
    hide Flatten;
    FlattenConcat(p.before, p.behind);
    if p.up != [] {
      var a, up := Last(p.up), p.up[..|p.up| - 1];
      PlaceInOrder(Place(up, a.before, [Span(a.style, p.before + p.behind)] + a.behind));
      FlattenFirst(Span(a.style, p.before + p.behind), a.behind);
      Regrouped(Opening(up) + Flatten(a.before), Tok(Open(a.style)), Flatten(p.before), Flatten(p.behind),
                Tok(Close), Flatten(a.behind), Closing(up));
    }
  }

  lemma Regrouped(a: seq<Item>, open: Item, b: seq<Item>, c: seq<Item>, close: Item, d: seq<Item>, e: seq<Item>)
    ensures a + (([open] + (b + c) + [close] + d) + e) == (a + [open] + b) + (c + ([close] + d + e))
  {
  }

  // Each step of the walk is one to the right in the document order of the same forest, and there
  // is one until the end of the order is reached.
  lemma StepIsRight(p: Place)
    ensures match Step(p)
            case None => Coming(p) == []
            case Some(next) =>
              && Forest(next) == Forest(p)
              && Coming(p) != [] && Passed(next) == Passed(p) + [Coming(p)[0]] && Coming(next) == Coming(p)[1..]
  {
    hide Flatten, Forest, Passed, Coming;
    if p.behind != [] {
      if p.behind[0].Span? {
        EnterIsRight(p, p.behind[0].style, p.behind[0].children);
      } else {
        PassIsRight(p);
      }
    } else if p.up != [] {
      LeaveIsRight(p);
    } else {
      NothingComes(p);
    }
  }

  lemma NothingComes(p: Place)
    requires p.behind == [] && p.up == []
    ensures Coming(p) == []
  {
  }

  lemma PassIsRight(p: Place)
    requires p.behind != [] && !p.behind[0].Span?
    ensures var next, item := Place(p.up, p.before + [p.behind[0]], p.behind[1..]), Own(p.behind[0])[0];
            && Forest(next) == Forest(p)
            && Coming(p) == [item] + Coming(next) && Passed(next) == Passed(p) + [item]
  {
    hide Flatten, Forest;
    var first, others := p.behind[0], p.behind[1..];
    assert p.behind == [first] + others;
    FlattenFirst(first, others);
    FlattenConcat(p.before, [first]);
    FlattenOne(first);
    SameForest(p);
  }

  // Only where the place is among its siblings makes a difference.
  lemma SameForest(p: Place)
    requires p.behind != []
    ensures Forest(Place(p.up, p.before + [p.behind[0]], p.behind[1..])) == Forest(p)
  {
    assert p.before + [p.behind[0]] + p.behind[1..] == p.before + p.behind;
  }

  lemma EnterIsRight(p: Place, style: string, children: seq<Node>)
    requires p.behind != [] && p.behind[0] == Span(style, children)
    ensures var next := Enter(p, style, children);
            && Forest(next) == Forest(p)
            && Coming(p) == [Tok(Open(style))] + Coming(next) && Passed(next) == Passed(p) + [Tok(Open(style))]
  {
    hide Flatten, Forest;
    FlattenNone();
    SameForestInside(p, style, children);
    var next, others := Enter(p, style, children), p.behind[1..];
    assert p.behind == [p.behind[0]] + others;
    FlattenFirst(p.behind[0], others);
    assert next.up[..|next.up| - 1] == p.up && Last(next.up) == Around(p.before, style, others);
    EnteredItems(Tok(Open(style)), Flatten(children), Tok(Close), Flatten(others), Closing(p.up));
  }

  lemma EnteredItems(open: Item, a: seq<Item>, close: Item, b: seq<Item>, c: seq<Item>)
    ensures [open] + a + [close] + b + c == [open] + (a + ([close] + b + c))
  {
  }

  lemma SameForestInside(p: Place, style: string, children: seq<Node>)
    requires p.behind != [] && p.behind[0] == Span(style, children)
    ensures Forest(Enter(p, style, children)) == Forest(p)
  {
    var next, others := Enter(p, style, children), p.behind[1..];
    assert p.behind == [p.behind[0]] + others;
    assert next.up[..|next.up| - 1] == p.up && Last(next.up) == Around(p.before, style, others);
    assert [] + children == children;
    assert Place(p.up, p.before, [Span(style, children)] + others) == p;
  }

  lemma LeaveIsRight(p: Place)
    requires p.behind == [] && p.up != []
    ensures var next := Leave(p);
            && Forest(next) == Forest(p)
            && Coming(p) == [Tok(Close)] + Coming(next) && Passed(next) == Passed(p) + [Tok(Close)]
  {
    hide Flatten;
    FlattenNone();
    var a := Last(p.up);
    var span, up := Span(a.style, p.before + p.behind), p.up[..|p.up| - 1];
    assert p.before + p.behind == p.before;
    FlattenConcat(a.before, [span]);
    FlattenOne(span);
    var there := Place(up, a.before, [span] + a.behind);
    SameForest(there);
    assert there.behind[1..] == a.behind;
  }
}
