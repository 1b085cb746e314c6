/**
 The document inside cursorHome, as the sequence of its nodes in document order: a text
 node, a line break, and the start and end of a span.  Stepping to a first child, to a next
 sibling, or up to a parent's sibling is stepping right in this sequence.
 */
module Document {
  import opened Grid

  datatype Token =
    | Text(data: string)
    | Br
    | Open(style: string)  // the span's `style` attribute, "" when it has none
    | Close
  {
    function Cells(path: seq<string>): seq<Cell> {
      match this
      case Text(data) => CellsOf(data, path)
      case Br => [Cell('\n', path)]
      case _ => []
    }

    function PathAfter(path: seq<string>): seq<string> {
      match this
      case Open(style) => path + [style]
      case Close => if path == [] then [] else path[..|path| - 1]
      case _ => path
    }

    function Nesting(): int {
      match this
      case Open(_) => 1
      case Close => -1
      case _ => 0
    }
  }

  // The `style` attributes enclosing the point after `toks`, outermost first.
  function PathAfter(toks: seq<Token>, path: seq<string>): seq<string> {
    if toks == [] then path else PathAfter(toks[1..], toks[0].PathAfter(path))
  }

  // What the document shows: its characters, each with its enclosing spans.
  function Cells(toks: seq<Token>, path: seq<string>): seq<Cell> {
    if toks == [] then [] else toks[0].Cells(path) + Cells(toks[1..], toks[0].PathAfter(path))
  }

  // The number of spans open after `toks`, or -1 if one was closed that was never opened.
  function Depth(toks: seq<Token>, d: int): (r: int)
    ensures r >= -1
  {
    if d < 0 then -1 else if toks == [] then d else Depth(toks[1..], d + toks[0].Nesting())
  }

  // The sequence is the document order of a forest of nodes.
  predicate Balanced(toks: seq<Token>) {
    Depth(toks, 0) == 0
  }

  // No spans at all.
  predicate Flat(toks: seq<Token>) {
    forall i :: 0 <= i < |toks| ==> toks[i].Text? || toks[i].Br?
  }

  // A span without a style, as those of error output are.
  const BARE: Token := Open("")

  // No span has come into a flat document, nor one without a style into any.
  predicate SpansKept(was: seq<Token>, now: seq<Token>) {
    (Flat(was) ==> Flat(now)) && (BARE in now ==> BARE in was)
  }

  lemma FlatConcat(a: seq<Token>, b: seq<Token>)
    ensures Flat(a + b) <==> Flat(a) && Flat(b)
  {
    if Flat(a + b) {
      assert forall i :: 0 <= i < |a| ==> a[i] == (a + b)[i];
      assert forall i :: 0 <= i < |b| ==> b[i] == (a + b)[|a| + i];
    }
  }

  lemma {:induction false} Concat(a: seq<Token>, b: seq<Token>, path: seq<string>)
    ensures PathAfter(a + b, path) == PathAfter(b, PathAfter(a, path))
    ensures Cells(a + b, path) == Cells(a, path) + Cells(b, PathAfter(a, path))
  {
    if a == [] {
      assert a + b == b;
    } else {
      assert (a + b)[1..] == a[1..] + b;
      Concat(a[1..], b, a[0].PathAfter(path));
    }
  }

  lemma {:induction false} DepthConcat(a: seq<Token>, b: seq<Token>, d: int)
    ensures Depth(a + b, d) == Depth(b, Depth(a, d))
  {
    if a == [] {
      assert a + b == b;
    } else if d >= 0 {
      assert (a + b)[1..] == a[1..] + b;
      DepthConcat(a[1..], b, d + a[0].Nesting());
    }
  }

  // One more token at the end.
  lemma Snoc(toks: seq<Token>, t: Token, path: seq<string>)
    ensures PathAfter(toks + [t], path) == t.PathAfter(PathAfter(toks, path))
    ensures Cells(toks + [t], path) == Cells(toks, path) + t.Cells(PathAfter(toks, path))
  {
    Concat(toks, [t], path);
    assert [t][1..] == [];
  }

  lemma DepthSnoc(toks: seq<Token>, t: Token, d: int)
    ensures Depth(toks + [t], d) == (var e := Depth(toks, d);
                                     if e < 0 || e + t.Nesting() < 0 then -1 else e + t.Nesting())
  {
    DepthConcat(toks, [t], d);
    assert [t][1..] == [];
  }

  // The number of open spans is the length of the path.
  lemma {:induction false} DepthIsPath(toks: seq<Token>, path: seq<string>)
    requires Depth(toks, |path|) >= 0
    ensures |PathAfter(toks, path)| == Depth(toks, |path|)
  {
    if toks != [] {
      DepthIsPath(toks[1..], toks[0].PathAfter(path));
    }
  }

  lemma BalancedPath(toks: seq<Token>)
    requires Balanced(toks)
    ensures PathAfter(toks, []) == []
  {
    DepthIsPath(toks, []);
  }
}
