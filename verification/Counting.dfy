/**
 The recount of the cursor's place from the document, and its packing into one long.
 */
module Counting {
  import opened Int32
  import opened Grid
  import opened Document
  import opened Walk

  lemma PlainToken(toks: seq<Token>, i: nat)
    requires AllPlain(Cells(toks, [])) && i < |toks| && toks[i].Text?
    ensures PlainText(toks[i].data)
  {
    hide Cells, PathAfter, Depth;
    assert toks == toks[..i] + [Text(toks[i].data)] + toks[i + 1..];
    PlainTextOf(toks[..i], toks[i].data, toks[i + 1..]);
  }

  // The columns and rows of one text node.
  method DeltaText(text: string, p: Pos, ghost path: seq<string>) returns (q: Pos)
    requires PlainText(text)
    requires p.col >= 0
    ensures q == RecountFrom(p, CellsOf(text, path))
  {
    hide RecountFrom;
    var line, col := p.line, p.col;
    var i := 0;
    assert CellsOf(text[..0], path) == [];
    RecountNil(p);
    while i < |text|
      invariant i <= |text| && col >= 0
      invariant Pos(line, col) == RecountFrom(p, CellsOf(text[..i], path))
    {
      var ch := text[i];
      assert CellsOf(text[..i + 1], path) == CellsOf(text[..i], path) + [Cell(ch, path)];
      RecountSnoc(p, CellsOf(text[..i], path), Cell(ch, path));
      col := UpdateColumn(ch, col);
      if col == -1 {
        line := line + 1;
        col := 0;
      }
      i := i + 1;
    }
    assert text[..i] == text;
    q := Pos(line, col);
  }

  // delta2D from the start of cursorHome to the input line.
  method Delta2D(toks: seq<Token>) returns (p: Pos)
    requires AllPlain(Cells(toks, []))
    ensures p == Recount(Cells(toks, []))
  {
    hide Cells, PathAfter, Depth, RecountFrom;
    p := ORIGIN;
    var i := 0;
    NothingCounted();
    while i < |toks|
      invariant i <= |toks| && p.col >= 0
      invariant p == Recount(Cells(toks[..i], []))
    {
      assert toks[..i + 1] == toks[..i] + [toks[i]];
      Snoc(toks[..i], toks[i], []);
      ghost var path := PathAfter(toks[..i], []);
      RecountConcat(ORIGIN, Cells(toks[..i], []), toks[i].Cells(path));
      RecountMonotone(ORIGIN, Cells(toks[..i + 1], []));
      RecountNil(p);
      match toks[i] {
        case Text(text) =>
          PlainToken(toks, i);
          p := DeltaText(text, p, path);
        case Br =>
          RecountSnoc(p, [], Cell('\n', path));
          assert [] + [Cell('\n', path)] == [Cell('\n', path)];
          p := Pos(p.line + 1, 0);
        case _ =>
      }
      i := i + 1;
    }
    assert toks[..i] == toks;
  }

  lemma NothingCounted()
    ensures forall toks: seq<Token> :: Recount(Cells(toks[..0], [])) == ORIGIN
  {
  }

  // ---------- Packed positions ----------

  const TWO_30 := 0x4000_0000

  // lines << 32 | columns << 1
  function Pack(p: Pos): int {
    p.line * TWO_32 + p.col * 2
  }

  // How delta2D reads a packed value back: (int) (delta >> 32) and ((int) delta) >> 1.
  function Unpack(delta: int): Pos {
    Pos(ToInt32(delta / TWO_32), ToInt32(delta) / 2)
  }

  // How updateCursorCache does: (int) (lcol >> 32) and (int) (lcol >> 1) & 0x7fffffff.
  function UnpackCached(lcol: int): Pos {
    Pos(ToInt32(lcol / TWO_32), (lcol / 2) % TWO_31)
  }

  predicate Fits(p: Pos) {
    0 <= p.line < TWO_31 && 0 <= p.col < TWO_30
  }

  // Both ways of unpacking give the position back, whether or not the stop bit is set.
  lemma PackingIsExact(p: Pos, seen: bool)
    requires Fits(p)
    ensures var delta := Pack(p) + if seen then 1 else 0;
            Unpack(delta) == p && UnpackCached(delta) == p
  {
    var bit := if seen then 1 else 0;
    var delta := Pack(p) + bit;
    assert delta / TWO_32 == p.line && delta % TWO_32 == p.col * 2 + bit;
    assert delta / 2 == p.line * TWO_31 + p.col;
  }

  // A column of 2^30 already comes back negative in the middle of a count.
  lemma PackingOverflows(line: nat)
    requires line < TWO_31
    ensures Unpack(Pack(Pos(line, TWO_30))).col == -TWO_30
  {
    var delta := Pack(Pos(line, TWO_30));
    assert delta % TWO_32 == TWO_31;
  }

  function AdvanceText(p: Pos, text: string): Pos
    decreases text
  {
    if text == "" then p else AdvanceText(Advance(p, text[0]), text[1..])
  }

  // delta2D in packed form, node by node.
  function PackedDelta(toks: seq<Token>, delta: int): int {
    if toks == [] then delta
    else
      match toks[0]
      case Text(text) => PackedDelta(toks[1..], Pack(AdvanceText(Unpack(delta), text)))
      case Br => PackedDelta(toks[1..], (delta / TWO_32 + 1) * TWO_32)
      case _ => PackedDelta(toks[1..], delta)
  }

  lemma {:induction false} AdvanceTextIsRecount(p: Pos, text: string, path: seq<string>)
    ensures AdvanceText(p, text) == RecountFrom(p, CellsOf(text, path))
    decreases text
  {
    if text != "" {
      AdvanceTextIsRecount(Advance(p, text[0]), text[1..], path);
      assert CellsOf(text, path) == [Cell(text[0], path)] + CellsOf(text[1..], path);
      RecountConcat(p, [Cell(text[0], path)], CellsOf(text[1..], path));
      assert [Cell(text[0], path)][..0] == [];
    }
  }

  // In a document whose places all fit, the packed count is the recount, packed.
  lemma {:induction false} PackedIsRecount(toks: seq<Token>, p: Pos, path: seq<string>)
    requires forall k :: 0 <= k <= |Cells(toks, path)| ==> Fits(RecountFrom(p, Cells(toks, path)[..k]))
    ensures PackedDelta(toks, Pack(p)) == Pack(RecountFrom(p, Cells(toks, path)))
  {
    hide RecountFrom, Pack, Unpack;
    var cs := Cells(toks, path);
    assert cs[..0] == [] && Fits(RecountFrom(p, cs[..0]));
    RecountNil(p);
    PackingIsExact(p, false);
    if toks != [] {
      var path' := toks[0].PathAfter(path);
      var first, more := toks[0].Cells(path), Cells(toks[1..], path');
      var q := RecountFrom(p, first);
      RecountConcat(p, first, more);
      FitsLater(p, first, more);
      PackedIsRecount(toks[1..], q, path');
      match toks[0]
      case Text(text) =>
        AdvanceTextIsRecount(p, text, path);
      case Br =>
        RecountSnoc(p, [], Cell('\n', path));
        assert [] + [Cell('\n', path)] == first;
        PackedBreak(p);
      case _ =>
    }
  }

  lemma FitsLater(p: Pos, first: seq<Cell>, more: seq<Cell>)
    requires forall k :: 0 <= k <= |first + more| ==> Fits(RecountFrom(p, (first + more)[..k]))
    ensures forall k :: 0 <= k <= |more| ==> Fits(RecountFrom(RecountFrom(p, first), more[..k]))
  {
    hide RecountFrom;
    forall k | 0 <= k <= |more|
      ensures Fits(RecountFrom(RecountFrom(p, first), more[..k]))
    {
      assert (first + more)[..|first| + k] == first + more[..k];
      RecountConcat(p, first, more[..k]);
    }
  }

  lemma PackedBreak(p: Pos)
    requires Fits(p)
    ensures (Pack(p) / TWO_32 + 1) * TWO_32 == Pack(Pos(p.line + 1, 0))
  {
  }
}
