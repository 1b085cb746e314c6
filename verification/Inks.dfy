/**
 The text that a stream of output prints, each character with the styles that the stream asks for.
 */
module Inks {
  import Sgr
  import Scan = Scanner

  datatype Ink = Ink(ch: char, styles: seq<string>)

  // The state of the machine, the styles wanted, and the text so far.
  datatype Page = Page(scan: Scan.Scan, wanted: seq<string>, text: seq<Ink>)

  function InkOf(str: string, styles: seq<string>): (text: seq<Ink>)
    ensures |text| == |str| && forall i :: 0 <= i < |str| ==> text[i] == Ink(str[i], styles)
  {
    seq(|str|, i requires 0 <= i < |str| => Ink(str[i], styles))
  }

  // Only Select Graphic Rendition changes the styles wanted.
  function Restyled(wanted: seq<string>, e: Scan.Event): seq<string> {
    match e
    case ControlSequence(last, _, parameters) => if last == 'm' then Sgr.Run(wanted, parameters) else wanted
    case _ => wanted
  }

  function Write(p: Page, ch: char): Page {
    if p.scan.state.Initial? && !Scan.IsControl(ch) then p.(text := p.text + [Ink(ch, p.wanted)])
    else
      var (scan, e) := Scan.Step(p.scan, ch);
      Page(scan, Restyled(p.wanted, e), p.text)
  }

  function Writes(p: Page, str: string): Page
    decreases |str|
  {
    if str == "" then p else Write(Writes(p, str[..|str| - 1]), str[|str| - 1])
  }

  lemma WritesNothing(p: Page)
    ensures Writes(p, "") == p
  {
  }

  lemma WritesSnoc(p: Page, a: string, ch: char)
    ensures Writes(p, a + [ch]) == Write(Writes(p, a), ch)
  {
    assert (a + [ch])[..|a + [ch]| - 1] == a;
  }

  lemma WritesOne(p: Page, ch: char)
    ensures Writes(p, [ch]) == Write(p, ch)
  {
    WritesNothing(p);
    WritesSnoc(p, "", ch);
    assert "" + [ch] == [ch];
  }

  lemma {:induction false} WritesConcat(p: Page, a: string, b: string)
    ensures Writes(p, a + b) == Writes(Writes(p, a), b)
    decreases |b|
  {
    hide Write;
    if b == "" {
      assert a + b == a;
    } else {
      assert (a + b)[..|a + b| - 1] == a + b[..|b| - 1];
      WritesConcat(p, a, b[..|b| - 1]);
    }
  }

  lemma WritesFurther(p: Page, str: string, i: nat, j: nat)
    requires i < j <= |str|
    ensures Writes(p, str[..j]) == Writes(Writes(p, str[..i]), str[i..j])
    ensures j == i + 1 ==> Writes(p, str[..j]) == Write(Writes(p, str[..i]), str[i])
  {
    hide Writes, Write;
    assert str[..j] == str[..i] + str[i..j];
    WritesConcat(p, str[..i], str[i..j]);
    if j == i + 1 {
      assert str[i..j] == [str[i]];
      WritesOne(Writes(p, str[..i]), str[i]);
    }
  }

  lemma InkConcat(a: string, b: string, styles: seq<string>)
    ensures InkOf(a + b, styles) == InkOf(a, styles) + InkOf(b, styles)
  {
  }

  lemma NoInk(styles: seq<string>)
    ensures InkOf("", styles) == []
  {
  }

  // A control character outside any sequence leaves no ink, and an escape begins a sequence.
  lemma WriteControls(p: Page, str: string)
    requires p.scan.state.Initial? && ((|str| == 1 && Scan.IsControl(str[0])) || str == "\r\n")
    ensures Writes(p, str) ==
            if str[0] == Scan.ESC then p.(scan := p.scan.(state := Scan.SeenEsc)) else p
  {
    hide Writes;
    WritesOne(p, str[0]);
    if |str| == 1 {
      assert str == [str[0]];
    } else {
      WritesSnoc(p, [str[0]], '\n');
      assert [str[0]] + ['\n'] == str;
    }
  }

  // ---------- What a stream writes ----------

  lemma {:induction false} WritesSilent(p: Page, str: string)
    requires p.scan.state.Initial? && str != "" && str[0] == Scan.ESC
    requires Scan.Stream(Scan.Trace(p.scan, "", []), str).events == []
    ensures var r := Scan.Stream(Scan.Trace(p.scan, "", []), str);
            !r.scan.state.Initial? && Writes(p, str) == p.(scan := r.scan)
    decreases |str|
  {
    var front, ch := str[..|str| - 1], str[|str| - 1];
    assert str == front + [ch];
    var r := Scan.Stream(Scan.Trace(p.scan, "", []), front);
    Scan.StreamSnoc(Scan.Trace(p.scan, "", []), front, ch);
    WritesSnoc(p, front, ch);
    if front == "" {
      Scan.StreamNothing(Scan.Trace(p.scan, "", []));
      WritesNothing(p);
    } else {
      hide Scan.Stream, Writes, Scan.Step;
      WritesSilent(p, front);
      Scan.Dispatches(r.scan, ch);
    }
  }

  // A printed Select Graphic Rendition changes the styles of the text behind it by its parameters.
  lemma WritesRendition(p: Page, closed: seq<int>, current: int)
    requires p.scan == Scan.START && Scan.IsParameter(current)
    requires forall i :: 0 <= i < |closed| ==> Scan.IsParameter(closed[i])
    ensures Writes(p, Scan.Print(false, closed, current, 'm')) == p.(wanted := Sgr.Run(p.wanted, closed + [current]))
  {
    hide Scan.Stream, Writes, Sgr.Run;
    var opening := Scan.PrintOpening(false, closed, current);
    Scan.ReadOpening(Scan.Trace(p.scan, "", []), false, closed, current);
    assert opening[0] == Scan.ESC;
    WritesSilent(p, opening);
    assert Scan.Print(false, closed, current, 'm') == opening + ['m'];
    WritesSnoc(p, opening, 'm');
  }

  // Any other printed sequence, a move for one, changes nothing of what is written.
  lemma WritesOther(p: Page, closed: seq<int>, current: int, last: char)
    requires p.scan == Scan.START && Scan.IsParameter(current) && Scan.IsFinal(last) && last != 'm'
    requires forall i :: 0 <= i < |closed| ==> Scan.IsParameter(closed[i])
    ensures Writes(p, Scan.Print(false, closed, current, last)) == p
  {
    hide Scan.Stream, Writes, Sgr.Run;
    var opening := Scan.PrintOpening(false, closed, current);
    Scan.ReadOpening(Scan.Trace(p.scan, "", []), false, closed, current);
    assert opening[0] == Scan.ESC;
    WritesSilent(p, opening);
    assert Scan.Print(false, closed, current, last) == opening + [last];
    WritesSnoc(p, opening, last);
  }

  // Text is written in the styles wanted.
  lemma {:induction false} WritesText(p: Page, str: string)
    requires p.scan.state.Initial? && forall i :: 0 <= i < |str| ==> !Scan.IsControl(str[i])
    ensures Writes(p, str) == p.(text := p.text + InkOf(str, p.wanted))
    decreases |str|
  {
    if str == "" {
      NoInk(p.wanted);
      assert p.text + [] == p.text;
    } else {
      var front, ch := str[..|str| - 1], str[|str| - 1];
      WritesText(p, front);
      assert str == front + [ch];
      WritesSnoc(p, front, ch);
      InkConcat(front, [ch], p.wanted);
      assert InkOf([ch], p.wanted) == [Ink(ch, p.wanted)];
      assert p.text + InkOf(front, p.wanted) + [Ink(ch, p.wanted)] == p.text + InkOf(str, p.wanted);
    }
  }
}
