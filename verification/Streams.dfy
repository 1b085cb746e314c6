/**
 What in a stream may make the cursor's cache slip.
 */
module Streams {
  import opened Grid
  import opened Options
  import opened Slips
  import opened Sequences
  import Scan = Scanner

  // Right behind a carriage return.
  ghost predicate AfterReturn(t: Scan.Trace, front: string) {
    front != "" && Last(front) == '\r' && Scan.Stream(t, front[..|front| - 1]).scan.state.Initial?
  }

  // Right behind a character that was shown.
  ghost predicate AfterShown(t: Scan.Trace, front: string) {
    && front != "" && !Scan.IsControl(Last(front)) && Last(front) != FORM_FEED
    && Scan.Stream(t, front[..|front| - 1]).scan.state.Initial?
  }

  ghost predicate RiskAt(t: Scan.Trace, front: string, ch: char, backspaces: bool) {
    var scan := Scan.Stream(t, front).scan;
    if scan.state.Initial? then
      if backspaces then ch == Scan.BACKSPACE && !AfterShown(t, front) else ch == '\n' && !AfterReturn(t, front)
    else !backspaces && !Quiet(Scan.Step(scan, ch).1)
  }

  // Whether the stream that goes on with `str` after `t` holds something that may make the cache
  // slip: a backspace, if those are asked for, and otherwise a newline that does not come right
  // after a carriage return, or a sequence that is not quiet.
  ghost predicate Risky(t: Scan.Trace, str: string, backspaces: bool)
    decreases |str|
  {
    str != "" && (Risky(t, str[..|str| - 1], backspaces) || RiskAt(t, str[..|str| - 1], Last(str), backspaces))
  }

  lemma NotAfterReturn(t: Scan.Trace)
    ensures !AfterReturn(t, "") && !AfterShown(t, "") && !Risky(t, "", true)
  {
  }

  // A slip has its cause in the stream.
  ghost predicate Explained(t: Scan.Trace, str: string, slip: Option<Slip>) {
    slip.Some? && Risky(t, str, slip.value.LostColumn?)
  }

  lemma {:induction false} RiskStays(t: Scan.Trace, a: string, b: string)
    ensures forall backspaces: bool :: Risky(t, a, backspaces) ==> Risky(t, a + b, backspaces)
    decreases |b|
  {
    if b == "" {
      assert a + b == a;
    } else {
      assert (a + b)[..|a + b| - 1] == a + b[..|b| - 1];
      RiskStays(t, a, b[..|b| - 1]);
    }
  }

  lemma RiskSnoc(t: Scan.Trace, a: string, ch: char)
    ensures forall backspaces: bool :: Risky(t, a + [ch], backspaces) <==> Risky(t, a, backspaces) || RiskAt(t, a, ch, backspaces)
    ensures AfterReturn(t, a + [ch]) <==> ch == '\r' && Scan.Stream(t, a).scan.state.Initial?
    ensures AfterShown(t, a + [ch]) <==> !Scan.IsControl(ch) && ch != FORM_FEED && Scan.Stream(t, a).scan.state.Initial?
  {
    assert (a + [ch])[..|a + [ch]| - 1] == a;
  }

  // Of what is read in one round outside any sequence, only a backspace and a newline may be risky.
  lemma RiskNext(t: Scan.Trace, front: string, more: string)
    requires Scan.Stream(t, front).scan.state.Initial? && (|more| == 1 || more == "\r\n")
    ensures Risky(t, front + more, true) <==> Risky(t, front, true) || (more == [Scan.BACKSPACE] && !AfterShown(t, front))
    ensures Risky(t, front + more, false) <==> Risky(t, front, false) || (more == "\n" && !AfterReturn(t, front))
    ensures AfterReturn(t, front + more) <==> more == "\r"
    ensures AfterShown(t, front + more) <==> |more| == 1 && !Scan.IsControl(more[0]) && more[0] != FORM_FEED
  {
    hide Risky, AfterReturn, AfterShown, Scan.Stream;
    RiskSnoc(t, front, more[0]);
    assert more[..1] == [more[0]];
    if |more| == 1 {
      assert more == [more[0]];
    } else {
      Scan.StreamSnoc(t, front, '\r');
      RiskSnoc(t, front + ['\r'], '\n');
      assert front + more == front + ['\r'] + ['\n'];
    }
  }

  predicate TextLineAt(str: string, i: nat)
    requires i < |str|
  {
    && str[i] != Scan.ESC && str[i] != Scan.BACKSPACE && str[i] != FORM_FEED
    && (str[i] == '\n' ==> i > 0 && str[i - 1] == '\r')
  }

  // Text with tabs, bells and carriage returns, in which newlines come after carriage returns.
  predicate TextLines(str: string) {
    forall i :: 0 <= i < |str| ==> TextLineAt(str, i)
  }

  lemma FrontLines(str: string)
    requires str != "" && TextLines(str)
    ensures TextLines(str[..|str| - 1])
  {
    var front := str[..|str| - 1];
    forall i | 0 <= i < |front|
      ensures TextLineAt(front, i)
    {
      assert TextLineAt(str, i);
    }
  }

  // Text in lines holds nothing of the kind.
  lemma {:induction false} NoRisk(t: Scan.Trace, str: string)
    requires t.scan.state.Initial? && TextLines(str)
    ensures Scan.Stream(t, str).scan.state.Initial? && !Risky(t, str, false) && !Risky(t, str, true)
    decreases |str|
  {
    if str != "" {
      var front := str[..|str| - 1];
      FrontLines(str);
      NoRisk(t, front);
      assert TextLineAt(str, |front|);
      if Last(str) == '\n' {
        FrontLines(front);
        NoRisk(t, front[..|front| - 1]);
      }
    }
  }

  // No control characters, and no form feed.
  predicate Showable(str: string) {
    forall i :: 0 <= i < |str| ==> !Scan.IsControl(str[i]) && str[i] != FORM_FEED
  }
}
