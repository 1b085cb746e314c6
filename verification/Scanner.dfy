/**
 The escape-sequence state machine: control sequences (section 5.4 of ECMA-48), two-character
 escapes and operating system controls, a character at a time.
 */
module Scanner {
  import opened Int32

  const ESC: char := '\U{1B}'
  const BACKSPACE: char := '\U{08}'
  const BEL: char := '\U{07}'

  datatype State = Initial | SeenEsc | SeenLBracket | SeenLBracketQuestion | SeenRBracket | SeenBracketText

  datatype Event =
    | Nothing
    | Escape(ch: char)
    | ControlSequence(last: char, question: bool, parameters: seq<int>)
    | Unknown
    | SystemControl(code: int, text: string)

  // Where the machine is: the closed parameters, the one being read (-1 before any digit) and
  // the text of an operating system control.
  datatype Scan = Scan(state: State, closed: seq<int>, current: int, text: string)

  const START := Scan(Initial, [], -1, "")

  predicate IsDigit(ch: char) {
    '0' <= ch <= '9'
  }

  function AddDigit(current: int, ch: char): int
    requires IsDigit(ch)
  {
    ToInt32((if current >= 0 then ToInt32(10 * current) else 0) + (ch as int - '0' as int))
  }

  // One character in any state but Initial, which only an escape character leaves.
  function Step(s: Scan, ch: char): (Scan, Event) {
    match s.state
    case Initial =>
      (if ch == ESC then s.(state := SeenEsc) else s, Nothing)
    case SeenEsc =>
      if ch == '[' then (Scan(SeenLBracket, [], -1, s.text), Nothing)
      else if ch == ']' then (Scan(SeenRBracket, [], -1, s.text), Nothing)
      else (s.(state := Initial), Escape(ch))
    case SeenLBracket | SeenLBracketQuestion =>
      if IsDigit(ch) then (s.(current := AddDigit(s.current, ch)), Nothing)
      else if ch == ';' then (s.(closed := s.closed + [s.current], current := -1), Nothing)
      else if ch == '?' then (s.(state := SeenLBracketQuestion), Nothing)
      else (Scan(Initial, [], -1, s.text), ControlSequence(ch, s.state.SeenLBracketQuestion?, s.closed + [s.current]))
    case SeenRBracket =>
      if IsDigit(ch) then (s.(current := AddDigit(s.current, ch)), Nothing)
      else if ch == ';' then (s.(state := SeenBracketText, text := ""), Nothing)
      else (Scan(Initial, [], -1, s.text), Unknown)
    case SeenBracketText =>
      if ch == BEL || ch == '\0' then (Scan(Initial, [], -1, ""), SystemControl(s.current, s.text))
      else (s.(text := s.text + [ch]), Nothing)
  }

  // A sequence is dispatched exactly when the machine comes back to its initial state, and a
  // control sequence always has a last parameter.
  lemma Dispatches(s: Scan, ch: char)
    requires !s.state.Initial?
    ensures var (s', e) := Step(s, ch);
            (e != Nothing <==> s'.state.Initial?) && (e.ControlSequence? ==> e.parameters != [])
  {
  }

  class Scanner {
    var controlSequenceState: State
    var prevParametersCount: nat
    var curNumParameter: int
    var prevNumParameters: array?<int>
    var curTextParameter: string

    ghost predicate Valid()
      reads this
    {
      && (prevNumParameters != null ==> prevNumParameters.Length > 0)
      && (InParameters() && prevParametersCount > 0 ==>
            prevNumParameters != null && prevParametersCount <= prevNumParameters.Length)
    }

    ghost predicate InParameters()
      reads this
    {
      controlSequenceState.SeenLBracket? || controlSequenceState.SeenLBracketQuestion?
    }

    // The machine's state with the unused tail of the array left out.
    ghost function Value(): Scan
      requires Valid()
      reads this, prevNumParameters
    {
      match controlSequenceState
      case SeenLBracket | SeenLBracketQuestion => Scan(controlSequenceState, Parameters(), curNumParameter, "")
      case SeenRBracket => Scan(controlSequenceState, [], curNumParameter, "")
      case SeenBracketText => Scan(controlSequenceState, [], curNumParameter, curTextParameter)
      case _ => Scan(controlSequenceState, [], -1, "")
    }

    ghost function Parameters(): seq<int>
      requires Valid() && InParameters()
      reads this, prevNumParameters
    {
      if prevParametersCount == 0 then [] else prevNumParameters[..prevParametersCount]
    }

    constructor ()
      ensures Valid() && Value() == START && prevNumParameters == null
    {
      controlSequenceState, prevParametersCount, curNumParameter := Initial, 0, -1;
      prevNumParameters := null;
      curTextParameter := "";
    }

    // A semicolon: the array is made or doubled when it is full.
    method CloseParameter()
      requires Valid() && InParameters()
      modifies this, prevNumParameters
      ensures Valid() && controlSequenceState == old(controlSequenceState)
      ensures prevNumParameters != null && (fresh(prevNumParameters) || prevNumParameters == old(prevNumParameters))
      ensures Parameters() == old(Parameters()) + [old(curNumParameter)] && curNumParameter == -1
    {
      if prevNumParameters == null {
        prevNumParameters := new int[4];
      } else if prevNumParameters.Length <= prevParametersCount {
        var was := prevNumParameters[..];
        prevNumParameters := new int[2 * prevParametersCount](i => if 0 <= i < |was| then was[i] else 0);
      }
      prevNumParameters[prevParametersCount] := curNumParameter;
      curNumParameter := -1;
      prevParametersCount := prevParametersCount + 1;
    }

    method Feed(ch: char) returns (e: Event)
      requires Valid()
      modifies this, prevNumParameters
      ensures Valid() && (Value(), e) == Step(old(Value()), ch)
      ensures prevNumParameters == null || fresh(prevNumParameters) || prevNumParameters == old(prevNumParameters)
    {
      e := Nothing;
      match controlSequenceState {
        case Initial =>
          if ch == ESC {
            controlSequenceState := SeenEsc;
          }
        case SeenEsc =>
          if ch == '[' {
            controlSequenceState := SeenLBracket;
            curNumParameter := -1;
            prevParametersCount := 0;
          } else if ch == ']' {
            controlSequenceState := SeenRBracket;
            curNumParameter := -1;
            prevParametersCount := 0;
          } else {
            e := Escape(ch);
            controlSequenceState := Initial;
          }
        case SeenLBracket | SeenLBracketQuestion =>
          if IsDigit(ch) {
            curNumParameter := AddDigit(curNumParameter, ch);
          } else if ch == ';' {
            CloseParameter();
          } else if ch == '?' {
            controlSequenceState := SeenLBracketQuestion;
          } else {
            var parameters := [];
            if prevParametersCount > 0 {
              parameters := prevNumParameters[..prevParametersCount];
            }
            e := ControlSequence(ch, controlSequenceState.SeenLBracketQuestion?, parameters + [curNumParameter]);
            prevNumParameters := null;
            controlSequenceState := Initial;
          }
        case SeenRBracket =>
          if IsDigit(ch) {
            curNumParameter := AddDigit(curNumParameter, ch);
          } else if ch == ';' {
            controlSequenceState := SeenBracketText;
            curTextParameter := "";
          } else {
            e := Unknown;
            prevNumParameters := null;
            controlSequenceState := Initial;
          }
        case SeenBracketText =>
          if ch == BEL || ch == '\0' {
            e := SystemControl(curNumParameter, curTextParameter);
            curTextParameter := "";
            controlSequenceState := Initial;
            prevNumParameters := null;
          } else {
            curTextParameter := curTextParameter + [ch];
          }
      }
    }
  }

  // ---------- What a stream prints and dispatches ----------

  predicate IsControl(ch: char) {
    ch == '\r' || ch == '\n' || ch == BACKSPACE || ch == BEL || ch == '\t' || ch == ESC
  }

  // The text printed and the sequences dispatched by a stretch of the stream.
  datatype Trace = Trace(scan: Scan, printed: string, events: seq<Event>)

  function Observe(t: Trace, ch: char): Trace {
    if t.scan.state.Initial? && !IsControl(ch) then t.(printed := t.printed + [ch])
    else
      var (scan, e) := Step(t.scan, ch);
      Trace(scan, t.printed, if e.Nothing? then t.events else t.events + [e])
  }

  function Stream(t: Trace, str: string): Trace
    decreases |str|
  {
    if str == "" then t else Observe(Stream(t, str[..|str| - 1]), str[|str| - 1])
  }

  // The stream may be cut anywhere, also inside a sequence.
  lemma {:induction false} Chunking(t: Trace, a: string, b: string)
    ensures Stream(t, a + b) == Stream(Stream(t, a), b)
    decreases |b|
  {
    if b == "" {
      assert a + b == a;
    } else {
      assert (a + b)[..|a + b| - 1] == a + b[..|b| - 1];
      Chunking(t, a, b[..|b| - 1]);
    }
  }

  function Flatten(chunks: seq<string>): string {
    if chunks == [] then "" else Flatten(chunks[..|chunks| - 1]) + chunks[|chunks| - 1]
  }

  function StreamAll(t: Trace, chunks: seq<string>): Trace {
    if chunks == [] then t else Stream(StreamAll(t, chunks[..|chunks| - 1]), chunks[|chunks| - 1])
  }

  lemma {:induction false} AnyChunking(t: Trace, chunks: seq<string>)
    ensures StreamAll(t, chunks) == Stream(t, Flatten(chunks))
    decreases |chunks|
  {
    if chunks != [] {
      AnyChunking(t, chunks[..|chunks| - 1]);
      Chunking(t, Flatten(chunks[..|chunks| - 1]), chunks[|chunks| - 1]);
    }
  }

  // ---------- Control sequences printed and parsed back ----------

  function Digit(d: int): char
    requires 0 <= d < 10
  {
    '0' + d as char
  }

  function Digits(n: nat): string {
    if n < 10 then [Digit(n)] else Digits(n / 10) + [Digit(n % 10)]
  }

  // -1 stands for an omitted parameter.
  function PrintParameter(p: int): string {
    if p < 0 then "" else Digits(p)
  }

  function PrintClosed(ps: seq<int>): string {
    if ps == [] then "" else PrintClosed(ps[..|ps| - 1]) + PrintParameter(ps[|ps| - 1]) + ";"
  }

  function Print(question: bool, closed: seq<int>, current: int, last: char): string {
    [ESC, '['] + (if question then "?" else "") + PrintClosed(closed) + PrintParameter(current) + [last]
  }

  // A control character outside any sequence, other than escape, neither prints nor dispatches.
  lemma StreamControls(t: Trace, s: string)
    requires t.scan.state.Initial?
    requires forall i :: 0 <= i < |s| ==> IsControl(s[i]) && s[i] != ESC
    ensures Stream(t, s) == t
    decreases |s|
  {
    if s != "" {
      StreamControls(t, s[..|s| - 1]);
    }
  }

  lemma StreamOne(t: Trace, ch: char)
    ensures Stream(t, [ch]) == Observe(t, ch)
  {
    StreamNothing(t);
    StreamSnoc(t, "", ch);
    assert "" + [ch] == [ch];
  }

  predicate IsParameter(p: int) {
    -1 <= p < TWO_31
  }

  predicate IsFinal(ch: char) {
    !IsDigit(ch) && ch != ';' && ch != '?'
  }

  lemma StreamSnoc(t: Trace, s: string, ch: char)
    ensures Stream(t, s + [ch]) == Observe(Stream(t, s), ch)
  {
    assert (s + [ch])[..|s + [ch]| - 1] == s;
  }

  lemma StreamNothing(t: Trace)
    ensures Stream(t, "") == t
  {
  }

  lemma {:induction false} ReadDigits(t: Trace, n: nat)
    requires n < TWO_31 && t.scan.current == -1
    requires t.scan.state.SeenLBracket? || t.scan.state.SeenLBracketQuestion? || t.scan.state.SeenRBracket?
    ensures Stream(t, Digits(n)) == t.(scan := t.scan.(current := n))
    decreases n
  {
    hide Stream, AddDigit;
    if n < 10 {
      StreamSnoc(t, "", Digit(n));
      StreamNothing(t);
      assert "" + [Digit(n)] == Digits(n);
      AddFirstDigit(n);
    } else {
      ReadDigits(t, n / 10);
      StreamSnoc(t, Digits(n / 10), Digit(n % 10));
      AddLastDigit(n);
    }
  }

  lemma AddFirstDigit(n: nat)
    requires n < 10
    ensures AddDigit(-1, Digit(n)) == n
  {
  }

  lemma AddLastDigit(n: nat)
    requires n < TWO_31
    ensures AddDigit(n / 10, Digit(n % 10)) == n
  {
    assert 10 * (n / 10) + n % 10 == n;
    assert 0 <= 10 * (n / 10) < TWO_31;
  }

  lemma ReadParameter(t: Trace, p: int)
    requires IsParameter(p) && t.scan.current == -1
    requires t.scan.state.SeenLBracket? || t.scan.state.SeenLBracketQuestion?
    ensures Stream(t, PrintParameter(p)) == t.(scan := t.scan.(current := p))
  {
    if p >= 0 {
      ReadDigits(t, p);
    } else {
      StreamNothing(t);
    }
  }

  lemma {:induction false} ReadClosed(t: Trace, ps: seq<int>)
    requires forall i :: 0 <= i < |ps| ==> IsParameter(ps[i])
    requires t.scan.current == -1 && t.scan.closed == []
    requires t.scan.state.SeenLBracket? || t.scan.state.SeenLBracketQuestion?
    ensures Stream(t, PrintClosed(ps)) == t.(scan := t.scan.(closed := ps))
    decreases |ps|
  {
    hide Stream;
    if ps == [] {
      StreamNothing(t);
    } else {
      var front, p := ps[..|ps| - 1], ps[|ps| - 1];
      ReadClosed(t, front);
      Chunking(t, PrintClosed(front), PrintParameter(p));
      ReadParameter(t.(scan := t.scan.(closed := front)), p);
      StreamSnoc(t, PrintClosed(front) + PrintParameter(p), ';');
      assert front + [p] == ps;
    }
  }

  function PrintOpening(question: bool, closed: seq<int>, current: int): string {
    [ESC, '['] + (if question then "?" else "") + PrintClosed(closed) + PrintParameter(current)
  }

  // Up to its last character a control sequence is silent.
  lemma ReadOpening(t: Trace, question: bool, closed: seq<int>, current: int)
    requires t.scan == START && IsParameter(current)
    requires forall i :: 0 <= i < |closed| ==> IsParameter(closed[i])
    ensures Stream(t, PrintOpening(question, closed, current)) ==
            t.(scan := Scan(if question then SeenLBracketQuestion else SeenLBracket, closed, current, ""))
  {
    hide Stream;
    var mark := if question then "?" else "";
    var t0 := t.(scan := t.scan.(state := if question then SeenLBracketQuestion else SeenLBracket));
    assert Stream(t, [ESC, '['] + mark) == t0 by { ReadIntroducer(t, question); }
    ReadClosed(t0, closed);
    Chunking(t, [ESC, '['] + mark, PrintClosed(closed));
    var t1 := t0.(scan := t0.scan.(closed := closed));
    ReadParameter(t1, current);
    Chunking(t, [ESC, '['] + mark + PrintClosed(closed), PrintParameter(current));
  }

  // A control sequence printed from any parameters comes back as one dispatch with exactly
  // those parameters, and prints nothing.
  lemma ParsePrinted(t: Trace, question: bool, closed: seq<int>, current: int, last: char)
    requires t.scan == START && IsFinal(last) && IsParameter(current)
    requires forall i :: 0 <= i < |closed| ==> IsParameter(closed[i])
    ensures Stream(t, Print(question, closed, current, last)) ==
            t.(events := t.events + [ControlSequence(last, question, closed + [current])])
  {
    hide Stream;
    ReadOpening(t, question, closed, current);
    StreamSnoc(t, PrintOpening(question, closed, current), last);
  }

  // A two-character escape is one dispatch, and prints nothing.
  lemma ParseEscape(t: Trace, ch: char)
    requires t.scan == START && ch != '[' && ch != ']'
    ensures Stream(t, [ESC, ch]) == t.(events := t.events + [Escape(ch)])
  {
    StreamNothing(t);
    StreamSnoc(t, "", ESC);
    StreamSnoc(t, [ESC], ch);
    assert "" + [ESC] == [ESC] && [ESC] + [ch] == [ESC, ch];
  }

  predicate IsSystemText(text: string) {
    forall i :: 0 <= i < |text| ==> text[i] != BEL && text[i] != '\0'
  }

  lemma {:induction false} ReadText(t: Trace, text: string)
    requires t.scan.state.SeenBracketText? && IsSystemText(text)
    ensures Stream(t, text) == t.(scan := t.scan.(text := t.scan.text + text))
    decreases |text|
  {
    if text == "" {
      StreamNothing(t);
      assert t.scan.text + "" == t.scan.text;
    } else {
      var front, ch := text[..|text| - 1], text[|text| - 1];
      ReadText(t, front);
      assert text == front + [ch];
      StreamSnoc(t, front, ch);
      assert t.scan.text + front + [ch] == t.scan.text + text;
    }
  }

  // An operating system control printed from any code below 2^31 and any text, ended by a bell or a
  // zero, comes back as one dispatch with exactly those; nothing of it is printed, and what follows
  // is again outside any sequence.
  lemma ParseSystemControl(t: Trace, code: int, text: string, end: char)
    requires t.scan == START && IsParameter(code) && IsSystemText(text) && (end == BEL || end == '\0')
    ensures Stream(t, [ESC, ']'] + PrintParameter(code) + ";" + text + [end]) ==
            t.(events := t.events + [SystemControl(code, text)])
  {
    hide Stream;
    var intro := [ESC, ']'];
    var t0 := t.(scan := t.scan.(state := SeenRBracket));
    StreamNothing(t);
    StreamSnoc(t, "", ESC);
    StreamSnoc(t, [ESC], ']');
    assert "" + [ESC] == [ESC] && [ESC] + [']'] == intro;
    var t1 := t0.(scan := t0.scan.(current := code));
    if code >= 0 {
      ReadDigits(t0, code);
    } else {
      StreamNothing(t0);
    }
    Chunking(t, intro, PrintParameter(code));
    StreamSnoc(t, intro + PrintParameter(code), ';');
    var t2 := t1.(scan := t1.scan.(state := SeenBracketText, text := ""));
    ReadText(t2, text);
    Chunking(t, intro + PrintParameter(code) + ";", text);
    assert "" + text == text;
    StreamSnoc(t, intro + PrintParameter(code) + ";" + text, end);
  }

  lemma ReadIntroducer(t: Trace, question: bool)
    requires t.scan == START
    ensures Stream(t, [ESC, '['] + if question then "?" else "") ==
            t.(scan := t.scan.(state := if question then SeenLBracketQuestion else SeenLBracket))
  {
    hide Stream;
    StreamNothing(t);
    StreamSnoc(t, "", ESC);
    assert "" + [ESC] == [ESC];
    StreamSnoc(t, [ESC], '[');
    assert [ESC] + ['['] == [ESC, '['];
    if question {
      StreamSnoc(t, [ESC, '['], '?');
    } else {
      assert [ESC, '['] + "" == [ESC, '['];
    }
  }
}
