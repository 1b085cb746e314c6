/**
 Whole traces: the file the recorder leaves for a sequence of calls, and the decoder's loop over
 the records in it.
 */
module Traces {
  import opened Options
  import opened Wire
  import opened Records
  import opened RoundTrip

  // A call with the thread it was made on and the times around it.
  datatype Event = Event(thread: Long, call: Call, begin: Long, end: Long)

  ghost predicate Recorded(width: Width, e: Event) {
    IsPtr(width, e.thread) && Recordable(width, e.call)
  }

  // ---------- The file ----------

  const OPC_VERSION: Word := 0xdeafca1f

  function Header(width: Width): Bytes {
    Int(OPC_VERSION) + Int(1) + Int(0) + Int(0) + Int(width.Size())
  }

  // The command word, behind the new thread if it has changed.
  function Command(width: Width, thread: Long, e: Event): seq<Bytes>
    requires Recorded(width, e)
  {
    (if e.thread != thread then [Int(OPC_THREAD), Ptr(width, e.thread)] else []) + [Int(Opcode(e.call))]
  }

  // The fields of a record, given the thread of the one before.
  function Record(width: Width, thread: Long, e: Event): seq<Bytes>
    requires Recorded(width, e)
  {
    Command(width, thread, e) + Args(width, e.call) + [LongLong(e.begin), LongLong(e.end)]
  }

  function Stream(width: Width, thread: Long, events: seq<Event>): Bytes
    requires forall i :: 0 <= i < |events| ==> Recorded(width, events[i])
    decreases |events|
  {
    if events == [] then []
    else Join(Record(width, thread, events[0])) + Stream(width, events[0].thread, events[1..])
  }

  lemma StreamStep(width: Width, thread: Long, events: seq<Event>)
    requires events != [] && forall i :: 0 <= i < |events| ==> Recorded(width, events[i])
    ensures Stream(width, thread, events) == Join(Record(width, thread, events[0])) + Stream(width, events[0].thread, events[1..])
  {
  }

  // The last thread that has issued a record.
  function LastThread(thread: Long, events: seq<Event>): Long {
    if events == [] then thread else events[|events| - 1].thread
  }

  lemma {:induction false} StreamSnoc(width: Width, thread: Long, events: seq<Event>, e: Event)
    requires forall i :: 0 <= i < |events| ==> Recorded(width, events[i])
    requires Recorded(width, e)
    ensures Stream(width, thread, events + [e])
         == Stream(width, thread, events) + Join(Record(width, LastThread(thread, events), e))
    decreases |events|
  {
    hide Record, Join, Recorded;
    var all := events + [e];
    if events == [] {
      assert all[1..] == [] && all[0] == e;
    } else {
      assert all[0] == events[0] && all[1..] == events[1..] + [e];
      StreamSnoc(width, events[0].thread, events[1..], e);
      StreamStep(width, thread, all);
    }
  }

  // The file of a recording: the header and the records, the first thread being none.
  function File(width: Width, events: seq<Event>): Bytes
    requires forall i :: 0 <= i < |events| ==> Recorded(width, events[i])
  {
    Header(width) + Stream(width, 0, events)
  }

  // A file field by field: thread 7 binds buffer 5 and shows a frame.
  lemma FileFields()
    ensures var events := [Event(7, BindBuffer(0x8892, 5), 1, 2), Event(7, SwapBuffers(9, 8, 1), 3, 4)];
            File(Four, events) ==
            Join([Int(0xdeaf_ca1f), Int(1), Int(0), Int(0), Int(4)]
                 + [Int(2), Int(7), Int(103), Int(0x8892), Int(5), LongLong(1), LongLong(2)]
                 + [Int(730), Int(9), Int(8), Int(1), LongLong(3), LongLong(4)])
  {
    hide Int, LongLong, Join;
    var bind, show := Event(7, BindBuffer(0x8892, 5), 1, 2), Event(7, SwapBuffers(9, 8, 1), 3, 4);
    var header := [Int(0xdeaf_ca1f), Int(1), Int(0), Int(0), Int(4)];
    HeaderJoined(header);
    assert [bind, show][1..] == [show] && [show][1..] == [];
    assert Record(Four, 0, bind) == [Int(2), Int(7), Int(103), Int(0x8892), Int(5), LongLong(1), LongLong(2)];
    assert Record(Four, 7, show) == [Int(730), Int(9), Int(8), Int(1), LongLong(3), LongLong(4)];
    StreamStep(Four, 0, [bind, show]);
    StreamStep(Four, 7, [show]);
    JoinConcat(header, Record(Four, 0, bind));
    JoinConcat(header + Record(Four, 0, bind), Record(Four, 7, show));
  }

  lemma HeaderJoined(fields: seq<Bytes>)
    requires |fields| == 5
    ensures Join(fields) == fields[0] + fields[1] + fields[2] + fields[3] + fields[4]
  {
    hide Join;
    var a, b, c, d, e := fields[0], fields[1], fields[2], fields[3], fields[4];
    assert fields == [a] + [b] + [c] + [d] + [e];
    JoinOne(a); JoinOne(b); JoinOne(c); JoinOne(d); JoinOne(e);
    JoinConcat([a], [b]);
    JoinConcat([a] + [b], [c]);
    JoinConcat([a] + [b] + [c], [d]);
    JoinConcat([a] + [b] + [c] + [d], [e]);
  }

  // ---------- The decoder's loop ----------

  datatype Stop = EndOfFile | NoCommand | Unknown(op: Word) | Fatal | FramesDone

  datatype Step =
    | Done(event: Event, next: Shadow, rest: Bytes)
    | Stopped(why: Stop, thread: Long, rest: Bytes)

  function GetCmd(s: Bytes): (r: (Word, Bytes))
    ensures |r.1| <= |s|
    ensures r.0 != OPC_EOF ==> |r.1| < |s|
  {
    if |s| < 4 then (OPC_EOF, s) else (WordAt(s), s[4..])
  }

  function Decode(width: Width, replay: bool, st: Shadow, thread: Long, s: Bytes): (r: Step)
    requires IsShadow(st)
    ensures r.Done? ==> |r.rest| < |s| && IsShadow(r.next)
    ensures r.Stopped? ==> r.why != FramesDone
  {
    var (first, s0) := GetCmd(s);
    var (issuer, s1) := if first == OPC_THREAD then GetPtr(width, s0) else (thread, s0);
    var (op, s2) := if first == OPC_THREAD then GetCmd(s1) else (first, s1);
    if op == OPC_EOF then Stopped(EndOfFile, issuer, s2)
    else if op == OPC_NONE then Stopped(NoCommand, issuer, s2)
    else
      match DecodeArgs(width, replay, st, op, s2)
      case NotImplemented => Stopped(Unknown(op), issuer, s2)
      case TooManyAttributes => Stopped(Fatal, issuer, s2)
      case Parsed(call, s3) =>
        var (begin, s4) := GetLong(s3);
        var (end, s5) := GetLong(s4);
        Done(Event(issuer, call, begin, end), After(st, call), s5)
  }

  datatype Run = Run(events: seq<Event>, state: Shadow, thread: Long, rest: Bytes, stop: Stop)

  function FramesLeft(frames: int, e: Event): int {
    if e.call.SwapBuffers? then frames - 1 else frames
  }

  // The records up to the end of the given number of frames, or all of them if it is negative.
  function Process(width: Width, replay: bool, st: Shadow, thread: Long, s: Bytes, frames: int): (run: Run)
    requires IsShadow(st)
    ensures IsShadow(run.state)
    decreases |s|
  {
    if frames == 0 then Run([], st, thread, s, FramesDone)
    else
      match Decode(width, replay, st, thread, s)
      case Stopped(why, issuer, rest) => Run([], st, issuer, rest, why)
      case Done(e, next, rest) =>
        var more := Process(width, replay, next, e.thread, rest, FramesLeft(frames, e));
        more.(events := [e] + more.events)
  }

  lemma {:induction false} NoLimit(width: Width, replay: bool, st: Shadow, thread: Long, s: Bytes, j: int, k: int)
    requires IsShadow(st) && j < 0 && k < 0
    ensures Process(width, replay, st, thread, s, j) == Process(width, replay, st, thread, s, k)
    decreases |s|
  {
    hide Decode;
    var step := Decode(width, replay, st, thread, s);
    if step.Done? {
      NoLimit(width, replay, step.next, step.event.thread, step.rest, FramesLeft(j, step.event), FramesLeft(k, step.event));
    }
  }

  function Before(events: seq<Event>, run: Run): Run {
    run.(events := events + run.events)
  }

  lemma ProcessNext(width: Width, replay: bool, st: Shadow, thread: Long, s: Bytes, frames: int)
    requires IsShadow(st) && frames != 0 && Decode(width, replay, st, thread, s).Done?
    ensures var step := Decode(width, replay, st, thread, s);
            var e := step.event;
            Process(width, replay, st, thread, s, frames)
            == Before([e], Process(width, replay, step.next, e.thread, step.rest, FramesLeft(frames, e)))
  {
  }

  lemma BothBefore(e: Event, events: seq<Event>, run: Run)
    ensures Before([e], Before(events, run)) == Before([e] + events, run)
  {
    assert [e] + (events + run.events) == [e] + events + run.events;
  }

  lemma OneBefore(e: Event, run: Run)
    ensures Before([e], run) == run.(events := [e] + run.events)
  {
  }

  lemma SwapLeft(e: Event, j: nat, k: int)
    requires j > 0
    ensures FramesLeft(j, e) >= 0 && (k >= 0 ==> FramesLeft(j + k, e) == FramesLeft(j, e) + k)
    ensures k < 0 ==> FramesLeft(k, e) < 0
  {
  }

  // The ends of frames among the events.
  function Swaps(events: seq<Event>): (n: nat)
    ensures n <= |events|
  {
    if events == [] then 0 else (if events[0].call.SwapBuffers? then 1 else 0) + Swaps(events[1..])
  }

  lemma SwapsFirst(e: Event, events: seq<Event>)
    ensures Swaps([e] + events) == (if e.call.SwapBuffers? then 1 else 0) + Swaps(events)
  {
    assert ([e] + events)[1..] == events;
  }

  // Showing n frames ends right behind the n-th end of a frame, or before it at the end of what can
  // be decoded; without a number all is shown that can be decoded.
  lemma {:induction false} FramesShown(width: Width, replay: bool, st: Shadow, thread: Long, s: Bytes, n: int)
    requires IsShadow(st)
    ensures var run := Process(width, replay, st, thread, s, n);
            && (n < 0 ==> run.stop != FramesDone)
            && (n >= 0 && run.stop == FramesDone ==>
                  Swaps(run.events) == n && (n > 0 ==> run.events[|run.events| - 1].call.SwapBuffers?))
            && (n >= 0 && run.stop != FramesDone ==> Swaps(run.events) < n)
    decreases |s|
  {
    hide Decode;
    var step := Decode(width, replay, st, thread, s);
    if n != 0 && step.Done? {
      hide Process;
      var e := step.event;
      ProcessNext(width, replay, st, thread, s, n);
      FramesShown(width, replay, step.next, e.thread, step.rest, FramesLeft(n, e));
      var more := Process(width, replay, step.next, e.thread, step.rest, FramesLeft(n, e));
      SwapsFirst(e, more.events);
      if FramesLeft(n, e) == 0 {
        NoFrames(width, replay, step.next, e.thread, step.rest);
        assert [e] + [] == [e];
      }
    }
  }

  lemma NoFrames(width: Width, replay: bool, st: Shadow, thread: Long, s: Bytes)
    requires IsShadow(st)
    ensures Process(width, replay, st, thread, s, 0) == Run([], st, thread, s, FramesDone)
  {
  }

  // Showing a number of frames and then some more shows them all.
  lemma {:induction false} FramesAdd(width: Width, replay: bool, st: Shadow, thread: Long, s: Bytes, j: nat, k: int)
    requires IsShadow(st)
    ensures var a := Process(width, replay, st, thread, s, j);
            a.stop == FramesDone ==>
              Process(width, replay, st, thread, s, if k < 0 then k else j + k)
              == Before(a.events, Process(width, replay, a.state, a.thread, a.rest, k))
    decreases |s|
  {
    hide Decode;
    if j == 0 {
      var b := Process(width, replay, st, thread, s, k);
      assert [] + b.events == b.events;
    } else {
      var step := Decode(width, replay, st, thread, s);
      if step.Done? {
        hide Process, Before, FramesLeft;
        var e, both := step.event, if k < 0 then k else j + k;
        SwapLeft(e, j, k);
        ProcessNext(width, replay, st, thread, s, j);
        ProcessNext(width, replay, st, thread, s, both);
        FramesAdd(width, replay, step.next, e.thread, step.rest, FramesLeft(j, e), k);
        if k < 0 {
          NoLimit(width, replay, step.next, e.thread, step.rest, FramesLeft(k, e), k);
        }
        var a := Process(width, replay, step.next, e.thread, step.rest, FramesLeft(j, e));
        var b := Process(width, replay, a.state, a.thread, a.rest, k);
        BothBefore(e, a.events, b);
        OneBefore(e, a);
      }
    }
  }

  // ---------- Reading back what was recorded ----------

  function Canonical(width: Width, replay: bool, e: Event): Event
    requires Recorded(width, e)
  {
    Event(Handle(width, e.thread), Canon(width, replay, e.call), e.begin, e.end)
  }

  function AllCanonical(width: Width, replay: bool, events: seq<Event>): (canon: seq<Event>)
    requires forall i :: 0 <= i < |events| ==> Recorded(width, events[i])
    ensures |canon| == |events| && forall i :: 0 <= i < |events| ==> canon[i] == Canonical(width, replay, events[i])
  {
    seq(|events|, i requires 0 <= i < |events| => Canonical(width, replay, events[i]))
  }

  function AfterAll(st: Shadow, events: seq<Event>): (st': Shadow)
    requires IsShadow(st)
    ensures IsShadow(st')
    decreases |events|
  {
    if events == [] then st else AfterAll(After(st, events[0].call), events[1..])
  }

  // Every draw record is laid out by the state the records before it leave behind.
  predicate Framed(st: Shadow, events: seq<Event>)
    requires IsShadow(st)
    decreases |events|
  {
    events == [] || (Laid(st, events[0].call) && Framed(After(st, events[0].call), events[1..]))
  }

  lemma {:induction false} AfterAllSnoc(st: Shadow, events: seq<Event>, e: Event)
    requires IsShadow(st)
    ensures AfterAll(st, events + [e]) == After(AfterAll(st, events), e.call)
    ensures Framed(st, events + [e]) <==> Framed(st, events) && Laid(AfterAll(st, events), e.call)
    decreases |events|
  {
    hide After, Laid;
    var all := events + [e];
    if events == [] {
      assert all[1..] == [] && all[0] == e;
    } else {
      assert all[0] == events[0] && all[1..] == events[1..] + [e];
      AfterAllSnoc(After(st, events[0].call), events[1..], e);
    }
  }

  // Of the calls that name a binding point or a vertex attribute, the last decides.
  predicate Binds(call: Call, target: Word) {
    call.BindBuffer? && call.target == target
  }

  predicate Switches(call: Call, index: Word) {
    (call.EnableAttrib? || call.DisableAttrib?) && call.index == index
  }

  lemma {:induction false} NothingNamed(st: Shadow, events: seq<Event>)
    requires IsShadow(st)
    ensures (forall j :: 0 <= j < |events| ==> !Binds(events[j].call, 0x8892)) ==> AfterAll(st, events).arrays == st.arrays
    ensures (forall j :: 0 <= j < |events| ==> !Binds(events[j].call, 0x8893)) ==> AfterAll(st, events).elements == st.elements
    ensures forall index: Word :: index < 128 && (forall j :: 0 <= j < |events| ==> !Switches(events[j].call, index)) ==>
              AfterAll(st, events).enabled[index] == st.enabled[index]
    decreases |events|
  {
    if events != [] {
      assert forall j :: 0 <= j < |events[1..]| ==> events[1..][j] == events[j + 1];
      NothingNamed(After(st, events[0].call), events[1..]);
    }
  }

  // The statics after any calls: each binding is that of the last call for its target, and an
  // attribute is enabled if the last call that names it enables it.
  lemma {:induction false} LastDecides(st: Shadow, events: seq<Event>, i: nat)
    requires IsShadow(st) && i < |events|
    ensures var (now, call) := (AfterAll(st, events), events[i].call);
            match call
            case BindBuffer(target, buffer) =>
              (forall j :: i < j < |events| ==> !Binds(events[j].call, target)) ==>
                (target == 0x8892 ==> now.arrays == buffer) && (target == 0x8893 ==> now.elements == buffer)
            case EnableAttrib(index) =>
              index < 128 && (forall j :: i < j < |events| ==> !Switches(events[j].call, index)) ==> now.enabled[index]
            case DisableAttrib(index) =>
              index < 128 && (forall j :: i < j < |events| ==> !Switches(events[j].call, index)) ==> !now.enabled[index]
            case _ => true
    decreases i
  {
    assert forall j :: 0 <= j < |events[1..]| ==> events[1..][j] == events[j + 1];
    if i == 0 {
      NothingNamed(After(st, events[0].call), events[1..]);
    } else {
      LastDecides(After(st, events[0].call), events[1..], i - 1);
    }
  }

  predicate AllReadable(replay: bool, events: seq<Event>) {
    forall i :: 0 <= i < |events| ==> Readable(replay, events[i].call)
  }

  lemma CommandRead(width: Width, thread: Long, e: Event, rest: Bytes)
    requires Recorded(width, e)
    ensures var (first, s0) := GetCmd(Join(Command(width, thread, e)) + rest);
            var (issuer, s1) := if first == OPC_THREAD then GetPtr(width, s0) else (Handle(width, thread), s0);
            var (op, s2) := if first == OPC_THREAD then GetCmd(s1) else (first, s1);
            issuer == Handle(width, e.thread) && op == Opcode(e.call) && s2 == rest
  {
    hide Int, Ptr, GetPtr, Handle, Join, From;
    var fields := Command(width, thread, e);
    Fields(fields, |fields|, rest);
    WordAhead(OPC_THREAD, From(fields, 1, rest));
    WordAhead(Opcode(e.call), rest);
  }

  lemma TimesRead(begin: Long, end: Long, rest: Bytes)
    ensures GetLong(Join([LongLong(begin), LongLong(end)]) + rest) == (begin, LongLong(end) + rest)
    ensures GetLong(LongLong(end) + rest) == (end, rest)
  {
    hide LongLong, GetLong, Join, From;
    Fields([LongLong(begin), LongLong(end)], 2, rest);
  }

  // One record: the decoder attributes the call to its thread, and stands right behind it.
  lemma RecordRead(width: Width, replay: bool, st: Shadow, thread: Long, e: Event, rest: Bytes)
    requires Recorded(width, e) && IsShadow(st) && Laid(st, e.call) && Readable(replay, e.call)
    ensures Decode(width, replay, st, Handle(width, thread), Join(Record(width, thread, e)) + rest)
         == Done(Canonical(width, replay, e), After(st, e.call), rest)
  {
    hide Command, Args, Join, GetCmd, GetPtr, DecodeArgs, GetLong, LongLong, Handle, Canon, After;
    var command, args, times := Command(width, thread, e), Args(width, e.call), [LongLong(e.begin), LongLong(e.end)];
    JoinConcat(command + args, times);
    JoinConcat(command, args);
    var behind := Join(times) + rest;
    assert Join(Record(width, thread, e)) + rest == Join(command) + (Join(args) + behind);
    CommandRead(width, thread, e, Join(args) + behind);
    ReadBackIffReadable(width, replay, st, e.call, behind);
    TimesRead(e.begin, e.end, rest);
    CanonKeepsState(width, replay, st, e.call);
  }

  // The records of the given number of frames.
  function Shown(events: seq<Event>, frames: int): (n: nat)
    ensures n <= |events|
  {
    if frames == 0 || events == [] then 0 else 1 + Shown(events[1..], FramesLeft(frames, events[0]))
  }

  function FramesAfter(events: seq<Event>, frames: int): int {
    if frames == 0 || events == [] then frames else FramesAfter(events[1..], FramesLeft(frames, events[0]))
  }

  // What is to be shown of recorded events: the first of them in canonical form, up to the last
  // frame asked for or the end of the file.
  ghost function Showing(width: Width, replay: bool, st: Shadow, thread: Long, events: seq<Event>, frames: int): Run
    requires forall i :: 0 <= i < |events| ==> Recorded(width, events[i])
    requires IsShadow(st)
  {
    var n := Shown(events, frames);
    var last := LastThread(thread, events[..n]);
    Run(AllCanonical(width, replay, events[..n]), AfterAll(st, events[..n]),
        Handle(width, last), Stream(width, last, events[n..]),
        if FramesAfter(events, frames) == 0 then FramesDone else EndOfFile)
  }

  lemma ShowingNext(width: Width, replay: bool, st: Shadow, thread: Long, events: seq<Event>, frames: int)
    requires forall i :: 0 <= i < |events| ==> Recorded(width, events[i])
    requires IsShadow(st) && events != [] && frames != 0
    ensures var e := events[0];
            var more := Showing(width, replay, After(st, e.call), e.thread, events[1..], FramesLeft(frames, e));
            Showing(width, replay, st, thread, events, frames)
            == more.(events := [Canonical(width, replay, e)] + more.events)
  {
    hide Handle, After, Canonical, Stream, Recorded, FramesLeft, Framed, AllCanonical, LastThread;
    var e, more, n := events[0], events[1..], Shown(events, frames);
    assert events[..n] == [e] + more[..n - 1];
    assert events[n..] == more[n - 1..];
    CanonicalCons(width, replay, e, more[..n - 1]);
    LastThreadCons(thread, e, more[..n - 1]);
    assert events[..n][1..] == more[..n - 1];
  }

  lemma CanonicalCons(width: Width, replay: bool, e: Event, more: seq<Event>)
    requires Recorded(width, e) && forall i :: 0 <= i < |more| ==> Recorded(width, more[i])
    ensures AllCanonical(width, replay, [e] + more) == [Canonical(width, replay, e)] + AllCanonical(width, replay, more)
  {
    hide Canonical, Recorded;
  }

  lemma LastThreadCons(thread: Long, e: Event, more: seq<Event>)
    ensures LastThread(thread, [e] + more) == LastThread(e.thread, more)
  {
  }

  // The decoder reads back the records it shows, in order, and stops at the record behind them.
  lemma {:induction false} StreamRead(width: Width, replay: bool, st: Shadow, thread: Long, events: seq<Event>, frames: int)
    requires forall i :: 0 <= i < |events| ==> Recorded(width, events[i])
    requires IsShadow(st) && Framed(st, events) && AllReadable(replay, events)
    ensures Process(width, replay, st, Handle(width, thread), Stream(width, thread, events), frames)
         == Showing(width, replay, st, thread, events, frames)
    decreases |events|
  {
    hide Handle, Decode, After, Record, Canonical, Readable, Laid, Recorded, Join, FramesLeft, Showing;
    if frames == 0 || events == [] {
      NothingShown(width, replay, st, thread, events, frames);
    } else {
      var e, more := events[0], events[1..];
      RecordRead(width, replay, st, thread, e, Stream(width, e.thread, more));
      StreamRead(width, replay, After(st, e.call), e.thread, more, FramesLeft(frames, e));
      ShowingNext(width, replay, st, thread, events, frames);
      SameFrames(width, replay, frames, e);
    }
  }

  lemma NothingShown(width: Width, replay: bool, st: Shadow, thread: Long, events: seq<Event>, frames: int)
    requires forall i :: 0 <= i < |events| ==> Recorded(width, events[i])
    requires IsShadow(st) && (frames == 0 || events == [])
    ensures Process(width, replay, st, Handle(width, thread), Stream(width, thread, events), frames)
         == Showing(width, replay, st, thread, events, frames)
  {
    hide Decode, Recorded;
    assert events[..0] == [] && events[0..] == events;
    NothingLeft(width, replay, st, Handle(width, thread));
  }

  lemma NothingLeft(width: Width, replay: bool, st: Shadow, thread: Long)
    requires IsShadow(st)
    ensures Decode(width, replay, st, thread, []) == Stopped(EndOfFile, thread, [])
  {
  }

  lemma SameFrames(width: Width, replay: bool, frames: int, e: Event)
    requires Recorded(width, e)
    ensures FramesLeft(frames, Canonical(width, replay, e)) == FramesLeft(frames, e)
    ensures Canonical(width, replay, e).thread == Handle(width, e.thread)
  {
  }

  lemma {:induction false} AllShown(events: seq<Event>, frames: int)
    requires frames < 0
    ensures Shown(events, frames) == |events| && FramesAfter(events, frames) != 0
    decreases |events|
  {
    if events != [] {
      AllShown(events[1..], FramesLeft(frames, events[0]));
    }
  }

  // What iolib_init makes of the beginning of a file: the size of its pointers, if it is a trace.
  function Open(s: Bytes): (r: Option<(Word, Bytes)>) {
    var (version, s) := GetInt(s);
    if version != OPC_VERSION then None
    else
      var (_, s) := GetInt(s);
      var (_, s) := GetInt(s);
      var (_, s) := GetInt(s);
      var (size, s) := GetInt(s);
      Some((size, s))
  }

  lemma HeaderRead(width: Width, rest: Bytes)
    ensures Open(Header(width) + rest) == Some((width.Size(), rest))
  {
    hide Int, GetInt;
    var size := Int(width.Size());
    assert Header(width) + rest == Int(OPC_VERSION) + (Int(1) + (Int(0) + (Int(0) + (size + rest))));
  }

  // Round trip: a recorded file opens with the recorder's pointer size, decodes to the calls that
  // were recorded, each on its thread with its times, and is read to its very end.
  lemma FileRead(width: Width, replay: bool, events: seq<Event>)
    requires forall i :: 0 <= i < |events| ==> Recorded(width, events[i])
    requires Framed(INITIAL, events) && AllReadable(replay, events)
    ensures Open(File(width, events)) == Some((width.Size(), Stream(width, 0, events)))
    ensures Process(width, replay, INITIAL, 0, Stream(width, 0, events), -1)
         == Run(AllCanonical(width, replay, events), AfterAll(INITIAL, events),
                Handle(width, LastThread(0, events)), [], EndOfFile)
  {
    hide Open, Header, Process, Framed, AllReadable, Recorded, Handle, AllCanonical, AfterAll, Int;
    HeaderRead(width, Stream(width, 0, events));
    StreamRead(width, replay, INITIAL, 0, events, -1);
    AllShown(events, -1);
    assert events[..|events|] == events && events[|events|..] == [];
  }
}
