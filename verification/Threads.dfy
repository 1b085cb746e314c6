/**
 The recorder under threads: every interleaving of the steps of intercepted calls, which may be
 made inside each other by the driver. A step is a lock, a put, an unlock, an assignment, or the
 reading of one of the bindings that a draw call is laid out by.
 */
module Threads {
  import opened Options
  import opened Wire
  import opened Records
  import opened RoundTrip
  import opened Traces

  // A call in progress, the number of its fields that have been put, and, of a draw call, how many
  // of the two bindings have been read.
  datatype Frame = Frame(e: Event, put: nat, looks: nat)

  datatype State = State(
    // The recursive lock.
    owner: Option<Long>, depth: nat,
    // The statics of the recorder, and what has been written.
    reentrance: nat, curThread: Long, shadow: Shadow, log: Bytes,
    // The calls that each thread is in, the innermost last, and the binding it has still to note.
    stacks: map<Long, seq<Frame>>, pending: map<Long, Call>,
    // The calls that were not made inside another one, in the order of their beginnings.
    entered: seq<Event>)

  datatype Step =
    | Enter(thread: Long, e: Event)
    | Put(thread: Long)
    | Look(thread: Long, e: Event)
    | Exit(thread: Long)
    | Note(thread: Long)

  function Stack(s: State, t: Long): seq<Frame> {
    if t in s.stacks then s.stacks[t] else []
  }

  function Top(s: State, t: Long): Frame
    requires Stack(s, t) != []
  {
    Stack(s, t)[|Stack(s, t)| - 1]
  }

  function Initial(width: Width): State {
    State(None, 0, 0, 0, INITIAL, Header(width), map[], map[], [])
  }

  // The fields between the command and the times.
  ghost function ArgsOf(width: Width, e: Event): seq<Bytes> {
    if Recorded(width, e) then Args(width, e.call) else []
  }

  // A draw call reads the binding of the element buffer behind its first three fields, and that of
  // the array buffer behind the field of its indices.
  predicate Unread(f: Frame) {
    f.e.call.DrawElements? && ((f.put == 3 && f.looks == 0) || (f.put == 4 && f.looks == 1))
  }

  // What the record of a draw call becomes by what has been read: first the form of its indices,
  // then the number of its arrays.
  predicate Reads(f: Frame, e: Event, st: Shadow)
    requires IsShadow(st)
  {
    && f.e.call.DrawElements? && e.call.DrawElements?
    && e.thread == f.e.thread && e.begin == f.e.begin && e.end == f.e.end
    && e.call.mode == f.e.call.mode && e.call.count == f.e.call.count && e.call.kind == f.e.call.kind
    && if f.looks == 0 then e.call.attribs == f.e.call.attribs && (e.call.indices.Offset? <==> st.elements != 0)
       else e.call.indices == f.e.call.indices && |e.call.attribs| == Arrays(st)
  }

  // What a thread can do next: it finishes one step before the next. Only beginning a call may
  // block, on the lock. The layout that a draw call begins with stands for nothing: it is that of
  // the two looks when they have been made.
  ghost predicate Enabled(width: Width, s: State, step: Step) {
    match step
    case Enter(t, e) =>
      && t !in s.pending && (s.owner == None || s.owner == Some(t))
      && e.thread == t && Recorded(width, e)
    case Put(t) =>
      && t !in s.pending && Stack(s, t) != [] && !Unread(Top(s, t))
      && Top(s, t).put < |ArgsOf(width, Top(s, t).e)|
    case Look(t, e) =>
      && t !in s.pending && Stack(s, t) != [] && Unread(Top(s, t))
      && IsShadow(s.shadow) && Reads(Top(s, t), e, s.shadow) && Recorded(width, e)
    case Exit(t) =>
      && t !in s.pending && Stack(s, t) != [] && !Unread(Top(s, t))
      && Top(s, t).put == |ArgsOf(width, Top(s, t).e)|
      && s.reentrance > 0 && s.depth > 0 && IsShadow(s.shadow)
    case Note(t) => t in s.pending && IsShadow(s.shadow)
  }

  ghost function Apply(width: Width, s: State, step: Step): State
    requires Enabled(width, s, step)
  {
    match step
    case Enter(t, e) => Entering(width, s, t, e)
    case Put(t) => Putting(width, s, t)
    case Look(t, e) => Looking(s, t, e)
    case Exit(t) => Exiting(s, t)
    case Note(t) => s.(shadow := After(s.shadow, s.pending[t]), pending := s.pending - {t})
  }

  function Entering(width: Width, s: State, t: Long, e: Event): State
    requires Recorded(width, e)
  {
    s.(owner := Some(t), depth := s.depth + 1, reentrance := s.reentrance + 1,
       curThread := if s.reentrance == 0 then t else s.curThread,
       log := if s.reentrance == 0 then s.log + Join(Command(width, s.curThread, e)) else s.log,
       stacks := s.stacks[t := Stack(s, t) + [Frame(e, 0, 0)]],
       entered := if s.reentrance == 0 then s.entered + [e] else s.entered)
  }

  ghost function Putting(width: Width, s: State, t: Long): State
    requires Stack(s, t) != [] && Top(s, t).put < |ArgsOf(width, Top(s, t).e)|
  {
    var f := Top(s, t);
    s.(log := if s.reentrance > 1 then s.log else s.log + ArgsOf(width, f.e)[f.put],
       stacks := s.stacks[t := Stack(s, t)[|Stack(s, t)| - 1 := Frame(f.e, f.put + 1, f.looks)]])
  }

  function Looking(s: State, t: Long, e: Event): State
    requires Stack(s, t) != []
  {
    var f := Top(s, t);
    s.(stacks := s.stacks[t := Stack(s, t)[|Stack(s, t)| - 1 := Frame(e, f.put, f.looks + 1)]],
       entered := if s.reentrance == 1 && s.entered != [] then s.entered[|s.entered| - 1 := e] else s.entered)
  }

  // The flags of the attributes are set before the unlock, the bindings after it.
  function Exiting(s: State, t: Long): State
    requires Stack(s, t) != [] && s.depth > 0 && s.reentrance > 0 && IsShadow(s.shadow)
  {
    var e := Top(s, t).e;
    s.(owner := if s.depth == 1 then None else s.owner, depth := s.depth - 1, reentrance := s.reentrance - 1,
       log := if s.reentrance > 1 then s.log else s.log + Join([LongLong(e.begin), LongLong(e.end)]),
       stacks := s.stacks[t := Stack(s, t)[..|Stack(s, t)| - 1]],
       shadow := if e.call.BindBuffer? then s.shadow else After(s.shadow, e.call),
       pending := if e.call.BindBuffer? then s.pending[t := e.call] else s.pending)
  }

  // ---------- What every step keeps ----------

  // The lock is held exactly by the thread that is in a call, as often as it is in one.
  ghost predicate Locked(s: State) {
    && s.depth == s.reentrance
    && (s.owner == None <==> s.depth == 0)
    && (forall t: Long :: Stack(s, t) != [] ==> s.owner == Some(t))
    && (s.owner.Some? ==> |Stack(s, s.owner.value)| == s.depth)
  }

  // The calls whose records are complete.
  function History(s: State): seq<Event> {
    if s.depth == 0 || s.entered == [] then s.entered else s.entered[..|s.entered| - 1]
  }

  ghost predicate InProgress(width: Width, s: State) {
    forall t: Long, i :: 0 <= i < |Stack(s, t)| ==>
      && Recorded(width, Stack(s, t)[i].e) && Stack(s, t)[i].put <= |ArgsOf(width, Stack(s, t)[i].e)|
      && Looked(Stack(s, t)[i])
  }

  // The bindings are read in their places.
  predicate Looked(f: Frame) {
    if f.e.call.DrawElements? then
      (f.looks == 0 && f.put <= 3) || (f.looks == 1 && 3 <= f.put <= 4) || (f.looks == 2 && f.put >= 4)
    else f.looks == 0
  }

  // The outermost call of the thread that holds the lock.
  function Outermost(s: State): Frame
    requires s.owner.Some? && Stack(s, s.owner.value) != []
  {
    Stack(s, s.owner.value)[0]
  }

  // The log is the header, the complete records of the outermost calls in the order of their
  // beginnings, and what there is of the one in progress.
  ghost predicate Written(width: Width, s: State)
    requires Locked(s)
  {
    && (forall i :: 0 <= i < |s.entered| ==> Recorded(width, s.entered[i]))
    && s.curThread == LastThread(0, s.entered)
    && InProgress(width, s)
    && (if s.depth == 0 then s.log == File(width, s.entered)
        else
          && s.entered != [] && Outermost(s).e == s.entered[|s.entered| - 1]
          && s.log == File(width, History(s)) + Partial(width, LastThread(0, History(s)), Outermost(s)))
  }

  ghost function Partial(width: Width, thread: Long, f: Frame): Bytes
    requires Recorded(width, f.e) && f.put <= |Args(width, f.e.call)|
  {
    Join(Command(width, thread, f.e) + Args(width, f.e.call)[..f.put])
  }

  ghost predicate Sound(width: Width, s: State) {
    Locked(s) && Written(width, s)
  }

  lemma InitialIsSound(width: Width)
    ensures Sound(width, Initial(width))
  {
    assert Header(width) + Stream(width, 0, []) == Header(width);
  }

  lemma PartialBegins(width: Width, thread: Long, e: Event)
    requires Recorded(width, e)
    ensures Partial(width, thread, Frame(e, 0, 0)) == Join(Command(width, thread, e))
  {
    assert Command(width, thread, e) + Args(width, e.call)[..0] == Command(width, thread, e);
  }

  lemma PartialGrows(width: Width, thread: Long, f: Frame)
    requires Recorded(width, f.e) && f.put < |Args(width, f.e.call)|
    ensures Partial(width, thread, Frame(f.e, f.put + 1, f.looks)) == Partial(width, thread, f) + Args(width, f.e.call)[f.put]
  {
    hide Command, Args, Join;
    var command, args := Command(width, thread, f.e), Args(width, f.e.call);
    assert command + args[..f.put + 1] == (command + args[..f.put]) + [args[f.put]];
    JoinConcat(command + args[..f.put], [args[f.put]]);
    JoinOne(args[f.put]);
  }

  lemma PartialEnds(width: Width, events: seq<Event>, f: Frame)
    requires forall i :: 0 <= i < |events| ==> Recorded(width, events[i])
    requires Recorded(width, f.e) && f.put == |Args(width, f.e.call)|
    ensures File(width, events) + Partial(width, LastThread(0, events), f) + Join([LongLong(f.e.begin), LongLong(f.e.end)])
         == File(width, events + [f.e])
  {
    hide Command, Args, Join, Header, Stream, LongLong;
    var thread := LastThread(0, events);
    var command, args, times := Command(width, thread, f.e), Args(width, f.e.call), [LongLong(f.e.begin), LongLong(f.e.end)];
    assert args[..f.put] == args;
    JoinConcat(command + args, times);
    StreamSnoc(width, 0, events, f.e);
  }

  lemma EnterKeeps(width: Width, s: State, t: Long, e: Event)
    requires Sound(width, s) && Enabled(width, s, Enter(t, e))
    ensures Sound(width, Apply(width, s, Enter(t, e)))
  {
    hide File, Join, Command, Partial, Args, Recorded;
    var s' := Apply(width, s, Enter(t, e));
    assert forall u: Long :: Stack(s', u) == if u == t then Stack(s, t) + [Frame(e, 0, 0)] else Stack(s, u);
    if s.depth == 0 {
      PartialBegins(width, s.curThread, e);
      assert History(s') == s.entered;
    }
  }

  lemma PutKeeps(width: Width, s: State, t: Long)
    requires Sound(width, s) && Enabled(width, s, Put(t))
    ensures Sound(width, Apply(width, s, Put(t)))
  {
    hide File, Join, Command, Partial, Args, Recorded;
    var s', f, n := Apply(width, s, Put(t)), Top(s, t), |Stack(s, t)|;
    assert forall u: Long :: Stack(s', u) == if u == t then Stack(s, t)[n - 1 := Frame(f.e, f.put + 1, f.looks)] else Stack(s, u);
    if s.depth == 1 {
      PartialGrows(width, LastThread(0, History(s)), f);
      Grouped(File(width, History(s)), Partial(width, LastThread(0, History(s)), f), ArgsOf(width, f.e)[f.put]);
    }
  }

  lemma Grouped(a: Bytes, b: Bytes, c: Bytes)
    ensures a + b + c == a + (b + c)
  {
  }

  // What has been put so far does not depend on what is read now.
  lemma PutBefore(width: Width, s: State, t: Long, e: Event)
    requires Stack(s, t) != [] && Looked(Top(s, t)) && Recorded(width, Top(s, t).e) && Enabled(width, s, Look(t, e))
    ensures var f := Top(s, t);
            && Opcode(e.call) == Opcode(f.e.call)
            && f.put <= |Args(width, e.call)| && f.put <= |Args(width, f.e.call)|
            && Args(width, e.call)[..f.put] == Args(width, f.e.call)[..f.put]
  {
    hide Int, IndexField, Blobs;
  }

  lemma PartialRead(width: Width, thread: Long, s: State, t: Long, e: Event)
    requires Stack(s, t) != [] && Looked(Top(s, t)) && Recorded(width, Top(s, t).e) && Enabled(width, s, Look(t, e))
    ensures var f := Top(s, t);
            && f.put <= |Args(width, e.call)| && f.put <= |Args(width, f.e.call)|
            && Partial(width, thread, Frame(e, f.put, f.looks + 1)) == Partial(width, thread, f)
  {
    hide Args, Join, Int;
    PutBefore(width, s, t, e);
  }

  lemma LastChanged(width: Width, events: seq<Event>, e: Event)
    requires events != []
    ensures var events' := events[|events| - 1 := e];
            events'[..|events| - 1] == events[..|events| - 1]
  {
  }

  lemma LookKeeps(width: Width, s: State, t: Long, e: Event)
    requires Sound(width, s) && Enabled(width, s, Look(t, e))
    ensures Sound(width, Apply(width, s, Look(t, e)))
  {
    hide File, Join, Command, Partial, Args, Recorded;
    var s', f, n := Apply(width, s, Look(t, e)), Top(s, t), |Stack(s, t)|;
    assert forall u: Long :: Stack(s', u) == if u == t then Stack(s, t)[n - 1 := Frame(e, f.put, f.looks + 1)] else Stack(s, u);
    PutBefore(width, s, t, e);
    if s.depth == 1 {
      LastChanged(width, s.entered, e);
      SameLastThread(s.entered, e);
      PartialRead(width, LastThread(0, History(s)), s, t, e);
    }
  }

  lemma SameLastThread(events: seq<Event>, e: Event)
    requires events != [] && e.thread == events[|events| - 1].thread
    ensures LastThread(0, events[|events| - 1 := e]) == LastThread(0, events)
  {
  }

  lemma ExitKeeps(width: Width, s: State, t: Long)
    requires Sound(width, s) && Enabled(width, s, Exit(t))
    ensures Sound(width, Apply(width, s, Exit(t)))
  {
    hide File, Join, Command, Partial, Args, Recorded, After, LongLong;
    var s', f, n := Apply(width, s, Exit(t)), Top(s, t), |Stack(s, t)|;
    assert forall u: Long :: Stack(s', u) == if u == t then Stack(s, t)[..n - 1] else Stack(s, u);
    if s.depth == 1 {
      PartialEnds(width, History(s), f);
      assert History(s) + [f.e] == s.entered;
    }
  }

  lemma NoteKeeps(width: Width, s: State, t: Long)
    requires Sound(width, s) && Enabled(width, s, Note(t))
    ensures Sound(width, Apply(width, s, Note(t)))
  {
    hide File, Join, Partial, Recorded, After;
    var s' := Apply(width, s, Note(t));
    assert forall u: Long :: Stack(s', u) == Stack(s, u);
  }

  // Every step keeps the lock and the log sound.
  lemma StepKeeps(width: Width, s: State, step: Step)
    requires Sound(width, s) && Enabled(width, s, step)
    ensures Sound(width, Apply(width, s, step))
  {
    hide Sound, Enabled, Apply;
    match step
    case Enter(t, e) => EnterKeeps(width, s, t, e);
    case Put(t) => PutKeeps(width, s, t);
    case Look(t, e) => LookKeeps(width, s, t, e);
    case Exit(t) => ExitKeeps(width, s, t);
    case Note(t) => NoteKeeps(width, s, t);
  }

  // ---------- Runs ----------

  ghost predicate Runs(width: Width, s: State, steps: seq<Step>)
    decreases |steps|
  {
    steps == [] || (Enabled(width, s, steps[0]) && Runs(width, Apply(width, s, steps[0]), steps[1..]))
  }

  ghost function Final(width: Width, s: State, steps: seq<Step>): State
    requires Runs(width, s, steps)
    decreases |steps|
  {
    if steps == [] then s else Final(width, Apply(width, s, steps[0]), steps[1..])
  }

  lemma {:induction false} RunKeeps(width: Width, s: State, steps: seq<Step>)
    requires Sound(width, s) && Runs(width, s, steps)
    ensures Sound(width, Final(width, s, steps))
    decreases |steps|
  {
    hide Sound, Enabled, Apply;
    if steps != [] {
      StepKeeps(width, s, steps[0]);
      RunKeeps(width, Apply(width, s, steps[0]), steps[1..]);
    }
  }

  // Steps of calls that are made inside another call, from their beginning to their end.
  ghost predicate Nested(width: Width, s: State, steps: seq<Step>)
    decreases |steps|
  {
    steps == []
    || (&& Enabled(width, s, steps[0])
        && (steps[0].Note? || s.depth > 1 || (s.depth == 1 && steps[0].Enter?))
        && Nested(width, Apply(width, s, steps[0]), steps[1..]))
  }

  // They add no bytes, and leave the call around them as it was.
  lemma {:induction false} NestedAddsNothing(width: Width, s: State, steps: seq<Step>)
    requires Sound(width, s) && s.depth > 0 && Nested(width, s, steps)
    ensures Runs(width, s, steps)
    ensures var s' := Final(width, s, steps);
            s'.log == s.log && s'.entered == s.entered && s'.owner == s.owner && s'.depth > 0
            && Sound(width, s') && Outermost(s') == Outermost(s)
    decreases |steps|
  {
    hide Written, Recorded, Args, After, Join, Command;
    if steps != [] {
      StepKeeps(width, s, steps[0]);
      NestedAddsNothing(width, Apply(width, s, steps[0]), steps[1..]);
    }
  }

  // Whenever no thread is in a call, the file is that of the outermost calls in the order in which
  // they took the lock, and the decoder attributes each of them to its thread.
  lemma IdleFileShowsAll(width: Width, replay: bool, steps: seq<Step>)
    requires Runs(width, Initial(width), steps)
    ensures var s := Final(width, Initial(width), steps);
            && (forall i :: 0 <= i < |s.entered| ==> Recorded(width, s.entered[i]))
            && (s.depth == 0 ==>
                  && s.log == File(width, s.entered) && s.reentrance == 0 && s.owner == None
                  && (Framed(INITIAL, s.entered) && AllReadable(replay, s.entered) ==>
                        Process(width, replay, INITIAL, 0, Open(s.log).value.1, -1)
                        == Run(AllCanonical(width, replay, s.entered), AfterAll(INITIAL, s.entered),
                               Handle(width, LastThread(0, s.entered)), [], EndOfFile)))
  {
    hide Runs, Final, File, Recorded, Framed, AllReadable, Process;
    InitialIsSound(width);
    RunKeeps(width, Initial(width), steps);
    var s := Final(width, Initial(width), steps);
    if s.depth == 0 && Framed(INITIAL, s.entered) && AllReadable(replay, s.entered) {
      FileRead(width, replay, s.entered);
    }
  }

  // ---------- The layout of draw records ----------

  // Whether an element buffer is bound, or how many arrays are recorded, as the given look has it.
  predicate SameLook(looks: nat, a: Shadow, b: Shadow) {
    IsShadow(a) && IsShadow(b) && if looks == 0 then a.elements != 0 <==> b.elements != 0 else Arrays(a) == Arrays(b)
  }

  // A draw call as far as it has been laid out agrees with the statics.
  predicate LaidSoFar(st: Shadow, call: Call, looks: nat)
    requires IsShadow(st)
  {
    call.DrawElements? ==>
      && (looks >= 1 ==> (call.indices.Offset? <==> st.elements != 0))
      && (looks >= 2 ==> |call.attribs| == Arrays(st))
  }

  // The complete records, and what there is of the one in progress, are laid out as the calls
  // before them have it.
  ghost predicate FramedSoFar(s: State)
    requires Locked(s)
  {
    && Framed(INITIAL, History(s))
    && (s.depth > 0 ==> LaidSoFar(AfterAll(INITIAL, History(s)), Outermost(s).e.call, Outermost(s).looks))
  }

  // An outermost draw call reads of the statics what the calls before it have made of them.
  ghost predicate LookAgrees(s: State, step: Step) {
    step.Look? && s.depth == 1 && Stack(s, step.thread) != [] ==>
      SameLook(Top(s, step.thread).looks, s.shadow, AfterAll(INITIAL, History(s)))
  }

  ghost predicate LooksAgree(width: Width, s: State, steps: seq<Step>)
    requires Runs(width, s, steps)
    decreases |steps|
  {
    steps == [] || (LookAgrees(s, steps[0]) && LooksAgree(width, Apply(width, s, steps[0]), steps[1..]))
  }

  // What the outermost call reads decides whether its record goes on to be laid out right.
  lemma LaidByLook(f: Frame, e: Event, st: Shadow, expected: Shadow)
    requires IsShadow(st) && IsShadow(expected) && Looked(f) && Unread(f) && Reads(f, e, st)
    ensures SameLook(f.looks, st, st)
    ensures LaidSoFar(expected, e.call, f.looks + 1) <==>
            LaidSoFar(expected, f.e.call, f.looks) && SameLook(f.looks, st, expected)
  {
    hide Arrays;
  }

  // Another frame on top is the outermost one only if there was one.
  lemma TopReplaced(width: Width, s: State, t: Long, f: Frame, s': State)
    requires Sound(width, s) && Stack(s, t) != []
    requires s'.owner == s.owner && s'.stacks == s.stacks[t := Stack(s, t)[|Stack(s, t)| - 1 := f]]
    ensures s.owner == Some(t) && |Stack(s, t)| == s.depth == s.reentrance > 0
    ensures Stack(s', t) != [] && Outermost(s') == if s.depth == 1 then f else Outermost(s)
    ensures s.depth == 1 ==> Outermost(s) == Top(s, t)
  {
  }

  lemma SameFramed(s: State, s': State)
    requires Locked(s) && Locked(s') && s'.depth == s.depth && History(s') == History(s)
    requires s.depth > 0 ==> Outermost(s').e == Outermost(s).e && Outermost(s').looks == Outermost(s).looks
    ensures FramedSoFar(s') <==> FramedSoFar(s)
  {
    hide Framed, AfterAll, LaidSoFar, Locked;
  }

  lemma LookFramed(width: Width, s: State, t: Long, e: Event)
    requires Sound(width, s) && Enabled(width, s, Look(t, e))
    ensures Locked(Apply(width, s, Look(t, e)))
    ensures FramedSoFar(Apply(width, s, Look(t, e))) <==> FramedSoFar(s) && LookAgrees(s, Look(t, e))
  {
    hide Recorded, Written, Join, Command, AfterAll, Framed, LaidSoFar, SameLook, Locked, Looked, ArgsOf, Reads, Unread;
    LookKeeps(width, s, t, e);
    TopLooked(width, s, t);
    var s', f := Apply(width, s, Look(t, e)), Top(s, t);
    TopReplaced(width, s, t, Frame(e, f.put, f.looks + 1), s');
    LastIsOutermost(width, s);
    LastChanged(width, s.entered, e);
    LaidByLook(f, e, s.shadow, AfterAll(INITIAL, History(s)));
    assert History(s') == History(s);
    if s.depth > 1 {
      SameFramed(s, s');
    }
  }

  lemma TopLooked(width: Width, s: State, t: Long)
    requires Sound(width, s) && Stack(s, t) != []
    ensures Recorded(width, Top(s, t).e) && Looked(Top(s, t)) && Top(s, t).put <= |ArgsOf(width, Top(s, t).e)|
  {
  }

  lemma LastIsOutermost(width: Width, s: State)
    requires Sound(width, s) && s.depth > 0
    ensures s.owner.Some? && Stack(s, s.owner.value) != [] && s.entered == History(s) + [Outermost(s).e]
  {
  }

  // The record of a draw call is complete only after both looks.
  lemma LaidAtExit(width: Width, s: State, t: Long, st: Shadow)
    requires Sound(width, s) && Enabled(width, s, Exit(t)) && IsShadow(st)
    ensures LaidSoFar(st, Top(s, t).e.call, Top(s, t).looks) <==> Laid(st, Top(s, t).e.call)
  {
    TopLooked(width, s, t);
    DrawFields(width, Top(s, t).e);
    hide Written, Join, Command, LongLong, Arrays, ArgsOf;
  }

  lemma DrawFields(width: Width, e: Event)
    requires Recorded(width, e)
    ensures e.call.DrawElements? ==> |ArgsOf(width, e)| == 4 + |e.call.attribs|
  {
    hide Int, IndexField;
  }

  lemma ExitFramed(width: Width, s: State, t: Long)
    requires Sound(width, s) && Enabled(width, s, Exit(t))
    ensures Locked(Apply(width, s, Exit(t)))
    ensures FramedSoFar(Apply(width, s, Exit(t))) <==> FramedSoFar(s)
  {
    ExitKeeps(width, s, t);
    LastIsOutermost(width, s);
    hide Recorded, Written, Join, Command, AfterAll, Framed, LongLong, Arrays, ArgsOf, Laid, LaidSoFar, After;
    var s', n := Apply(width, s, Exit(t)), |Stack(s, t)|;
    assert Stack(s', t) == Stack(s, t)[..n - 1];
    if s.depth == 1 {
      LaidAtExit(width, s, t, AfterAll(INITIAL, History(s)));
      AfterAllSnoc(INITIAL, History(s), Top(s, t).e);
    }
  }

  lemma PutFramed(width: Width, s: State, t: Long)
    requires Sound(width, s) && Enabled(width, s, Put(t))
    ensures Locked(Apply(width, s, Put(t)))
    ensures FramedSoFar(Apply(width, s, Put(t))) <==> FramedSoFar(s)
  {
    hide Recorded, Written, Join, Command, ArgsOf, Unread, FramedSoFar, Locked, Args, LongLong;
    PutKeeps(width, s, t);
    var s', f := Apply(width, s, Put(t)), Top(s, t);
    TopReplaced(width, s, t, Frame(f.e, f.put + 1, f.looks), s');
    LastIsOutermost(width, s);
    SameFramed(s, s');
  }

  lemma EnterFramed(width: Width, s: State, t: Long, e: Event)
    requires Sound(width, s) && Enabled(width, s, Enter(t, e))
    ensures Locked(Apply(width, s, Enter(t, e)))
    ensures FramedSoFar(Apply(width, s, Enter(t, e))) <==> FramedSoFar(s)
  {
    EnterKeeps(width, s, t, e);
    hide Recorded, Written, Join, Command, AfterAll, Framed, LongLong, Arrays;
    var s' := Apply(width, s, Enter(t, e));
    assert Stack(s', t) == Stack(s, t) + [Frame(e, 0, 0)];
  }

  lemma StepFramed(width: Width, s: State, step: Step)
    requires Sound(width, s) && Enabled(width, s, step)
    ensures Locked(Apply(width, s, step))
    ensures FramedSoFar(Apply(width, s, step)) <==> FramedSoFar(s) && LookAgrees(s, step)
  {
    StepKeeps(width, s, step);
    match step {
      case Enter(t, e) => EnterFramed(width, s, t, e);
      case Put(t) => PutFramed(width, s, t);
      case Look(t, e) => LookFramed(width, s, t, e);
      case Exit(t) => ExitFramed(width, s, t);
      case Note(t) => NoteFramed(width, s, t);
    }
  }

  lemma NoteFramed(width: Width, s: State, t: Long)
    requires Sound(width, s) && Enabled(width, s, Note(t))
    ensures Locked(Apply(width, s, Note(t)))
    ensures FramedSoFar(Apply(width, s, Note(t))) <==> FramedSoFar(s)
  {
    hide Recorded, Written, After, FramedSoFar, Locked;
    NoteKeeps(width, s, t);
    LastIsOutermostIf(width, s);
    SameFramed(s, Apply(width, s, Note(t)));
  }

  lemma LastIsOutermostIf(width: Width, s: State)
    requires Sound(width, s)
    ensures s.depth > 0 ==> s.owner.Some? && Stack(s, s.owner.value) != []
  {
  }

  lemma {:induction false} RunFramed(width: Width, s: State, steps: seq<Step>)
    requires Sound(width, s) && Runs(width, s, steps)
    ensures Locked(Final(width, s, steps))
    ensures FramedSoFar(Final(width, s, steps)) <==> FramedSoFar(s) && LooksAgree(width, s, steps)
    decreases |steps|
  {
    hide Written, Enabled, Apply, LookAgrees, Locked, FramedSoFar;
    if steps != [] {
      StepKeeps(width, s, steps[0]);
      StepFramed(width, s, steps[0]);
      RunFramed(width, Apply(width, s, steps[0]), steps[1..]);
    }
  }

  // The records of a run are framed as the decoder expects them if and only if at each of the two
  // looks of every outermost draw call the statics and the calls recorded so far say the same.
  lemma FramedIff(width: Width, steps: seq<Step>)
    requires Runs(width, Initial(width), steps)
    ensures var s := Final(width, Initial(width), steps);
            && Locked(s)
            && (FramedSoFar(s) <==> LooksAgree(width, Initial(width), steps))
            && (s.depth == 0 ==> (Framed(INITIAL, s.entered) <==> LooksAgree(width, Initial(width), steps)))
  {
    hide Runs, Final, Written, LooksAgree;
    InitialIsSound(width);
    RunFramed(width, Initial(width), steps);
  }

  // ---------- Bindings that are still to be noted ----------

  // A binding call begins only when no binding is still to be noted, and the driver itself makes
  // no calls that change the statics.
  ghost predicate OneNote(s: State, step: Step) {
    step.Enter? ==>
      && (step.e.call.BindBuffer? ==> s.pending == map[])
      && (s.depth > 0 ==> !Changes(step.e.call))
  }

  predicate Changes(call: Call) {
    call.BindBuffer? || call.EnableAttrib? || call.DisableAttrib?
  }

  ghost predicate RunsOneNote(width: Width, s: State, steps: seq<Step>)
    decreases |steps|
  {
    steps == []
    || (Enabled(width, s, steps[0]) && OneNote(s, steps[0])
        && RunsOneNote(width, Apply(width, s, steps[0]), steps[1..]))
  }

  // The statics are what the complete records make of them, but for the binding that is still to
  // be noted, if there is one.
  ghost predicate Noted(s: State, st: Shadow) {
    && IsShadow(s.shadow)
    && (s.pending == map[] ==> s.shadow == st)
    && (forall t: Long :: t in s.pending ==>
          s.pending == map[t := s.pending[t]] && s.pending[t].BindBuffer? && After(s.shadow, s.pending[t]) == st)
  }

  // Only outermost calls change the statics, and while one of them binds no note is pending.
  ghost predicate Calm(s: State) {
    forall t: Long, i :: 0 <= i < |Stack(s, t)| ==>
      (Stack(s, t)[i].e.call.BindBuffer? ==> s.pending == map[]) && (i > 0 ==> !Changes(Stack(s, t)[i].e.call))
  }

  lemma StepCalm(width: Width, s: State, step: Step)
    requires Locked(s) && Calm(s) && Enabled(width, s, step) && OneNote(s, step)
    ensures Calm(Apply(width, s, step))
  {
    hide Recorded, Join, Command, After, ArgsOf, LongLong, Laid;
    var s' := Apply(width, s, step);
    if step.Exit? && Top(s, step.thread).e.call.BindBuffer? {
      assert |Stack(s, step.thread)| == 1;
    }
    forall u: Long, i | 0 <= i < |Stack(s', u)|
      ensures (Stack(s', u)[i].e.call.BindBuffer? ==> s'.pending == map[])
              && (i > 0 ==> !Changes(Stack(s', u)[i].e.call))
    {
      assert i < |Stack(s, u)| && !(step.Look? && u == step.thread && i == |Stack(s, u)| - 1) ==>
             Stack(s', u)[i].e == Stack(s, u)[i].e;
      assert Stack(s, u) != [] && step.Exit? ==> u == step.thread;
    }
  }

  lemma Commute(st: Shadow, a: Call, b: Call)
    requires IsShadow(st) && a.BindBuffer? && !b.BindBuffer?
    ensures After(After(st, a), b) == After(After(st, b), a)
  {
  }

  ghost predicate Kept(width: Width, s: State) {
    Sound(width, s) && Calm(s) && Noted(s, AfterAll(INITIAL, History(s)))
  }

  lemma ExitNoted(width: Width, s: State, t: Long)
    requires Kept(width, s) && Enabled(width, s, Exit(t))
    ensures Noted(Apply(width, s, Exit(t)), AfterAll(INITIAL, History(Apply(width, s, Exit(t)))))
  {
    hide File, Recorded, Written, Join, Command, AfterAll, LongLong, ArgsOf, Changes, After;
    LastIsOutermost(width, s);
    var s', f := Apply(width, s, Exit(t)), Top(s, t);
    Unchanging(f.e.call);
    if s.depth == 1 {
      AfterAllSnoc(INITIAL, History(s), f.e);
      forall u: Long | u in s.pending
        ensures !f.e.call.BindBuffer? ==> After(s'.shadow, s.pending[u]) == AfterAll(INITIAL, s.entered)
      {
        if !f.e.call.BindBuffer? {
          Commute(s.shadow, s.pending[u], f.e.call);
        }
      }
    }
  }

  lemma Unchanging(call: Call)
    ensures !Changes(call) ==> !call.BindBuffer? && forall st: Shadow :: IsShadow(st) ==> After(st, call) == st
  {
  }

  lemma StepKept(width: Width, s: State, step: Step)
    requires Kept(width, s) && Enabled(width, s, step) && OneNote(s, step)
    ensures Kept(width, Apply(width, s, step))
  {
    hide File, Recorded, Written, Join, Command, AfterAll, LongLong, ArgsOf, After, Changes;
    StepKeeps(width, s, step);
    StepCalm(width, s, step);
    hide Calm;
    if step.Exit? {
      ExitNoted(width, s, step.thread);
    }
  }

  // At each look of an outermost draw call, the binding that is still to be noted, if there is one,
  // makes no difference to what is read.
  ghost predicate NoteIdle(s: State, step: Step) {
    step.Look? && s.depth == 1 && Stack(s, step.thread) != [] ==>
      forall t: Long :: t in s.pending ==>
        IsShadow(s.shadow) && SameLook(Top(s, step.thread).looks, s.shadow, After(s.shadow, s.pending[t]))
  }

  ghost predicate NotesIdle(width: Width, s: State, steps: seq<Step>)
    requires Runs(width, s, steps)
    decreases |steps|
  {
    steps == [] || (NoteIdle(s, steps[0]) && NotesIdle(width, Apply(width, s, steps[0]), steps[1..]))
  }

  lemma NoteIdleIff(width: Width, s: State, step: Step)
    requires Kept(width, s) && Enabled(width, s, step)
    ensures LookAgrees(s, step) <==> NoteIdle(s, step)
  {
    hide Recorded, Written, Join, Command, AfterAll, ArgsOf, After, Arrays;
    if s.pending != map[] {
      var t :| t in s.pending;
      assert s.pending == map[t := s.pending[t]];
    }
  }

  lemma {:induction false} RunNotesIdle(width: Width, s: State, steps: seq<Step>)
    requires Kept(width, s) && RunsOneNote(width, s, steps)
    ensures Runs(width, s, steps) && Kept(width, Final(width, s, steps))
    ensures LooksAgree(width, s, steps) <==> NotesIdle(width, s, steps)
    decreases |steps|
  {
    hide Kept, Enabled, Apply, OneNote, LookAgrees, NoteIdle;
    if steps != [] {
      StepKept(width, s, steps[0]);
      NoteIdleIff(width, s, steps[0]);
      RunNotesIdle(width, Apply(width, s, steps[0]), steps[1..]);
    }
  }

  lemma InitialIsKept(width: Width)
    ensures Kept(width, Initial(width))
  {
    InitialIsSound(width);
  }

  // With one note at a time the records are framed if and only if no draw call looks at a binding
  // between its being recorded and its being noted, unless that makes no difference.
  lemma FramedIffNotesIdle(width: Width, steps: seq<Step>)
    requires RunsOneNote(width, Initial(width), steps)
    ensures Runs(width, Initial(width), steps)
    ensures var s := Final(width, Initial(width), steps);
            && Locked(s) && (FramedSoFar(s) <==> NotesIdle(width, Initial(width), steps))
            && (s.depth == 0 ==> (Framed(INITIAL, s.entered) <==> NotesIdle(width, Initial(width), steps)))
            && (s.depth == 0 && s.pending == map[] ==> s.shadow == AfterAll(INITIAL, s.entered))
  {
    hide Runs, RunsOneNote, Final, Sound, LooksAgree, NotesIdle, Calm;
    InitialIsKept(width);
    RunNotesIdle(width, Initial(width), steps);
    FramedIff(width, steps);
  }

  // The calls that bind or draw are made on one thread, and the driver itself makes none that
  // change the statics.
  ghost predicate OneDrawer(s: State, step: Step, drawer: Long) {
    step.Enter? ==>
      && (step.e.call.BindBuffer? || step.e.call.DrawElements? ==> step.thread == drawer)
      && (s.depth > 0 ==> !Changes(step.e.call))
  }

  ghost predicate RunsOneDrawer(width: Width, s: State, steps: seq<Step>, drawer: Long)
    decreases |steps|
  {
    steps == []
    || (Enabled(width, s, steps[0]) && OneDrawer(s, steps[0], drawer)
        && RunsOneDrawer(width, Apply(width, s, steps[0]), steps[1..], drawer))
  }

  // Only the drawer has a binding to note, or is in a call that binds or draws.
  ghost predicate Binds(s: State, drawer: Long) {
    && (forall t: Long :: t in s.pending ==> t == drawer)
    && (forall t: Long, i :: 0 <= i < |Stack(s, t)| && (Stack(s, t)[i].e.call.BindBuffer? || Stack(s, t)[i].e.call.DrawElements?)
         ==> t == drawer)
  }

  lemma StepBinds(width: Width, s: State, step: Step, drawer: Long)
    requires Binds(s, drawer) && Enabled(width, s, step) && OneDrawer(s, step, drawer)
    ensures Binds(Apply(width, s, step), drawer) && OneNote(s, step) && NoteIdle(s, step)
  {
    hide Recorded, Join, Command, After, ArgsOf, LongLong, Laid, Changes, SameLook, Arrays;
    var s' := Apply(width, s, step);
    forall u: Long, i | 0 <= i < |Stack(s', u)| && (Stack(s', u)[i].e.call.BindBuffer? || Stack(s', u)[i].e.call.DrawElements?)
      ensures u == drawer
    {
      assert i < |Stack(s, u)| && !(step.Look? && u == step.thread && i == |Stack(s, u)| - 1) ==>
             Stack(s', u)[i].e == Stack(s, u)[i].e;
    }
    if (step.Enter? || step.Look?) && step.thread == drawer {
      assert forall t: Long :: t !in s.pending;
      assert s.pending == map[];
    }
  }

  lemma {:induction false} RunBinds(width: Width, s: State, steps: seq<Step>, drawer: Long)
    requires Binds(s, drawer) && RunsOneDrawer(width, s, steps, drawer)
    ensures Runs(width, s, steps) && RunsOneNote(width, s, steps) && NotesIdle(width, s, steps)
    decreases |steps|
  {
    hide Binds, Enabled, Apply, OneDrawer, OneNote, NoteIdle;
    if steps != [] {
      StepBinds(width, s, steps[0], drawer);
      RunBinds(width, Apply(width, s, steps[0]), steps[1..], drawer);
    }
  }

  // With one drawing thread every draw record is laid out as the decoder will expect it, and
  // between records both sides agree on the bindings and the enabled attributes.
  lemma OneDrawerIsFramed(width: Width, steps: seq<Step>, drawer: Long)
    requires RunsOneDrawer(width, Initial(width), steps, drawer)
    ensures Runs(width, Initial(width), steps)
    ensures var s := Final(width, Initial(width), steps);
            && Locked(s) && FramedSoFar(s)
            && (s.depth == 0 ==> Framed(INITIAL, s.entered))
            && (s.depth == 0 && s.pending == map[] ==> s.shadow == AfterAll(INITIAL, s.entered))
  {
    hide Runs, RunsOneDrawer, RunsOneNote, NotesIdle, Final;
    RunBinds(width, Initial(width), steps, drawer);
    FramedIffNotesIdle(width, steps);
  }

  // So with one drawing thread, any number of others and any nesting of other calls, the file of
  // an idle recorder decodes to the calls that were recorded.
  lemma OneDrawerReadsBack(width: Width, replay: bool, steps: seq<Step>, drawer: Long)
    requires RunsOneDrawer(width, Initial(width), steps, drawer)
    ensures Runs(width, Initial(width), steps)
    ensures var s := Final(width, Initial(width), steps);
            && (forall i :: 0 <= i < |s.entered| ==> Recorded(width, s.entered[i]))
            && (s.depth == 0 && AllReadable(replay, s.entered) ==>
                  && Open(s.log).Some? && Open(s.log).value.0 == width.Size()
                  && Process(width, replay, INITIAL, 0, Open(s.log).value.1, -1).events
                     == AllCanonical(width, replay, s.entered))
  {
    hide Runs, RunsOneDrawer, Final, Recorded, Framed, AllReadable, Process, File, Open;
    OneDrawerIsFramed(width, steps, drawer);
    IdleFileShowsAll(width, replay, steps);
    var s := Final(width, Initial(width), steps);
    if s.depth == 0 && AllReadable(replay, s.entered) {
      FileRead(width, replay, s.entered);
    }
  }

  // ---------- The lock is always given back ----------

  // What a draw call may read, whatever the statics are.
  lemma SomethingToRead(width: Width, f: Frame, st: Shadow) returns (e: Event)
    requires IsShadow(st) && Recorded(width, f.e) && Unread(f)
    ensures Reads(f, e, st) && Recorded(width, e)
  {
    var call := f.e.call;
    e := Event(f.e.thread,
               if f.looks == 0 then
                 DrawElements(call.mode, call.count, call.kind,
                              if st.elements != 0 then Offset(0) else Inline(Block(None, 0)), call.attribs)
               else
                 DrawElements(call.mode, call.count, call.kind, call.indices, seq(Arrays(st), _ => Block(None, 0))),
               f.e.begin, f.e.end);
  }

  // The calls in progress have been completed: the records before are as they were, and the one in
  // progress is too, except that a draw call is laid out by the statics.
  ghost predicate Finishes(s: State, s': State) {
    && Locked(s) && IsShadow(s.shadow)
    && s'.depth == 0 && IsShadow(s'.shadow)
    && |s'.entered| == |s.entered|
    && (forall i :: 0 <= i < |History(s)| ==> s'.entered[i] == s.entered[i])
    && (forall t :: t in s'.pending ==> t in s.pending || s.owner == Some(t))
    && (if s.depth == 0 then s' == s
        else
          var call := Outermost(s).e.call;
          && (!call.DrawElements? ==> s'.entered == s.entered)
          && (s.depth == 1 && s.pending == map[] && call.BindBuffer? ==> s'.shadow == s.shadow)
          && (s.depth == 1 && s.owner.value !in s.pending && LaidSoFar(s.shadow, call, Outermost(s).looks) && call.DrawElements?
              ==> s'.entered != [] && LaidDraw(s.shadow, s'.entered[|s'.entered| - 1].call)))
  }

  predicate LaidDraw(st: Shadow, call: Call)
    requires IsShadow(st)
  {
    call.DrawElements? && Laid(st, call)
  }

  lemma NoteFinishes(width: Width, s: State, t: Long, s': State)
    requires Sound(width, s) && IsShadow(s.shadow) && s.owner == Some(t) && Enabled(width, s, Note(t))
    requires Finishes(Apply(width, s, Note(t)), s')
    ensures Finishes(s, s')
  {
    hide Written, After, LaidSoFar, LaidDraw;
    var s1 := Apply(width, s, Note(t));
    assert forall u: Long :: Stack(s1, u) == Stack(s, u);
  }

  lemma LookFinishes(width: Width, s: State, t: Long, e: Event, s': State)
    requires Sound(width, s) && s.owner == Some(t) && Enabled(width, s, Look(t, e))
    requires Finishes(Apply(width, s, Look(t, e)), s')
    ensures Finishes(s, s')
  {
    hide Written, LaidSoFar, LaidDraw, Recorded, Looked, Unread, Arrays, Reads, ArgsOf;
    TopLooked(width, s, t);
    LaidByLook(Top(s, t), e, s.shadow, s.shadow);
    BothDraw(Top(s, t), e, s.shadow);
    LastIsOutermost(width, s);
    LastChanged(width, s.entered, e);
    var s1, f := Apply(width, s, Look(t, e)), Top(s, t);
    TopReplaced(width, s, t, Frame(e, f.put, f.looks + 1), s1);
    assert History(s1) == History(s);
  }

  lemma BothDraw(f: Frame, e: Event, st: Shadow)
    requires IsShadow(st) && Reads(f, e, st)
    ensures e.call.DrawElements? && f.e.call.DrawElements?
  {
  }

  lemma PutFinishes(width: Width, s: State, t: Long, s': State)
    requires Sound(width, s) && IsShadow(s.shadow) && s.owner == Some(t) && Enabled(width, s, Put(t))
    requires Finishes(Apply(width, s, Put(t)), s')
    ensures Finishes(s, s')
  {
    hide Written, LaidSoFar, LaidDraw, ArgsOf, Unread;
    var s1, f, n := Apply(width, s, Put(t)), Top(s, t), |Stack(s, t)|;
    assert Stack(s1, t) == Stack(s, t)[n - 1 := Frame(f.e, f.put + 1, f.looks)];
  }

  lemma ExitFinishes(width: Width, s: State, t: Long, s': State)
    requires Sound(width, s) && s.owner == Some(t) && Enabled(width, s, Exit(t))
    requires Finishes(Apply(width, s, Exit(t)), s')
    ensures Finishes(s, s')
  {
    LaidAtExit(width, s, t, s.shadow);
    LastIsOutermost(width, s);
    hide Written, LaidSoFar, Laid, ArgsOf, Unread, After, Join, LongLong;
    var s1, n := Apply(width, s, Exit(t)), |Stack(s, t)|;
    assert Stack(s1, t) == Stack(s, t)[..n - 1];
  }

  // From wherever it is, the thread that holds the lock completes its calls and gives it back,
  // and the record is complete.
  lemma {:induction false} Completes(width: Width, s: State) returns (steps: seq<Step>)
    requires Sound(width, s) && IsShadow(s.shadow)
    ensures Runs(width, s, steps)
    ensures Sound(width, Final(width, s, steps)) && Finishes(s, Final(width, s, steps))
    decreases s.depth, if s.depth > 0 then 2 - Top(s, s.owner.value).looks else 0,
              if s.depth > 0 then |ArgsOf(width, Top(s, s.owner.value).e)| - Top(s, s.owner.value).put else 0,
              |s.pending|
  {
    hide Written, Recorded, Join, Command, After, LongLong, ArgsOf, Arrays, Finishes, Reads;
    if s.depth == 0 {
      steps := [];
      NothingToFinish(s);
    } else {
      var t := s.owner.value;
      LastIsOutermost(width, s);
      TopLooked(width, s, t);
      var step := Note(t);
      if t !in s.pending && Unread(Top(s, t)) {
        var e := SomethingToRead(width, Top(s, t), s.shadow);
        step := Look(t, e);
      } else if t !in s.pending {
        step := if Top(s, t).put < |ArgsOf(width, Top(s, t).e)| then Put(t) else Exit(t);
      }
      StepKeeps(width, s, step);
      var s1 := Apply(width, s, step);
      var more := Completes(width, s1);
      steps := [step] + more;
      assert steps[1..] == more;
      match step {
        case Note(_) => NoteFinishes(width, s, t, Final(width, s1, more));
        case Look(_, e) => LookFinishes(width, s, t, e, Final(width, s1, more));
        case Put(_) => PutFinishes(width, s, t, Final(width, s1, more));
        case Exit(_) => ExitFinishes(width, s, t, Final(width, s1, more));
      }
    }
  }

  lemma NothingToFinish(s: State)
    requires Locked(s) && IsShadow(s.shadow) && s.depth == 0
    ensures Finishes(s, s)
  {
  }

  // ---------- Where the layout goes wrong ----------

  lemma {:induction false} RunsConcat(width: Width, s: State, a: seq<Step>, b: seq<Step>)
    requires Runs(width, s, a) && Runs(width, Final(width, s, a), b)
    ensures Runs(width, s, a + b) && Final(width, s, a + b) == Final(width, Final(width, s, a), b)
    decreases |a|
  {
    hide Enabled, Apply;
    if a == [] {
      assert a + b == b;
    } else {
      assert (a + b)[1..] == a[1..] + b;
      RunsConcat(width, Apply(width, s, a[0]), a[1..], b);
    }
  }

  // A call from its beginning to its end, with the lock free before and after it.
  lemma Whole(width: Width, s: State, e: Event) returns (steps: seq<Step>)
    requires Sound(width, s) && s.depth == 0 && Enabled(width, s, Enter(e.thread, e)) && IsShadow(s.shadow)
    ensures Runs(width, s, steps)
    ensures var s', n := Final(width, s, steps), |s.entered|;
            && Sound(width, s') && s'.depth == 0 && IsShadow(s'.shadow)
            && |s'.entered| == n + 1 && s'.entered[..n] == s.entered
            && (if e.call.DrawElements? then s'.entered[n].call.DrawElements? && Laid(s.shadow, s'.entered[n].call)
                else s'.entered[n] == e)
            && (s.pending == map[] && e.call.BindBuffer? ==> s'.shadow == s.shadow)
            && (forall t :: t in s'.pending ==> t in s.pending || t == e.thread)
  {
    hide Recorded, Written, Join, Command, File, ArgsOf, Laid;
    StepKeeps(width, s, Enter(e.thread, e));
    var s1 := Apply(width, s, Enter(e.thread, e));
    var more := Completes(width, s1);
    steps := [Enter(e.thread, e)] + more;
    assert steps[1..] == more;
  }

  // A draw call on a second thread can be recorded between the record of a binding and its being
  // noted: its indices are then inline, where the decoder expects an offset.
  lemma RaceIsNotFramed() returns (steps: seq<Step>)
    ensures Runs(Eight, Initial(Eight), steps)
    ensures var s := Final(Eight, Initial(Eight), steps);
            Sound(Eight, s) && s.depth == 0 && !Framed(INITIAL, s.entered)
  {
    hide Recorded, Sound, Arrays, Runs, Final;
    var s0 := Initial(Eight);
    var bind := Event(1, Call.BindBuffer(GL_ELEMENT_ARRAY_BUFFER, 5), 0, 0);
    var draw := Event(2, Call.DrawElements(4, 0, 0x1403, Inline(Block(None, 0)), []), 0, 0);
    RecordedEvents(bind, draw);
    InitialIsSound(Eight);
    var first := Whole(Eight, s0, bind);
    SoundWhenIdle(Eight, Final(Eight, s0, first));
    var s1 := Final(Eight, s0, first);
    assert s1.entered == [bind];
    var second := Whole(Eight, Final(Eight, s0, first), draw);
    RunsConcat(Eight, s0, first, second);
    steps := first + second;
    var last := Final(Eight, s1, second).entered[1];
    assert Final(Eight, s1, second).entered == [bind, last] && [bind, last][1..] == [last];
  }

  lemma SoundWhenIdle(width: Width, s: State)
    requires Sound(width, s) && s.depth == 0
    ensures s.owner == None
  {
  }

  lemma RecordedEvents(bind: Event, draw: Event)
    requires bind.thread < 3 && bind.call.BindBuffer?
    requires draw.thread < 3 && draw.call == Call.DrawElements(4, 0, 0x1403, Inline(Block(None, 0)), [])
    ensures Recorded(Eight, bind) && Recorded(Eight, draw)
  {
  }
}
