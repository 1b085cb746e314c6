/**
 Replaying EGL calls: the surfaces and contexts of the recording are translated to those that the
 driver of the replay has returned for them.
 */
module Replay {
  import opened Options
  import opened Wire
  import opened Records
  import opened Handles

  // ---------- Created handles ----------

  // A handle that was recorded for a new object, and the one the driver returned for it.
  datatype Created = Created(recorded: Long, returned: Long)

  // The handle returned for the latest creation of the recorded one: null stays null.
  function Latest(created: seq<Created>, handle: Long): (h: Long)
    ensures handle == 0 ==> h == 0
  {
    if handle == 0 || created == [] then 0
    else
      var last := created[|created| - 1];
      if last.recorded == handle then last.returned else Latest(created[..|created| - 1], handle)
  }

  // The non-null handles that were recorded.
  function RecordedIn(created: seq<Created>): set<Long> {
    set i | 0 <= i < |created| && created[i].recorded != 0 :: created[i].recorded
  }

  lemma LatestSnoc(created: seq<Created>, c: Created, handle: Long)
    ensures Latest(created + [c], handle)
         == if handle != 0 && c.recorded == handle then c.returned else Latest(created, handle)
  {
    var all := created + [c];
    assert all[..|all| - 1] == created;
    if handle == 0 {
    }
  }

  lemma HandlesSnoc(created: seq<Created>, c: Created)
    ensures RecordedIn(created + [c]) == RecordedIn(created) + if c.recorded == 0 then {} else {c.recorded}
  {
    var all := created + [c];
    forall h | h in RecordedIn(created) ensures h in RecordedIn(all) {
      var i :| 0 <= i < |created| && created[i].recorded != 0 && h == created[i].recorded;
      assert all[i].recorded == h;
    }
    if c.recorded != 0 {
      assert all[|created|].recorded == c.recorded;
    }
  }

  // A finite map that stands for the handles created so far.
  ghost predicate Stands(m: map<Long, Long>, created: seq<Created>) {
    m.Keys == RecordedIn(created) && forall h :: Lookup(m, h) == Latest(created, h)
  }

  lemma StandsForMore(m: map<Long, Long>, created: seq<Created>, c: Created)
    requires Stands(m, created)
    ensures Stands(if c.recorded == 0 then m else m[c.recorded := c.returned], created + [c])
  {
    HandlesSnoc(created, c);
    forall h ensures Latest(created + [c], h) == Lookup(if c.recorded == 0 then m else m[c.recorded := c.returned], h) {
      LatestSnoc(created, c, h);
      assert Lookup(m, h) == Latest(created, h);
    }
  }

  // ---------- The replay ----------

  // The call that is issued, or the reason there is none: a map is full, or there is no map yet.
  datatype Outcome = Issued(call: Call) | TooManyKeys | NoMap

  // The operands of a call translated by what has been created.
  function Translated(call: Call, surfaces: seq<Created>, contexts: seq<Created>): Call {
    match call
    case SurfaceAttrib(dpy, surface, attribute, value, res) =>
      SurfaceAttrib(dpy, Latest(surfaces, surface), attribute, value, res)
    case CreateContext(dpy, config, context, pairs, handle) =>
      CreateContext(dpy, config, Latest(contexts, context), pairs, handle)
    case DestroyContext(dpy, context, res) => DestroyContext(dpy, Latest(contexts, context), res)
    case MakeCurrent(dpy, draw, read, context, res) =>
      MakeCurrent(dpy, Latest(surfaces, draw), Latest(surfaces, read), Latest(contexts, context), res)
    case SwapBuffers(dpy, surface, res) => SwapBuffers(dpy, Latest(surfaces, surface), res)
    case _ => call
  }

  // The handle of the latest creation that was recorded as h.
  lemma {:induction false} LatestIs(created: seq<Created>, h: Long, i: nat)
    requires i < |created| && h != 0 && created[i].recorded == h
    requires forall j :: i < j < |created| ==> created[j].recorded != h
    ensures Latest(created, h) == created[i].returned
    decreases |created|
  {
    var front, last := created[..|created| - 1], created[|created| - 1];
    assert created == front + [last];
    LatestSnoc(front, last, h);
    if i < |created| - 1 {
      LatestIs(front, h, i);
    }
  }

  lemma LatestOfNull(created: seq<Created>)
    ensures Latest(created, 0) == 0
  {
  }

  // Null, or created and given back under the same handle as it was recorded under.
  predicate SameHandle(created: seq<Created>, h: Long) {
    h == 0 || exists i :: 0 <= i < |created| && created[i] == Created(h, h) && forall j :: i < j < |created| ==> created[j].recorded != h
  }

  lemma SameHandleStays(created: seq<Created>, h: Long)
    requires SameHandle(created, h)
    ensures Latest(created, h) == h
  {
    LatestOfNull(created);
    if h != 0 {
      var i :| 0 <= i < |created| && created[i] == Created(h, h) && forall j :: i < j < |created| ==> created[j].recorded != h;
      LatestIs(created, h, i);
    }
  }

  // If all handles come back as they were recorded, so does every call.
  lemma Untranslated(call: Call, surfaces: seq<Created>, contexts: seq<Created>)
    requires match call
             case SurfaceAttrib(_, surface, _, _, _) => SameHandle(surfaces, surface)
             case SwapBuffers(_, surface, _) => SameHandle(surfaces, surface)
             case CreateContext(_, _, context, _, _) => SameHandle(contexts, context)
             case DestroyContext(_, context, _) => SameHandle(contexts, context)
             case MakeCurrent(_, draw, read, context, _) =>
               SameHandle(surfaces, draw) && SameHandle(surfaces, read) && SameHandle(contexts, context)
             case _ => true
    ensures Translated(call, surfaces, contexts) == call
  {
    hide Latest, SameHandle;
    match call
    case SurfaceAttrib(_, surface, _, _, _) => SameHandleStays(surfaces, surface);
    case SwapBuffers(_, surface, _) => SameHandleStays(surfaces, surface);
    case CreateContext(_, _, context, _, _) => SameHandleStays(contexts, context);
    case DestroyContext(_, context, _) => SameHandleStays(contexts, context);
    case MakeCurrent(_, draw, read, context, _) =>
      SameHandleStays(surfaces, draw);
      SameHandleStays(surfaces, read);
      SameHandleStays(contexts, context);
    case _ =>
  }

  // Each operand is the handle that came back for it, whatever came back for the others.
  lemma OperandsOwn(dpy: Long, draw: Long, read: Long, context: Long, res: Word, surfaces: seq<Created>, contexts: seq<Created>,
                    i: nat, j: nat, k: nat)
    requires i < |surfaces| && j < |surfaces| && k < |contexts| && draw != 0 && read != 0 && context != 0
    requires surfaces[i].recorded == draw && (forall m :: i < m < |surfaces| ==> surfaces[m].recorded != draw)
    requires surfaces[j].recorded == read && (forall m :: j < m < |surfaces| ==> surfaces[m].recorded != read)
    requires contexts[k].recorded == context && (forall m :: k < m < |contexts| ==> contexts[m].recorded != context)
    ensures Translated(MakeCurrent(dpy, draw, read, context, res), surfaces, contexts)
         == MakeCurrent(dpy, surfaces[i].returned, surfaces[j].returned, contexts[k].returned, res)
    ensures forall attribute, value :: Translated(SurfaceAttrib(dpy, draw, attribute, value, res), surfaces, contexts)
                                    == SurfaceAttrib(dpy, surfaces[i].returned, attribute, value, res)
    ensures Translated(SwapBuffers(dpy, draw, res), surfaces, contexts) == SwapBuffers(dpy, surfaces[i].returned, res)
    ensures Translated(DestroyContext(dpy, context, res), surfaces, contexts) == DestroyContext(dpy, contexts[k].returned, res)
    ensures forall config, pairs, handle :: Translated(CreateContext(dpy, config, context, pairs, handle), surfaces, contexts)
                                         == CreateContext(dpy, config, contexts[k].returned, pairs, handle)
  {
    hide Latest;
    LatestIs(surfaces, draw, i);
    LatestIs(surfaces, read, j);
    LatestIs(contexts, context, k);
  }

  function NewSurfaces(call: Call, response: Long): seq<Created> {
    if call.CreateWindowSurface? then [Created(call.handle, response)] else []
  }

  function NewContexts(call: Call, response: Long): seq<Created> {
    if call.CreateContext? then [Created(call.handle, response)] else []
  }

  predicate UsesSurfaces(call: Call) {
    call.SurfaceAttrib? || call.MakeCurrent? || call.SwapBuffers?
  }

  predicate UsesContexts(call: Call) {
    call.DestroyContext? || call.MakeCurrent? || (call.CreateContext? && call.context != 0)
  }

  class Replayer {
    const maps: Maps
    var surfaceMap: Option<nat>
    var contextMap: Option<nat>
    // What has been created.
    ghost var surfaces: seq<Created>
    ghost var contexts: seq<Created>

    ghost predicate Valid()
      reads this, maps, maps.mapSpace
    {
      && maps.Valid()
      && (surfaceMap == None <==> surfaces == []) && (contextMap == None <==> contexts == [])
      && (surfaceMap.Some? ==> surfaceMap.value <= maps.lastMap
                               && Stands(Contents(maps.SlotsOf(surfaceMap.value)), surfaces))
      && (contextMap.Some? ==> contextMap.value <= maps.lastMap
                               && Stands(Contents(maps.SlotsOf(contextMap.value)), contexts))
      && (surfaceMap.Some? && contextMap.Some? ==> surfaceMap != contextMap)
      && maps.lastMap + 1 == (if surfaceMap.Some? then 1 else 0) + (if contextMap.Some? then 1 else 0)
    }

    constructor ()
      ensures Valid() && surfaces == [] && contexts == []
      ensures fresh(maps) && fresh(maps.mapSpace)
    {
      maps := new Maps();
      surfaceMap, contextMap := None, None;
      surfaces, contexts := [], [];
    }

    method Surface(handle: Long) returns (h: Long)
      requires Valid() && surfaceMap.Some?
      ensures h == Latest(surfaces, handle)
    {
      h := maps.GetMap(surfaceMap.value, handle);
    }

    method Context(handle: Long) returns (h: Long)
      requires Valid() && contextMap.Some?
      ensures h == Latest(contexts, handle)
    {
      h := maps.GetMap(contextMap.value, handle);
    }

    // Issues a call; the driver answers a creation with a handle of its own.
    method Issue(call: Call, response: Long) returns (outcome: Outcome)
      requires Valid()
      modifies this, maps, maps.mapSpace
      ensures outcome == NoMap <==> (UsesSurfaces(call) && old(surfaces) == []) || (UsesContexts(call) && old(contexts) == [])
      ensures outcome == TooManyKeys <==>
                && outcome != NoMap
                && ((call.CreateWindowSurface? && |RecordedIn(old(surfaces))| >= MAXKEYS && call.handle !in RecordedIn(old(surfaces)))
                    || (call.CreateContext? && |RecordedIn(old(contexts))| >= MAXKEYS && call.handle !in RecordedIn(old(contexts))))
      ensures outcome.Issued? ==>
                && Valid()
                && outcome.call == Translated(call, old(surfaces), old(contexts))
                && surfaces == old(surfaces) + NewSurfaces(call, response)
                && contexts == old(contexts) + NewContexts(call, response)
    {
      if UsesSurfaces(call) && surfaceMap == None { return NoMap; }
      if UsesContexts(call) && contextMap == None { return NoMap; }
      hide Stands, Contents, RecordedIn, Valid, Latest, UsesSurfaces, UsesContexts;
      assert surfaces + [] == surfaces && contexts + [] == contexts;
      var issued := Operands(call);
      var ok := true;
      if call.CreateWindowSurface? {
        ok := NoteSurface(call.handle, response);
      } else if call.CreateContext? {
        ok := NoteContext(call.handle, response);
      }
      outcome := if ok then Issued(issued) else TooManyKeys;
    }

    method Operands(call: Call) returns (issued: Call)
      requires Valid()
      requires (UsesSurfaces(call) ==> surfaceMap.Some?) && (UsesContexts(call) ==> contextMap.Some?)
      ensures issued == Translated(call, surfaces, contexts)
    {
      hide Stands, Contents, Valid, Latest;
      match call
      case SurfaceAttrib(dpy, surface, attribute, value, res) =>
        var s := Surface(surface);
        issued := SurfaceAttrib(dpy, s, attribute, value, res);
      case CreateContext(_, _, _, _, _) => issued := ContextOperand(call);
      case DestroyContext(_, _, _) => issued := ContextOperand(call);
      case MakeCurrent(_, _, _, _, _) => issued := Current(call);
      case SwapBuffers(dpy, surface, res) =>
        var s := Surface(surface);
        issued := SwapBuffers(dpy, s, res);
      case _ => issued := call;
    }

    method ContextOperand(call: Call) returns (issued: Call)
      requires Valid() && (call.CreateContext? || call.DestroyContext?) && (UsesContexts(call) ==> contextMap.Some?)
      ensures issued == Translated(call, surfaces, contexts)
    {
      hide Stands, Contents, Valid, Latest;
      if call.CreateContext? {
        var c := 0;
        if call.context != 0 { c := Context(call.context); }
        issued := CreateContext(call.dpy, call.config, c, call.pairs, call.handle);
      } else {
        var c := Context(call.context);
        issued := DestroyContext(call.dpy, c, call.res);
      }
    }

    method Current(call: Call) returns (issued: Call)
      requires Valid() && call.MakeCurrent? && surfaceMap.Some? && contextMap.Some?
      ensures issued == Translated(call, surfaces, contexts)
    {
      hide Stands, Contents, Valid, Latest;
      var d := Surface(call.draw);
      var r := Surface(call.read);
      var c := Context(call.context);
      issued := MakeCurrent(call.dpy, d, r, c, call.res);
    }

    method NoteSurface(handle: Long, response: Long) returns (ok: bool)
      requires Valid()
      modifies this, maps, maps.mapSpace
      ensures ok <==> handle in RecordedIn(old(surfaces)) || |RecordedIn(old(surfaces))| < MAXKEYS
      ensures contexts == old(contexts)
      ensures ok ==> Valid() && surfaces == old(surfaces) + [Created(handle, response)]
    {
      hide Contents, Latest, RecordedIn;
      if surfaceMap == None {
        surfaceMap := maps.CreateMap();
        StandsForNone();
      }
      ghost var held := Contents(maps.SlotsOf(surfaceMap.value));
      SameSize(held, surfaces);
      ok := maps.PutMap(surfaceMap.value, handle, response);
      if ok {
        StandsForMore(held, surfaces, Created(handle, response));
        surfaces := surfaces + [Created(handle, response)];
      }
    }

    method NoteContext(handle: Long, response: Long) returns (ok: bool)
      requires Valid()
      modifies this, maps, maps.mapSpace
      ensures ok <==> handle in RecordedIn(old(contexts)) || |RecordedIn(old(contexts))| < MAXKEYS
      ensures surfaces == old(surfaces)
      ensures ok ==> Valid() && contexts == old(contexts) + [Created(handle, response)]
    {
      hide Contents, Latest, RecordedIn;
      if contextMap == None {
        contextMap := maps.CreateMap();
        StandsForNone();
      }
      ghost var held := Contents(maps.SlotsOf(contextMap.value));
      SameSize(held, contexts);
      ok := maps.PutMap(contextMap.value, handle, response);
      if ok {
        StandsForMore(held, contexts, Created(handle, response));
        contexts := contexts + [Created(handle, response)];
      }
    }
  }

  lemma StandsForNone()
    ensures Stands(map[], [])
  {
  }

  lemma SameSize(m: map<Long, Long>, created: seq<Created>)
    requires Stands(m, created)
    ensures |m| == |RecordedIn(created)| && forall h :: h in m <==> h in RecordedIn(created)
  {
    assert |m| == |m.Keys|;
  }
}
