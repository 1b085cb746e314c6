/**
 The decoder: a pointer that moves over the mapped file, and the loop that takes one record after
 the other and keeps track of what the layout of draw records depends on.
 */
module TraceReader {
  import opened Options
  import opened Wire
  import opened Records
  import opened RoundTrip
  import opened Traces

  class Reader {
    const data: array<Byte>
    const width: Width
    // This may pass the end of a file that was cut short.
    var cur: nat

    // The bytes that have not been read.
    ghost function Ahead(): Bytes
      reads this, data
    {
      if cur <= data.Length then data[cur..] else []
    }

    constructor (file: array<Byte>, width: Width)
      ensures data == file && this.width == width && cur == 0
    {
      data, this.width, cur := file, width, 0;
    }

    method Word() returns (w: Word)
      requires cur + 4 <= data.Length
      ensures |Ahead()| >= 4 && w == WordAt(Ahead())
    {
      var b0: int, b1: int, b2: int, b3: int := data[cur], data[cur + 1], data[cur + 2], data[cur + 3];
      w := b0 + 0x100 * b1 + 0x1_0000 * b2 + 0x100_0000 * b3;
    }

    method Command() returns (cmd: Word)
      modifies this`cur
      ensures (cmd, Ahead()) == GetCmd(old(Ahead()))
    {
      if cur + 4 > data.Length { return OPC_EOF; }
      cmd := Word();
      cur := cur + 4;
    }

    method Int() returns (w: Word)
      modifies this`cur
      ensures (w, Ahead()) == GetInt(old(Ahead()))
    {
      if cur + 4 > data.Length { return 0; }
      w := Word();
      cur := cur + 4;
    }

    method IntPtr() returns (p: Option<Word>)
      modifies this`cur
      ensures (p, Ahead()) == GetIntPtr(old(Ahead()))
    {
      if cur + 4 > data.Length { return None; }
      var val := Word();
      cur := cur + 4;
      if val == MARKER {
        val := Int();
        if val == 0 { return None; }
      }
      p := Some(val);
    }

    // A float, as its pattern.
    method Float() returns (w: Word)
      modifies this`cur
      ensures (w, Ahead()) == GetInt(old(Ahead()))
    {
      w := Int();
    }

    method FloatPtr() returns (p: Option<Word>)
      modifies this`cur
      ensures (p, Ahead()) == GetFloatPtr(old(Ahead()))
    {
      if cur + 4 > data.Length { return None; }
      var val := Word();
      cur := cur + 4;
      if val == FLOAT_MARKER {
        val := 0;
        if cur + 4 <= data.Length { val := Word(); }
        if val == 0 || val == 0x8000_0000 { return None; }
      }
      p := Some(val);
    }

    method LongLong() returns (v: Long)
      modifies this`cur
      ensures (v, Ahead()) == GetLong(old(Ahead()))
    {
      if cur + 8 > data.Length { return 0; }
      var low: int := Word();
      cur := cur + 4;
      var high: int := Word();
      cur := cur + 4;
      v := low + 0x1_0000_0000 * high;
      assert old(Ahead())[4..][4..] == old(Ahead())[8..];
    }

    method Ptr() returns (p: Long)
      modifies this`cur
      ensures (p, Ahead()) == GetPtr(width, old(Ahead()))
    {
      if cur + width.Size() > data.Length { return 0; }
      if width == Four {
        var w := Word();
        p := Handle(Four, w);
        cur := cur + 4;
      } else {
        p := LongLong();
      }
    }

    method String() returns (str: Option<Bytes>)
      modifies this`cur
      ensures (str, Ahead()) == GetString(old(Ahead()))
    {
      hide RoundUp, Strlen;
      if cur >= data.Length { return None; }
      var end := EndOfString();
      ghost var n := end - cur;
      if end + 1 > data.Length { return None; }
      str := Some(data[cur..end]);
      assert Ahead()[..n] == data[cur..end];
      cur := cur + RoundUp(end - cur + 1);
      assert cur <= data.Length ==> data[cur..] == data[old(cur)..][RoundUp(n + 1)..];
    }

    // Where the next zero is, or the end of the data.
    method EndOfString() returns (end: nat)
      requires cur <= data.Length
      ensures cur <= end <= data.Length && end - cur == Strlen(Ahead())
    {
      end := cur;
      while end < data.Length && data[end] != 0
        invariant cur <= end <= data.Length
        invariant forall i :: cur <= i < end ==> data[i] != 0
      {
        end := end + 1;
      }
      LengthOfString(Ahead(), end - cur);
    }

    method Data() returns (block: Option<Bytes>)
      modifies this`cur
      ensures (block, Ahead()) == GetBytes(old(Ahead()))
    {
      if cur + 4 > data.Length { return None; }
      var w := Word();
      var size := Signed(w);
      cur := cur + 4;
      if size <= 0 || cur + size > data.Length { return None; }
      block := Some(data[cur..cur + size]);
      assert data[cur..][..size] == data[cur..cur + size];
      assert old(Ahead())[4..] == data[cur..];
      ghost var from := cur;
      cur := cur + RoundUp(size);
      assert cur <= data.Length ==> data[cur..] == data[from..][cur - from..];
    }
  }

  lemma LengthOfString(s: Bytes, n: nat)
    requires n <= |s| && (forall i :: 0 <= i < n ==> s[i] != 0) && (n < |s| ==> s[n] == 0)
    ensures Strlen(s) == n
  {
  }

  class Decoder {
    const reader: Reader
    const replay: bool
    var arrayBufferBinding: Word
    var elementArrayBufferBinding: Word
    const enabled: array<bool>
    var curThread: Long

    ghost function State(): (st: Shadow)
      reads this`arrayBufferBinding, this`elementArrayBufferBinding, enabled
      requires enabled.Length == MAX_VERTEX_ATTRIBS
      ensures IsShadow(st)
    {
      Shadow(arrayBufferBinding, elementArrayBufferBinding, enabled[..])
    }

    ghost function Ahead(): Bytes
      reads reader, reader.data
    {
      reader.Ahead()
    }

    constructor (file: array<Byte>, width: Width, replay: bool)
      ensures fresh(reader) && reader.data == file && reader.width == width && reader.cur == 0 && this.replay == replay
      ensures fresh(enabled) && enabled.Length == MAX_VERTEX_ATTRIBS && State() == INITIAL && curThread == 0
    {
      reader := new Reader(file, width);
      this.replay := replay;
      arrayBufferBinding, elementArrayBufferBinding, curThread := 0, 0, 0;
      enabled := new bool[MAX_VERTEX_ATTRIBS](_ => false);
      new;
      assert State().enabled == INITIAL.enabled;
    }

    method Ints(n: Word) returns (words: seq<Word>)
      modifies reader`cur
      ensures (words, Ahead()) == GetInts(Count(n), old(Ahead()))
    {
      hide GetInt, Reader.Ahead, Behind;
      words := [];
      var i := 0;
      while i < Signed(n)
        invariant 0 <= i <= Count(n)
        invariant GetInts(Count(n), old(Ahead())) == Behind(words, GetInts(Count(n) - i, Ahead()))
      {
        var w := reader.Int();
        OneRead(words, w, GetInts(Count(n) - i - 1, Ahead()));
        words := words + [w];
        i := i + 1;
      }
    }

    // EGL's lists of pointers, as long as both counts allow.
    method Ptrs(configSize: Word, numConfig: Word) returns (ptrs: seq<Long>)
      modifies reader`cur
      ensures (ptrs, Ahead()) == GetPtrs(reader.width, Listed(configSize, numConfig), old(Ahead()))
    {
      hide GetPtr, Reader.Ahead, Behind;
      ptrs := [];
      ghost var n := Listed(configSize, numConfig);
      var i := 0;
      while i < Signed(numConfig) && i < Signed(configSize)
        invariant 0 <= i <= n
        invariant GetPtrs(reader.width, n, old(Ahead())) == Behind(ptrs, GetPtrs(reader.width, n - i, Ahead()))
      {
        var p := reader.Ptr();
        OneRead(ptrs, p, GetPtrs(reader.width, n - i - 1, Ahead()));
        ptrs := ptrs + [p];
        i := i + 1;
      }
    }

    method Sources(count: Word) returns (sources: seq<Source>)
      modifies reader`cur
      ensures (sources, Ahead()) == GetSources(Count(count), old(Ahead()))
    {
      hide GetInt, GetBytes, GetString, Reader.Ahead, Behind;
      sources := [];
      var i := 0;
      while i < Signed(count)
        invariant 0 <= i <= Count(count)
        invariant GetSources(Count(count), old(Ahead())) == Behind(sources, GetSources(Count(count) - i, Ahead()))
      {
        var source: Source;
        var length := reader.Int();
        if Signed(length) > 0 {
          var data := reader.Data();
          source := Source(length, data);
        } else {
          var text := reader.String();
          source := Source(0xffff_ffff, text);
        }
        OneRead(sources, source, GetSources(Count(count) - i - 1, Ahead()));
        sources := sources + [source];
        i := i + 1;
      }
    }

    // The attribute list, in an array of fixed size: it fails if the array is full too early.
    method Pairs() returns (ok: bool, pairs: seq<(Word, Word)>)
      modifies reader`cur
      ensures var r := GetPairs(0, old(Ahead()));
              (ok <==> r.Some?) && (ok ==> r.value == (pairs, Ahead()))
    {
      hide GetInt, Reader.Ahead, Behind;
      var list := new Word[MAX_ATTRIBUTES];
      pairs := [];
      var i := 0;
      ghost var start := Ahead();
      while true
        invariant 0 <= i <= MAX_ATTRIBUTES && i % 2 == 0 && |pairs| == i / 2
        invariant var r, more := GetPairs(0, start), GetPairs(i, Ahead());
                  (r.Some? <==> more.Some?) && (r.Some? ==> r.value == Behind(pairs, more.value))
        decreases MAX_ATTRIBUTES - i
      {
        if i >= MAX_ATTRIBUTES { return false, pairs; }
        var name := reader.Int();
        list[i] := name;
        i := i + 1;
        if name == EGL_NONE { break; }
        var value := reader.Int();
        list[i] := value;
        i := i + 1;
        if GetPairs(i, Ahead()).Some? {
          OneRead(pairs, (name, value), GetPairs(i, Ahead()).value);
        }
        pairs := pairs + [(list[i - 2], list[i - 1])];
      }
      ok := true;
    }

    // The vertex arrays of a draw call: one for each enabled attribute, unless a buffer is bound.
    method VertexArrays() returns (blocks: seq<Block>)
      requires enabled.Length == MAX_VERTEX_ATTRIBS
      modifies reader`cur
      ensures (blocks, Ahead()) == GetBlocks(Arrays(State()), old(Ahead()))
    {
      hide GetBytes, Reader.Ahead, Behind;
      blocks := [];
      assert Arrays(State()) == if arrayBufferBinding == 0 then Enabled(State(), 0) else 0;
      if arrayBufferBinding != 0 { return; }
      ghost var st, n := State(), Enabled(State(), 0);
      var i := 0;
      while i < MAX_VERTEX_ATTRIBS
        invariant 0 <= i <= MAX_VERTEX_ATTRIBS
        invariant GetBlocks(n, old(Ahead())) == Behind(blocks, GetBlocks(Enabled(st, i), Ahead()))
      {
        if enabled[i] {
          var data := reader.Data();
          OneRead(blocks, Held(data), GetBlocks(Enabled(st, i + 1), Ahead()));
          blocks := blocks + [Held(data)];
        }
        i := i + 1;
      }
    }

    method OptInt(ptr: Long) returns (w: Word)
      modifies reader`cur
      ensures (w, Ahead()) == GetOptInt(ptr, old(Ahead()))
    {
      w := 0;
      if ptr != 0 { w := reader.Int(); }
    }

    method DrawIndices() returns (indices: Indices)
      requires enabled.Length == MAX_VERTEX_ATTRIBS
      modifies reader`cur
      ensures (indices, Ahead()) == GetIndices(reader.width, State(), old(Ahead()))
    {
      if elementArrayBufferBinding != 0 {
        var pointer := reader.Ptr();
        indices := Offset(pointer);
      } else {
        var data := reader.Data();
        indices := Inline(Held(data));
      }
    }

    // The record of a GL command, up to its times.
    method GlRecord(cmd: Word) returns (stop: Option<Stop>, call: Call)
      requires enabled.Length == MAX_VERTEX_ATTRIBS
      modifies reader`cur
      ensures var p := DecodeGl(reader.width, replay, State(), cmd, old(Ahead()));
              && (stop == None <==> p.Parsed?) && (p.Parsed? ==> p == Parsed(call, Ahead()))
              && (p.TooManyAttributes? ==> stop == Some(Fatal))
              && (p.NotImplemented? ==> stop == Some(Unknown(cmd)) && Ahead() == old(Ahead()))
    {
      hide GetInt, GetPtr, GetIntPtr, GetFloatPtr, GetString, GetBytes, GetInts, GetPtrs, GetSources, GetBlocks, GetPairs, Reader.Ahead, Held;
      stop := None;
      if cmd == OPC_MARK {
        var text := reader.String();
        call := Mark(text);
      } else if cmd == OPC_START {
        var texture := reader.Int();
        call := ActiveTexture(texture);
      } else if cmd == OPC_START + 2 {
        var program := reader.Int();
        var index := reader.Int();
        var name := reader.String();
        call := BindAttribLocation(program, index, name);
      } else if cmd == OPC_START + 3 {
        var target := reader.Int();
        var buffer := reader.Int();
        call := BindBuffer(target, buffer);
      } else if cmd == OPC_START + 12 {
        var target := reader.Int();
        var size := reader.Int();
        var data := reader.Data();
        var usage := reader.Int();
        call := BufferData(target, size, Held(data), usage);
      } else if cmd == OPC_START + 16 {
        var red := reader.Int();
        var green := reader.Int();
        var blue := reader.Int();
        var alpha := reader.Int();
        call := ClearColor(red, green, blue, alpha);
      } else if cmd == OPC_START + 33 {
        var n := reader.Int();
        var names := Ints(n);
        call := DeleteTextures(n, names);
      } else if cmd == OPC_START + 39 {
        var index := reader.Int();
        call := DisableAttrib(index);
      } else if cmd == OPC_START + 41 {
        var mode := reader.Int();
        var count := reader.Int();
        var kind := reader.Int();
        var indices := DrawIndices();
        var attribs := VertexArrays();
        call := DrawElements(mode, count, kind, indices, attribs);
      } else if cmd == OPC_START + 43 {
        var index := reader.Int();
        call := EnableAttrib(index);
      } else if cmd == OPC_START + 44 {
        call := Call.Finish;
      } else if cmd == OPC_START + 49 {
        var n := reader.Int();
        var names := Ints(n);
        call := GenBuffers(n, names);
      } else if cmd == OPC_START + 55 {
        var program := reader.Int();
        var index := reader.Int();
        var bufsize := reader.Int();
        var lengthPtr := reader.Ptr();
        var sizePtr := reader.Ptr();
        var kindPtr := reader.Ptr();
        var namePtr := reader.Ptr();
        var length := OptInt(lengthPtr);
        var size := OptInt(sizePtr);
        var kind := OptInt(kindPtr);
        var name := None;
        if namePtr != 0 { name := reader.String(); }
        call := GetActiveUniform(program, index, bufsize, lengthPtr, sizePtr, kindPtr, namePtr, length, size, kind, name);
      } else if cmd == OPC_START + 56 {
        var program := reader.Int();
        var maxcount := reader.Int();
        var countPtr := reader.Ptr();
        var shadersPtr := reader.Ptr();
        var count := OptInt(countPtr);
        var names := [];
        if replay && countPtr != 0 && shadersPtr != 0 { names := Ints(count); }
        call := GetAttachedShaders(program, maxcount, countPtr, shadersPtr, count, names);
      } else if cmd == OPC_START + 57 {
        var program := reader.Int();
        var name := reader.String();
        var res := reader.Int();
        call := GetAttribLocation(program, name, res);
      } else if cmd == OPC_START + 62 {
        var pname := reader.Int();
        var params := reader.FloatPtr();
        call := GetFloatv(pname, params);
      } else if cmd == OPC_START + 63 {
        var pname := reader.Int();
        var params := reader.IntPtr();
        call := GetIntegerv(pname, params);
      } else if cmd == OPC_START + 98 {
        var shader := reader.Int();
        var count := reader.Int();
        var sources := Sources(count);
        call := ShaderSource(shader, count, sources);
      } else if cmd == OPC_START + 124 {
        var location := reader.Int();
        var count := reader.Int();
        var data := reader.Data();
        call := Uniform4fv(location, count, Held(data));
      } else if cmd == OPC_START + 140 {
        var index := reader.Int();
        var size := reader.Int();
        var kind := reader.Int();
        var normalized := reader.Int();
        var stride := reader.Int();
        var pointer := reader.Ptr();
        call := VertexAttribPointer(index, size, kind, normalized, stride, pointer);
      } else {
        return Some(Unknown(cmd)), Call.Finish;
      }
    }

    // The record of an EGL command, up to its times.
    method EglRecord(cmd: Word) returns (stop: Option<Stop>, call: Call)
      modifies reader`cur
      ensures var p := DecodeEgl(reader.width, cmd, old(Ahead()));
              && (stop == None <==> p.Parsed?) && (p.Parsed? ==> p == Parsed(call, Ahead()))
              && (p.TooManyAttributes? ==> stop == Some(Fatal))
              && (p.NotImplemented? ==> stop == Some(Unknown(cmd)) && Ahead() == old(Ahead()))
    {
      hide GetInt, GetPtr, GetIntPtr, GetFloatPtr, GetString, GetBytes, GetInts, GetPtrs, GetSources, GetBlocks, GetPairs, Reader.Ahead, Held;
      stop := None;
      if cmd == OPC_EGL + 1 {
        var id := reader.Ptr();
        var handle := reader.Ptr();
        call := GetDisplay(id, handle);
      } else if cmd == OPC_EGL + 2 {
        var dpy := reader.Ptr();
        var major := reader.IntPtr();
        var minor := reader.IntPtr();
        var res := reader.Int();
        call := Initialize(dpy, major, minor, res);
      } else if cmd == OPC_EGL + 4 {
        var dpy := reader.Ptr();
        var pname := reader.Int();
        var text := reader.String();
        call := QueryString(dpy, pname, text);
      } else if cmd == OPC_EGL + 6 {
        var dpy := reader.Ptr();
        var ok, pairs := Pairs();
        if !ok { return Some(Fatal), Call.Finish; }
        var configSize := reader.Int();
        var numConfig := reader.Int();
        var configs := Ptrs(configSize, numConfig);
        var res := reader.Int();
        call := ChooseConfig(dpy, pairs, configSize, numConfig, configs, res);
      } else if cmd == OPC_EGL + 8 {
        var dpy := reader.Ptr();
        var config := reader.Ptr();
        var win := reader.Ptr();
        var ok, pairs := Pairs();
        if !ok { return Some(Fatal), Call.Finish; }
        var handle := reader.Ptr();
        call := CreateWindowSurface(dpy, config, win, pairs, handle);
      } else if cmd == OPC_EGL + 18 {
        var dpy := reader.Ptr();
        var surface := reader.Ptr();
        var attribute := reader.Int();
        var value := reader.Int();
        var res := reader.Int();
        call := SurfaceAttrib(dpy, surface, attribute, value, res);
      } else if cmd == OPC_EGL + 21 {
        var dpy := reader.Ptr();
        var config := reader.Ptr();
        var context := reader.Ptr();
        var ok, pairs := Pairs();
        if !ok { return Some(Fatal), Call.Finish; }
        var handle := reader.Ptr();
        call := CreateContext(dpy, config, context, pairs, handle);
      } else if cmd == OPC_EGL + 22 {
        var dpy := reader.Ptr();
        var context := reader.Ptr();
        var res := reader.Int();
        call := DestroyContext(dpy, context, res);
      } else if cmd == OPC_EGL + 23 {
        var dpy := reader.Ptr();
        var draw := reader.Ptr();
        var read := reader.Ptr();
        var context := reader.Ptr();
        var res := reader.Int();
        call := MakeCurrent(dpy, draw, read, context, res);
      } else if cmd == OPC_EGL + 30 {
        var dpy := reader.Ptr();
        var surface := reader.Ptr();
        var res := reader.Int();
        call := SwapBuffers(dpy, surface, res);
      } else {
        return Some(Unknown(cmd)), Call.Finish;
      }
    }

    // The bindings and the enabled attributes follow the calls.
    method Track(call: Call)
      requires enabled.Length == MAX_VERTEX_ATTRIBS
      modifies this`arrayBufferBinding, this`elementArrayBufferBinding, enabled
      ensures State() == After(old(State()), call)
    {
      match call
      case BindBuffer(target, buffer) =>
        if target == GL_ARRAY_BUFFER {
          arrayBufferBinding := buffer;
        } else if target == GL_ELEMENT_ARRAY_BUFFER {
          elementArrayBufferBinding := buffer;
        }
      case EnableAttrib(index) =>
        if index < MAX_VERTEX_ATTRIBS { enabled[index] := true; }
      case DisableAttrib(index) =>
        if index < MAX_VERTEX_ATTRIBS { enabled[index] := false; }
      case _ =>
    }

    // One record, or the reason to stop.
    method Next() returns (stop: Option<Stop>, event: Event)
      requires enabled.Length == MAX_VERTEX_ATTRIBS
      modifies this, reader`cur, enabled
      ensures var step := Decode(reader.width, replay, old(State()), old(curThread), old(Ahead()));
              && (step.Done? ==> stop == None && event.thread == curThread && step == Done(event, State(), Ahead()))
              && (step.Stopped? ==> stop == Some(step.why) && curThread == step.thread && State() == old(State())
                                    && (step.why != Fatal ==> Ahead() == step.rest))
    {
      hide GetPtr, GetLong, GetCmd, DecodeGl, DecodeEgl, State, After, Reader.Ahead;
      event := Event(0, Call.Finish, 0, 0);
      var cmd := reader.Command();
      if cmd == OPC_THREAD {
        curThread := reader.Ptr();
        cmd := reader.Command();
      }
      if cmd == OPC_EOF { return Some(EndOfFile), event; }
      if cmd == OPC_NONE { return Some(NoCommand), event; }
      var call;
      if cmd < OPC_EGL {
        stop, call := GlRecord(cmd);
      } else {
        stop, call := EglRecord(cmd);
      }
      if stop != None { return; }
      Track(call);
      var begin := reader.LongLong();
      var end := reader.LongLong();
      event := Event(curThread, call, begin, end);
    }

    // The records of the given number of frames, or all of them if it is negative.
    method Show(frames: int) returns (events: seq<Event>, stop: Stop)
      requires enabled.Length == MAX_VERTEX_ATTRIBS
      modifies this, reader`cur, enabled
      ensures var run := Process(reader.width, replay, old(State()), old(curThread), old(Ahead()), frames);
              && events == run.events && stop == run.stop && curThread == run.thread && State() == run.state
              && (stop != Fatal ==> Ahead() == run.rest)
    {
      hide Decode, State, Reader.Ahead;
      events := [];
      var left := frames;
      ghost var run := Process(reader.width, replay, State(), curThread, Ahead(), frames);
      assert [] + run.events == run.events;
      while left != 0
        invariant run == Before(events, Process(reader.width, replay, State(), curThread, Ahead(), left))
        decreases |Ahead()|
      {
        ghost var st, thread, s := State(), curThread, Ahead();
        var why, event := Next();
        if why != None {
          assert events + [] == events;
          return events, why.value;
        }
        ProcessNext(reader.width, replay, st, thread, s, left);
        ghost var more := Process(reader.width, replay, State(), curThread, Ahead(), FramesLeft(left, event));
        assert events + ([event] + more.events) == events + [event] + more.events;
        events := events + [event];
        if event.call.SwapBuffers? { left := left - 1; }
      }
      assert events + [] == events;
      stop := FramesDone;
    }
  }

  // Opens a file, if it is a trace, behind its header.
  method OpenTrace(file: array<Byte>, replay: bool) returns (decoder: Option<Decoder>)
    ensures var r := Open(file[..]);
            && (decoder.Some? <==> r.Some?)
            && (decoder.Some? ==>
                  && fresh(decoder.value) && fresh(decoder.value.reader) && fresh(decoder.value.enabled)
                  && decoder.value.reader.data == file && decoder.value.replay == replay
                  && decoder.value.reader.width == (if r.value.0 == 4 then Four else Eight)
                  && decoder.value.enabled.Length == MAX_VERTEX_ATTRIBS
                  && decoder.value.State() == INITIAL && decoder.value.curThread == 0
                  && decoder.value.Ahead() == r.value.1)
  {
    hide GetInt, Reader.Ahead, Decoder.State;
    var header := new Reader(file, Four);
    assert header.Ahead() == file[..] by {
      WholeFile(header);
    }
    var version := header.Int();
    if version != OPC_VERSION { return None; }
    var major := header.Int();
    var minor := header.Int();
    var rev := header.Int();
    var size := header.Int();
    var it := new Decoder(file, if size == 4 then Four else Eight, replay);
    it.reader.cur := header.cur;
    SamePlace(it.reader, header);
    decoder := Some(it);
  }

  lemma WholeFile(r: Reader)
    requires r.cur == 0
    ensures r.Ahead() == r.data[..]
  {
  }

  lemma SamePlace(a: Reader, b: Reader)
    requires a.data == b.data && a.cur == b.cur
    ensures a.Ahead() == b.Ahead()
  {
  }

  // The file a recorder leaves behind shows every call that was recorded, and nothing else.
  method ShowRecording(file: array<Byte>, replay: bool, ghost width: Width, ghost recorded: seq<Event>)
    returns (events: seq<Event>, stop: Stop)
    requires forall i :: 0 <= i < |recorded| ==> Recorded(width, recorded[i])
    requires file[..] == File(width, recorded)
    requires Framed(INITIAL, recorded) && AllReadable(replay, recorded)
    ensures events == AllCanonical(width, replay, recorded) && stop == EndOfFile
  {
    hide Open, Process, Framed, AllReadable, Recorded, Decoder.Ahead, Decoder.State, File;
    FileRead(width, replay, recorded);
    var decoder := OpenTrace(file, replay);
    events, stop := decoder.value.Show(-1);
  }

  // What has been read of a list and what is still to be read.
  function Behind<T, U>(done: seq<T>, r: (seq<T>, U)): (all: (seq<T>, U))
    ensures done == [] ==> all == r
    ensures r.0 == [] ==> all == (done, r.1)
  {
    assert [] + r.0 == r.0 && done + [] == done;
    (done + r.0, r.1)
  }

  lemma OneRead<T, U>(done: seq<T>, x: T, r: (seq<T>, U))
    ensures Behind(done, ([x] + r.0, r.1)) == Behind(done + [x], r)
  {
    assert done + ([x] + r.0) == done + [x] + r.0;
  }
}
