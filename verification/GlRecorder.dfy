/**
 The intercepted calls: each appends its record to the trace, and those that change the bindings
 or the vertex attributes keep track of them, since the layout of a draw record depends on them.
 */
module GlRecorder {
  import opened Options
  import opened Division
  import opened Wire
  import opened Records
  import opened RoundTrip
  import opened Traces
  import opened TraceWriter

  // The memory of the program that is traced.
  type Memory = int -> Byte

  datatype VertexAttrib = VertexAttrib(enabled: bool, size: Word, kind: Word, normalized: Word, stride: Word, pointer: Long) {
    // The bytes of one vertex: none if the size is negative.
    function ElementSize(): nat
      requires Known()
    {
      SizeOf(kind).value * Count(size)
    }

    predicate Known() {
      SizeOf(kind).Some?
    }

    // The distance between vertices: tightly packed unless there is a stride.
    function Step(): nat
      requires Known()
    {
      if Signed(stride) > 0 then Signed(stride) else ElementSize()
    }
  }

  function SizeOf(kind: Word): Option<nat> {
    if kind == 0x1400 || kind == 0x1401 then Some(1)
    else if kind == 0x1402 || kind == 0x1403 then Some(2)
    else if kind == 0x1404 || kind == 0x1405 || kind == 0x1406 then Some(4)
    else None
  }

  // The size of the indices, as a C int.
  function IndexBytes(count: Word, kind: Word): Word
    requires SizeOf(kind).Some?
  {
    count * SizeOf(kind).value % 0x1_0000_0000
  }

  // The vertices of count / 6 quads of six indices each. There are none if the count is negative.
  function VertexCount(count: Word): nat {
    Count(count) / 6 * 4
  }

  lemma IndexSize(count: Word, kind: Word, size: nat)
    requires (kind == 0x1401 && size == count) || (kind == 0x1403 && size == count + count) || (kind == 0x1405 && size == 4 * count)
    requires size < 0x8000_0000
    ensures SizeOf(kind).Some? && IndexBytes(count, kind) == size && Count(IndexBytes(count, kind)) == size
  {
    hide Count;
    assert count * SizeOf(kind).value == size;
    NotNegative(size);
  }

  lemma NotNegative(size: nat)
    requires size < 0x8000_0000
    ensures Count(size) == size
  {
  }

  // ---------- Vertex arrays ----------

  function VertexBytes(memory: Memory, from: int, n: nat): (bytes: Bytes)
    ensures |bytes| == n && forall k :: 0 <= k < n ==> bytes[k] == memory(from + k)
  {
    seq(n, k => memory(from + k))
  }

  // The first n vertices of an attribute, one behind the other.
  function Gathered(memory: Memory, a: VertexAttrib, n: nat): (bytes: Bytes)
    requires a.Known()
    ensures |bytes| == n * a.ElementSize()
  {
    if n == 0 then []
    else Gathered(memory, a, n - 1) + VertexBytes(memory, a.pointer + (n - 1) * a.Step(), a.ElementSize())
  }

  // Byte k of vertex j stands at j times the element size, and comes from j strides into the array.
  lemma {:induction false} GatheredAt(memory: Memory, a: VertexAttrib, n: nat, j: nat, k: nat)
    requires a.Known()
    requires j < n && k < a.ElementSize()
    ensures j * a.ElementSize() + k < |Gathered(memory, a, n)|
    ensures Gathered(memory, a, n)[j * a.ElementSize() + k] == memory(a.pointer + j * a.Step() + k)
  {
    var size := a.ElementSize();
    assert (n - 1) * size + size == n * size;
    if j < n - 1 {
      GatheredAt(memory, a, n - 1, j, k);
    }
  }

  // The bytes of one vertex by the type of its components.
  lemma ElementBytes(a: VertexAttrib)
    ensures a.kind in {0x1400, 0x1401} ==> a.Known() && a.ElementSize() == Count(a.size)
    ensures a.kind in {0x1402, 0x1403} ==> a.Known() && a.ElementSize() == Count(a.size) + Count(a.size)
    ensures a.kind in {0x1404, 0x1405, 0x1406} ==> a.Known() && a.ElementSize() == 4 * Count(a.size)
    ensures a.kind !in {0x1400, 0x1401, 0x1402, 0x1403, 0x1404, 0x1405, 0x1406} ==> !a.Known()
    ensures a.size < 0x8000_0000 ==> Count(a.size) == a.size
    ensures a.size >= 0x8000_0000 ==> Count(a.size) == 0
  {
  }

  // Vertices with a positive stride are that far apart in memory, others stand side by side.
  lemma StrideLaw(memory: Memory, a: VertexAttrib, n: nat, j: nat, k: nat)
    requires a.Known() && j < n && k < a.ElementSize()
    ensures var size := a.ElementSize();
            && j * size + k < |Gathered(memory, a, n)|
            && Gathered(memory, a, n)[j * size + k] ==
               if 0 < a.stride < 0x8000_0000 then memory(a.pointer + j * a.stride + k) else memory(a.pointer + (j * size + k))
  {
    GatheredAt(memory, a, n, j, k);
  }

  // How many of the first n attributes are enabled.
  function EnabledBefore(attribs: seq<VertexAttrib>, n: nat): (count: nat)
    requires n <= |attribs|
    ensures count <= n
  {
    if n == 0 then 0 else EnabledBefore(attribs, n - 1) + if attribs[n - 1].enabled then 1 else 0
  }

  // The array of an enabled attribute is recorded behind those of the enabled ones before it.
  lemma {:induction false} ArrayOf(memory: Memory, attribs: seq<VertexAttrib>, from: nat, i: nat, n: nat)
    requires from <= i < |attribs| && attribs[i].enabled
    requires forall m :: 0 <= m < |attribs| && attribs[m].enabled ==> attribs[m].Known() && Fits(attribs[m], n)
    ensures EnabledBefore(attribs, from) <= EnabledBefore(attribs, i)
    ensures var blocks, b := Arrayed(memory, attribs, from, n), EnabledBefore(attribs, i) - EnabledBefore(attribs, from);
            && b < |blocks|
            && blocks[b].data == Some(Gathered(memory, attribs[i], n)) && blocks[b].size == n * attribs[i].ElementSize()
    decreases i - from
  {
    hide Fits, Gathered;
    if from < i {
      ArrayOf(memory, attribs, from + 1, i, n);
    }
  }

  // Copies the vertices of one attribute to the beginning of the buffer.
  method Gather(memory: Memory, a: VertexAttrib, n: nat, buf: array<Byte>) returns (dst: nat)
    requires a.Known()
    requires n * a.ElementSize() <= buf.Length
    modifies buf
    ensures dst == n * a.ElementSize() && buf[..dst] == Gathered(memory, a, n)
  {
    var size := a.ElementSize();
    var src: int := a.pointer;
    dst := 0;
    var j := 0;
    while j < n
      invariant j <= n && dst == j * size <= buf.Length
      invariant src == a.pointer + j * a.Step()
      invariant buf[..dst] == Gathered(memory, a, j)
    {
      ghost var from := dst;
      Room(j, n, size);
      var k := 0;
      while k < size
        invariant 0 <= k <= size && dst == from + k && from + size <= buf.Length
        invariant src == a.pointer + j * a.Step() + k
        invariant buf[..dst] == Gathered(memory, a, j) + VertexBytes(memory, a.pointer + j * a.Step(), k)
      {
        buf[dst] := memory(src);
        assert buf[..dst + 1] == buf[..dst] + [memory(src)];
        dst, src, k := dst + 1, src + 1, k + 1;
      }
      if Signed(a.stride) > 0 {
        src := src + Signed(a.stride) - size;
      }
      NextStep(j, a.Step());
      j := j + 1;
    }
  }

  lemma Room(j: nat, n: nat, size: nat)
    requires j < n
    ensures j * size + size == (j + 1) * size <= n * size
  {
    MoreMultiples(j + 1, n, size);
  }

  lemma NextStep(j: nat, step: int)
    ensures j * step + step == (j + 1) * step
  {
  }

  // The vertex arrays recorded with a draw call, from an attribute on: those that are enabled.
  function Arrayed(memory: Memory, attribs: seq<VertexAttrib>, from: nat, n: nat): (blocks: seq<Block>)
    requires from <= |attribs|
    requires forall i :: 0 <= i < |attribs| && attribs[i].enabled ==> attribs[i].Known() && Fits(attribs[i], n)
    ensures forall i :: 0 <= i < |blocks| ==> IsBlock(blocks[i])
    decreases |attribs| - from
  {
    if from == |attribs| then []
    else if !attribs[from].enabled then Arrayed(memory, attribs, from + 1, n)
    else
      assert Fits(attribs[from], n);
      var data := Gathered(memory, attribs[from], n);
      [Block(Some(data), |data|)] + Arrayed(memory, attribs, from + 1, n)
  }

  // All the enabled attributes have a type the recorder knows the size of.
  predicate AllKnown(attribs: seq<VertexAttrib>) {
    forall i :: 0 <= i < |attribs| && attribs[i].enabled ==> attribs[i].Known()
  }

  // The vertices of an attribute can be held in one buffer.
  predicate Fits(a: VertexAttrib, n: nat)
    requires a.Known()
  {
    n * a.ElementSize() < SIZE_LIMIT
  }

  lemma {:induction false} ArrayedEnabled(memory: Memory, attribs: seq<VertexAttrib>, st: Shadow, from: nat, n: nat)
    requires IsShadow(st) && |attribs| == MAX_VERTEX_ATTRIBS && from <= |attribs|
    requires forall i :: 0 <= i < |attribs| ==> st.enabled[i] == attribs[i].enabled
    requires forall i :: 0 <= i < |attribs| && attribs[i].enabled ==> attribs[i].Known() && Fits(attribs[i], n)
    ensures |Arrayed(memory, attribs, from, n)| == Enabled(st, from)
    decreases |attribs| - from
  {
    hide Gathered;
    if from < |attribs| {
      ArrayedEnabled(memory, attribs, st, from + 1, n);
    }
  }

  lemma NextArray(memory: Memory, attribs: seq<VertexAttrib>, i: nat, n: nat, done: seq<Block>, block: Block)
    requires i < |attribs| && attribs[i].enabled
    requires forall j :: 0 <= j < |attribs| && attribs[j].enabled ==> attribs[j].Known() && Fits(attribs[j], n)
    requires forall j :: 0 <= j < |done| ==> IsBlock(done[j])
    requires block.data == Some(Gathered(memory, attribs[i], n)) && block.size == |block.data.value|
    ensures IsBlock(block)
    ensures done + Arrayed(memory, attribs, i, n) == done + [block] + Arrayed(memory, attribs, i + 1, n)
    ensures Blobs(done + [block]) == Blobs(done) + [Blob(block)]
  {
    hide Gathered, Blob;
    assert Fits(attribs[i], n);
    assert done + ([block] + Arrayed(memory, attribs, i + 1, n)) == done + [block] + Arrayed(memory, attribs, i + 1, n);
  }

  // ---------- Attribute lists ----------

  // EGL_NONE stands where the name of an attribute is expected.
  predicate Terminated(list: seq<Word>) {
    list != [] && (list[0] == EGL_NONE || (|list| >= 2 && Terminated(list[2..])))
  }

  function PairsOf(list: seq<Word>): (pairs: seq<(Word, Word)>)
    requires Terminated(list)
    ensures ArePairs(pairs)
  {
    if list[0] == EGL_NONE then [] else [(list[0], list[1])] + PairsOf(list[2..])
  }

  function PairsIn(list: Option<seq<Word>>): (pairs: seq<(Word, Word)>)
    requires list.Some? ==> Terminated(list.value)
    ensures ArePairs(pairs)
  {
    if list == None then [] else PairsOf(list.value)
  }

  // The pairs done and those from i on are all of them.
  predicate Remaining(list: seq<Word>, i: nat, done: seq<(Word, Word)>, all: seq<(Word, Word)>) {
    i < |list| && Terminated(list[i..]) && all == done + PairsOf(list[i..])
  }

  lemma NoFields()
    ensures PairFields([]) == []
  {
  }

  lemma NoPairYet(list: seq<Word>)
    requires Terminated(list)
    ensures Remaining(list, 0, [], PairsOf(list))
  {
    assert list[0..] == list && [] + PairsOf(list) == PairsOf(list);
  }

  lemma LastPair(list: seq<Word>, i: nat, done: seq<(Word, Word)>, all: seq<(Word, Word)>)
    requires Remaining(list, i, done, all) && list[i] == EGL_NONE
    ensures all == done
  {
    assert list[i..][0] == EGL_NONE;
  }

  lemma NextPair(list: seq<Word>, i: nat, done: seq<(Word, Word)>, all: seq<(Word, Word)>)
    requires Remaining(list, i, done, all) && list[i] != EGL_NONE
    ensures i + 1 < |list| && Remaining(list, i + 2, done + [(list[i], list[i + 1])], all)
  {
    var ahead := list[i..];
    assert ahead[2..] == list[i + 2..];
    var pair, more := (list[i], list[i + 1]), PairsOf(list[i + 2..]);
    assert done + ([pair] + more) == done + [pair] + more;
  }

  lemma {:induction false} PairFieldsSnoc(pairs: seq<(Word, Word)>, name: Word, value: Word)
    ensures PairFields(pairs + [(name, value)]) == PairFields(pairs) + [Int(name), Int(value)]
    decreases |pairs|
  {
    hide Int;
    if pairs == [] {
      assert ([] + [(name, value)])[1..] == [];
    } else {
      assert (pairs + [(name, value)])[1..] == pairs[1..] + [(name, value)];
      PairFieldsSnoc(pairs[1..], name, value);
    }
  }

  lemma {:induction false} SourceFieldsSnoc(sources: seq<Source>, source: Source)
    requires IsSource(source) && forall i :: 0 <= i < |sources| ==> IsSource(sources[i])
    ensures SourceFields(sources + [source]) == SourceFields(sources) + [Int(source.length), SourceField(source)]
    decreases |sources|
  {
    hide Int, SourceField, IsSource;
    if sources == [] {
      assert ([] + [source])[1..] == [];
    } else {
      assert (sources + [source])[1..] == sources[1..] + [source];
      SourceFieldsSnoc(sources[1..], source);
    }
  }

  // ---------- The recorder ----------

  class Recorder {
    const io: Writer
    var arrayBufferBinding: Word
    var elementArrayBufferBinding: Word
    const vertexAttrib: array<VertexAttrib>
    // The calls that have been recorded.
    ghost var events: seq<Event>

    // The bindings and flags as the decoder keeps them.
    ghost function State(): (st: Shadow)
      reads this`arrayBufferBinding, this`elementArrayBufferBinding, vertexAttrib
      requires vertexAttrib.Length == MAX_VERTEX_ATTRIBS
      ensures IsShadow(st)
    {
      Shadow(arrayBufferBinding, elementArrayBufferBinding,
             seq(MAX_VERTEX_ATTRIBS, i requires 0 <= i < MAX_VERTEX_ATTRIBS reads vertexAttrib => vertexAttrib[i].enabled))
    }

    // The trace holds exactly the records of the calls.
    ghost predicate Written()
      reads this`events, io, io.window
    {
      && io.Valid() && io.reentrance == 0
      && (forall i :: 0 <= i < |events| ==> Recorded(io.width, events[i]))
      && io.Log() == Join(io.fields) == File(io.width, events)
      && io.curThread == LastThread(0, events)
    }

    ghost predicate Valid()
      reads this, io, io.window, vertexAttrib
    {
      && Written()
      && vertexAttrib.Length == MAX_VERTEX_ATTRIBS
      && State() == AfterAll(INITIAL, events)
      && Framed(INITIAL, events)
    }

    twostate predicate Records(new e: Event)
      reads this, io, io.window, vertexAttrib
    {
      && Valid()
      && events == old(events) + [e]
    }

    constructor (width: Width)
      ensures Valid() && events == [] && io.width == width
      ensures fresh(io) && fresh(io.window) && fresh(vertexAttrib)
    {
      io := new Writer(width);
      arrayBufferBinding, elementArrayBufferBinding := 0, 0;
      vertexAttrib := new VertexAttrib[MAX_VERTEX_ATTRIBS](_ => VertexAttrib(false, 0, 0, 0, 0, 0));
      events := [];
      new;
      assert State().enabled == INITIAL.enabled;
      assert Header(width) + [] == Header(width);
    }

    // After any calls the decoder shows exactly those, and ends with the recorder's own bindings
    // and flags at the end of the file.
    lemma ReadsBack(replay: bool)
      requires Valid() && AllReadable(replay, events)
      ensures Open(io.Log()) == Some((io.width.Size(), Stream(io.width, 0, events)))
      ensures Process(io.width, replay, INITIAL, 0, Stream(io.width, 0, events), -1)
           == Run(AllCanonical(io.width, replay, events), State(), Handle(io.width, io.curThread), [], EndOfFile)
    {
      hide Open, Process, AllReadable, Framed, Recorded, File, Writer.Valid, Writer.Log;
      FileRead(io.width, replay, events);
    }

    // The record of a call is complete, and the statics are as the call leaves them.
    ghost method Commit(before: seq<Bytes>, e: Event)
      requires io.Valid() && io.reentrance == 0 && io.curThread == e.thread
      requires forall i :: 0 <= i < |events| ==> Recorded(io.width, events[i])
      requires Recorded(io.width, e)
      requires Join(before) == File(io.width, events)
      requires io.fields == before + Record(io.width, LastThread(0, events), e)
      requires vertexAttrib.Length == MAX_VERTEX_ATTRIBS
      requires Framed(INITIAL, events) && Laid(AfterAll(INITIAL, events), e.call)
      requires State() == After(AfterAll(INITIAL, events), e.call)
      modifies this`events
      ensures events == old(events) + [e]
      ensures Valid()
    {
      hide Stream, Record, Join, Recorded, After, Laid;
      JoinConcat(before, Record(io.width, LastThread(0, events), e));
      StreamSnoc(io.width, 0, events, e);
      AfterAllSnoc(INITIAL, events, e);
      events := events + [e];
      assert Header(io.width) + (Stream(io.width, 0, old(events)) + Join(Record(io.width, LastThread(0, old(events)), e)))
          == io.Log();
    }

    // ---------- Loops over lists ----------

    method PutInts(n: Word, words: seq<Word>)
      requires io.Valid() && io.reentrance == 1 && |words| == Count(n)
      modifies io, io.window
      ensures io.Puts(Ints(words))
    {
      hide Int, Join;
      var i := 0;
      while i < Signed(n)
        invariant 0 <= i <= Count(n)
        invariant io.Puts(Ints(words[..i]))
      {
        io.PutInt(words[i]);
        assert Ints(words[..i]) + [Int(words[i])] == Ints(words[..i + 1]);
        i := i + 1;
      }
      assert words[..i] == words;
    }

    method PutPtrs(ptrs: seq<Long>)
      requires io.Valid() && io.reentrance == 1
      requires forall i :: 0 <= i < |ptrs| ==> IsPtr(io.width, ptrs[i])
      modifies io, io.window
      ensures io.Puts(Ptrs(io.width, ptrs))
    {
      hide Ptr, Join;
      var i := 0;
      while i < |ptrs|
        invariant 0 <= i <= |ptrs|
        invariant io.Puts(Ptrs(io.width, ptrs[..i]))
      {
        io.PutPtr(ptrs[i]);
        assert Ptrs(io.width, ptrs[..i]) + [Ptr(io.width, ptrs[i])] == Ptrs(io.width, ptrs[..i + 1]);
        i := i + 1;
      }
      assert ptrs[..i] == ptrs;
    }

    // An attribute list in memory; there may be none.
    method PutPairs(list: Option<seq<Word>>)
      requires io.Valid() && io.reentrance == 1 && (list.Some? ==> Terminated(list.value))
      modifies io, io.window
      ensures io.Puts(PairFields(PairsIn(list)) + [Int(EGL_NONE)])
    {
      hide Int, Join, Writer.Valid, Remaining, PairFields;
      var i := 0;
      ghost var done := [];
      NoFields();
      if list.Some? { NoPairYet(list.value); }
      while list.Some? && list.value[i] != EGL_NONE
        invariant list.Some? ==> 0 <= i < |list.value| && Remaining(list.value, i, done, PairsIn(list))
        invariant list == None ==> done == []
        invariant io.Puts(PairFields(done))
        decreases if list.Some? then |list.value| - i else 0
      {
        NextPair(list.value, i, done, PairsIn(list));
        PairFieldsSnoc(done, list.value[i], list.value[i + 1]);
        io.PutInt(list.value[i]);
        io.PutInt(list.value[i + 1]);
        done := done + [(list.value[i], list.value[i + 1])];
        i := i + 2;
      }
      assert done == PairsIn(list) by {
        if list.Some? {
          LastPair(list.value, i, done, PairsIn(list));
        }
      }
      io.PutInt(EGL_NONE);
    }

    // The strings of a shader. A null length array stands for lengths of zero.
    method PutSources(count: Word, sources: seq<Source>)
      requires io.Valid() && io.reentrance == 1 && |sources| == Count(count)
      requires forall i :: 0 <= i < |sources| ==> IsSource(sources[i])
      modifies io, io.window
      ensures io.Puts(SourceFields(sources))
    {
      hide Int, Join, Writer.Valid, Blob, Str;
      var i := 0;
      while i < Signed(count)
        invariant 0 <= i <= Count(count)
        invariant io.Puts(SourceFields(sources[..i]))
      {
        var source := sources[i];
        io.PutInt(source.length);
        if Signed(source.length) > 0 {
          io.PutBytes(source.data, source.length);
        } else {
          io.PutString(source.data);
        }
        SourceFieldsSnoc(sources[..i], source);
        assert sources[..i + 1] == sources[..i] + [source];
        i := i + 1;
      }
      assert sources[..i] == sources;
    }

    // The enabled vertex arrays, each gathered in a buffer that is large enough for all of them.
    // A type of unknown size ends the program.
    method PutVertexAttrib(memory: Memory, count: Word) returns (ok: bool)
      requires io.Valid() && io.reentrance == 1 && vertexAttrib.Length == MAX_VERTEX_ATTRIBS
      requires AllFit(count)
      modifies io, io.window
      ensures ok <==> AllKnown(vertexAttrib[..])
      ensures ok ==> io.Puts(Blobs(Arrayed(memory, vertexAttrib[..], 0, VertexCount(count))))
    {
      hide Int, Join, Writer.Valid, Blob, Gathered;
      var n := VertexCount(count);
      ghost var attribs := vertexAttrib[..];
      var maxsz, i := 0, 0;
      while i < MAX_VERTEX_ATTRIBS
        invariant 0 <= i <= MAX_VERTEX_ATTRIBS
        invariant AllKnown(attribs[..i])
        invariant 0 <= maxsz && forall j :: 0 <= j < i && attribs[j].enabled ==> n * attribs[j].ElementSize() <= maxsz
      {
        var a := vertexAttrib[i];
        if a.enabled {
          if !a.Known() {
            assert !attribs[i].Known();
            return false;
          }
          maxsz := if maxsz < n * a.ElementSize() then n * a.ElementSize() else maxsz;
        }
        i := i + 1;
      }
      var buf := new Byte[maxsz];
      PutArrays(memory, n, buf);
      return true;
    }

    method PutArrays(memory: Memory, n: nat, buf: array<Byte>)
      requires io.Valid() && io.reentrance == 1 && vertexAttrib.Length == MAX_VERTEX_ATTRIBS
      requires buf != io.window
      requires forall i :: 0 <= i < vertexAttrib.Length && vertexAttrib[i].enabled
                 ==> vertexAttrib[i].Known() && Fits(vertexAttrib[i], n) && n * vertexAttrib[i].ElementSize() <= buf.Length
      modifies io, io.window, buf
      ensures io.Puts(Blobs(Arrayed(memory, vertexAttrib[..], 0, n)))
    {
      hide Int, Join, Writer.Valid, Blob, Gathered, IsBlock, VertexAttrib.ElementSize;
      ghost var attribs, all := vertexAttrib[..], Arrayed(memory, vertexAttrib[..], 0, n);
      ghost var done := [];
      assert [] + all == all;
      var i := 0;
      while i < MAX_VERTEX_ATTRIBS
        invariant 0 <= i <= MAX_VERTEX_ATTRIBS
        invariant vertexAttrib[..] == attribs
        invariant forall j :: 0 <= j < |done| ==> IsBlock(done[j])
        invariant all == done + Arrayed(memory, attribs, i, n)
        invariant io.Puts(Blobs(done))
      {
        var a := vertexAttrib[i];
        if a.enabled {
          var dst := Gather(memory, a, n, buf);
          var block := Block(Some(buf[..dst]), dst);
          NextArray(memory, attribs, i, n, done, block);
          io.PutBytes(block.data, block.size);
          done := done + [block];
        }
        i := i + 1;
      }
      assert all == done;
    }

    // ---------- Calls ----------

    method PutMark(thr: Long, text: Option<Bytes>, begin: Long, end: Long)
      requires Valid() && Recorded(io.width, Event(thr, Mark(text), begin, end))
      modifies this, io, io.window
      ensures Records(Event(thr, Mark(text), begin, end))
    {
      hide Join, Int, LongLong, Str, Blob, IntPtr, FloatPtr, Ptr, File, AfterAll, Framed, Writer.Valid, Writer.Sound, Writer.Log;
      ghost var before, e := io.fields, Event(thr, Mark(text), begin, end);
      io.PutCmd(thr, OPC_MARK);
      io.PutString(text);
      io.PutTime(begin, end);
      Commit(before, e);
    }

    method ActiveTexture(thr: Long, texture: Word, begin: Long, end: Long)
      requires Valid() && Recorded(io.width, Event(thr, Call.ActiveTexture(texture), begin, end))
      modifies this, io, io.window
      ensures Records(Event(thr, Call.ActiveTexture(texture), begin, end))
    {
      hide Join, Int, LongLong, Str, Blob, IntPtr, FloatPtr, Ptr, File, AfterAll, Framed, Writer.Valid, Writer.Sound, Writer.Log;
      ghost var before, e := io.fields, Event(thr, Call.ActiveTexture(texture), begin, end);
      io.PutCmd(thr, OPC_START);
      io.PutInt(texture);
      io.PutTime(begin, end);
      Commit(before, e);
    }

    method BindAttribLocation(thr: Long, program: Word, index: Word, name: Option<Bytes>, begin: Long, end: Long)
      requires Valid() && Recorded(io.width, Event(thr, Call.BindAttribLocation(program, index, name), begin, end))
      modifies this, io, io.window
      ensures Records(Event(thr, Call.BindAttribLocation(program, index, name), begin, end))
    {
      hide Join, Int, LongLong, Str, Blob, IntPtr, FloatPtr, Ptr, File, AfterAll, Framed, Writer.Valid, Writer.Sound, Writer.Log;
      ghost var before, e := io.fields, Event(thr, Call.BindAttribLocation(program, index, name), begin, end);
      io.PutCmd(thr, OPC_START + 2);
      io.PutInt(program);
      io.PutInt(index);
      io.PutString(name);
      io.PutTime(begin, end);
      Commit(before, e);
    }

    method BindBuffer(thr: Long, target: Word, buffer: Word, begin: Long, end: Long)
      requires Valid() && Recorded(io.width, Event(thr, Call.BindBuffer(target, buffer), begin, end))
      modifies this, io, io.window
      ensures Records(Event(thr, Call.BindBuffer(target, buffer), begin, end))
    {
      hide Join, Int, LongLong, Str, Blob, IntPtr, FloatPtr, Ptr, File, AfterAll, Framed, Writer.Valid, Writer.Sound, Writer.Log;
      ghost var before, e := io.fields, Event(thr, Call.BindBuffer(target, buffer), begin, end);
      io.PutCmd(thr, OPC_START + 3);
      io.PutInt(target);
      io.PutInt(buffer);
      io.PutTime(begin, end);
      if target == GL_ARRAY_BUFFER {
        arrayBufferBinding := buffer;
      } else if target == GL_ELEMENT_ARRAY_BUFFER {
        elementArrayBufferBinding := buffer;
      }
      Commit(before, e);
    }

    method BufferData(thr: Long, target: Word, size: Word, data: Option<Bytes>, usage: Word, begin: Long, end: Long)
      requires Valid() && Recorded(io.width, Event(thr, Call.BufferData(target, size, Block(data, size), usage), begin, end))
      modifies this, io, io.window
      ensures Records(Event(thr, Call.BufferData(target, size, Block(data, size), usage), begin, end))
    {
      hide Join, Int, LongLong, Str, Blob, IntPtr, FloatPtr, Ptr, File, AfterAll, Framed, Writer.Valid, Writer.Sound, Writer.Log;
      ghost var before, e := io.fields, Event(thr, Call.BufferData(target, size, Block(data, size), usage), begin, end);
      io.PutCmd(thr, OPC_START + 12);
      ghost var base := io.fields;
      io.PutInt(target);
      io.PutInt(size);
      io.PutBytes(data, size);
      assert io.fields == base + [Int(target), Int(size), Blob(Block(data, size))];
      io.PutInt(usage);
      io.PutTime(begin, end);
      Commit(before, e);
    }

    method ClearColor(thr: Long, red: Word, green: Word, blue: Word, alpha: Word, begin: Long, end: Long)
      requires Valid() && Recorded(io.width, Event(thr, Call.ClearColor(red, green, blue, alpha), begin, end))
      modifies this, io, io.window
      ensures Records(Event(thr, Call.ClearColor(red, green, blue, alpha), begin, end))
    {
      hide Join, Int, LongLong, Str, Blob, IntPtr, FloatPtr, Ptr, File, AfterAll, Framed, Writer.Valid, Writer.Sound, Writer.Log;
      ghost var before, e := io.fields, Event(thr, Call.ClearColor(red, green, blue, alpha), begin, end);
      io.PutCmd(thr, OPC_START + 16);
      ghost var base := io.fields;
      io.PutFloat(red);
      io.PutFloat(green);
      io.PutFloat(blue);
      io.PutFloat(alpha);
      assert io.fields == base + Args(io.width, e.call);
      io.PutTime(begin, end);
      Commit(before, e);
    }

    method DeleteTextures(thr: Long, n: Word, textures: seq<Word>, begin: Long, end: Long)
      requires Valid() && Recorded(io.width, Event(thr, Call.DeleteTextures(n, textures), begin, end))
      modifies this, io, io.window
      ensures Records(Event(thr, Call.DeleteTextures(n, textures), begin, end))
    {
      hide Join, Int, LongLong, Str, Blob, IntPtr, FloatPtr, Ptr, File, AfterAll, Framed, Writer.Valid, Writer.Sound, Writer.Log;
      ghost var before, e := io.fields, Event(thr, Call.DeleteTextures(n, textures), begin, end);
      io.PutCmd(thr, OPC_START + 33);
      io.PutInt(n);
      PutInts(n, textures);
      io.PutTime(begin, end);
      Commit(before, e);
    }

    method DisableVertexAttribArray(thr: Long, index: Word, begin: Long, end: Long)
      requires Valid() && Recorded(io.width, Event(thr, DisableAttrib(index), begin, end))
      modifies this, io, io.window, vertexAttrib
      ensures Records(Event(thr, DisableAttrib(index), begin, end))
    {
      hide Join, Int, LongLong, Str, Blob, IntPtr, FloatPtr, Ptr, File, AfterAll, Framed, Writer.Valid, Writer.Sound, Writer.Log;
      ghost var before, e := io.fields, Event(thr, DisableAttrib(index), begin, end);
      io.PutCmd(thr, OPC_START + 39);
      io.PutInt(index);
      vertexAttrib[index] := vertexAttrib[index].(enabled := false);
      io.PutTime(begin, end);
      Commit(before, e);
    }

    method EnableVertexAttribArray(thr: Long, index: Word, begin: Long, end: Long)
      requires Valid() && Recorded(io.width, Event(thr, EnableAttrib(index), begin, end))
      modifies this, io, io.window, vertexAttrib
      ensures Records(Event(thr, EnableAttrib(index), begin, end))
    {
      hide Join, Int, LongLong, Str, Blob, IntPtr, FloatPtr, Ptr, File, AfterAll, Framed, Writer.Valid, Writer.Sound, Writer.Log;
      ghost var before, e := io.fields, Event(thr, EnableAttrib(index), begin, end);
      io.PutCmd(thr, OPC_START + 43);
      io.PutInt(index);
      vertexAttrib[index] := vertexAttrib[index].(enabled := true);
      io.PutTime(begin, end);
      Commit(before, e);
    }

    method Finish(thr: Long, begin: Long, end: Long)
      requires Valid() && Recorded(io.width, Event(thr, Call.Finish, begin, end))
      modifies this, io, io.window
      ensures Records(Event(thr, Call.Finish, begin, end))
    {
      hide Join, Int, LongLong, Str, Blob, IntPtr, FloatPtr, Ptr, File, AfterAll, Framed, Writer.Valid, Writer.Sound, Writer.Log;
      ghost var before, e := io.fields, Event(thr, Call.Finish, begin, end);
      io.PutCmd(thr, OPC_START + 44);
      io.PutTime(begin, end);
      Commit(before, e);
    }

    method GenBuffers(thr: Long, n: Word, buffers: seq<Word>, begin: Long, end: Long)
      requires Valid() && Recorded(io.width, Event(thr, Call.GenBuffers(n, buffers), begin, end))
      modifies this, io, io.window
      ensures Records(Event(thr, Call.GenBuffers(n, buffers), begin, end))
    {
      hide Join, Int, LongLong, Str, Blob, IntPtr, FloatPtr, Ptr, File, AfterAll, Framed, Writer.Valid, Writer.Sound, Writer.Log;
      ghost var before, e := io.fields, Event(thr, Call.GenBuffers(n, buffers), begin, end);
      io.PutCmd(thr, OPC_START + 49);
      io.PutInt(n);
      PutInts(n, buffers);
      io.PutTime(begin, end);
      Commit(before, e);
    }

    method GetAttribLocation(thr: Long, program: Word, name: Option<Bytes>, res: Word, begin: Long, end: Long)
      requires Valid() && Recorded(io.width, Event(thr, Call.GetAttribLocation(program, name, res), begin, end))
      modifies this, io, io.window
      ensures Records(Event(thr, Call.GetAttribLocation(program, name, res), begin, end))
    {
      hide Join, Int, LongLong, Str, Blob, IntPtr, FloatPtr, Ptr, File, AfterAll, Framed, Writer.Valid, Writer.Sound, Writer.Log;
      ghost var before, e := io.fields, Event(thr, Call.GetAttribLocation(program, name, res), begin, end);
      io.PutCmd(thr, OPC_START + 57);
      io.PutInt(program);
      io.PutString(name);
      io.PutInt(res);
      io.PutTime(begin, end);
      Commit(before, e);
    }

    method GetFloatv(thr: Long, pname: Word, params: Option<Word>, begin: Long, end: Long)
      requires Valid() && Recorded(io.width, Event(thr, Call.GetFloatv(pname, params), begin, end))
      modifies this, io, io.window
      ensures Records(Event(thr, Call.GetFloatv(pname, params), begin, end))
    {
      hide Join, Int, LongLong, Str, Blob, IntPtr, FloatPtr, Ptr, File, AfterAll, Framed, Writer.Valid, Writer.Sound, Writer.Log;
      ghost var before, e := io.fields, Event(thr, Call.GetFloatv(pname, params), begin, end);
      io.PutCmd(thr, OPC_START + 62);
      io.PutInt(pname);
      io.PutFloatPtr(params);
      io.PutTime(begin, end);
      Commit(before, e);
    }

    method GetIntegerv(thr: Long, pname: Word, params: Option<Word>, begin: Long, end: Long)
      requires Valid() && Recorded(io.width, Event(thr, Call.GetIntegerv(pname, params), begin, end))
      modifies this, io, io.window
      ensures Records(Event(thr, Call.GetIntegerv(pname, params), begin, end))
    {
      hide Join, Int, LongLong, Str, Blob, IntPtr, FloatPtr, Ptr, File, AfterAll, Framed, Writer.Valid, Writer.Sound, Writer.Log;
      ghost var before, e := io.fields, Event(thr, Call.GetIntegerv(pname, params), begin, end);
      io.PutCmd(thr, OPC_START + 63);
      io.PutInt(pname);
      io.PutIntPtr(params);
      io.PutTime(begin, end);
      Commit(before, e);
    }

    method ShaderSource(thr: Long, shader: Word, count: Word, sources: seq<Source>, begin: Long, end: Long)
      requires Valid() && Recorded(io.width, Event(thr, Call.ShaderSource(shader, count, sources), begin, end))
      modifies this, io, io.window
      ensures Records(Event(thr, Call.ShaderSource(shader, count, sources), begin, end))
    {
      hide Join, Int, LongLong, Str, Blob, IntPtr, FloatPtr, Ptr, File, AfterAll, Framed, Writer.Valid, Writer.Sound, Writer.Log;
      ghost var before, e := io.fields, Event(thr, Call.ShaderSource(shader, count, sources), begin, end);
      io.PutCmd(thr, OPC_START + 98);
      io.PutInt(shader);
      io.PutInt(count);
      PutSources(count, sources);
      io.PutTime(begin, end);
      Commit(before, e);
    }

    method Uniform4fv(thr: Long, location: Word, count: Word, v: Option<Bytes>, begin: Long, end: Long)
      requires Valid() && Recorded(io.width, Event(thr, Call.Uniform4fv(location, count, Block(v, count * 4 % 0x1_0000_0000)), begin, end))
      modifies this, io, io.window
      ensures Records(Event(thr, Call.Uniform4fv(location, count, Block(v, count * 4 % 0x1_0000_0000)), begin, end))
    {
      hide Join, Int, LongLong, Str, Blob, IntPtr, FloatPtr, Ptr, File, AfterAll, Framed, Writer.Valid, Writer.Sound, Writer.Log;
      ghost var before, e := io.fields, Event(thr, Call.Uniform4fv(location, count, Block(v, count * 4 % 0x1_0000_0000)), begin, end);
      io.PutCmd(thr, OPC_START + 124);
      io.PutInt(location);
      io.PutInt(count);
      io.PutBytes(v, count * 4 % 0x1_0000_0000);
      io.PutTime(begin, end);
      Commit(before, e);
    }

    method GetDisplay(thr: Long, id: Long, res: Long, begin: Long, end: Long)
      requires Valid() && Recorded(io.width, Event(thr, Call.GetDisplay(id, res), begin, end))
      modifies this, io, io.window
      ensures Records(Event(thr, Call.GetDisplay(id, res), begin, end))
    {
      hide Join, Int, LongLong, Str, Blob, IntPtr, FloatPtr, Ptr, File, AfterAll, Framed, Writer.Valid, Writer.Sound, Writer.Log;
      ghost var before, e := io.fields, Event(thr, Call.GetDisplay(id, res), begin, end);
      io.PutCmd(thr, OPC_EGL + 1);
      io.PutPtr(id);
      io.PutPtr(res);
      io.PutTime(begin, end);
      Commit(before, e);
    }

    method Initialize(thr: Long, dpy: Long, major: Option<Word>, minor: Option<Word>, res: Word, begin: Long, end: Long)
      requires Valid() && Recorded(io.width, Event(thr, Call.Initialize(dpy, major, minor, res), begin, end))
      modifies this, io, io.window
      ensures Records(Event(thr, Call.Initialize(dpy, major, minor, res), begin, end))
    {
      hide Join, Int, LongLong, Str, Blob, IntPtr, FloatPtr, Ptr, File, AfterAll, Framed, Writer.Valid, Writer.Sound, Writer.Log;
      ghost var before, e := io.fields, Event(thr, Call.Initialize(dpy, major, minor, res), begin, end);
      io.PutCmd(thr, OPC_EGL + 2);
      io.PutPtr(dpy);
      io.PutIntPtr(major);
      io.PutIntPtr(minor);
      io.PutInt(res);
      io.PutTime(begin, end);
      Commit(before, e);
    }

    method QueryString(thr: Long, dpy: Long, name: Word, res: Option<Bytes>, begin: Long, end: Long)
      requires Valid() && Recorded(io.width, Event(thr, Call.QueryString(dpy, name, res), begin, end))
      modifies this, io, io.window
      ensures Records(Event(thr, Call.QueryString(dpy, name, res), begin, end))
    {
      hide Join, Int, LongLong, Str, Blob, IntPtr, FloatPtr, Ptr, File, AfterAll, Framed, Writer.Valid, Writer.Sound, Writer.Log;
      ghost var before, e := io.fields, Event(thr, Call.QueryString(dpy, name, res), begin, end);
      io.PutCmd(thr, OPC_EGL + 4);
      io.PutPtr(dpy);
      io.PutInt(name);
      io.PutString(res);
      io.PutTime(begin, end);
      Commit(before, e);
    }

    method PutCreateWindowSurface(dpy: Long, config: Long, win: Long, list: Option<seq<Word>>, res: Long)
      requires list.Some? ==> Terminated(list.value)
      requires io.Valid() && io.reentrance == 1 && Recordable(io.width, Call.CreateWindowSurface(dpy, config, win, PairsIn(list), res))
      modifies io, io.window
      ensures io.Puts(Args(io.width, Call.CreateWindowSurface(dpy, config, win, PairsIn(list), res)))
    {
      hide PairFields, PairsIn, Join, Int, LongLong, Str, Blob, IntPtr, FloatPtr, Ptr, Writer.Valid, Writer.Sound, Writer.Log;
      io.PutPtr(dpy);
      io.PutPtr(config);
      io.PutPtr(win);
      PutPairs(list);
      io.PutPtr(res);
    }

    method CreateWindowSurface(thr: Long, dpy: Long, config: Long, win: Long, list: Option<seq<Word>>, res: Long, begin: Long, end: Long)
      requires list.Some? ==> Terminated(list.value)
      requires Valid() && Recorded(io.width, Event(thr, Call.CreateWindowSurface(dpy, config, win, PairsIn(list), res), begin, end))
      modifies this, io, io.window
      ensures Records(Event(thr, Call.CreateWindowSurface(dpy, config, win, PairsIn(list), res), begin, end))
    {
      hide Args, Join, Int, LongLong, Str, Blob, IntPtr, FloatPtr, Ptr, File, AfterAll, Framed, Writer.Valid, Writer.Sound, Writer.Log;
      ghost var before, e := io.fields, Event(thr, Call.CreateWindowSurface(dpy, config, win, PairsIn(list), res), begin, end);
      io.PutCmd(thr, OPC_EGL + 8);
      PutCreateWindowSurface(dpy, config, win, list, res);
      io.PutTime(begin, end);
      Commit(before, e);
    }

    method PutSurfaceAttrib(dpy: Long, surface: Long, attribute: Word, value: Word, res: Word)
      requires io.Valid() && io.reentrance == 1 && Recordable(io.width, Call.SurfaceAttrib(dpy, surface, attribute, value, res))
      modifies io, io.window
      ensures io.Puts(Args(io.width, Call.SurfaceAttrib(dpy, surface, attribute, value, res)))
    {
      hide Join, Int, LongLong, Str, Blob, IntPtr, FloatPtr, Ptr, Writer.Valid, Writer.Sound, Writer.Log;
      io.PutPtr(dpy);
      io.PutPtr(surface);
      io.PutInt(attribute);
      io.PutInt(value);
      io.PutInt(res);
    }

    method SurfaceAttrib(thr: Long, dpy: Long, surface: Long, attribute: Word, value: Word, res: Word, begin: Long, end: Long)
      requires Valid() && Recorded(io.width, Event(thr, Call.SurfaceAttrib(dpy, surface, attribute, value, res), begin, end))
      modifies this, io, io.window
      ensures Records(Event(thr, Call.SurfaceAttrib(dpy, surface, attribute, value, res), begin, end))
    {
      hide Args, Join, Int, LongLong, Str, Blob, IntPtr, FloatPtr, Ptr, File, AfterAll, Framed, Writer.Valid, Writer.Sound, Writer.Log;
      ghost var before, e := io.fields, Event(thr, Call.SurfaceAttrib(dpy, surface, attribute, value, res), begin, end);
      io.PutCmd(thr, OPC_EGL + 18);
      PutSurfaceAttrib(dpy, surface, attribute, value, res);
      io.PutTime(begin, end);
      Commit(before, e);
    }

    method PutCreateContext(dpy: Long, config: Long, share: Long, list: Option<seq<Word>>, res: Long)
      requires list.Some? ==> Terminated(list.value)
      requires io.Valid() && io.reentrance == 1 && Recordable(io.width, Call.CreateContext(dpy, config, share, PairsIn(list), res))
      modifies io, io.window
      ensures io.Puts(Args(io.width, Call.CreateContext(dpy, config, share, PairsIn(list), res)))
    {
      hide PairFields, PairsIn, Join, Int, LongLong, Str, Blob, IntPtr, FloatPtr, Ptr, Writer.Valid, Writer.Sound, Writer.Log;
      io.PutPtr(dpy);
      io.PutPtr(config);
      io.PutPtr(share);
      PutPairs(list);
      io.PutPtr(res);
    }

    method CreateContext(thr: Long, dpy: Long, config: Long, share: Long, list: Option<seq<Word>>, res: Long, begin: Long, end: Long)
      requires list.Some? ==> Terminated(list.value)
      requires Valid() && Recorded(io.width, Event(thr, Call.CreateContext(dpy, config, share, PairsIn(list), res), begin, end))
      modifies this, io, io.window
      ensures Records(Event(thr, Call.CreateContext(dpy, config, share, PairsIn(list), res), begin, end))
    {
      hide Args, Join, Int, LongLong, Str, Blob, IntPtr, FloatPtr, Ptr, File, AfterAll, Framed, Writer.Valid, Writer.Sound, Writer.Log;
      ghost var before, e := io.fields, Event(thr, Call.CreateContext(dpy, config, share, PairsIn(list), res), begin, end);
      io.PutCmd(thr, OPC_EGL + 21);
      PutCreateContext(dpy, config, share, list, res);
      io.PutTime(begin, end);
      Commit(before, e);
    }

    method PutDestroyContext(dpy: Long, ctx: Long, res: Word)
      requires io.Valid() && io.reentrance == 1 && Recordable(io.width, Call.DestroyContext(dpy, ctx, res))
      modifies io, io.window
      ensures io.Puts(Args(io.width, Call.DestroyContext(dpy, ctx, res)))
    {
      hide Join, Int, LongLong, Str, Blob, IntPtr, FloatPtr, Ptr, Writer.Valid, Writer.Sound, Writer.Log;
      io.PutPtr(dpy);
      io.PutPtr(ctx);
      io.PutInt(res);
    }

    method DestroyContext(thr: Long, dpy: Long, ctx: Long, res: Word, begin: Long, end: Long)
      requires Valid() && Recorded(io.width, Event(thr, Call.DestroyContext(dpy, ctx, res), begin, end))
      modifies this, io, io.window
      ensures Records(Event(thr, Call.DestroyContext(dpy, ctx, res), begin, end))
    {
      hide Args, Join, Int, LongLong, Str, Blob, IntPtr, FloatPtr, Ptr, File, AfterAll, Framed, Writer.Valid, Writer.Sound, Writer.Log;
      ghost var before, e := io.fields, Event(thr, Call.DestroyContext(dpy, ctx, res), begin, end);
      io.PutCmd(thr, OPC_EGL + 22);
      PutDestroyContext(dpy, ctx, res);
      io.PutTime(begin, end);
      Commit(before, e);
    }

    method PutMakeCurrent(dpy: Long, draw: Long, read: Long, ctx: Long, res: Word)
      requires io.Valid() && io.reentrance == 1 && Recordable(io.width, Call.MakeCurrent(dpy, draw, read, ctx, res))
      modifies io, io.window
      ensures io.Puts(Args(io.width, Call.MakeCurrent(dpy, draw, read, ctx, res)))
    {
      hide Join, Int, LongLong, Str, Blob, IntPtr, FloatPtr, Ptr, Writer.Valid, Writer.Sound, Writer.Log;
      io.PutPtr(dpy);
      io.PutPtr(draw);
      io.PutPtr(read);
      io.PutPtr(ctx);
      io.PutInt(res);
    }

    method MakeCurrent(thr: Long, dpy: Long, draw: Long, read: Long, ctx: Long, res: Word, begin: Long, end: Long)
      requires Valid() && Recorded(io.width, Event(thr, Call.MakeCurrent(dpy, draw, read, ctx, res), begin, end))
      modifies this, io, io.window
      ensures Records(Event(thr, Call.MakeCurrent(dpy, draw, read, ctx, res), begin, end))
    {
      hide Args, Join, Int, LongLong, Str, Blob, IntPtr, FloatPtr, Ptr, File, AfterAll, Framed, Writer.Valid, Writer.Sound, Writer.Log;
      ghost var before, e := io.fields, Event(thr, Call.MakeCurrent(dpy, draw, read, ctx, res), begin, end);
      io.PutCmd(thr, OPC_EGL + 23);
      PutMakeCurrent(dpy, draw, read, ctx, res);
      io.PutTime(begin, end);
      Commit(before, e);
    }

    method PutSwapBuffers(dpy: Long, surface: Long, res: Word)
      requires io.Valid() && io.reentrance == 1 && Recordable(io.width, Call.SwapBuffers(dpy, surface, res))
      modifies io, io.window
      ensures io.Puts(Args(io.width, Call.SwapBuffers(dpy, surface, res)))
    {
      hide Join, Int, LongLong, Str, Blob, IntPtr, FloatPtr, Ptr, Writer.Valid, Writer.Sound, Writer.Log;
      io.PutPtr(dpy);
      io.PutPtr(surface);
      io.PutInt(res);
    }

    method SwapBuffers(thr: Long, dpy: Long, surface: Long, res: Word, begin: Long, end: Long)
      requires Valid() && Recorded(io.width, Event(thr, Call.SwapBuffers(dpy, surface, res), begin, end))
      modifies this, io, io.window
      ensures Records(Event(thr, Call.SwapBuffers(dpy, surface, res), begin, end))
    {
      hide Args, Join, Int, LongLong, Str, Blob, IntPtr, FloatPtr, Ptr, File, AfterAll, Framed, Writer.Valid, Writer.Sound, Writer.Log;
      ghost var before, e := io.fields, Event(thr, Call.SwapBuffers(dpy, surface, res), begin, end);
      io.PutCmd(thr, OPC_EGL + 30);
      PutSwapBuffers(dpy, surface, res);
      io.PutTime(begin, end);
      Commit(before, e);
    }

    method PutGetAttachedShaders(program: Word, maxcount: Word, countPtr: Long, shadersPtr: Long, count: Word, shaders: seq<Word>)
      requires io.Valid() && io.reentrance == 1 && Recordable(io.width, Call.GetAttachedShaders(program, maxcount, countPtr, shadersPtr, count, shaders))
      modifies io, io.window
      ensures io.Puts(Args(io.width, Call.GetAttachedShaders(program, maxcount, countPtr, shadersPtr, count, shaders)))
    {
      hide Ints, Join, Int, LongLong, Str, Blob, IntPtr, FloatPtr, Ptr, Writer.Valid, Writer.Sound, Writer.Log;
      io.PutInt(program);
      io.PutInt(maxcount);
      io.PutPtr(countPtr);
      io.PutPtr(shadersPtr);
      assert io.fields == old(io.fields) + [Int(program), Int(maxcount), Ptr(io.width, countPtr), Ptr(io.width, shadersPtr)];
      PutShaders(countPtr, shadersPtr, count, shaders);
    }

    // The shaders found, where the caller has asked for them.
    method PutShaders(countPtr: Long, shadersPtr: Long, count: Word, shaders: seq<Word>)
      requires io.Valid() && io.reentrance == 1
      requires |shaders| == if countPtr != 0 && shadersPtr != 0 then Count(count) else 0
      modifies io, io.window
      ensures io.Puts(Opt(countPtr, Int(count)) + Ints(shaders))
    {
      hide Join, Int, Ints, Writer.Valid, Writer.Sound, Writer.Log;
      NoFields();
      PutIf(countPtr, count);
      if countPtr != 0 && shadersPtr != 0 {
        PutInts(count, shaders);
      }
    }

    method GetAttachedShaders(thr: Long, program: Word, maxcount: Word, countPtr: Long, shadersPtr: Long, count: Word, shaders: seq<Word>, begin: Long, end: Long)
      requires Valid() && Recorded(io.width, Event(thr, Call.GetAttachedShaders(program, maxcount, countPtr, shadersPtr, count, shaders), begin, end))
      modifies this, io, io.window
      ensures Records(Event(thr, Call.GetAttachedShaders(program, maxcount, countPtr, shadersPtr, count, shaders), begin, end))
    {
      hide Args, Join, Int, LongLong, Str, Blob, IntPtr, FloatPtr, Ptr, File, AfterAll, Framed, Writer.Valid, Writer.Sound, Writer.Log;
      ghost var before, e := io.fields, Event(thr, Call.GetAttachedShaders(program, maxcount, countPtr, shadersPtr, count, shaders), begin, end);
      io.PutCmd(thr, OPC_START + 56);
      PutGetAttachedShaders(program, maxcount, countPtr, shadersPtr, count, shaders);
      io.PutTime(begin, end);
      Commit(before, e);
    }

    method PutVertexAttribPointer(index: Word, size: Word, kind: Word, normalized: Word, stride: Word, pointer: Long)
      requires io.Valid() && io.reentrance == 1 && Recordable(io.width, Call.VertexAttribPointer(index, size, kind, normalized, stride, pointer))
      modifies io, io.window
      ensures io.Puts(Args(io.width, Call.VertexAttribPointer(index, size, kind, normalized, stride, pointer)))
    {
      hide Join, Int, LongLong, Str, Blob, IntPtr, FloatPtr, Ptr, Writer.Valid, Writer.Sound, Writer.Log;
      io.PutInt(index);
      io.PutInt(size);
      io.PutInt(kind);
      io.PutInt(normalized);
      io.PutInt(stride);
      io.PutPtr(pointer);
    }

    method VertexAttribPointer(thr: Long, index: Word, size: Word, kind: Word, normalized: Word, stride: Word, pointer: Long, begin: Long, end: Long)
      requires Valid() && Recorded(io.width, Event(thr, Call.VertexAttribPointer(index, size, kind, normalized, stride, pointer), begin, end))
      modifies this, io, io.window, vertexAttrib
      ensures Records(Event(thr, Call.VertexAttribPointer(index, size, kind, normalized, stride, pointer), begin, end))
    {
      hide Args, Join, Int, LongLong, Str, Blob, IntPtr, FloatPtr, Ptr, File, AfterAll, Framed, Writer.Valid, Writer.Sound, Writer.Log;
      ghost var before, e := io.fields, Event(thr, Call.VertexAttribPointer(index, size, kind, normalized, stride, pointer), begin, end);
      io.PutCmd(thr, OPC_START + 140);
      PutVertexAttribPointer(index, size, kind, normalized, stride, pointer);
      vertexAttrib[index] := VertexAttrib(vertexAttrib[index].enabled, size, kind, normalized, stride, pointer);
      io.PutTime(begin, end);
      Commit(before, e);
    }

    method PutGetActiveUniform(program: Word, index: Word, bufsize: Word, lengthPtr: Long, sizePtr: Long, kindPtr: Long, namePtr: Long,
                            length: Word, size: Word, kind: Word, name: Option<Bytes>)
      requires io.Valid() && io.reentrance == 1 && Recordable(io.width, Call.GetActiveUniform(program, index, bufsize, lengthPtr, sizePtr, kindPtr, namePtr, length, size, kind, name))
      modifies io, io.window
      ensures io.Puts(Args(io.width, Call.GetActiveUniform(program, index, bufsize, lengthPtr, sizePtr, kindPtr, namePtr, length, size, kind, name)))
    {
      hide Join, Int, LongLong, Str, Blob, IntPtr, FloatPtr, Ptr, Opt, Writer.Valid, Writer.Sound, Writer.Log;
      io.PutInt(program);
      io.PutInt(index);
      io.PutInt(bufsize);
      assert io.fields == old(io.fields) + [Int(program), Int(index), Int(bufsize)];
      PutPlaces(lengthPtr, sizePtr, kindPtr, namePtr);
      assert io.fields == old(io.fields) + [Int(program), Int(index), Int(bufsize),
        Ptr(io.width, lengthPtr), Ptr(io.width, sizePtr), Ptr(io.width, kindPtr), Ptr(io.width, namePtr)];
      PutUniform(lengthPtr, sizePtr, kindPtr, namePtr, length, size, kind, name);
    }

    // Where the caller wants what is found.
    method PutPlaces(lengthPtr: Long, sizePtr: Long, kindPtr: Long, namePtr: Long)
      requires io.Valid() && io.reentrance == 1
      requires IsPtr(io.width, lengthPtr) && IsPtr(io.width, sizePtr) && IsPtr(io.width, kindPtr) && IsPtr(io.width, namePtr)
      modifies io, io.window
      ensures io.Puts([Ptr(io.width, lengthPtr), Ptr(io.width, sizePtr), Ptr(io.width, kindPtr), Ptr(io.width, namePtr)])
    {
      hide Join, Ptr, Writer.Valid, Writer.Sound, Writer.Log;
      io.PutPtr(lengthPtr);
      io.PutPtr(sizePtr);
      io.PutPtr(kindPtr);
      io.PutPtr(namePtr);
    }

    // What was found, where the caller has asked for it.
    method PutUniform(lengthPtr: Long, sizePtr: Long, kindPtr: Long, namePtr: Long,
                      length: Word, size: Word, kind: Word, name: Option<Bytes>)
      requires io.Valid() && io.reentrance == 1 && (name.Some? ==> IsText(name.value))
      modifies io, io.window
      ensures io.Puts(Opt(lengthPtr, Int(length)) + Opt(sizePtr, Int(size)) + Opt(kindPtr, Int(kind)) + Opt(namePtr, Str(name)))
    {
      hide Join, Int, Str, Writer.Valid, Writer.Sound, Writer.Log;
      PutIf(lengthPtr, length);
      PutIf(sizePtr, size);
      PutIf(kindPtr, kind);
      assert io.fields == old(io.fields) + (Opt(lengthPtr, Int(length)) + Opt(sizePtr, Int(size)) + Opt(kindPtr, Int(kind)));
      if namePtr != 0 { io.PutString(name); }
    }

    method PutIf(ptr: Long, arg: Word)
      requires io.Valid() && io.reentrance == 1
      modifies io, io.window
      ensures io.Puts(Opt(ptr, Int(arg)))
    {
      hide Join, Int, Writer.Valid, Writer.Sound, Writer.Log;
      if ptr != 0 { io.PutInt(arg); }
    }

    method GetActiveUniform(thr: Long, program: Word, index: Word, bufsize: Word, lengthPtr: Long, sizePtr: Long, kindPtr: Long, namePtr: Long,
                            length: Word, size: Word, kind: Word, name: Option<Bytes>, begin: Long, end: Long)
      requires Valid() && Recorded(io.width, Event(thr, Call.GetActiveUniform(program, index, bufsize, lengthPtr, sizePtr, kindPtr, namePtr, length, size, kind, name), begin, end))
      modifies this, io, io.window
      ensures Records(Event(thr, Call.GetActiveUniform(program, index, bufsize, lengthPtr, sizePtr, kindPtr, namePtr, length, size, kind, name), begin, end))
    {
      hide Args, Join, Int, LongLong, Str, Blob, IntPtr, FloatPtr, Ptr, File, AfterAll, Framed, Writer.Valid, Writer.Sound, Writer.Log;
      ghost var before, e := io.fields, Event(thr, Call.GetActiveUniform(program, index, bufsize, lengthPtr, sizePtr, kindPtr, namePtr, length, size, kind, name), begin, end);
      io.PutCmd(thr, OPC_START + 55);
      PutGetActiveUniform(program, index, bufsize, lengthPtr, sizePtr, kindPtr, namePtr, length, size, kind, name);
      io.PutTime(begin, end);
      Commit(before, e);
    }

    method PutChooseConfig(dpy: Long, list: Option<seq<Word>>, configSize: Word, numConfig: Word, configs: seq<Long>, res: Word)
      requires list.Some? ==> Terminated(list.value)
      requires io.Valid() && io.reentrance == 1 && Recordable(io.width, Call.ChooseConfig(dpy, PairsIn(list), configSize, numConfig, configs, res))
      modifies io, io.window
      ensures io.Puts(Args(io.width, Call.ChooseConfig(dpy, PairsIn(list), configSize, numConfig, configs, res)))
    {
      hide Join, PairFields, Ptrs, Int, LongLong, Str, Blob, IntPtr, FloatPtr, Ptr, Writer.Valid, Writer.Sound, Writer.Log;
      PutSearch(dpy, list, configSize, numConfig);
      PutPtrs(configs);
      io.PutInt(res);
    }

    // What is searched for, and how many configurations were found.
    method PutSearch(dpy: Long, list: Option<seq<Word>>, configSize: Word, numConfig: Word)
      requires list.Some? ==> Terminated(list.value)
      requires io.Valid() && io.reentrance == 1 && IsPtr(io.width, dpy)
      modifies io, io.window
      ensures io.Puts([Ptr(io.width, dpy)] + PairFields(PairsIn(list)) + [Int(EGL_NONE), Int(configSize), Int(numConfig)])
    {
      hide Join, PairFields, PairsIn, Int, Ptr, Writer.Valid, Writer.Sound, Writer.Log;
      io.PutPtr(dpy);
      PutPairs(list);
      io.PutInt(configSize);
      io.PutInt(numConfig);
    }

    method ChooseConfig(thr: Long, dpy: Long, list: Option<seq<Word>>, configSize: Word, numConfig: Word, configs: seq<Long>, res: Word, begin: Long, end: Long)
      requires list.Some? ==> Terminated(list.value)
      requires Valid() && Recorded(io.width, Event(thr, Call.ChooseConfig(dpy, PairsIn(list), configSize, numConfig, configs, res), begin, end))
      modifies this, io, io.window
      ensures Records(Event(thr, Call.ChooseConfig(dpy, PairsIn(list), configSize, numConfig, configs, res), begin, end))
    {
      hide Args, Join, Int, LongLong, Str, Blob, IntPtr, FloatPtr, Ptr, File, AfterAll, Framed, Writer.Valid, Writer.Sound, Writer.Log;
      ghost var before, e := io.fields, Event(thr, Call.ChooseConfig(dpy, PairsIn(list), configSize, numConfig, configs, res), begin, end);
      io.PutCmd(thr, OPC_EGL + 6);
      PutChooseConfig(dpy, list, configSize, numConfig, configs, res);
      io.PutTime(begin, end);
      Commit(before, e);
    }

    // The indices are in the bound element buffer, or are recorded from memory; the vertex arrays
    // are recorded unless a buffer is bound. A type of unknown size ends the program.
    method DrawElements(thr: Long, memory: Memory, mode: Word, count: Word, kind: Word, indices: Long, begin: Long, end: Long)
      returns (ok: bool)
      requires Valid() && IsPtr(io.width, thr) && IsPtr(io.width, indices)
      requires elementArrayBufferBinding == 0 && SizeOf(kind).Some? ==> Count(IndexBytes(count, kind)) < SIZE_LIMIT
      requires arrayBufferBinding == 0 ==> AllFit(count)
      modifies this, io, io.window
      ensures ok <==> old((elementArrayBufferBinding != 0 || SizeOf(kind).Some?)
                          && (arrayBufferBinding != 0 || AllKnown(vertexAttrib[..])))
      ensures ok ==> old(Drawable(count, kind))
                     && Records(Event(thr, old(DrawOf(memory, mode, count, kind, indices)), begin, end))
    {
      if elementArrayBufferBinding == 0 && SizeOf(kind) == None { return false; }
      ok := PutDrawRecord(thr, memory, mode, count, kind, indices, begin, end);
    }

    ghost function DrawOf(memory: Memory, mode: Word, count: Word, kind: Word, indices: Long): (call: Call)
      reads this`arrayBufferBinding, this`elementArrayBufferBinding, vertexAttrib
      requires Drawable(count, kind)
      ensures call.DrawElements?
    {
      Call.DrawElements(mode, count, kind, IndicesOf(memory, count, kind, indices), ArraysOf(memory, count, kind))
    }

    // What a draw call records of the array of an enabled attribute i, if no buffer is bound: of
    // count / 6 quads the bytes of all four vertices, from where the stride puts them.
    lemma DrawnVertex(memory: Memory, mode: Word, count: Word, kind: Word, indices: Long, i: nat, j: nat, k: nat)
      requires Drawable(count, kind) && arrayBufferBinding == 0 && i < vertexAttrib.Length && vertexAttrib[i].enabled
      ensures var a, b := vertexAttrib[i], EnabledBefore(vertexAttrib[..], i);
              var blocks := DrawOf(memory, mode, count, kind, indices).attribs;
              && a.Known() && b < |blocks| && blocks[b].data.Some?
              && blocks[b].size == |blocks[b].data.value| == (if count < 0x8000_0000 then 4 * (count / 6) else 0) * a.ElementSize()
              && (count < 0x8000_0000 && j < 4 * (count / 6) && k < a.ElementSize() ==>
                    && j * a.ElementSize() + k < |blocks[b].data.value|
                    && blocks[b].data.value[j * a.ElementSize() + k] ==
                       if 0 < a.stride < 0x8000_0000 then memory(a.pointer + j * a.stride + k)
                       else memory(a.pointer + (j * a.ElementSize() + k)))
    {
      hide Gathered, Arrayed, EnabledBefore, IndicesOf, VertexAttrib.ElementSize, Fits;
      var n := VertexCount(count);
      assert forall m :: 0 <= m < vertexAttrib.Length ==> vertexAttrib[..][m] == vertexAttrib[m];
      NoneBefore(vertexAttrib[..]);
      ArrayOf(memory, vertexAttrib[..], 0, i, n);
      if j < n && k < vertexAttrib[i].ElementSize() {
        StrideLaw(memory, vertexAttrib[i], n, j, k);
      }
    }

    // And of its indices, if no element buffer is bound: count of them, of one, two or four bytes.
    lemma DrawnIndices(memory: Memory, mode: Word, count: Word, kind: Word, indices: Long, size: nat)
      requires Drawable(count, kind) && elementArrayBufferBinding == 0
      requires (kind == 0x1401 && size == count) || (kind == 0x1403 && size == count + count) || (kind == 0x1405 && size == 4 * count)
      requires size < 0x8000_0000
      ensures var block := DrawOf(memory, mode, count, kind, indices).indices;
              && block.Inline? && block.block.size == size
              && (if indices == 0 then block.block.data == None
                  else block.block.data.Some? && |block.block.data.value| == size
                       && forall k :: 0 <= k < size ==> block.block.data.value[k] == memory(indices + k))
    {
      hide Arrayed, ArraysOf, IndexBytes, SizeOf, AllKnown, AllFit;
      IndexSize(count, kind, size);
    }

    // The vertex arrays to be recorded are not too large.
    ghost predicate AllFit(count: Word)
      reads vertexAttrib
    {
      forall i :: 0 <= i < vertexAttrib.Length && vertexAttrib[i].enabled && vertexAttrib[i].Known()
        ==> Fits(vertexAttrib[i], VertexCount(count))
    }

    // All the types are known and the data fits, where it is to be recorded.
    ghost predicate Drawable(count: Word, kind: Word)
      reads this`arrayBufferBinding, this`elementArrayBufferBinding, vertexAttrib
    {
      && (elementArrayBufferBinding == 0 ==> SizeOf(kind).Some?)
      && (arrayBufferBinding == 0 ==> AllKnown(vertexAttrib[..]) && AllFit(count))
    }

    method PutDrawRecord(thr: Long, memory: Memory, mode: Word, count: Word, kind: Word, indices: Long, begin: Long, end: Long)
      returns (ok: bool)
      requires Valid() && IsPtr(io.width, thr) && IsPtr(io.width, indices)
      requires elementArrayBufferBinding == 0 ==> SizeOf(kind).Some?
      requires elementArrayBufferBinding == 0 && SizeOf(kind).Some? ==> Count(IndexBytes(count, kind)) < SIZE_LIMIT
      requires arrayBufferBinding == 0 ==> AllFit(count)
      modifies this, io, io.window
      ensures ok <==> old(arrayBufferBinding != 0 || AllKnown(vertexAttrib[..]))
      ensures ok ==> old(Drawable(count, kind))
                     && Records(Event(thr, old(DrawOf(memory, mode, count, kind, indices)), begin, end))
    {
      hide Args, Join, Int, LongLong, Blob, Ptr, File, AfterAll, Framed, Writer.Valid, Writer.Sound, Writer.Log;
      hide Recordable, DrawOf, AllKnown, Fits, State, Laid;
      ghost var before := io.fields;
      io.PutCmd(thr, OPC_START + 41);
      ok := PutDraw(memory, mode, count, kind, indices);
      if ok {
        ghost var e := Event(thr, DrawOf(memory, mode, count, kind, indices), begin, end);
        io.PutTime(begin, end);
        DrawLaid(memory, mode, count, kind, indices);
        Commit(before, e);
      }
    }

    ghost function IndicesOf(memory: Memory, count: Word, kind: Word, indices: Long): Indices
      reads this`elementArrayBufferBinding
      requires elementArrayBufferBinding == 0 ==> SizeOf(kind).Some?
    {
      if elementArrayBufferBinding != 0 then Offset(indices)
      else
        var size := IndexBytes(count, kind);
        Inline(Block(if indices == 0 then None else Some(VertexBytes(memory, indices, Count(size))), size))
    }

    ghost function ArraysOf(memory: Memory, count: Word, kind: Word): (blocks: seq<Block>)
      reads this`arrayBufferBinding, this`elementArrayBufferBinding, vertexAttrib
      requires Drawable(count, kind)
      ensures forall i :: 0 <= i < |blocks| ==> IsBlock(blocks[i])
    {
      if arrayBufferBinding != 0 then []
      else
        assert forall i :: 0 <= i < vertexAttrib.Length ==> vertexAttrib[..][i] == vertexAttrib[i];
        Arrayed(memory, vertexAttrib[..], 0, VertexCount(count))
    }

    lemma DrawLaid(memory: Memory, mode: Word, count: Word, kind: Word, indices: Long)
      requires vertexAttrib.Length == MAX_VERTEX_ATTRIBS && Drawable(count, kind)
      ensures Laid(State(), DrawOf(memory, mode, count, kind, indices))
    {
      if arrayBufferBinding == 0 {
        assert forall i :: 0 <= i < vertexAttrib.Length ==> vertexAttrib[..][i] == vertexAttrib[i];
        ArrayedEnabled(memory, vertexAttrib[..], State(), 0, VertexCount(count));
      }
    }

    method PutDraw(memory: Memory, mode: Word, count: Word, kind: Word, indices: Long) returns (ok: bool)
      requires io.Valid() && io.reentrance == 1 && vertexAttrib.Length == MAX_VERTEX_ATTRIBS && IsPtr(io.width, indices)
      requires elementArrayBufferBinding == 0 ==> SizeOf(kind).Some?
      requires elementArrayBufferBinding == 0 && SizeOf(kind).Some? ==> Count(IndexBytes(count, kind)) < SIZE_LIMIT
      requires arrayBufferBinding == 0 ==> AllFit(count)
      modifies io, io.window
      ensures ok <==> arrayBufferBinding != 0 || AllKnown(vertexAttrib[..])
      ensures ok ==> Drawable(count, kind)
      ensures ok ==> var call := DrawOf(memory, mode, count, kind, indices);
                     Recordable(io.width, call) && io.Puts(Args(io.width, call))
    {
      hide Join, Int, IndexField, Writer.Valid, Writer.Sound, Writer.Log, Arrayed, Blobs, AllKnown, Fits, IndicesOf;
      PutIndices(memory, mode, count, kind, indices);
      ok := true;
      if arrayBufferBinding == 0 {
        ok := PutVertexAttrib(memory, count);
      } else {
        NoBlobs();
      }
    }

    method PutIndices(memory: Memory, mode: Word, count: Word, kind: Word, indices: Long)
      requires io.Valid() && io.reentrance == 1 && IsPtr(io.width, indices)
      requires elementArrayBufferBinding == 0 ==> SizeOf(kind).Some?
      requires elementArrayBufferBinding == 0 && SizeOf(kind).Some? ==> Count(IndexBytes(count, kind)) < SIZE_LIMIT
      modifies io, io.window
      ensures AreIndices(io.width, IndicesOf(memory, count, kind, indices))
      ensures io.Puts([Int(mode), Int(count), Int(kind), IndexField(io.width, IndicesOf(memory, count, kind, indices))])
    {
      hide Join, Int, Blob, Ptr, Writer.Valid, Writer.Sound, Writer.Log;
      io.PutInt(mode);
      io.PutInt(count);
      io.PutInt(kind);
      if elementArrayBufferBinding != 0 {
        io.PutPtr(indices);
      } else {
        var size := IndexBytes(count, kind);
        io.PutBytes(if indices == 0 then None else Some(VertexBytes(memory, indices, Count(size))), size);
      }
    }
  }

  lemma NoneBefore(attribs: seq<VertexAttrib>)
    ensures EnabledBefore(attribs, 0) == 0
  {
  }

  lemma NoBlobs()
    ensures Blobs([]) == []
  {
  }
}
