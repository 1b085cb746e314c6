/**
 The records of a GL trace, one call of every record shape: the fields each call is recorded as,
 and what the decoder makes of the bytes behind a command word.
 */
module Records {
  import opened Options
  import opened Wire

  // ---------- Calls ----------

  // A string of a shader and the length the caller gives for it.
  datatype Source = Source(length: Word, data: Option<Bytes>)

  // Where a draw call finds its indices: in the bound element buffer, or in client memory.
  datatype Indices = Offset(pointer: Long) | Inline(block: Block)

  datatype Call =
    | Mark(text: Option<Bytes>)
    | ActiveTexture(texture: Word)
    | BindAttribLocation(program: Word, index: Word, name: Option<Bytes>)
    | BindBuffer(target: Word, buffer: Word)
    | BufferData(target: Word, size: Word, data: Block, usage: Word)
    | ClearColor(red: Word, green: Word, blue: Word, alpha: Word)
    | DeleteTextures(n: Word, names: seq<Word>)
    | DisableAttrib(index: Word)
    | DrawElements(mode: Word, count: Word, kind: Word, indices: Indices, attribs: seq<Block>)
    | EnableAttrib(index: Word)
    | Finish
    | GenBuffers(n: Word, names: seq<Word>)
    | GetActiveUniform(program: Word, index: Word, bufsize: Word,
                       lengthPtr: Long, sizePtr: Long, kindPtr: Long, namePtr: Long,
                       length: Word, size: Word, kind: Word, name: Option<Bytes>)
    | GetAttachedShaders(program: Word, maxcount: Word, countPtr: Long, shadersPtr: Long,
                         count: Word, names: seq<Word>)
    | GetAttribLocation(program: Word, name: Option<Bytes>, res: Word)
    | GetFloatv(pname: Word, params: Option<Word>)
    | GetIntegerv(pname: Word, params: Option<Word>)
    | ShaderSource(shader: Word, count: Word, sources: seq<Source>)
    | Uniform4fv(location: Word, count: Word, data: Block)
    | VertexAttribPointer(index: Word, size: Word, kind: Word, normalized: Word, stride: Word, pointer: Long)
    | GetDisplay(id: Long, handle: Long)
    | Initialize(dpy: Long, major: Option<Word>, minor: Option<Word>, res: Word)
    | QueryString(dpy: Long, pname: Word, text: Option<Bytes>)
    | ChooseConfig(dpy: Long, pairs: seq<(Word, Word)>, configSize: Word, numConfig: Word, configs: seq<Long>, res: Word)
    | CreateWindowSurface(dpy: Long, config: Long, win: Long, pairs: seq<(Word, Word)>, handle: Long)
    | SurfaceAttrib(dpy: Long, surface: Long, attribute: Word, value: Word, res: Word)
    | CreateContext(dpy: Long, config: Long, context: Long, pairs: seq<(Word, Word)>, handle: Long)
    | DestroyContext(dpy: Long, context: Long, res: Word)
    | MakeCurrent(dpy: Long, draw: Long, read: Long, context: Long, res: Word)
    | SwapBuffers(dpy: Long, surface: Long, res: Word)

  const OPC_EOF: Word := 0xffff_ffff
  const OPC_NONE: Word := 0
  const OPC_MARK: Word := 1
  const OPC_THREAD: Word := 2
  const OPC_START: Word := 100
  const OPC_EGL: Word := 700

  function Opcode(call: Call): Word {
    match call
    case Mark(_) => OPC_MARK
    case ActiveTexture(_) => OPC_START
    case BindAttribLocation(_, _, _) => OPC_START + 2
    case BindBuffer(_, _) => OPC_START + 3
    case BufferData(_, _, _, _) => OPC_START + 12
    case ClearColor(_, _, _, _) => OPC_START + 16
    case DeleteTextures(_, _) => OPC_START + 33
    case DisableAttrib(_) => OPC_START + 39
    case DrawElements(_, _, _, _, _) => OPC_START + 41
    case EnableAttrib(_) => OPC_START + 43
    case Finish => OPC_START + 44
    case GenBuffers(_, _) => OPC_START + 49
    case GetActiveUniform(_, _, _, _, _, _, _, _, _, _, _) => OPC_START + 55
    case GetAttachedShaders(_, _, _, _, _, _) => OPC_START + 56
    case GetAttribLocation(_, _, _) => OPC_START + 57
    case GetFloatv(_, _) => OPC_START + 62
    case GetIntegerv(_, _) => OPC_START + 63
    case ShaderSource(_, _, _) => OPC_START + 98
    case Uniform4fv(_, _, _) => OPC_START + 124
    case VertexAttribPointer(_, _, _, _, _, _) => OPC_START + 140
    case GetDisplay(_, _) => OPC_EGL + 1
    case Initialize(_, _, _, _) => OPC_EGL + 2
    case QueryString(_, _, _) => OPC_EGL + 4
    case ChooseConfig(_, _, _, _, _, _) => OPC_EGL + 6
    case CreateWindowSurface(_, _, _, _, _) => OPC_EGL + 8
    case SurfaceAttrib(_, _, _, _, _) => OPC_EGL + 18
    case CreateContext(_, _, _, _, _) => OPC_EGL + 21
    case DestroyContext(_, _, _) => OPC_EGL + 22
    case MakeCurrent(_, _, _, _, _) => OPC_EGL + 23
    case SwapBuffers(_, _, _) => OPC_EGL + 30
  }

  // ---------- What both sides remember between records ----------

  const MAX_VERTEX_ATTRIBS := 128
  const GL_ARRAY_BUFFER: Word := 0x8892
  const GL_ELEMENT_ARRAY_BUFFER: Word := 0x8893
  const EGL_NONE: Word := 0x3038

  // The buffer bindings and the enabled vertex attributes: what the layout of a draw record depends on.
  datatype Shadow = Shadow(arrays: Word, elements: Word, enabled: seq<bool>)

  predicate IsShadow(st: Shadow) {
    |st.enabled| == MAX_VERTEX_ATTRIBS
  }

  const INITIAL := Shadow(0, 0, AllOff())

  function AllOff(): (flags: seq<bool>)
    ensures |flags| == MAX_VERTEX_ATTRIBS && forall i :: 0 <= i < MAX_VERTEX_ATTRIBS ==> !flags[i]
  {
    seq(MAX_VERTEX_ATTRIBS, _ => false)
  }

  function After(st: Shadow, call: Call): (st': Shadow)
    requires IsShadow(st)
    ensures IsShadow(st')
  {
    match call
    case BindBuffer(target, buffer) =>
      if target == GL_ARRAY_BUFFER then st.(arrays := buffer)
      else if target == GL_ELEMENT_ARRAY_BUFFER then st.(elements := buffer)
      else st
    case EnableAttrib(index) => if index < MAX_VERTEX_ATTRIBS then st.(enabled := st.enabled[index := true]) else st
    case DisableAttrib(index) => if index < MAX_VERTEX_ATTRIBS then st.(enabled := st.enabled[index := false]) else st
    case _ => st
  }

  // The enabled attributes from an index on.
  function Enabled(st: Shadow, from: nat): nat
    requires IsShadow(st) && from <= MAX_VERTEX_ATTRIBS
    decreases MAX_VERTEX_ATTRIBS - from
  {
    if from == MAX_VERTEX_ATTRIBS then 0
    else (if st.enabled[from] then 1 else 0) + Enabled(st, from + 1)
  }

  // The attribute arrays a draw call records.
  function Arrays(st: Shadow): nat
    requires IsShadow(st)
  {
    if st.arrays == 0 then Enabled(st, 0) else 0
  }

  // ---------- Recording ----------

  // The values a call can be made with, and the lists and blocks its counts announce.
  ghost predicate Recordable(width: Width, call: Call) {
    match call
    case Mark(text) => text.Some? ==> IsText(text.value)
    case BindAttribLocation(_, _, name) => name.Some? ==> IsText(name.value)
    case BufferData(_, size, data, _) => IsBlock(data) && data.size == size
    case DeleteTextures(n, names) => |names| == Count(n)
    case DisableAttrib(index) => index < MAX_VERTEX_ATTRIBS
    case DrawElements(_, _, _, indices, attribs) =>
      && AreIndices(width, indices)
      && (forall i :: 0 <= i < |attribs| ==> IsBlock(attribs[i]))
    case EnableAttrib(index) => index < MAX_VERTEX_ATTRIBS
    case GenBuffers(n, names) => |names| == Count(n)
    case GetActiveUniform(_, _, _, lengthPtr, sizePtr, kindPtr, namePtr, _, _, _, name) =>
      && IsPtr(width, lengthPtr) && IsPtr(width, sizePtr) && IsPtr(width, kindPtr) && IsPtr(width, namePtr)
      && (name.Some? ==> IsText(name.value))
    case GetAttachedShaders(_, _, countPtr, shadersPtr, count, names) =>
      && IsPtr(width, countPtr) && IsPtr(width, shadersPtr)
      && |names| == if countPtr != 0 && shadersPtr != 0 then Count(count) else 0
    case GetAttribLocation(_, name, _) => name.Some? ==> IsText(name.value)
    case ShaderSource(_, count, sources) =>
      && |sources| == Count(count)
      && forall i :: 0 <= i < |sources| ==> IsSource(sources[i])
    case Uniform4fv(_, count, data) => IsBlock(data) && data.size == count * 4 % 0x1_0000_0000
    case VertexAttribPointer(index, _, _, _, _, pointer) => IsPtr(width, pointer) && index < MAX_VERTEX_ATTRIBS
    case GetDisplay(id, handle) => IsPtr(width, id) && IsPtr(width, handle)
    case Initialize(dpy, _, _, _) => IsPtr(width, dpy)
    case QueryString(dpy, _, text) => IsPtr(width, dpy) && (text.Some? ==> IsText(text.value))
    case ChooseConfig(dpy, pairs, configSize, numConfig, configs, _) =>
      && IsPtr(width, dpy) && ArePairs(pairs)
      && |configs| == Listed(configSize, numConfig)
      && forall i :: 0 <= i < |configs| ==> IsPtr(width, configs[i])
    case CreateWindowSurface(dpy, config, win, pairs, handle) =>
      IsPtr(width, dpy) && IsPtr(width, config) && IsPtr(width, win) && ArePairs(pairs) && IsPtr(width, handle)
    case SurfaceAttrib(dpy, surface, _, _, _) => IsPtr(width, dpy) && IsPtr(width, surface)
    case CreateContext(dpy, config, context, pairs, handle) =>
      IsPtr(width, dpy) && IsPtr(width, config) && IsPtr(width, context) && ArePairs(pairs) && IsPtr(width, handle)
    case DestroyContext(dpy, context, _) => IsPtr(width, dpy) && IsPtr(width, context)
    case MakeCurrent(dpy, draw, read, context, _) =>
      IsPtr(width, dpy) && IsPtr(width, draw) && IsPtr(width, read) && IsPtr(width, context)
    case SwapBuffers(dpy, surface, _) => IsPtr(width, dpy) && IsPtr(width, surface)
    case _ => true
  }

  predicate AreIndices(width: Width, indices: Indices) {
    match indices
    case Offset(pointer) => IsPtr(width, pointer)
    case Inline(block) => IsBlock(block)
  }

  ghost predicate IsSource(source: Source) {
    if Signed(source.length) > 0 then IsBlock(Block(source.data, source.length))
    else source.data.Some? ==> IsText(source.data.value)
  }

  ghost predicate ArePairs(pairs: seq<(Word, Word)>) {
    forall i :: 0 <= i < |pairs| ==> pairs[i].0 != EGL_NONE
  }

  // The configurations listed: as many as there are, up to the size of the caller's array.
  function Listed(configSize: Word, numConfig: Word): nat {
    if Count(numConfig) < Count(configSize) then Count(numConfig) else Count(configSize)
  }

  // A draw call is laid out by the bindings and the enabled attributes.
  predicate Laid(st: Shadow, call: Call)
    requires IsShadow(st)
  {
    call.DrawElements? ==> (call.indices.Offset? <==> st.elements != 0) && |call.attribs| == Arrays(st)
  }

  function Ints(words: seq<Word>): (fields: seq<Bytes>)
    ensures |fields| == |words| && forall i :: 0 <= i < |words| ==> fields[i] == Int(words[i])
  {
    seq(|words|, i requires 0 <= i < |words| => Int(words[i]))
  }

  function Ptrs(width: Width, ptrs: seq<Long>): (fields: seq<Bytes>)
    requires forall i :: 0 <= i < |ptrs| ==> IsPtr(width, ptrs[i])
    ensures |fields| == |ptrs|
  {
    seq(|ptrs|, i requires 0 <= i < |ptrs| => Ptr(width, ptrs[i]))
  }

  function IndexField(width: Width, indices: Indices): Bytes
    requires AreIndices(width, indices)
  {
    match indices
    case Offset(pointer) => Ptr(width, pointer)
    case Inline(block) => Blob(block)
  }

  function Blobs(blocks: seq<Block>): (fields: seq<Bytes>)
    requires forall i :: 0 <= i < |blocks| ==> IsBlock(blocks[i])
    ensures |fields| == |blocks|
  {
    seq(|blocks|, i requires 0 <= i < |blocks| => Blob(blocks[i]))
  }

  // An attribute list without its end.
  function PairFields(pairs: seq<(Word, Word)>): (fields: seq<Bytes>)
    ensures |fields| == 2 * |pairs|
  {
    if pairs == [] then [] else [Int(pairs[0].0), Int(pairs[0].1)] + PairFields(pairs[1..])
  }

  function SourceField(source: Source): (field: Bytes)
    requires IsSource(source)
  {
    if Signed(source.length) > 0 then Blob(Block(source.data, source.length)) else Str(source.data)
  }

  function SourceFields(sources: seq<Source>): (fields: seq<Bytes>)
    requires forall i :: 0 <= i < |sources| ==> IsSource(sources[i])
    ensures |fields| == 2 * |sources|
  {
    if sources == [] then []
    else [Int(sources[0].length), SourceField(sources[0])] + SourceFields(sources[1..])
  }

  // A field that is there only if its pointer is not null.
  function Opt(ptr: Long, field: Bytes): seq<Bytes> {
    if ptr != 0 then [field] else []
  }

  // The fields of a record between the command word and the times.
  function Args(width: Width, call: Call): seq<Bytes>
    requires Recordable(width, call)
  {
    match call
    case Mark(text) => [Str(text)]
    case ActiveTexture(texture) => [Int(texture)]
    case BindAttribLocation(program, index, name) => [Int(program), Int(index), Str(name)]
    case BindBuffer(target, buffer) => [Int(target), Int(buffer)]
    case BufferData(target, size, data, usage) => [Int(target), Int(size), Blob(data), Int(usage)]
    case ClearColor(red, green, blue, alpha) => [Int(red), Int(green), Int(blue), Int(alpha)]
    case DeleteTextures(n, names) => [Int(n)] + Ints(names)
    case DisableAttrib(index) => [Int(index)]
    case DrawElements(mode, count, kind, indices, attribs) =>
      [Int(mode), Int(count), Int(kind), IndexField(width, indices)] + Blobs(attribs)
    case EnableAttrib(index) => [Int(index)]
    case Finish => []
    case GenBuffers(n, names) => [Int(n)] + Ints(names)
    case GetActiveUniform(program, index, bufsize, lengthPtr, sizePtr, kindPtr, namePtr, length, size, kind, name) =>
      [Int(program), Int(index), Int(bufsize),
       Ptr(width, lengthPtr), Ptr(width, sizePtr), Ptr(width, kindPtr), Ptr(width, namePtr)]
      + Opt(lengthPtr, Int(length)) + Opt(sizePtr, Int(size)) + Opt(kindPtr, Int(kind)) + Opt(namePtr, Str(name))
    case GetAttachedShaders(program, maxcount, countPtr, shadersPtr, count, names) =>
      [Int(program), Int(maxcount), Ptr(width, countPtr), Ptr(width, shadersPtr)]
      + Opt(countPtr, Int(count)) + Ints(names)
    case GetAttribLocation(program, name, res) => [Int(program), Str(name), Int(res)]
    case GetFloatv(pname, params) => [Int(pname), FloatPtr(params)]
    case GetIntegerv(pname, params) => [Int(pname), IntPtr(params)]
    case ShaderSource(shader, count, sources) => [Int(shader), Int(count)] + SourceFields(sources)
    case Uniform4fv(location, count, data) => [Int(location), Int(count), Blob(data)]
    case VertexAttribPointer(index, size, kind, normalized, stride, pointer) =>
      [Int(index), Int(size), Int(kind), Int(normalized), Int(stride), Ptr(width, pointer)]
    case GetDisplay(id, handle) => [Ptr(width, id), Ptr(width, handle)]
    case Initialize(dpy, major, minor, res) => [Ptr(width, dpy), IntPtr(major), IntPtr(minor), Int(res)]
    case QueryString(dpy, pname, text) => [Ptr(width, dpy), Int(pname), Str(text)]
    case ChooseConfig(dpy, pairs, configSize, numConfig, configs, res) =>
      [Ptr(width, dpy)] + PairFields(pairs) + [Int(EGL_NONE), Int(configSize), Int(numConfig)]
      + Ptrs(width, configs) + [Int(res)]
    case CreateWindowSurface(dpy, config, win, pairs, handle) =>
      [Ptr(width, dpy), Ptr(width, config), Ptr(width, win)] + PairFields(pairs) + [Int(EGL_NONE), Ptr(width, handle)]
    case SurfaceAttrib(dpy, surface, attribute, value, res) =>
      [Ptr(width, dpy), Ptr(width, surface), Int(attribute), Int(value), Int(res)]
    case CreateContext(dpy, config, context, pairs, handle) =>
      [Ptr(width, dpy), Ptr(width, config), Ptr(width, context)] + PairFields(pairs) + [Int(EGL_NONE), Ptr(width, handle)]
    case DestroyContext(dpy, context, res) => [Ptr(width, dpy), Ptr(width, context), Int(res)]
    case MakeCurrent(dpy, draw, read, context, res) =>
      [Ptr(width, dpy), Ptr(width, draw), Ptr(width, read), Ptr(width, context), Int(res)]
    case SwapBuffers(dpy, surface, res) => [Ptr(width, dpy), Ptr(width, surface), Int(res)]
  }

  // ---------- Decoding ----------

  function GetInts(n: nat, s: Bytes): (r: (seq<Word>, Bytes))
    ensures |r.1| <= |s|
  {
    if n == 0 then ([], s)
    else
      var (word, s1) := GetInt(s);
      var (words, s2) := GetInts(n - 1, s1);
      ([word] + words, s2)
  }

  function GetPtrs(width: Width, n: nat, s: Bytes): (r: (seq<Long>, Bytes))
    ensures |r.1| <= |s|
  {
    if n == 0 then ([], s)
    else
      var (ptr, s1) := GetPtr(width, s);
      var (ptrs, s2) := GetPtrs(width, n - 1, s1);
      ([ptr] + ptrs, s2)
  }

  function GetBlocks(n: nat, s: Bytes): (r: (seq<Block>, Bytes))
    ensures |r.1| <= |s|
  {
    if n == 0 then ([], s)
    else
      var (data, s1) := GetBytes(s);
      var (blocks, s2) := GetBlocks(n - 1, s1);
      ([Held(data)] + blocks, s2)
  }

  // The block that was read: its size is the number of bytes in it.
  function Held(data: Option<Bytes>): Block
    requires data.Some? ==> |data.value| < 0x8000_0000
  {
    if data == None then Block(None, 0) else Block(data, |data.value|)
  }

  function GetSource(s: Bytes): (r: (Source, Bytes))
    ensures |r.1| <= |s|
  {
    var (length, s1) := GetInt(s);
    if Signed(length) > 0 then
      var (data, s2) := GetBytes(s1);
      (Source(length, data), s2)
    else
      var (text, s2) := GetString(s1);
      (Source(0xffff_ffff, text), s2)
  }

  function GetSources(n: nat, s: Bytes): (r: (seq<Source>, Bytes))
    ensures |r.1| <= |s|
  {
    if n == 0 then ([], s)
    else
      var (source, s1) := GetSource(s);
      var (sources, s2) := GetSources(n - 1, s1);
      ([source] + sources, s2)
  }

  const MAX_ATTRIBUTES := 64

  // The pairs of an attribute list up to EGL_NONE, from the i-th entry of the decoder's array on:
  // none if the array is full before the end of the list.
  function GetPairs(i: nat, s: Bytes): (r: Option<(seq<(Word, Word)>, Bytes)>)
    requires i % 2 == 0 && i <= MAX_ATTRIBUTES
    ensures r.Some? ==> |r.value.1| <= |s|
    decreases MAX_ATTRIBUTES - i
  {
    if i == MAX_ATTRIBUTES then None
    else
      var (name, s1) := GetInt(s);
      if name == EGL_NONE then Some(([], s1))
      else
        var (value, s2) := GetInt(s1);
        match GetPairs(i + 2, s2)
        case None => None
        case Some((pairs, s3)) => Some(([(name, value)] + pairs, s3))
  }

  function GetOptInt(ptr: Long, s: Bytes): (r: (Word, Bytes))
    ensures |r.1| <= |s|
  {
    if ptr != 0 then GetInt(s) else (0, s)
  }

  datatype Parse =
    | Parsed(call: Call, rest: Bytes)
    | TooManyAttributes
    | NotImplemented

  // What is read behind a command word. Only a replay reads the names of the attached shaders.
  function DecodeGl(width: Width, replay: bool, st: Shadow, op: Word, s: Bytes): (p: Parse)
    requires IsShadow(st)
    ensures p.Parsed? ==> |p.rest| <= |s|
  {
    if op == OPC_MARK then
      var (text, s) := GetString(s);
      Parsed(Mark(text), s)
    else if op == OPC_START then
      var (texture, s) := GetInt(s);
      Parsed(ActiveTexture(texture), s)
    else if op == OPC_START + 2 then
      var (program, s) := GetInt(s);
      var (index, s) := GetInt(s);
      var (name, s) := GetString(s);
      Parsed(BindAttribLocation(program, index, name), s)
    else if op == OPC_START + 3 then
      var (target, s) := GetInt(s);
      var (buffer, s) := GetInt(s);
      Parsed(BindBuffer(target, buffer), s)
    else if op == OPC_START + 12 then
      var (target, s) := GetInt(s);
      var (size, s) := GetInt(s);
      var (data, s) := GetBytes(s);
      var (usage, s) := GetInt(s);
      Parsed(BufferData(target, size, Held(data), usage), s)
    else if op == OPC_START + 16 then
      var (red, s) := GetInt(s);
      var (green, s) := GetInt(s);
      var (blue, s) := GetInt(s);
      var (alpha, s) := GetInt(s);
      Parsed(ClearColor(red, green, blue, alpha), s)
    else if op == OPC_START + 33 then
      var (n, s) := GetInt(s);
      var (names, s) := GetInts(Count(n), s);
      Parsed(DeleteTextures(n, names), s)
    else if op == OPC_START + 39 then
      var (index, s) := GetInt(s);
      Parsed(DisableAttrib(index), s)
    else if op == OPC_START + 41 then
      var (mode, s) := GetInt(s);
      var (count, s) := GetInt(s);
      var (kind, s) := GetInt(s);
      var (indices, s) := GetIndices(width, st, s);
      var (attribs, s) := GetBlocks(Arrays(st), s);
      Parsed(DrawElements(mode, count, kind, indices, attribs), s)
    else if op == OPC_START + 43 then
      var (index, s) := GetInt(s);
      Parsed(EnableAttrib(index), s)
    else if op == OPC_START + 44 then
      Parsed(Finish, s)
    else if op == OPC_START + 49 then
      var (n, s) := GetInt(s);
      var (names, s) := GetInts(Count(n), s);
      Parsed(GenBuffers(n, names), s)
    else if op == OPC_START + 55 then
      var (program, s) := GetInt(s);
      var (index, s) := GetInt(s);
      var (bufsize, s) := GetInt(s);
      var (lengthPtr, s) := GetPtr(width, s);
      var (sizePtr, s) := GetPtr(width, s);
      var (kindPtr, s) := GetPtr(width, s);
      var (namePtr, s) := GetPtr(width, s);
      var (length, s) := GetOptInt(lengthPtr, s);
      var (size, s) := GetOptInt(sizePtr, s);
      var (kind, s) := GetOptInt(kindPtr, s);
      var (name, s) := if namePtr != 0 then GetString(s) else (None, s);
      Parsed(GetActiveUniform(program, index, bufsize, lengthPtr, sizePtr, kindPtr, namePtr, length, size, kind, name), s)
    else if op == OPC_START + 56 then
      var (program, s) := GetInt(s);
      var (maxcount, s) := GetInt(s);
      var (countPtr, s) := GetPtr(width, s);
      var (shadersPtr, s) := GetPtr(width, s);
      var (count, s) := GetOptInt(countPtr, s);
      var (names, s) := if replay && countPtr != 0 && shadersPtr != 0 then GetInts(Count(count), s) else ([], s);
      Parsed(GetAttachedShaders(program, maxcount, countPtr, shadersPtr, count, names), s)
    else if op == OPC_START + 57 then
      var (program, s) := GetInt(s);
      var (name, s) := GetString(s);
      var (res, s) := GetInt(s);
      Parsed(GetAttribLocation(program, name, res), s)
    else if op == OPC_START + 62 then
      var (pname, s) := GetInt(s);
      var (params, s) := GetFloatPtr(s);
      Parsed(GetFloatv(pname, params), s)
    else if op == OPC_START + 63 then
      var (pname, s) := GetInt(s);
      var (params, s) := GetIntPtr(s);
      Parsed(GetIntegerv(pname, params), s)
    else if op == OPC_START + 98 then
      var (shader, s) := GetInt(s);
      var (count, s) := GetInt(s);
      var (sources, s) := GetSources(Count(count), s);
      Parsed(ShaderSource(shader, count, sources), s)
    else if op == OPC_START + 124 then
      var (location, s) := GetInt(s);
      var (count, s) := GetInt(s);
      var (data, s) := GetBytes(s);
      Parsed(Uniform4fv(location, count, Held(data)), s)
    else if op == OPC_START + 140 then
      var (index, s) := GetInt(s);
      var (size, s) := GetInt(s);
      var (kind, s) := GetInt(s);
      var (normalized, s) := GetInt(s);
      var (stride, s) := GetInt(s);
      var (pointer, s) := GetPtr(width, s);
      Parsed(VertexAttribPointer(index, size, kind, normalized, stride, pointer), s)
    else NotImplemented
  }

  function GetIndices(width: Width, st: Shadow, s: Bytes): (r: (Indices, Bytes))
    ensures |r.1| <= |s|
  {
    if st.elements != 0 then
      var (pointer, s) := GetPtr(width, s);
      (Offset(pointer), s)
    else
      var (data, s) := GetBytes(s);
      (Inline(Held(data)), s)
  }

  function DecodeEgl(width: Width, op: Word, s: Bytes): (p: Parse)
    ensures p.Parsed? ==> |p.rest| <= |s|
  {
    if op == OPC_EGL + 1 then
      var (id, s) := GetPtr(width, s);
      var (handle, s) := GetPtr(width, s);
      Parsed(GetDisplay(id, handle), s)
    else if op == OPC_EGL + 2 then
      var (dpy, s) := GetPtr(width, s);
      var (major, s) := GetIntPtr(s);
      var (minor, s) := GetIntPtr(s);
      var (res, s) := GetInt(s);
      Parsed(Initialize(dpy, major, minor, res), s)
    else if op == OPC_EGL + 4 then
      var (dpy, s) := GetPtr(width, s);
      var (pname, s) := GetInt(s);
      var (text, s) := GetString(s);
      Parsed(QueryString(dpy, pname, text), s)
    else if op == OPC_EGL + 6 then
      var (dpy, s) := GetPtr(width, s);
      match GetPairs(0, s)
      case None => TooManyAttributes
      case Some((pairs, s)) =>
        var (configSize, s) := GetInt(s);
        var (numConfig, s) := GetInt(s);
        var (configs, s) := GetPtrs(width, Listed(configSize, numConfig), s);
        var (res, s) := GetInt(s);
        Parsed(ChooseConfig(dpy, pairs, configSize, numConfig, configs, res), s)
    else if op == OPC_EGL + 8 then
      var (dpy, s) := GetPtr(width, s);
      var (config, s) := GetPtr(width, s);
      var (win, s) := GetPtr(width, s);
      match GetPairs(0, s)
      case None => TooManyAttributes
      case Some((pairs, s)) =>
        var (handle, s) := GetPtr(width, s);
        Parsed(CreateWindowSurface(dpy, config, win, pairs, handle), s)
    else if op == OPC_EGL + 18 then
      var (dpy, s) := GetPtr(width, s);
      var (surface, s) := GetPtr(width, s);
      var (attribute, s) := GetInt(s);
      var (value, s) := GetInt(s);
      var (res, s) := GetInt(s);
      Parsed(SurfaceAttrib(dpy, surface, attribute, value, res), s)
    else if op == OPC_EGL + 21 then
      var (dpy, s) := GetPtr(width, s);
      var (config, s) := GetPtr(width, s);
      var (context, s) := GetPtr(width, s);
      match GetPairs(0, s)
      case None => TooManyAttributes
      case Some((pairs, s)) =>
        var (handle, s) := GetPtr(width, s);
        Parsed(CreateContext(dpy, config, context, pairs, handle), s)
    else if op == OPC_EGL + 22 then
      var (dpy, s) := GetPtr(width, s);
      var (context, s) := GetPtr(width, s);
      var (res, s) := GetInt(s);
      Parsed(DestroyContext(dpy, context, res), s)
    else if op == OPC_EGL + 23 then
      var (dpy, s) := GetPtr(width, s);
      var (draw, s) := GetPtr(width, s);
      var (read, s) := GetPtr(width, s);
      var (context, s) := GetPtr(width, s);
      var (res, s) := GetInt(s);
      Parsed(MakeCurrent(dpy, draw, read, context, res), s)
    else if op == OPC_EGL + 30 then
      var (dpy, s) := GetPtr(width, s);
      var (surface, s) := GetPtr(width, s);
      var (res, s) := GetInt(s);
      Parsed(SwapBuffers(dpy, surface, res), s)
    else NotImplemented
  }

  function DecodeArgs(width: Width, replay: bool, st: Shadow, op: Word, s: Bytes): (p: Parse)
    requires IsShadow(st)
    ensures p.Parsed? ==> |p.rest| <= |s|
  {
    if op < OPC_EGL then DecodeGl(width, replay, st, op, s) else DecodeEgl(width, op, s)
  }
}
