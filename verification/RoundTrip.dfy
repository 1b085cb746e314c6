/**
 Every recorded call is read back: the fields of a record, laid end to end, decode to the call in
 canonical form, and the decoder stops exactly behind them.
 */
module RoundTrip {
  import opened Options
  import opened Wire
  import opened Records

  // ---------- Fields laid end to end ----------

  function Join(fields: seq<Bytes>): Bytes {
    if fields == [] then [] else fields[0] + Join(fields[1..])
  }

  lemma {:induction false} JoinConcat(a: seq<Bytes>, b: seq<Bytes>)
    ensures Join(a + b) == Join(a) + Join(b)
    decreases |a|
  {
    if a == [] {
      assert a + b == b;
    } else {
      assert (a + b)[1..] == a[1..] + b;
      JoinConcat(a[1..], b);
    }
  }

  lemma JoinOne(field: Bytes)
    ensures Join([field]) == field
  {
    assert [field][1..] == [];
  }

  // The bytes from the i-th field on.
  function From(fields: seq<Bytes>, i: nat, rest: Bytes): Bytes
    requires i <= |fields|
  {
    Join(fields[i..]) + rest
  }

  lemma FieldAt(fields: seq<Bytes>, i: nat, rest: Bytes)
    requires i < |fields|
    ensures From(fields, i, rest) == fields[i] + From(fields, i + 1, rest)
  {
    assert fields[i..][0] == fields[i] && fields[i..][1..] == fields[i + 1..];
    assert fields[i] + (Join(fields[i + 1..]) + rest) == fields[i] + Join(fields[i + 1..]) + rest;
  }

  // The first n fields, one after the other.
  lemma Fields(fields: seq<Bytes>, n: nat, rest: Bytes)
    requires n <= |fields|
    ensures From(fields, 0, rest) == Join(fields) + rest
    ensures From(fields, |fields|, rest) == rest
    ensures forall i {:trigger From(fields, i, rest)} :: 0 <= i < n ==> From(fields, i, rest) == fields[i] + From(fields, i + 1, rest)
  {
    assert fields[0..] == fields;
    assert Join([]) + rest == rest;
    forall i | 0 <= i < n ensures From(fields, i, rest) == fields[i] + From(fields, i + 1, rest) {
      FieldAt(fields, i, rest);
    }
  }

  // ---------- Lists ----------

  // The list xs of fields stands at k.
  predicate Stand(fields: seq<Bytes>, k: nat, xs: seq<Bytes>) {
    k + |xs| <= |fields| && forall i :: 0 <= i < |xs| ==> fields[k + i] == xs[i]
  }

  lemma StandNext(fields: seq<Bytes>, k: nat, xs: seq<Bytes>)
    requires Stand(fields, k, xs) && xs != []
    ensures fields[k] == xs[0] && Stand(fields, k + 1, xs[1..])
  {
    assert fields[k + 0] == xs[0];
    forall i | 0 <= i < |xs| - 1 ensures fields[k + 1 + i] == xs[1..][i] {
      assert fields[k + (i + 1)] == xs[i + 1];
    }
  }

  lemma {:induction false} IntsRead(words: seq<Word>, fields: seq<Bytes>, k: nat, rest: Bytes)
    requires Stand(fields, k, Ints(words))
    ensures GetInts(|words|, From(fields, k, rest)) == (words, From(fields, k + |words|, rest))
    decreases |words|
  {
    hide Int, GetInt, From;
    if words != [] {
      FieldAt(fields, k, rest);
      StandNext(fields, k, Ints(words));
      assert Ints(words)[1..] == Ints(words[1..]);
      IntsRead(words[1..], fields, k + 1, rest);
      assert words == [words[0]] + words[1..];
    }
  }

  function Handles(width: Width, ptrs: seq<Long>): (handles: seq<Long>)
    ensures |handles| == |ptrs| && forall i :: 0 <= i < |ptrs| ==> handles[i] == Handle(width, ptrs[i])
  {
    seq(|ptrs|, i requires 0 <= i < |ptrs| => Handle(width, ptrs[i]))
  }

  lemma {:induction false} PtrsRead(width: Width, ptrs: seq<Long>, fields: seq<Bytes>, k: nat, rest: Bytes)
    requires forall i :: 0 <= i < |ptrs| ==> IsPtr(width, ptrs[i])
    requires Stand(fields, k, Ptrs(width, ptrs))
    ensures GetPtrs(width, |ptrs|, From(fields, k, rest)) == (Handles(width, ptrs), From(fields, k + |ptrs|, rest))
    decreases |ptrs|
  {
    hide Ptr, GetPtr, Handle, From;
    if ptrs != [] {
      FieldAt(fields, k, rest);
      StandNext(fields, k, Ptrs(width, ptrs));
      assert Ptrs(width, ptrs)[1..] == Ptrs(width, ptrs[1..]);
      PtrsRead(width, ptrs[1..], fields, k + 1, rest);
      assert Handles(width, ptrs) == [Handle(width, ptrs[0])] + Handles(width, ptrs[1..]);
    }
  }

  // A block as it is read back.
  function Kept(b: Block): Block
    requires IsBlock(b)
  {
    Held(BytesOf(b))
  }

  function AllKept(blocks: seq<Block>): (kept: seq<Block>)
    requires forall i :: 0 <= i < |blocks| ==> IsBlock(blocks[i])
    ensures |kept| == |blocks| && forall i :: 0 <= i < |blocks| ==> kept[i] == Kept(blocks[i])
  {
    seq(|blocks|, i requires 0 <= i < |blocks| => Kept(blocks[i]))
  }

  lemma {:induction false} BlobsRead(blocks: seq<Block>, fields: seq<Bytes>, k: nat, rest: Bytes)
    requires forall i :: 0 <= i < |blocks| ==> IsBlock(blocks[i])
    requires Stand(fields, k, Blobs(blocks))
    ensures GetBlocks(|blocks|, From(fields, k, rest)) == (AllKept(blocks), From(fields, k + |blocks|, rest))
    decreases |blocks|
  {
    hide Blob, GetBytes, BytesOf, Int, Held, From;
    if blocks != [] {
      FieldAt(fields, k, rest);
      StandNext(fields, k, Blobs(blocks));
      assert Blobs(blocks)[1..] == Blobs(blocks[1..]);
      BlobsRead(blocks[1..], fields, k + 1, rest);
      assert AllKept(blocks) == [Kept(blocks[0])] + AllKept(blocks[1..]);
    }
  }

  // A shader string as it is read back: a length that is not positive becomes -1.
  function SourceKept(source: Source): Source
    requires Signed(source.length) > 0 ==> IsBlock(Block(source.data, source.length))
  {
    if Signed(source.length) > 0 then Source(source.length, BytesOf(Block(source.data, source.length)))
    else Source(0xffff_ffff, Some(TextOf(source.data)))
  }

  lemma SourceRead(source: Source, rest: Bytes)
    requires IsSource(source)
    ensures GetSource(Int(source.length) + (SourceField(source) + rest)) == (SourceKept(source), rest)
  {
    hide Int, Blob, Str, GetInt, GetBytes, GetString;
  }

  function SourcesKept(sources: seq<Source>): (kept: seq<Source>)
    requires forall i :: 0 <= i < |sources| && Signed(sources[i].length) > 0 ==> IsBlock(Block(sources[i].data, sources[i].length))
    ensures |kept| == |sources| && forall i :: 0 <= i < |sources| ==> kept[i] == SourceKept(sources[i])
  {
    seq(|sources|, i requires 0 <= i < |sources| => SourceKept(sources[i]))
  }

  lemma {:induction false} SourcesRead(sources: seq<Source>, fields: seq<Bytes>, k: nat, rest: Bytes)
    requires forall i :: 0 <= i < |sources| ==> IsSource(sources[i])
    requires Stand(fields, k, SourceFields(sources))
    ensures GetSources(|sources|, From(fields, k, rest)) == (SourcesKept(sources), From(fields, k + 2 * |sources|, rest))
    decreases |sources|
  {
    hide SourceField, GetSource, SourceKept, From, Stand, Int;
    if sources != [] {
      StandTwo(fields, k, Int(sources[0].length), SourceField(sources[0]), SourceFields(sources[1..]));
      FieldAt(fields, k, rest);
      FieldAt(fields, k + 1, rest);
      SourceRead(sources[0], From(fields, k + 2, rest));
      SourcesRead(sources[1..], fields, k + 2, rest);
      assert SourcesKept(sources) == [SourceKept(sources[0])] + SourcesKept(sources[1..]);
    }
  }

  lemma StandTwo(fields: seq<Bytes>, k: nat, x: Bytes, y: Bytes, xs: seq<Bytes>)
    requires Stand(fields, k, [x, y] + xs)
    ensures k + 1 < |fields| && fields[k] == x && fields[k + 1] == y && Stand(fields, k + 2, xs)
  {
    var all := [x, y] + xs;
    StandNext(fields, k, all);
    StandNext(fields, k + 1, all[1..]);
    assert all[1..][1..] == xs;
  }

  // Thirty-one pairs and the end of the list fit the decoder's array; one pair more does not.
  lemma {:induction false} PairsRead(pairs: seq<(Word, Word)>, fields: seq<Bytes>, k: nat, rest: Bytes, i: nat)
    requires ArePairs(pairs) && i % 2 == 0 && i <= MAX_ATTRIBUTES
    requires Stand(fields, k, PairFields(pairs) + [Int(EGL_NONE)])
    ensures GetPairs(i, From(fields, k, rest))
         == if i + 2 * |pairs| < MAX_ATTRIBUTES then Some((pairs, From(fields, k + 2 * |pairs| + 1, rest))) else None
    decreases |pairs|
  {
    hide Int, GetInt, Stand, From;
    var end := [Int(EGL_NONE)];
    if pairs == [] {
      StandNext(fields, k, PairFields(pairs) + end);
      FieldAt(fields, k, rest);
    } else if i < MAX_ATTRIBUTES {
      var name, value := pairs[0].0, pairs[0].1;
      assert PairFields(pairs) + end == [Int(name), Int(value)] + (PairFields(pairs[1..]) + end);
      StandTwo(fields, k, Int(name), Int(value), PairFields(pairs[1..]) + end);
      FieldAt(fields, k, rest);
      FieldAt(fields, k + 1, rest);
      PairsRead(pairs[1..], fields, k + 2, rest, i + 2);
      assert pairs == [(name, value)] + pairs[1..];
    }
  }

  // ---------- Canonical calls ----------

  function IndicesKept(width: Width, indices: Indices): Indices
    requires AreIndices(width, indices)
  {
    match indices
    case Offset(pointer) => Offset(Handle(width, pointer))
    case Inline(block) => Inline(Kept(block))
  }

  // What is left of a call in the trace: no difference between null and empty strings, no empty
  // blocks, extended handles, and nothing of a field whose pointer is null.
  function Canon(width: Width, replay: bool, call: Call): Call
    requires Recordable(width, call)
  {
    match call
    case Mark(text) => Mark(Some(TextOf(text)))
    case BindAttribLocation(program, index, name) => BindAttribLocation(program, index, Some(TextOf(name)))
    case BufferData(target, size, data, usage) => BufferData(target, size, Kept(data), usage)
    case DrawElements(mode, count, kind, indices, attribs) =>
      DrawElements(mode, count, kind, IndicesKept(width, indices), AllKept(attribs))
    case GetActiveUniform(program, index, bufsize, lengthPtr, sizePtr, kindPtr, namePtr, length, size, kind, name) =>
      GetActiveUniform(program, index, bufsize,
                       Handle(width, lengthPtr), Handle(width, sizePtr), Handle(width, kindPtr), Handle(width, namePtr),
                       if lengthPtr != 0 then length else 0, if sizePtr != 0 then size else 0,
                       if kindPtr != 0 then kind else 0, if namePtr != 0 then Some(TextOf(name)) else None)
    case GetAttachedShaders(program, maxcount, countPtr, shadersPtr, count, names) =>
      GetAttachedShaders(program, maxcount, Handle(width, countPtr), Handle(width, shadersPtr),
                         if countPtr != 0 then count else 0, if replay then names else [])
    case GetAttribLocation(program, name, res) => GetAttribLocation(program, Some(TextOf(name)), res)
    case ShaderSource(shader, count, sources) => ShaderSource(shader, count, SourcesKept(sources))
    case Uniform4fv(location, count, data) => Uniform4fv(location, count, Kept(data))
    case VertexAttribPointer(index, size, kind, normalized, stride, pointer) =>
      VertexAttribPointer(index, size, kind, normalized, stride, Handle(width, pointer))
    case GetDisplay(id, handle) => GetDisplay(Handle(width, id), Handle(width, handle))
    case Initialize(dpy, major, minor, res) => Initialize(Handle(width, dpy), major, minor, res)
    case QueryString(dpy, pname, text) => QueryString(Handle(width, dpy), pname, Some(TextOf(text)))
    case ChooseConfig(dpy, pairs, configSize, numConfig, configs, res) =>
      ChooseConfig(Handle(width, dpy), pairs, configSize, numConfig, Handles(width, configs), res)
    case CreateWindowSurface(dpy, config, win, pairs, handle) =>
      CreateWindowSurface(Handle(width, dpy), Handle(width, config), Handle(width, win), pairs, Handle(width, handle))
    case SurfaceAttrib(dpy, surface, attribute, value, res) =>
      SurfaceAttrib(Handle(width, dpy), Handle(width, surface), attribute, value, res)
    case CreateContext(dpy, config, context, pairs, handle) =>
      CreateContext(Handle(width, dpy), Handle(width, config), Handle(width, context), pairs, Handle(width, handle))
    case DestroyContext(dpy, context, res) => DestroyContext(Handle(width, dpy), Handle(width, context), res)
    case MakeCurrent(dpy, draw, read, context, res) =>
      MakeCurrent(Handle(width, dpy), Handle(width, draw), Handle(width, read), Handle(width, context), res)
    case SwapBuffers(dpy, surface, res) => SwapBuffers(Handle(width, dpy), Handle(width, surface), res)
    case _ => call
  }

  // The calls whose records the decoder passes whole.
  predicate Readable(replay: bool, call: Call) {
    match call
    case GetAttachedShaders(_, _, _, _, _, names) => replay || names == []
    case GetFloatv(_, params) => params.Some? && params.value != FLOAT_MARKER
    case ChooseConfig(_, pairs, _, _, _, _) => |pairs| <= 31
    case CreateWindowSurface(_, _, _, pairs, _) => |pairs| <= 31
    case CreateContext(_, _, _, pairs, _) => |pairs| <= 31
    case _ => true
  }

  predicate ReadBack(width: Width, replay: bool, st: Shadow, call: Call, rest: Bytes)
    requires Recordable(width, call) && IsShadow(st)
  {
    DecodeArgs(width, replay, st, Opcode(call), Join(Args(width, call)) + rest)
    == Parsed(Canon(width, replay, call), rest)
  }

  predicate IsList(call: Call) {
    call.DeleteTextures? || call.DrawElements? || call.GenBuffers? || call.GetActiveUniform?
    || call.GetAttachedShaders? || call.ShaderSource?
  }

  lemma PlainGlReadBack(width: Width, replay: bool, st: Shadow, call: Call, rest: Bytes)
    requires Recordable(width, call) && IsShadow(st) && Opcode(call) < OPC_EGL && !IsList(call) && !call.GetFloatv?
    ensures ReadBack(width, replay, st, call, rest)
  {
    hide Int, Str, Blob, IntPtr, Ptr, GetInt, GetString, GetBytes, GetIntPtr, GetPtr, Join, From, Handle, TextOf, BytesOf;
    Fields(Args(width, call), |Args(width, call)|, rest);
  }

  lemma ListGlReadBack(width: Width, replay: bool, st: Shadow, call: Call, rest: Bytes)
    requires Recordable(width, call) && IsShadow(st) && (call.DeleteTextures? || call.GenBuffers? || call.ShaderSource?)
    ensures ReadBack(width, replay, st, call, rest)
  {
    hide Int, GetInt, Join, From, SourceField, GetInts, GetSources, Ints, SourceFields;
    var fields := Args(width, call);
    Fields(fields, if call.ShaderSource? then 2 else 1, rest);
    match call {
      case DeleteTextures(n, names) => IntsRead(names, fields, 1, rest);
      case GenBuffers(n, names) => IntsRead(names, fields, 1, rest);
      case ShaderSource(shader, count, sources) => SourcesRead(sources, fields, 2, rest);
    }
  }

  lemma DrawReadBack(width: Width, replay: bool, st: Shadow, call: Call, rest: Bytes)
    requires Recordable(width, call) && IsShadow(st) && call.DrawElements? && Laid(st, call)
    ensures ReadBack(width, replay, st, call, rest)
  {
    hide Int, Blob, Ptr, GetInt, GetBytes, GetPtr, Join, From, Handle, BytesOf, GetBlocks, Blobs, Arrays;
    var fields := Args(width, call);
    Fields(fields, 4, rest);
    BlobsRead(call.attribs, fields, 4, rest);
  }

  lemma UniformReadBack(width: Width, replay: bool, st: Shadow, call: Call, rest: Bytes)
    requires Recordable(width, call) && IsShadow(st) && call.GetActiveUniform?
    ensures ReadBack(width, replay, st, call, rest)
  {
    hide Int, Str, Ptr, GetInt, GetString, GetPtr, Join, From, Handle, TextOf;
    Fields(Args(width, call), |Args(width, call)|, rest);
  }

  lemma AttachedReadBack(width: Width, replay: bool, st: Shadow, call: Call, rest: Bytes)
    requires Recordable(width, call) && IsShadow(st) && call.GetAttachedShaders?
    ensures ReadBack(width, replay, st, call, rest) <==> Readable(replay, call)
  {
    hide Int, Ptr, GetInt, GetPtr, Join, From, Handle, GetInts, Ints;
    var fields := Args(width, call);
    var k := if call.countPtr != 0 then 5 else 4;
    Fields(fields, k, rest);
    IntsRead(call.names, fields, k, rest);
    if !replay && call.names != [] {
      StandNext(fields, k, Ints(call.names));
      BytesLeft(fields, k, rest);
    }
  }

  lemma BytesLeft(fields: seq<Bytes>, k: nat, rest: Bytes)
    requires k < |fields| && |fields[k]| > 0
    ensures |From(fields, k, rest)| > |rest|
  {
    FieldAt(fields, k, rest);
  }

  lemma FloatReadBack(width: Width, replay: bool, st: Shadow, call: Call, rest: Bytes)
    requires Recordable(width, call) && IsShadow(st) && call.GetFloatv?
    ensures ReadBack(width, replay, st, call, rest) <==> Readable(replay, call)
  {
    hide Int, FloatPtr, GetInt, GetFloatPtr, Join, From;
    Fields(Args(width, call), 2, rest);
    FloatPtrReadBack(call.params, rest);
  }

  lemma PlainEglReadBack(width: Width, replay: bool, st: Shadow, call: Call, rest: Bytes)
    requires Recordable(width, call) && IsShadow(st) && Opcode(call) >= OPC_EGL
    requires !call.ChooseConfig? && !call.CreateWindowSurface? && !call.CreateContext?
    ensures ReadBack(width, replay, st, call, rest)
  {
    hide Int, Str, IntPtr, Ptr, GetInt, GetString, GetIntPtr, GetPtr, Join, From, Handle, TextOf;
    Fields(Args(width, call), |Args(width, call)|, rest);
  }

  lemma CreateReadBack(width: Width, replay: bool, st: Shadow, call: Call, rest: Bytes)
    requires Recordable(width, call) && IsShadow(st) && (call.CreateWindowSurface? || call.CreateContext?)
    ensures ReadBack(width, replay, st, call, rest) <==> Readable(replay, call)
  {
    hide Int, Ptr, GetInt, GetPtr, Join, From, Handle, GetPairs, PairFields;
    var fields := Args(width, call);
    var n := 3 + 2 * |call.pairs|;
    Fields(fields, 3, rest);
    var list := PairFields(call.pairs) + [Int(EGL_NONE)];
    forall i | 0 <= i < |list| ensures fields[3 + i] == list[i] {
    }
    PairsRead(call.pairs, fields, 3, rest, 0);
    FieldAt(fields, n + 1, rest);
  }

  lemma ChooseFields(width: Width, call: Call)
    requires Recordable(width, call) && call.ChooseConfig?
    ensures var fields, n, m := Args(width, call), 1 + 2 * |call.pairs|, |call.configs|;
            && |fields| == n + m + 4
            && fields[0] == Ptr(width, call.dpy)
            && Stand(fields, 1, PairFields(call.pairs) + [Int(EGL_NONE)])
            && fields[n + 1] == Int(call.configSize) && fields[n + 2] == Int(call.numConfig)
            && Stand(fields, n + 3, Ptrs(width, call.configs))
            && fields[n + 3 + m] == Int(call.res)
  {
    hide Int, Ptr, PairFields, Ptrs;
  }

  lemma ChooseReadBack(width: Width, replay: bool, st: Shadow, call: Call, rest: Bytes)
    requires Recordable(width, call) && IsShadow(st) && call.ChooseConfig?
    ensures ReadBack(width, replay, st, call, rest) <==> Readable(replay, call)
  {
    hide Args, Stand, Int, Ptr, GetInt, GetPtr, Join, From, Handle, GetPairs, PairFields, GetPtrs, Ptrs;
    var fields := Args(width, call);
    var n, m := 1 + 2 * |call.pairs|, |call.configs|;
    ChooseFields(width, call);
    Fields(fields, 1, rest);
    PairsRead(call.pairs, fields, 1, rest, 0);
    FieldAt(fields, n + 1, rest);
    FieldAt(fields, n + 2, rest);
    PtrsRead(width, call.configs, fields, n + 3, rest);
    FieldAt(fields, n + 3 + m, rest);
  }

  // A call that was laid out by the decoder's own state is read back whole exactly if it is
  // readable, whatever follows it.
  lemma ReadBackIffReadable(width: Width, replay: bool, st: Shadow, call: Call, rest: Bytes)
    requires Recordable(width, call) && IsShadow(st) && Laid(st, call)
    ensures ReadBack(width, replay, st, call, rest) <==> Readable(replay, call)
  {
    hide ReadBack, Laid, Recordable;
    match call
    case DeleteTextures(_, _) => ListGlReadBack(width, replay, st, call, rest);
    case GenBuffers(_, _) => ListGlReadBack(width, replay, st, call, rest);
    case ShaderSource(_, _, _) => ListGlReadBack(width, replay, st, call, rest);
    case DrawElements(_, _, _, _, _) => DrawReadBack(width, replay, st, call, rest);
    case GetActiveUniform(_, _, _, _, _, _, _, _, _, _, _) => UniformReadBack(width, replay, st, call, rest);
    case GetAttachedShaders(_, _, _, _, _, _) => AttachedReadBack(width, replay, st, call, rest);
    case GetFloatv(_, _) => FloatReadBack(width, replay, st, call, rest);
    case ChooseConfig(_, _, _, _, _, _) => ChooseReadBack(width, replay, st, call, rest);
    case CreateWindowSurface(_, _, _, _, _) => CreateReadBack(width, replay, st, call, rest);
    case CreateContext(_, _, _, _, _) => CreateReadBack(width, replay, st, call, rest);
    case _ =>
      if Opcode(call) < OPC_EGL {
        PlainGlReadBack(width, replay, st, call, rest);
      } else {
        PlainEglReadBack(width, replay, st, call, rest);
      }
  }

  lemma CanonKeepsState(width: Width, replay: bool, st: Shadow, call: Call)
    requires Recordable(width, call) && IsShadow(st)
    ensures After(st, Canon(width, replay, call)) == After(st, call)
    ensures Opcode(Canon(width, replay, call)) == Opcode(call)
  {
  }
}
