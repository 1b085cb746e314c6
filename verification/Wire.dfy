/**
 The fields of a trace record: what each put of the recorder appends to the file, and what the
 matching get of the decoder takes off the bytes ahead of it. Integers are little-endian; floats
 are carried as their 32-bit patterns; every field starts and ends 4-aligned.
 */
module Wire {
  import opened Options

  type Byte = b: int | 0 <= b < 0x100
  type Word = w: int | 0 <= w < 0x1_0000_0000
  type Long = v: int | 0 <= v < 0x1_0000_0000_0000_0000
  type Bytes = seq<Byte>

  // The size of a pointer where the trace was recorded.
  datatype Width = Four | Eight {
    function Size(): nat {
      if this == Four then 4 else 8
    }
  }

  const MARKER: Word := 0xdeadbead
  // The pattern of (float)0xdeadbead: 0xdeadbf00 as a single.
  const FLOAT_MARKER: Word := 0x4f5eadbf
  // Sizes from here on overflow the decoder's int when they are rounded up.
  const SIZE_LIMIT: int := 0x7fff_fffc

  // A word read as a C int.
  function Signed(w: Word): int {
    if w < 0x8000_0000 then w else w - 0x1_0000_0000
  }

  // The iterations of a loop i = 0; i < n; ++i.
  function Count(n: Word): nat {
    if Signed(n) < 0 then 0 else Signed(n)
  }

  // A C string: no zero byte inside.
  ghost predicate IsText(text: Bytes) {
    |text| < SIZE_LIMIT && forall i :: 0 <= i < |text| ==> text[i] != 0
  }

  function Zeros(n: nat): (zeros: Bytes)
    ensures |zeros| == n && forall i :: 0 <= i < n ==> zeros[i] == 0
  {
    seq(n, _ => 0)
  }

  // ---------- Reading ----------

  function WordAt(s: Bytes): Word
    requires |s| >= 4
  {
    var b0: int, b1: int, b2: int, b3: int := s[0], s[1], s[2], s[3];
    b0 + 0x100 * b1 + 0x1_0000 * b2 + 0x100_0000 * b3
  }

  function GetInt(s: Bytes): (r: (Word, Bytes))
    ensures |r.1| <= |s|
  {
    if |s| < 4 then (0, s) else (WordAt(s), s[4..])
  }

  function GetLong(s: Bytes): (r: (Long, Bytes))
    ensures |r.1| <= |s|
  {
    if |s| < 8 then (0, s) else (WordAt(s) + 0x1_0000_0000 * WordAt(s[4..]), s[8..])
  }

  // What a pointer is read as: four-byte ones are sign-extended.
  function Handle(width: Width, p: Long): (h: Long)
    ensures h == 0 <==> p == 0
  {
    if width == Four && 0x8000_0000 <= p < 0x1_0000_0000 then p + 0xffff_ffff_0000_0000 else p
  }

  function GetPtr(width: Width, s: Bytes): (r: (Long, Bytes))
    ensures |r.1| <= |s|
  {
    if |s| < width.Size() then (0, s)
    else if width == Four then (Handle(Four, WordAt(s)), s[4..])
    else GetLong(s)
  }

  // The word behind the marker decides between a null pointer and the marker itself.
  function GetIntPtr(s: Bytes): (r: (Option<Word>, Bytes))
    ensures |r.1| <= |s|
  {
    if |s| < 4 then (None, s)
    else if WordAt(s) != MARKER then (Some(WordAt(s)), s[4..])
    else
      var (second, rest) := GetInt(s[4..]);
      (if second == 0 then None else Some(second), rest)
  }

  // As GetIntPtr, but the second word is looked at and not passed.
  function GetFloatPtr(s: Bytes): (r: (Option<Word>, Bytes))
    ensures |r.1| <= |s|
  {
    if |s| < 4 then (None, s)
    else if WordAt(s) != FLOAT_MARKER then (Some(WordAt(s)), s[4..])
    else
      var (second, _) := GetInt(s[4..]);
      (if second == 0 || second == 0x8000_0000 then None else Some(second), s[4..])
  }

  function Strlen(s: Bytes): (n: nat)
    ensures n <= |s| && forall i :: 0 <= i < n ==> s[i] != 0
    ensures n < |s| ==> s[n] == 0
  {
    if s == [] || s[0] == 0 then 0 else 1 + Strlen(s[1..])
  }

  function RoundUp(n: nat): (m: nat)
    ensures n <= m < n + 4 && m % 4 == 0
  {
    n + 3 - (n + 3) % 4
  }

  function Skip(s: Bytes, n: nat): (rest: Bytes)
    ensures |rest| <= |s|
  {
    if n <= |s| then s[n..] else []
  }

  function GetString(s: Bytes): (r: (Option<Bytes>, Bytes))
    ensures |r.1| <= |s|
  {
    var n := Strlen(s);
    if n + 1 > |s| then (None, s) else (Some(s[..n]), Skip(s, RoundUp(n + 1)))
  }

  function GetBytes(s: Bytes): (r: (Option<Bytes>, Bytes))
    ensures |r.1| <= |s|
    ensures r.0.Some? ==> 0 < |r.0.value| < 0x8000_0000
  {
    if |s| < 4 then (None, s)
    else
      var size := Signed(WordAt(s));
      if size <= 0 || size > |s| - 4 then (None, s[4..])
      else (Some(s[4..][..size]), Skip(s[4..], RoundUp(size)))
  }

  // ---------- Writing ----------

  function Int(w: Word): (field: Bytes)
    ensures |field| == 4
    ensures forall rest: Bytes {:trigger GetInt(field + rest)} :: GetInt(field + rest) == (w, rest)
  {
    var field := Digits(w);
    assert forall rest: Bytes :: (field + rest)[..4] == field && (field + rest)[4..] == rest;
    field
  }

  function Digits(w: Word): (digits: Bytes)
    ensures |digits| == 4
    ensures digits[0] + 0x100 * (digits[1] as int) + 0x1_0000 * (digits[2] as int) + 0x100_0000 * (digits[3] as int) == w
  {
    [w % 0x100, w / 0x100 % 0x100, w / 0x1_0000 % 0x100, w / 0x100_0000]
  }

  lemma WordAhead(w: Word, rest: Bytes)
    ensures |Int(w) + rest| >= 4 && WordAt(Int(w) + rest) == w && (Int(w) + rest)[4..] == rest
  {
    assert GetInt(Int(w) + rest) == (w, rest);
  }

  function LongLong(v: Long): (field: Bytes)
    ensures |field| == 8
    ensures forall rest: Bytes {:trigger GetLong(field + rest)} :: GetLong(field + rest) == (v, rest)
  {
    var low: Word, high: Word := v % 0x1_0000_0000, v / 0x1_0000_0000;
    var field := Int(low) + Int(high);
    assert forall rest: Bytes :: GetLong(field + rest) == (v, rest) by {
      forall rest: Bytes ensures GetLong(field + rest) == (v, rest) {
        assert field + rest == Int(low) + (Int(high) + rest);
        WordAhead(low, Int(high) + rest);
        WordAhead(high, rest);
        assert (field + rest)[8..] == rest;
      }
    }
    field
  }

  // A pointer of the recording machine.
  predicate IsPtr(width: Width, p: Long) {
    width == Four ==> p < 0x1_0000_0000
  }

  function Ptr(width: Width, p: Long): (field: Bytes)
    requires IsPtr(width, p)
    ensures |field| == width.Size()
    ensures forall rest: Bytes {:trigger GetPtr(width, field + rest)} :: GetPtr(width, field + rest) == (Handle(width, p), rest)
  {
    if width == Four then
      assert forall rest: Bytes :: GetPtr(width, Int(p) + rest) == (Handle(width, p), rest) by {
        forall rest: Bytes ensures GetPtr(width, Int(p) + rest) == (Handle(width, p), rest) {
          WordAhead(p, rest);
        }
      }
      Int(p)
    else LongLong(p)
  }

  function IntPtr(p: Option<Word>): (field: Bytes)
    ensures |field| == 4 || |field| == 8
    ensures forall rest: Bytes {:trigger GetIntPtr(field + rest)} :: GetIntPtr(field + rest) == (p, rest)
  {
    var field :=
      if p == None then Int(MARKER) + Int(0)
      else if p.value == MARKER then Int(MARKER) + Int(MARKER)
      else Int(p.value);
    assert forall rest: Bytes :: GetIntPtr(field + rest) == (p, rest) by {
      forall rest: Bytes ensures GetIntPtr(field + rest) == (p, rest) {
        if p.Some? && p.value != MARKER {
          WordAhead(p.value, rest);
        } else {
          var second: Word := if p == None then 0 else MARKER;
          assert field + rest == Int(MARKER) + (Int(second) + rest);
          WordAhead(MARKER, Int(second) + rest);
          WordAhead(second, rest);
        }
      }
    }
    field
  }

  function FloatPtr(p: Option<Word>): (field: Bytes)
    ensures |field| == 4 || |field| == 8
  {
    if p == None then Int(FLOAT_MARKER) + Int(0)
    else if p.value == FLOAT_MARKER then Int(FLOAT_MARKER) + Int(FLOAT_MARKER)
    else Int(p.value)
  }

  // A float pointer is always read back, but passed only if it is set and not the marker.
  lemma FloatPtrReadBack(p: Option<Word>, rest: Bytes)
    ensures GetFloatPtr(FloatPtr(p) + rest).0 == p
    ensures GetFloatPtr(FloatPtr(p) + rest).1 == rest <==> p.Some? && p.value != FLOAT_MARKER
  {
    if p.Some? && p.value != FLOAT_MARKER {
      WordAhead(p.value, rest);
    } else {
      var second: Word := if p == None then 0 else FLOAT_MARKER;
      assert FloatPtr(p) + rest == Int(FLOAT_MARKER) + (Int(second) + rest);
      WordAhead(FLOAT_MARKER, Int(second) + rest);
      WordAhead(second, rest);
      assert |Int(second) + rest| == |rest| + 4;
    }
  }

  // A null pointer is written as a zero word, which is the empty string.
  function Str(text: Option<Bytes>): (field: Bytes)
    requires text.Some? ==> IsText(text.value)
    ensures |field| % 4 == 0
    ensures forall rest: Bytes {:trigger GetString(field + rest)} :: GetString(field + rest) == (Some(TextOf(text)), rest)
  {
    if text == None then
      assert forall rest: Bytes :: GetString(Int(0) + rest) == (Some([]), rest) by {
        forall rest: Bytes ensures GetString(Int(0) + rest) == (Some([]), rest) {
          assert Int(0) == [0, 0, 0, 0];
          assert (Int(0) + rest)[..0] == [];
          assert (Int(0) + rest)[4..] == rest;
        }
      }
      Int(0)
    else
      var field := text.value + Zeros(RoundUp(|text.value| + 1) - |text.value|);
      assert forall rest: Bytes :: GetString(field + rest) == (text, rest) by {
        forall rest: Bytes ensures GetString(field + rest) == (text, rest) {
          TextAhead(text.value, field, rest);
        }
      }
      field
  }

  function TextOf(text: Option<Bytes>): Bytes {
    if text == None then [] else text.value
  }

  lemma TextAhead(text: Bytes, field: Bytes, rest: Bytes)
    requires IsText(text) && field == text + Zeros(RoundUp(|text| + 1) - |text|)
    ensures GetString(field + rest) == (Some(text), rest)
  {
    var s := field + rest;
    assert s[|text|] == 0;
    assert forall i :: 0 <= i < |text| ==> s[i] == text[i];
    assert Strlen(s) == |text|;
    assert s[..|text|] == text;
    assert s[|field|..] == rest;
  }

  // A block of bytes at an address, or a null address, with the size the caller gives.
  datatype Block = Block(data: Option<Bytes>, size: Word)

  predicate IsBlock(b: Block) {
    Count(b.size) < SIZE_LIMIT && (b.data.Some? ==> |b.data.value| == Count(b.size))
  }

  // What is read back: nothing of an empty block.
  function BytesOf(b: Block): Option<Bytes>
  {
    if b.data == None || Count(b.size) == 0 then None else b.data
  }

  function Blob(b: Block): (field: Bytes)
    requires IsBlock(b)
    ensures |field| % 4 == 0
    ensures forall rest: Bytes {:trigger GetBytes(field + rest)} :: GetBytes(field + rest) == (BytesOf(b), rest)
  {
    BlobReadBack(b);
    Sized(if b.data == None then 0 else b.size, DataOf(b))
  }

  function DataOf(b: Block): Bytes {
    if b.data == None then [] else b.data.value
  }

  lemma BlobReadBack(b: Block)
    requires IsBlock(b)
    ensures forall rest: Bytes :: GetBytes(Sized(if b.data == None then 0 else b.size, DataOf(b)) + rest) == (BytesOf(b), rest)
  {
    hide GetBytes, Sized;
    forall rest: Bytes
      ensures GetBytes(Sized(if b.data == None then 0 else b.size, DataOf(b)) + rest) == (BytesOf(b), rest)
    {
      DataAhead(b, if b.data == None then 0 else b.size, DataOf(b), rest);
    }
  }

  function Sized(size: Word, data: Bytes): (field: Bytes)
    ensures |field| == 4 + RoundUp(|data|) && |field| % 4 == 0
  {
    Int(size) + data + Zeros(RoundUp(|data|) - |data|)
  }

  lemma DataAhead(b: Block, size: Word, data: Bytes, rest: Bytes)
    requires IsBlock(b)
    requires size == (if b.data == None then 0 else b.size) && data == DataOf(b)
    ensures GetBytes(Sized(size, data) + rest) == (BytesOf(b), rest)
  {
    hide Int;
    var padding := Zeros(RoundUp(|data|) - |data|);
    var s := Sized(size, data) + rest;
    assert s == Int(size) + (data + padding + rest);
    WordAhead(size, data + padding + rest);
    assert s[4..] == data + padding + rest;
    assert s[4..][..|data|] == data;
    assert s[4..][RoundUp(|data|)..] == rest;
    if Signed(size) <= 0 {
      assert data == [];
      assert data + padding + rest == rest;
    }
  }
}
