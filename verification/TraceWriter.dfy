/**
 The recorder's output: a window that slides over the end of the file. Whatever is put is
 appended to the file, although it is written into the window byte by byte.
 */
module TraceWriter {
  import opened Options
  import opened Wire
  import opened Records
  import opened RoundTrip
  import opened Traces

  const CHUNK := 0x10_0000

  class Writer {
    const width: Width
    // The windows that have been unmapped, and the one that is mapped, up to its end: at first
    // none is, and the end is 0.
    var file: Bytes
    const window: array<Byte>
    var end: nat
    var cur: nat
    var fileOffset: nat
    // The depth of recording calls inside each other, and the thread of the last record.
    var reentrance: nat
    var curThread: Long
    // The fields that have been put.
    ghost var fields: seq<Bytes>

    // Everything that has been put.
    ghost function Log(): Bytes
      reads this`file, this`cur, window
      requires cur <= window.Length
    {
      file + window[..cur]
    }

    ghost predicate Sound()
      reads this`file, this`end, this`cur, this`fileOffset
    {
      && window.Length == CHUNK && (end == 0 || end == CHUNK)
      && cur <= end
      && fileOffset == |file| + end && |file| % 4 == 0
    }

    lemma Alignment()
      requires Sound()
      ensures cur <= end <= window.Length && cur <= |Log()| && |Log()| % 4 == cur % 4
    {
    }

    ghost predicate Valid()
      reads this, window
    {
      && Sound()
      && cur % 4 == 0
      && Log() == Join(fields)
      && IsPtr(width, curThread)
    }

    // The fields xs have been put, unless the call is inside another one.
    twostate predicate Puts(new xs: seq<Bytes>)
      reads this, window
    {
      && Valid()
      && fields == old(fields) + (if reentrance > 1 then [] else xs)
      && reentrance == old(reentrance) && curThread == old(curThread)
    }

    twostate predicate Appended(new xs: Bytes)
      reads this, window
    {
      && Sound() && old(cur <= window.Length)
      && Log() == old(Log()) + xs
      && fields == old(fields) && reentrance == old(reentrance) && curThread == old(curThread)
    }

    constructor (width: Width)
      ensures Valid() && fresh(window) && this.width == width
      ensures Log() == Header(width) && reentrance == 0 && curThread == 0
    {
      this.width := width;
      file := [];
      window := new Byte[CHUNK](_ => 0);
      end, cur := 0, 0;
      fileOffset := 0;
      reentrance := 0;
      curThread := 0;
      fields := [];
      new;
      assert Valid();
      hide Int, Join, Sound;
      PutHeader();
      assert fields == [Int(OPC_VERSION), Int(1), Int(0), Int(0), Int(width.Size())];
      HeaderFields(width);
    }

    method PutHeader()
      requires Valid()
      modifies this`file, this`end, this`cur, this`fileOffset, this`fields, window
      ensures Puts([Int(OPC_VERSION), Int(1), Int(0), Int(0), Int(width.Size())])
    {
      hide Int, Join, Sound, Log;
      PutInt(OPC_VERSION);
      PutInt(1);
      PutInt(0);
      PutInt(0);
      PutInt(width.Size());
    }

    // Maps the next window, all zeros, at the end of the file. The one before it is full.
    method Enlarge()
      requires Sound() && cur == end
      modifies this`file, this`end, this`cur, this`fileOffset, window
      ensures Sound() && Log() == old(Log())
      ensures end == CHUNK && cur == 0
    {
      file := file + window[..end];
      forall i | 0 <= i < window.Length { window[i] := 0; }
      fileOffset := fileOffset + CHUNK;
      end, cur := CHUNK, 0;
    }

    // *curPtr++ = b
    method Store(b: Byte)
      requires Sound() && cur < end
      modifies this`cur, window
      ensures Sound() && cur == old(cur) + 1 && Log() == old(Log()) + [b]
    {
      window[cur] := b;
      cur := cur + 1;
      assert window[..cur] == old(window[..cur]) + [b];
    }

    // The loop of the puts whose bytes may straddle windows.
    method Copy(src: Bytes)
      requires Sound()
      modifies this`file, this`end, this`cur, this`fileOffset, window
      ensures Appended(src)
    {
      hide Log;
      var i: nat, left: nat := 0, |src|;
      while left > 0
        invariant i + left == |src|
        invariant Appended(src[..i])
        decreases left, CHUNK - (end - cur)
      {
        var avail: nat := end - cur;
        if left <= avail {
          while left > 0
            invariant i + left == |src| && left <= end - cur
            invariant Appended(src[..i])
          {
            Store(src[i]);
            OneMore(old(Log()), src, i);
            i, left := i + 1, left - 1;
          }
        } else {
          left := left - avail;
          while avail > 0
            invariant i + avail + left == |src| && avail == end - cur
            invariant Appended(src[..i])
          {
            Store(src[i]);
            OneMore(old(Log()), src, i);
            i, avail := i + 1, avail - 1;
          }
          Enlarge();
        }
      }
      assert src[..i] == src;
    }

    // Zeros up to a multiple of four bytes: they never cross the end of the window.
    method Pad()
      requires Sound()
      modifies this`cur, window
      ensures Sound() && cur % 4 == 0
      ensures Log() == old(Log()) + Zeros(RoundUp(|old(Log())|) - |old(Log())|)
    {
      hide Log, RoundUp;
      Alignment();
      SamePadding(|old(Log())| - cur, cur);
      ghost var n := 0;
      while cur % 4 != 0
        invariant Sound() && cur == old(cur) + n && cur <= RoundUp(old(cur))
        invariant Log() == old(Log()) + Zeros(n)
        decreases RoundUp(old(cur)) - cur
      {
        Store(0);
        assert old(Log()) + Zeros(n + 1) == old(Log()) + Zeros(n) + [0];
        n := n + 1;
      }
    }

    // Bytes of any number, and zeros behind them.
    method CopyPadded(src: Bytes)
      requires Sound() && cur % 4 == 0
      modifies this`file, this`end, this`cur, this`fileOffset, window
      ensures Appended(src + Zeros(RoundUp(|src|) - |src|)) && cur % 4 == 0
    {
      hide Zeros, RoundUp, Log, Sound;
      Alignment();
      Copy(src);
      Alignment();
      Pad();
      SamePadding(|old(Log())|, |src|);
    }

    // A field as it is.
    method Emit(field: Bytes)
      requires Valid() && reentrance <= 1 && |field| % 4 == 0
      modifies this`file, this`end, this`cur, this`fileOffset, this`fields, window
      ensures Puts([field])
    {
      hide Join, Sound, Log;
      Alignment();
      Copy(field);
      Alignment();
      JoinMore(fields, field);
      fields := fields + [field];
    }

    method PutInt(arg: Word)
      requires Valid()
      modifies this`file, this`end, this`cur, this`fileOffset, this`fields, window
      ensures Puts([Int(arg)])
    {
      if reentrance > 1 { return; }
      PutWord(arg);
      JoinMore(fields, Int(arg));
      fields := fields + [Int(arg)];
    }

    // A word at once: with the window aligned it never crosses its end.
    method PutWord(arg: Word)
      requires Sound() && cur % 4 == 0
      modifies this`file, this`end, this`cur, this`fileOffset, window
      ensures Appended(Int(arg)) && cur % 4 == 0
    {
      if cur >= end { Enlarge(); }
      assert cur + 4 <= end;
      hide Log, Int;
      var digits := Int(arg);
      Store(digits[0]);
      Store(digits[1]);
      Store(digits[2]);
      Store(digits[3]);
      assert digits == [digits[0], digits[1], digits[2], digits[3]];
      assert Log() == old(Log()) + digits;
    }

    method PutIntPtr(arg: Option<Word>)
      requires Valid()
      modifies this`file, this`end, this`cur, this`fileOffset, this`fields, window
      ensures Puts([IntPtr(arg)])
    {
      if reentrance > 1 { return; }
      var val: Word := 0;
      if arg == None || arg.value == MARKER {
        PutWord(MARKER);
        if arg != None { val := MARKER; }
      } else {
        val := arg.value;
      }
      PutWord(val);
      assert Log() == old(Log()) + IntPtr(arg) by { hide Int, Log; }
      JoinMore(fields, IntPtr(arg));
      fields := fields + [IntPtr(arg)];
    }

    // A float, as its pattern.
    method PutFloat(arg: Word)
      requires Valid()
      modifies this`file, this`end, this`cur, this`fileOffset, this`fields, window
      ensures Puts([Int(arg)])
    {
      PutInt(arg);
    }

    method PutFloatPtr(arg: Option<Word>)
      requires Valid()
      modifies this`file, this`end, this`cur, this`fileOffset, this`fields, window
      ensures Puts([FloatPtr(arg)])
    {
      if reentrance > 1 { return; }
      var val: Word := 0;
      if arg == None || arg.value == FLOAT_MARKER {
        PutWord(FLOAT_MARKER);
        if arg != None { val := FLOAT_MARKER; }
      } else {
        val := arg.value;
      }
      PutWord(val);
      assert Log() == old(Log()) + FloatPtr(arg) by { hide Int, Log; }
      JoinMore(fields, FloatPtr(arg));
      fields := fields + [FloatPtr(arg)];
    }

    method PutLongLong(arg: Long)
      requires Valid()
      modifies this`file, this`end, this`cur, this`fileOffset, this`fields, window
      ensures Puts([LongLong(arg)])
    {
      if reentrance > 1 { return; }
      hide LongLong;
      Emit(LongLong(arg));
    }

    method PutPtr(arg: Long)
      requires Valid() && IsPtr(width, arg)
      modifies this`file, this`end, this`cur, this`fileOffset, this`fields, window
      ensures Puts([Ptr(width, arg)])
    {
      if reentrance > 1 { return; }
      hide Ptr;
      Emit(Ptr(width, arg));
    }

    method PutString(str: Option<Bytes>)
      requires Valid() && (str.Some? ==> IsText(str.value))
      modifies this`file, this`end, this`cur, this`fileOffset, this`fields, window
      ensures Puts([Str(str)])
    {
      if reentrance > 1 { return; }
      if str == None {
        PutInt(0);
        return;
      }
      hide Join, Str, Zeros, Sound, Log;
      CopyPadded(str.value + [0]);
      StrField(str.value, old(Log()));
      JoinMore(fields, Str(str));
      fields := fields + [Str(str)];
    }

    method PutBytes(data: Option<Bytes>, size: Word)
      requires Valid() && IsBlock(Block(data, size))
      modifies this`file, this`end, this`cur, this`fileOffset, this`fields, window
      ensures Puts([Blob(Block(data, size))])
    {
      if reentrance > 1 { return; }
      hide Join, Int, Zeros, RoundUp, Sound, Log;
      var left := if data == None then 0 else size;
      PutWord(left);
      var src := DataOf(Block(data, size));
      CopyPadded(src);
      SizedField(left, src, old(Log()));
      JoinMore(fields, Sized(left, src));
      fields := fields + [Sized(left, src)];
    }

    // Takes the lock and begins a record, unless one is being recorded.
    method PutCmd(thr: Long, cmd: Word)
      requires Valid() && IsPtr(width, thr)
      modifies this, window
      ensures Valid()
      ensures reentrance == old(reentrance) + 1
      ensures curThread == if old(reentrance) == 0 then thr else old(curThread)
      ensures fields == old(fields)
                        + (if old(reentrance) > 0 then []
                           else (if thr != old(curThread) then [Int(OPC_THREAD), Ptr(width, thr)] else []) + [Int(cmd)])
    {
      hide Join, Sound, Log, Int, Ptr;
      reentrance := reentrance + 1;
      if reentrance > 1 { return; }
      if thr != curThread {
        PutInt(OPC_THREAD);
        PutPtr(thr);
        curThread := thr;
      }
      PutInt(cmd);
    }

    // Ends the record and gives up the lock.
    method PutTime(begin: Long, end: Long)
      requires Valid() && reentrance > 0
      modifies this, window
      ensures Valid()
      ensures reentrance == old(reentrance) - 1 && curThread == old(curThread)
      ensures fields == old(fields) + (if old(reentrance) > 1 then [] else [LongLong(begin), LongLong(end)])
    {
      hide Join, Sound, Log, LongLong;
      PutLongLong(begin);
      PutLongLong(end);
      reentrance := reentrance - 1;
    }

    // The file that is left: the part of the last window that was not reached is cut off.
    method Fini() returns (disk: Bytes)
      requires Valid()
      ensures disk == Log()
    {
      disk := file + window[..end];
      if cur < end {
        disk := disk[..fileOffset - (end - cur)];
      }
    }
  }

  lemma OneMore(log: Bytes, src: Bytes, i: nat)
    requires i < |src|
    ensures log + src[..i] + [src[i]] == log + src[..i + 1]
  {
  }

  lemma JoinMore(fields: seq<Bytes>, field: Bytes)
    ensures Join(fields + [field]) == Join(fields) + field
  {
    JoinConcat(fields, [field]);
    JoinOne(field);
  }

  // The padding of a field does not depend on where it stands, as long as it begins aligned.
  lemma SamePadding(before: int, n: nat)
    requires before >= 0 && before % 4 == 0
    ensures RoundUp(before + n) - (before + n) == RoundUp(n) - n
  {
  }

  lemma SizedField(size: Word, data: Bytes, log: Bytes)
    ensures log + Int(size) + (data + Zeros(RoundUp(|data|) - |data|)) == log + Sized(size, data)
  {
    hide Int, Zeros;
  }

  // A string and the zeros behind it end on a multiple of four bytes wherever the window is,
  // if it began on one.
  lemma StrField(text: Bytes, log: Bytes)
    requires IsText(text)
    ensures log + (text + [0] + Zeros(RoundUp(|text + [0]|) - |text + [0]|)) == log + Str(Some(text))
  {
    hide IsText;
    assert [0] + Zeros(RoundUp(|text| + 1) - (|text| + 1)) == Zeros(RoundUp(|text| + 1) - |text|);
  }

  lemma HeaderFields(width: Width)
    ensures Join([Int(OPC_VERSION), Int(1), Int(0), Int(0), Int(width.Size())]) == Header(width)
  {
    hide Int, Join, From;
    var fields := [Int(OPC_VERSION), Int(1), Int(0), Int(0), Int(width.Size())];
    Fields(fields, 5, []);
    assert Join(fields) == Join(fields) + [];
  }
}
