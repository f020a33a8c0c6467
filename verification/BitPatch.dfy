/**
  Patching a field of a coded header in place: `updateBits` of tsMuxer/bitStream.cpp, the
  guarded copy of it in tsMuxer/hevc.cpp, and its use to override the frame rate.
  */
module BitPatch {
  import opened Bits
  import opened BitStream

  /** The bit string with the field at `o` replaced. */
  function Patched(all: seq<Bit>, o: nat, field: seq<Bit>): (r: seq<Bit>)
    requires o + |field| <= |all|
    ensures |r| == |all|
  {
    all[..o] + field + all[o + |field|..]
  }

  /** Bits the writer is given: the rest of the first byte, the field, the rest of the last. */
  function BitsPut(byteOffset: nat, bitLen: nat): nat {
    var post := 8 - (byteOffset + bitLen) % 8;
    byteOffset + bitLen + if post < 8 then post else 0
  }

  /** How many bytes from the first one on the final flush reaches. */
  function BytesTouched(byteOffset: nat, bitLen: nat): nat {
    4 * (BitsPut(byteOffset, bitLen) / 32) + 4
  }

  /** The size of the window the source gives the writer. */
  function Window(bitLen: nat): nat { bitLen / 8 + 5 }

  /** The window covers every byte touched, except when a field of fewer than 24 bits ends
      in the fourth byte: then the flush works on a word one byte or more past the window. */
  lemma WindowCovers(byteOffset: nat, bitLen: nat)
    requires byteOffset < 8 && bitLen <= 32
    ensures BytesTouched(byteOffset, bitLen) <= Window(bitLen) <==> bitLen >= 24 || byteOffset + bitLen <= 24
  {
  }

  /** Seven bits into a byte, a 23-bit field makes the flush reach the eighth byte of a
      seven-byte window. */
  lemma WindowFallsShort()
    ensures BytesTouched(7, 23) == 8 && Window(23) == 7
  {}

  /** The first `k` bits of a byte are its value shifted right. */
  lemma {:induction false} TopBits(x: Byte, k: nat)
    requires k <= 8
    ensures ToBits(x / Pow2(8 - k), k) == ToBits(x, 8)[..k]
  {
    ToBitsSplit(x, k, 8 - k);
  }

  /** The last `k` bits of a byte are its value masked. */
  lemma {:induction false} LowBits(x: Byte, k: nat)
    requires k <= 8
    ensures ToBits(x % Pow2(k), k) == ToBits(x, 8)[8 - k..]
  {
    ToBitsSplit(x, 8 - k, k);
    ToBitsMod(x, k);
  }

  lemma {:induction false} ByteAt(m: seq<Byte>, i: nat)
    requires i < |m|
    ensures ToBits(m[i], 8) == BytesBits(m)[8 * i..8 * i + 8]
  {
    hide ToBits;
    BytesBitsSlice(m, i, i + 1);
  }

  lemma {:induction false} PrefixBits(m: seq<Byte>, start: nat, k: nat)
    requires start < |m| && k < 8
    ensures ToBits(m[start] / Pow2(8 - k), k) == BytesBits(m)[8 * start..8 * start + k]
  {
    hide BytesBits, ToBits, Pow2;
    TopBits(m[start], k);
    ByteAt(m, start);
    Subslice(BytesBits(m), 8 * start, 8 * start + 8, 0, k);
  }

  lemma {:induction false} PostfixBits(m: seq<Byte>, last: nat, k: nat)
    requires last < |m| && k < 8
    ensures ToBits(m[last] % Pow2(k), k) == BytesBits(m)[8 * last + 8 - k..8 * last + 8]
  {
    hide BytesBits, ToBits, Pow2;
    LowBits(m[last], k);
    ByteAt(m, last);
    Subslice(BytesBits(m), 8 * last, 8 * last + 8, 8 - k, 8);
  }

  /** Head, field and tail put over the bytes they came from change only the field. */
  lemma PatchedBy(all: seq<Bit>, base: nat, o: nat, field: seq<Bit>, e: nat)
    requires base <= o && o + |field| <= e <= |all|
    ensures var put := (all[base..o] + field) + all[o + |field|..e];
            all[..base] + put + all[base + |put|..] == Patched(all, o, field)
  {
    var put := (all[base..o] + field) + all[o + |field|..e];
    assert base + |put| == e;
    assert all[..base] + all[base..o] == all[..o];
    assert all[o + |field|..e] + all[e..] == all[o + |field|..];
    calc {
      all[..base] + put + all[e..];
      (all[..base] + all[base..o]) + field + (all[o + |field|..e] + all[e..]);
    }
  }

  /** The writer over window [ptr, end) has been given `bits`; memory was `m` before. */
  ghost predicate Given(w: BitStreamWriter, m: seq<Byte>, ptr: nat, end: nat, bits: seq<Bit>)
    reads w, w.mem
  {
    && w.Valid() && w.init == ptr && w.end == end && w.mem.Length == |m|
    && w.Written() == bits
    && w.mem[..ptr] == m[..ptr] && w.mem[w.pos..] == m[w.pos..]
  }

  lemma {:induction false} GivenPos(w: BitStreamWriter, m: seq<Byte>, ptr: nat, end: nat, bits: seq<Bit>)
    requires Given(w, m, ptr, end, bits)
    ensures w.pos == ptr + 4 * (|bits| / 32) && w.totalBits == 8 * (end - ptr) - |bits|
    ensures forall i :: w.pos <= i < |m| ==> w.mem[i] == m[i]
  {
    hide BytesBits, ToBits;
    forall i | w.pos <= i < |m| ensures w.mem[i] == m[i] {
      assert w.mem[w.pos..][i - w.pos] == m[w.pos..][i - w.pos];
    }
  }

  method StartWriter(mem: array<Byte>, ptr: nat, end: nat) returns (w: BitStreamWriter)
    requires ptr < end <= mem.Length && 8 * (end - ptr) < WORD
    ensures fresh(w) && w.mem == mem && Given(w, mem[..], ptr, end, [])
  {
    w := new BitStreamWriter(mem);
    var ok := w.SetBuffer(ptr, end);
  }

  method PutField(w: BitStreamWriter, num: nat, value: nat, ghost m: seq<Byte>, ghost ptr: nat, ghost end: nat, ghost bits: seq<Bit>)
    requires Given(w, m, ptr, end, bits) && num <= INT_BIT && value < WORD && |bits| + num <= 8 * (end - ptr)
    modifies w, w.mem
    ensures Given(w, m, ptr, end, bits + ToBits(value, num))
  {
    hide BytesBits, ToBits, Pow2;
    GivenPos(w, m, ptr, end, bits);
    ghost var p, before := w.pos, w.mem[..];
    var ok := w.PutBits(num, value);
    assert p <= w.pos;
    assert w.mem[w.pos..] == before[p..][w.pos - p..];
    assert m[w.pos..] == m[p..][w.pos - p..];
  }

  method Flush(w: BitStreamWriter, ghost m: seq<Byte>, ghost ptr: nat, ghost end: nat, ghost put: seq<Bit>)
    requires Given(w, m, ptr, end, put) && ptr + 4 * (|put| / 32) + 4 <= |m|
    modifies w, w.mem
    ensures var all := BytesBits(m); BytesBits(w.mem[..]) == all[..8 * ptr] + put + all[8 * ptr + |put|..]
  {
    hide ToBits, BytesBits, Pow2;
    GivenPos(w, m, ptr, end, put);
    SameOutside(m, w.mem[..], ptr, w.pos, 8 * ptr + |put|);
    w.FlushBits();
  }

  /** The bits before the field in its first byte are put back as they are. */
  method PutHead(w: BitStreamWriter, byteOffset: nat, ghost m: seq<Byte>, ptr: nat, ghost end: nat)
    requires Given(w, m, ptr, end, []) && byteOffset < 8 && ptr < end && w.mem[..] == m
    modifies w, w.mem
    ensures Given(w, m, ptr, end, BytesBits(m)[8 * ptr..8 * ptr + byteOffset])
  {
    hide ToBits, BytesBits, Pow2;
    if byteOffset > 0 {
      PrefixBits(m, ptr, byteOffset);
      SmallByte(m[ptr], 8 - byteOffset);
      var prefix := Shr(w.mem[ptr], 8 - byteOffset);
      PutField(w, byteOffset, prefix, m, ptr, end, []);
      assert [] + ToBits(prefix, byteOffset) == ToBits(prefix, byteOffset);
    }
  }

  /** So are the bits after it in its last byte, which is read after words may have been
      stored but never lies in one of them. */
  method PutTail(w: BitStreamWriter, last: nat, post: nat, ghost m: seq<Byte>, ghost ptr: nat, ghost end: nat, ghost bits: seq<Bit>)
    requires Given(w, m, ptr, end, bits) && 0 < post <= 8 && 8 * ptr + |bits| == 8 * last + 8 - post
    requires post < 8 ==> last < end
    modifies w, w.mem
    ensures var n := if post < 8 then post else 0;
            Given(w, m, ptr, end, bits + BytesBits(m)[8 * ptr + |bits|..8 * ptr + |bits| + n])
  {
    hide ToBits, BytesBits, Pow2;
    if post < 8 {
      GivenPos(w, m, ptr, end, bits);
      PostfixBits(m, last, post);
      SmallByte(m[last], post);
      var postfix := Masked(w.mem[last], post);
      PutField(w, post, postfix, m, ptr, end, bits);
    } else {
      assert bits + [] == bits;
    }
  }

  /** The three puts: head, field at bit `o`, tail. */
  method PutPieces(w: BitStreamWriter, ptr: nat, byteOffset: nat, bitLen: nat, value: nat, last: nat, post: nat,
                   ghost m: seq<Byte>, ghost end: nat, ghost o: nat)
    requires Given(w, m, ptr, end, []) && w.mem[..] == m && ptr < end <= |m|
    requires byteOffset < 8 && bitLen <= INT_BIT && value < WORD && o == 8 * ptr + byteOffset
    requires 0 < post <= 8 && o + bitLen == 8 * last + 8 - post && o + bitLen <= 8 * end
    requires post < 8 ==> last < end
    modifies w, w.mem
    ensures var all, e := BytesBits(m), o + bitLen + if post < 8 then post else 0;
            Given(w, m, ptr, end, (all[8 * ptr..o] + ToBits(value, bitLen)) + all[o + bitLen..e])
  {
    hide ToBits, BytesBits, Pow2, Given;
    ghost var all := BytesBits(m);
    PutHead(w, byteOffset, m, ptr, end);
    PutField(w, bitLen, value, m, ptr, end, all[8 * ptr..o]);
    PutTail(w, last, post, m, ptr, end, all[8 * ptr..o] + ToBits(value, bitLen));
  }

  /** Where the pieces lie. */
  lemma Layout(buffer: nat, bitOffset: nat, bitLen: nat, length: nat)
    requires bitLen <= 32
    requires var start := buffer + bitOffset / 8;
             start + Window(bitLen) <= length && start + BytesTouched(bitOffset % 8, bitLen) <= length
    ensures var ptr, byteOffset, o := buffer + bitOffset / 8, bitOffset % 8, 8 * buffer + bitOffset;
            var ptrEnd, post := buffer + (bitOffset + bitLen) / 8, 8 - (bitOffset + bitLen) % 8;
            var e := o + bitLen + if post < 8 then post else 0;
            && 8 * ptr + byteOffset == o && o + bitLen == 8 * ptrEnd + 8 - post
            && o + bitLen <= 8 * (ptr + (bitLen / 8 + 5))
            && (post < 8 ==> ptrEnd < ptr + (bitLen / 8 + 5)) && bitLen / 8 + 5 <= 9
            && e <= 8 * length
            && ptr + (bitLen / 8 + 5) <= length && ptr + 4 * ((e - 8 * ptr) / 32) + 4 <= length
  {
  }

  method UpdateBits(mem: array<Byte>, buffer: nat, bitOffset: nat, bitLen: nat, value: nat)
    requires bitLen <= INT_BIT && value < WORD
    requires var start := buffer + bitOffset / 8;
             start + Window(bitLen) <= mem.Length && start + BytesTouched(bitOffset % 8, bitLen) <= mem.Length
    modifies mem
    ensures BytesBits(mem[..]) == Patched(old(BytesBits(mem[..])), 8 * buffer + bitOffset, ToBits(value, bitLen))
  {
    hide ToBits, BytesBits, Pow2, Patched, Given, BytesTouched, Window;
    Layout(buffer, bitOffset, bitLen, mem.Length);
    var ptr := buffer + bitOffset / 8;
    var byteOffset := bitOffset % 8;
    var end := ptr + (bitLen / 8 + 5);
    var bitWriter := StartWriter(mem, ptr, end);

    var ptrEnd := buffer + (bitOffset + bitLen) / 8;
    var endBitsPostfix := 8 - (bitOffset + bitLen) % 8;

    hide BitStreamWriter.Valid;
    ghost var m, all, o := mem[..], BytesBits(mem[..]), 8 * buffer + bitOffset;
    PutPieces(bitWriter, ptr, byteOffset, bitLen, value, ptrEnd, endBitsPostfix, m, end, o);
    ghost var e := o + bitLen + if endBitsPostfix < 8 then endBitsPostfix else 0;
    Flush(bitWriter, m, ptr, end, (all[8 * ptr..o] + ToBits(value, bitLen)) + all[o + bitLen..e]);
    PatchedBy(all, 8 * ptr, o, ToBits(value, bitLen), e);
  }

  lemma SmallByte(x: Byte, k: nat)
    requires k <= 8
    ensures 0 <= x / Pow2(k) < 256 && 0 <= x % Pow2(k) < 256
  {
    DivBounds(x, Pow2(k));
    MulMonotone(1, Pow2(k), x / Pow2(k));
  }

  // ------------------------------------------------------------------ frame rate override

  /** A video parameter set held as decoded bytes (HevcUnit and HevcVpsUnit). */
  class HevcVpsUnit {
    const nalBuffer: array<Byte>
    const nalBufferLen: nat
    var numUnitsInTick: nat        // num_units_in_tick
    var timeScale: nat             // time_scale
    var numUnitsInTickBitPos: int  // num_units_in_tick_bit_pos

    constructor (nalBuffer: array<Byte>, nalBufferLen: nat)
      requires nalBufferLen <= nalBuffer.Length
      ensures this.nalBuffer == nalBuffer && this.nalBufferLen == nalBufferLen
      ensures numUnitsInTickBitPos == -1
    {
      this.nalBuffer := nalBuffer;
      this.nalBufferLen := nalBufferLen;
      numUnitsInTick, timeScale, numUnitsInTickBitPos := 0, 0, -1;
    }

    ghost function Nal(): seq<Bit>
      reads nalBuffer
    {
      BytesBits(nalBuffer[..])
    }

    /** The guard of the patch. */
    predicate InNal(bitOffset: int, bitLen: int) {
      bitOffset >= 0 && bitLen > 0 && bitOffset / 8 + bitLen / 8 + 5 <= nalBufferLen
    }

    /** The guarded patch. The guard may fall short of what the writer touches, as WindowCovers says; that memory
        has to exist then. */
    method UpdateNalBits(bitOffset: int, bitLen: int, value: nat) returns (ok: bool)
      requires nalBufferLen <= nalBuffer.Length && bitLen <= INT_BIT && value < WORD
      requires InNal(bitOffset, bitLen) ==> bitOffset / 8 + BytesTouched(bitOffset % 8, bitLen) <= nalBuffer.Length
      modifies nalBuffer
      ensures ok <==> InNal(bitOffset, bitLen)
      ensures !ok ==> nalBuffer[..] == old(nalBuffer[..])
      ensures ok ==> Nal() == Patched(old(Nal()), bitOffset, ToBits(value, bitLen))
    {
      if bitOffset < 0 || bitLen <= 0 {
        return false;
      }
      var startByte := bitOffset / 8;
      var requiredEnd := startByte + bitLen / 8 + 5;
      if requiredEnd > nalBufferLen {
        return false;
      }
      UpdateBits(nalBuffer, 0, bitOffset, bitLen, value);
      return true;
    }

    /** The two rates are rounded results of floating-point arithmetic, so they come as
        parameters; the fields record them even when the patch is refused. */
    method SetFPS(newNumUnits: nat, newTimeScale: nat) returns (ok: bool)
      requires nalBufferLen <= nalBuffer.Length && newNumUnits < WORD && newTimeScale < WORD
      modifies this, nalBuffer
      ensures numUnitsInTickBitPos == old(numUnitsInTickBitPos)
      ensures numUnitsInTick == newNumUnits && timeScale == newTimeScale
      ensures ok <==> numUnitsInTickBitPos > 0 && (numUnitsInTickBitPos + 32) / 8 + 9 <= nalBufferLen
      ensures ok ==> Nal() == Patched(old(Nal()), numUnitsInTickBitPos, ToBits(newNumUnits, 32) + ToBits(newTimeScale, 32))
      ensures numUnitsInTickBitPos <= 0 || numUnitsInTickBitPos / 8 + 9 > nalBufferLen ==> nalBuffer[..] == old(nalBuffer[..])
      ensures !ok && numUnitsInTickBitPos > 0 && numUnitsInTickBitPos / 8 + 9 <= nalBufferLen ==>
                Nal() == Patched(old(Nal()), numUnitsInTickBitPos, ToBits(newNumUnits, 32))
    {
      hide BytesBits, ToBits, Patched;
      timeScale := newTimeScale;
      numUnitsInTick := newNumUnits;
      if numUnitsInTickBitPos <= 0 {
        return false;
      }
      ghost var all := Nal();
      WindowCovers(numUnitsInTickBitPos % 8, 32);
      ok := UpdateNalBits(numUnitsInTickBitPos, 32, numUnitsInTick);
      if !ok {
        return false;
      }
      WindowCovers((numUnitsInTickBitPos + 32) % 8, 32);
      ok := UpdateNalBits(numUnitsInTickBitPos + 32, 32, timeScale);
      if ok {
        PatchTwice(all, numUnitsInTickBitPos, ToBits(newNumUnits, 32), ToBits(newTimeScale, 32));
      }
    }

    /** The end of HevcVpsUnit::deserialize: the reader has reached the timing flag.  An
        exception of the reader is a result of `false`. */
    method ReadTimingInfo(reader: BitStreamReader) returns (ok: bool, present: bool)
      requires reader.Valid() && reader.mem == nalBuffer && reader.init == 0
      modifies this, reader
      ensures var rest := old(reader.Unread());
              ok <==> 1 <= |rest| && (Val(rest[..1]) == 1 ==> 65 <= |rest|)
      ensures ok ==> (present <==> Val(old(reader.Unread())[..1]) == 1)
      ensures ok && !present ==> unchanged(this)
      ensures ok && present ==>
                && numUnitsInTickBitPos == old(reader.Position()) + 1
                && var p := numUnitsInTickBitPos;
                   && 0 <= p && p + 64 <= |Nal()|
                   && numUnitsInTick == Val(Nal()[p..p + 32]) && timeScale == Val(Nal()[p + 32..p + 64])
    {
      hide BytesBits, Val;
      ok, present := reader.GetBit();
      if !ok || !present {
        return;
      }
      numUnitsInTickBitPos := reader.GetBitsCount();
      ok := ReadRates(reader);
    }

    method ReadRates(reader: BitStreamReader) returns (ok: bool)
      requires reader.Valid() && reader.mem == nalBuffer && reader.init == 0
      modifies this`numUnitsInTick, this`timeScale, reader
      ensures ok <==> 64 <= |old(reader.Unread())|
      ensures ok ==>
                var p := old(reader.Position());
                && 0 <= p && p + 64 <= |Nal()|
                && numUnitsInTick == Val(Nal()[p..p + 32]) && timeScale == Val(Nal()[p + 32..p + 64])
    {
      hide BytesBits, Val;
      var v;
      ok, v := Read32(reader);
      if !ok {
        return;
      }
      numUnitsInTick := v;
      ok, v := Read32(reader);
      if ok {
        timeScale := v;
      }
    }
  }

  /** A 32-bit field, seen in the whole buffer. */
  method Read32(reader: BitStreamReader) returns (ok: bool, v: nat)
    requires reader.Valid() && reader.init == 0
    modifies reader
    ensures ok <==> 32 <= |old(reader.Unread())|
    ensures ok ==> reader.Valid() && reader.init == 0 && |reader.Unread()| == |old(reader.Unread())| - 32
    ensures ok ==>
              var p, nal := old(reader.Position()), BytesBits(reader.mem[..]);
              reader.Position() == p + 32 && 0 <= p && p + 32 <= |nal| && v == Val(nal[p..p + 32])
  {
    hide BytesBits, Val;
    ghost var p, end, m := reader.Position(), reader.end, reader.mem[..];
    ok, v := reader.GetBits(32);
    if ok {
      BytesBitsSlice(m, 0, end);
      assert m[0..end] == reader.mem[0..end];
      Subslice(BytesBits(m), 0, 8 * end, p, p + 32);
      assert BytesBits(m)[0..8 * end][p..][..32] == BytesBits(m)[0..8 * end][p..p + 32];
    }
  }

  lemma PatchTwice(all: seq<Bit>, o: nat, a: seq<Bit>, b: seq<Bit>)
    requires o + |a| + |b| <= |all|
    ensures Patched(Patched(all, o, a), o + |a|, b) == Patched(all, o, a + b)
  {}

  /** Reading the two 32-bit fields back after an override gives the two new values, and
      every other bit of the unit is what it was. */
  lemma OverrideReadsBack(all: seq<Bit>, p: nat, newNumUnits: nat, newTimeScale: nat)
    requires p + 64 <= |all| && newNumUnits < WORD && newTimeScale < WORD
    ensures var r := Patched(all, p, ToBits(newNumUnits, 32) + ToBits(newTimeScale, 32));
            && Val(r[p..p + 32]) == newNumUnits && Val(r[p + 32..p + 64]) == newTimeScale
            && forall i :: 0 <= i < |all| && !(p <= i < p + 64) ==> r[i] == all[i]
  {
    hide ToBits, Val, Pow2;
    var a, b := ToBits(newNumUnits, 32), ToBits(newTimeScale, 32);
    var r := Patched(all, p, a + b);
    assert r[p..p + 32] == a && r[p + 32..p + 64] == b;
    ValToBits(newNumUnits, 32);
    ValToBits(newTimeScale, 32);
    Pow2Values();
    assert newNumUnits % WORD == newNumUnits && newTimeScale % WORD == newTimeScale;
  }
}
