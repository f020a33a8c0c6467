/**
  The byte stream under the Matroska reader: get_byte, get_buffer and skip_bytes of
  tsMuxer/ioContextDemuxer.cpp hide how the file was cut into read blocks.
  */
module BlockStream {
  import opened Bits

  function Flatten(blocks: seq<seq<Byte>>): seq<Byte> {
    if blocks == [] then [] else blocks[0] + Flatten(blocks[1..])
  }

  function Min(a: nat, b: nat): nat { if a < b then a else b }

  class ByteSource {
    // The blocks the reader has still to hand out; it hands out empty ones after the last.
    var blocks: seq<seq<Byte>>
    // The current block and the place in it: m_curPos up to m_bufEnd.
    var buf: seq<Byte>
    var cur: nat
    var processed: nat
    var isEof: bool

    ghost predicate Valid()
      reads this
    {
      && cur <= |buf| && (forall i :: 0 <= i < |blocks| ==> blocks[i] != [])
      && (isEof ==> cur == |buf| && blocks == [])
    }

    /** The bytes of the file not yet consumed, whatever the block boundaries. */
    ghost function Rest(): seq<Byte>
      reads this
      requires Valid()
    {
      buf[cur..] + Flatten(blocks)
    }

    constructor (blocks: seq<seq<Byte>>)
      requires forall i :: 0 <= i < |blocks| ==> blocks[i] != []
      ensures Valid() && Rest() == Flatten(blocks) && processed == 0 && !isEof
    {
      this.blocks := blocks;
      buf, cur, processed, isEof := [], 0, 0, false;
    }

    /** readBlock, notify and the two pointer assignments that follow each of its calls. */
    method NextBlock()
      requires Valid() && cur == |buf|
      modifies this
      ensures Valid() && cur == 0 && Rest() == old(Rest()) && processed == old(processed) && isEof == old(isEof)
      ensures buf == [] <==> old(Rest()) == []
      ensures |blocks| == if old(blocks) == [] then 0 else |old(blocks)| - 1
    {
      if blocks == [] {
        buf, cur := [], 0;
      } else {
        buf, cur, blocks := blocks[0], 0, blocks[1..];
      }
    }

    method GetByte() returns (b: Byte)
      requires Valid()
      modifies this
      ensures Valid()
      ensures old(Rest()) == [] ==> b == 0 && isEof && Rest() == [] && processed == old(processed)
      ensures old(Rest()) != [] ==>
                b == old(Rest())[0] && Rest() == old(Rest())[1..] && processed == old(processed) + 1 && isEof == old(isEof)
    {
      if cur == |buf| {
        NextBlock();
        if cur == |buf| {
          isEof := true;
          return 0;
        }
      }
      processed := processed + 1;
      b := buf[cur];
      cur := cur + 1;
    }

    /** Step over up to `size` bytes of the current block. */
    method Advance(size: nat) returns (n: nat)
      requires Valid()
      modifies this
      ensures Valid() && n == Min(size, old(|buf| - cur)) && n <= |old(Rest())|
      ensures cur == old(cur) + n && buf == old(buf) && blocks == old(blocks) && isEof == old(isEof)
      ensures Rest() == old(Rest())[n..] && processed == old(processed) + n
    {
      hide Flatten;
      n := Min(size, |buf| - cur);
      cur := cur + n;
      processed := processed + n;
    }

    /** The memcpy of get_buffer: up to `size` bytes of the current block go to `binary`, from `at` on. */
    method CopyOut(binary: array<Byte>, at: nat, size: nat) returns (copied: nat)
      requires Valid() && at + size <= binary.Length
      modifies this, binary
      ensures Valid() && copied == Min(size, old(|buf| - cur)) && copied <= |old(Rest())|
      ensures cur == old(cur) + copied && buf == old(buf) && blocks == old(blocks) && isEof == old(isEof)
      ensures Rest() == old(Rest())[copied..] && processed == old(processed) + copied
      ensures binary[..] == old(binary[..at]) + old(Rest())[..copied] + old(binary[at + copied..])
    {
      hide Flatten;
      var from := cur;
      ghost var rest := Rest();
      copied := Advance(size);
      assert forall i :: 0 <= i < copied ==> rest[i] == buf[from + i];
      forall i | 0 <= i < copied {
        binary[at + i] := buf[from + i];
      }
    }

    method GetBuffer(binary: array<Byte>, size: nat) returns (dst: nat)
      requires Valid() && size <= binary.Length
      modifies this, binary
      ensures Valid() && isEof == old(isEof)
      ensures dst == Min(size, |old(Rest())|)
      ensures binary[..] == old(Rest())[..dst] + old(binary[dst..])
      ensures Rest() == old(Rest())[dst..] && processed == old(processed) + dst
    {
      hide Rest, Flatten;
      ghost var rest, before := Rest(), binary[..];
      dst := CopyOut(binary, 0, size);
      while dst < size
        invariant Valid() && isEof == old(isEof) && dst <= size && dst <= |rest|
        invariant binary[..] == rest[..dst] + before[dst..]
        invariant Rest() == rest[dst..] && processed == old(processed) + dst
        invariant dst < size ==> cur == |buf|
        decreases size - dst
      {
        NextBlock();
        if buf == [] {
          break;
        }
        ghost var mid := binary[..];
        var n := CopyOut(binary, dst, size - dst);
        dst := dst + n;
      }
    }

    method SkipBytes(size: nat)
      requires Valid()
      modifies this
      ensures Valid() && isEof == old(isEof)
      ensures var n := Min(size, |old(Rest())|); Rest() == old(Rest())[n..] && processed == old(processed) + n
    {
      hide Rest, Flatten;
      ghost var rest := Rest();
      var skipped := Advance(size);
      while skipped < size
        invariant Valid() && isEof == old(isEof) && skipped <= size && skipped <= |rest|
        invariant Rest() == rest[skipped..] && processed == old(processed) + skipped
        invariant skipped < size ==> cur == |buf|
        decreases size - skipped
      {
        NextBlock();
        if buf == [] {
          break;
        }
        var n := Advance(size - skipped);
        assert rest[skipped..][n..] == rest[skipped + n..];
        skipped := skipped + n;
      }
    }
  }
}
