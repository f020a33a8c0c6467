/**
  The element reader of tsMuxer/matroskaDemuxer.cpp: cached identifiers, element headers and
  the stack of open masters. Each method is matched by a function on the reader's visible state.
  */
module EbmlReader {
  import opened Bits
  import opened BigEndian
  import opened EbmlNumbers
  import opened BlockStream

  const EBML_MAX_DEPTH: nat := 16
  const INT_MAX: nat := 0x7FFF_FFFF

  /** An open master: where its content starts and how long it is. */
  datatype Level = Level(start: nat, length: nat) {
    function End(): nat { start + length }
  }

  /** What the parser sees: bytes left, bytes consumed, the cached identifier and the open masters. */
  datatype View = View(rest: seq<Byte>, pos: nat, eof: bool, peek: nat, levels: seq<Level>, up: nat)

  /** Success, a negative result, or an exception. */
  datatype Status = Ok | Eof | Thrown

  datatype Read<T> = Read(view: View, status: Status, value: T)

  /** `n` calls of get_byte. */
  function Consume(v: View, n: nat): (r: View)
    ensures n <= |v.rest| ==> r == v.(rest := v.rest[n..], pos := v.pos + n)
    ensures |r.rest| <= |v.rest|
    ensures n > 0 && v.rest != [] ==> |r.rest| < |v.rest|
  {
    var m := Min(n, |v.rest|);
    v.(rest := v.rest[m..], pos := v.pos + m, eof := v.eof || n > |v.rest|)
  }

  /** ebml_read_num. */
  function NumAt(v: View, maxSize: nat): (r: Read<Num>)
    requires maxSize <= 8
    ensures |r.view.rest| <= |v.rest|
    ensures r.status == Ok ==> r.value.Num? && |r.view.rest| < |v.rest|
  {
    var n := ReadNum(v.rest, maxSize);
    match n
    case AtEof => Read(v.(eof := true), Eof, n)
    case Num(_, w) => Read(Consume(v, w), Ok, n)
    case _ => Read(Consume(v, 1), Thrown, n)
  }

  /** ebml_read_element_level_up: masters that end at or before `pos` are closed, innermost first. */
  function PopLevels(levels: seq<Level>, pos: nat): (r: seq<Level>)
    ensures r <= levels
  {
    if levels != [] && pos >= levels[|levels| - 1].End() then PopLevels(levels[..|levels| - 1], pos) else levels
  }

  /** ebml_read_element_id; with `track` the caller also wants to know how many masters ended. */
  function ElementId(v: View, track: bool): (r: Read<nat>)
    ensures |r.view.rest| <= |v.rest|
    ensures r.status == Ok ==> r.value == r.view.peek != 0
    ensures r.status == Ok && v.peek == 0 ==> |r.view.rest| < |v.rest|
    ensures v.peek != 0 && track ==> r.view.up == 0
  {
    if v.peek != 0 then Read(if track then v.(up := 0) else v, Ok, v.peek)
    else
      var n := NumAt(v, 4);
      if n.status != Ok then Read(n.view, n.status, 0)
      else
        var id := IdOf(n.value);
        var w := n.view.(peek := id);
        if track then
          var left := PopLevels(w.levels, w.pos);
          Read(w.(levels := left, up := |w.levels| - |left|), Ok, id)
        else Read(w, Ok, id)
  }

  /** ebml_read_element_length. */
  function ElementLength(v: View): (r: Read<nat>)
    ensures |r.view.rest| <= |v.rest|
    ensures r.status == Ok ==> |r.view.rest| < |v.rest|
  {
    var n := NumAt(v.(peek := 0), 8);
    Read(n.view, n.status, if n.status == Ok then n.value.value else 0)
  }

  /** Identifier and length, as every ebml_read_* function starts; the value is the length. */
  function Header(v: View): (r: Read<nat>)
    ensures |r.view.rest| <= |v.rest|
    ensures r.status == Ok ==> |r.view.rest| < |v.rest|
  {
    var i := ElementId(v, false);
    if i.status != Ok then i else ElementLength(i.view)
  }

  /** `n` bytes at once: unlike get_byte this does not set the end flag. */
  function SkipView(v: View, n: nat): (r: View)
    ensures |r.rest| <= |v.rest|
  {
    v.(rest := v.rest[Min(n, |v.rest|)..], pos := v.pos + Min(n, |v.rest|))
  }

  /** ebml_read_skip. */
  function Skip(v: View): (r: Read<nat>)
    ensures |r.view.rest| <= |v.rest|
    ensures r.status == Ok ==> |r.view.rest| < |v.rest|
  {
    var h := Header(v);
    if h.status != Ok then h else h.(view := SkipView(h.view, h.value))
  }

  /** Truncation to a 32-bit int. */
  function Int32(n: int): int {
    var m := n % 0x1_0000_0000;
    if m <= INT_MAX then m else m - 0x1_0000_0000
  }

  /** ebml_read_binary; a length that truncates to a negative int makes the allocation fail. */
  function Binary(v: View): (r: Read<seq<Byte>>)
    ensures |r.view.rest| <= |v.rest|
    ensures r.status == Ok ==> |r.view.rest| < |v.rest|
  {
    var h := Header(v);
    if h.status != Ok then Read(h.view, h.status, [])
    else
      var size := Int32(h.value);
      if size < 0 then Read(h.view, Thrown, [])
      else
        var status := if size > |h.view.rest| then Thrown else Ok;
        Read(SkipView(h.view, size), status, h.view.rest[..Min(size, |h.view.rest|)])
  }

  /** The shared part of ebml_read_uint and ebml_read_sint: up to eight content bytes. */
  function Content(v: View): (r: Read<seq<Byte>>)
    ensures |r.view.rest| <= |v.rest|
    ensures r.status == Ok ==> |r.view.rest| < |v.rest| && 1 <= |r.value| <= 8
  {
    var h := Header(v);
    if h.status != Ok then Read(h.view, h.status, [])
    else if h.value < 1 || h.value > 8 then Read(h.view, Thrown, [])
    else Read(Consume(h.view, h.value), Ok, Padded(h.view.rest, h.value))
  }

  /** ebml_read_uint. */
  function Uint(v: View): (r: Read<int>)
    ensures |r.view.rest| <= |v.rest|
    ensures r.status == Ok ==> |r.view.rest| < |v.rest|
  {
    var c := Content(v);
    Read(c.view, c.status, if c.status == Ok then UintOf(c.value) else 0)
  }

  /** ebml_read_sint. */
  function Sint(v: View): (r: Read<int>)
    ensures |r.view.rest| <= |v.rest|
    ensures r.status == Ok ==> |r.view.rest| < |v.rest|
  {
    var c := Content(v);
    Read(c.view, c.status, if c.status == Ok then SintOf(c.value) else 0)
  }

  /** ebml_read_master. */
  function Master(v: View): (r: Read<nat>)
    ensures |r.view.rest| <= |v.rest|
    ensures r.status == Ok ==> |r.view.rest| < |v.rest|
  {
    var h := Header(v);
    if h.status != Ok then h
    else if |h.view.levels| >= EBML_MAX_DEPTH then h.(status := Thrown)
    else h.(view := h.view.(levels := h.view.levels + [Level(h.view.pos, h.value)]))
  }

  class Demuxer {
    const io: ByteSource
    var peekId: nat
    const levels: array<Level>
    var numLevels: nat
    var levelUp: nat

    ghost predicate Valid()
      reads this, io, levels
    {
      io.Valid() && levels.Length == EBML_MAX_DEPTH && numLevels <= levels.Length
    }

    ghost function Seen(): View
      reads this, io, levels
      requires Valid()
    {
      View(io.Rest(), io.processed, io.isEof, peekId, levels[..numLevels], levelUp)
    }

    constructor (source: ByteSource)
      requires source.Valid()
      ensures Valid() && io == source && fresh(levels)
      ensures Seen() == View(source.Rest(), source.processed, source.isEof, 0, [], 0)
    {
      io := source;
      levels := new Level[EBML_MAX_DEPTH](_ => Level(0, 0));
      peekId, numLevels, levelUp := 0, 0, 0;
    }

    /** get_byte, as a step of the whole reader. */
    method GetByte() returns (b: Byte)
      requires Valid()
      modifies io
      ensures Valid() && Seen() == Consume(old(Seen()), 1) && b == Padded(old(Seen()).rest, 1)[0]
    {
      b := io.GetByte();
    }

    /** The folding loop of every number: `total << 8 | get_byte()`, `n` times. */
    method FoldBytes(first: nat, n: nat) returns (total: nat)
      requires Valid()
      modifies io
      ensures Valid() && Seen() == Consume(old(Seen()), n)
      ensures total == first * Pow256(n) + FromBE(Padded(old(Seen()).rest, n))
    {
      hide FromBE, Pow256, Padded, Consume, Flatten;
      total := first;
      ghost var v := Seen();
      FoldNothing(v, first);
      var i := 0;
      while i < n
        invariant 0 <= i <= n && Valid() && Seen() == Consume(v, i)
        invariant total == first * Pow256(i) + FromBE(Padded(v.rest, i))
      {
        var b := GetByte();
        FoldOne(v, first, i);
        total := total * 256 + b;
        i := i + 1;
      }
    }

    /** ebml_read_num. */
    method ReadNum(maxSize: nat) returns (status: Status, number: nat, read: nat)
      requires Valid() && maxSize <= 8
      modifies io
      ensures Valid()
      ensures var r := NumAt(old(Seen()), maxSize);
              && Seen() == r.view && status == r.status
              && (status == Ok ==> number == r.value.value && read == r.value.width)
    {
      hide FromBE, Pow256, Flatten, Width;
      ghost var v := Seen();
      var total := GetByte();
      if total == 0 && io.isEof {
        AtEndIsEof(v, maxSize);
        return Eof, 0, 0;
      }
      read := FindMarker(total);
      if read > maxSize {
        return Thrown, 0, read;
      }
      number := FoldBytes(total - Marker(read), read - 1);
      NumSplit(v.rest, read);
      ConsumeTwice(v, 1, read - 1);
      return Ok, number, read;
    }

    /** ebml_read_element_level_up. */
    method ElementLevelUp() returns (num: nat)
      requires Valid()
      modifies `numLevels
      ensures Valid() && numLevels <= old(numLevels) && num == old(numLevels) - numLevels
      ensures levels[..numLevels] == PopLevels(old(Seen()).levels, io.processed)
    {
      hide Flatten;
      num := 0;
      ghost var all := levels[..numLevels];
      assert all[..numLevels] == all;
      while numLevels > 0
        invariant numLevels <= |all| && num == |all| - numLevels
        invariant PopLevels(all[..numLevels], io.processed) == PopLevels(all, io.processed)
        invariant levels[..numLevels] == all[..numLevels]
      {
        assert all[..numLevels][..numLevels - 1] == all[..numLevels - 1];
        if io.processed >= levels[numLevels - 1].End() {
          numLevels := numLevels - 1;
          num := num + 1;
        } else {
          break;
        }
      }
    }

    /** ebml_read_element_id; ebml_peek_id is the call with `track`. */
    method ReadElementId(track: bool) returns (status: Status, id: nat)
      requires Valid()
      modifies this, io
      ensures Valid()
      ensures var r := ElementId(old(Seen()), track); Seen() == r.view && status == r.status && id == r.value
    {
      hide NumAt, IdOf, PopLevels;
      if peekId != 0 {
        if track {
          levelUp := 0;
        }
        return Ok, peekId;
      }
      var number, read;
      status, number, read := ReadNum(4);
      if status != Ok {
        return status, 0;
      }
      id := IdOf(Num(number, read));
      peekId := id;
      if track {
        levelUp := ElementLevelUp();
      }
    }

    /** ebml_read_element_length. */
    method ReadElementLength() returns (status: Status, length: nat)
      requires Valid()
      modifies this, io
      ensures Valid()
      ensures var r := ElementLength(old(Seen())); Seen() == r.view && status == r.status && length == r.value
    {
      hide NumAt;
      peekId := 0;
      var read;
      status, length, read := ReadNum(8);
      if status != Ok {
        length := 0;
      }
    }

    method ReadHeader() returns (status: Status, length: nat)
      requires Valid()
      modifies this, io
      ensures Valid()
      ensures var r := Header(old(Seen())); Seen() == r.view && status == r.status && length == r.value
    {
      hide ElementId, ElementLength;
      var id;
      status, id := ReadElementId(false);
      if status != Ok {
        return status, id;
      }
      status, length := ReadElementLength();
    }

    /** ebml_read_skip. */
    method ReadSkip() returns (status: Status)
      requires Valid()
      modifies this, io
      ensures Valid()
      ensures var r := Skip(old(Seen())); Seen() == r.view && status == r.status
    {
      hide Header;
      var length;
      status, length := ReadHeader();
      if status == Ok {
        io.SkipBytes(length);
      }
    }

    /** ebml_read_binary. */
    method ReadBinary() returns (status: Status, binary: seq<Byte>)
      requires Valid()
      modifies this, io
      ensures Valid()
      ensures var r := Binary(old(Seen())); Seen() == r.view && status == r.status && (status == Ok ==> binary == r.value)
    {
      hide Header, Flatten, io.Rest, Int32, SizeFixed;
      var length;
      status, length := ReadHeader();
      if status != Ok {
        return status, [];
      }
      var size := Int32(length);
      if size < 0 {
        return Thrown, [];
      }
      var buffer := new Byte[size];
      var got := io.GetBuffer(buffer, size);
      if got != size {
        return Thrown, [];
      }
      return Ok, buffer[..];
    }

    /** ebml_read_uint. */
    method ReadUint() returns (status: Status, num: int)
      requires Valid()
      modifies this, io
      ensures Valid()
      ensures var r := Uint(old(Seen())); Seen() == r.view && status == r.status && num == r.value
    {
      hide Header, Consume, FromBE, Padded;
      var size;
      status, size := ReadHeader();
      if status != Ok {
        return status, 0;
      }
      if size < 1 || size > 8 {
        return Thrown, 0;
      }
      var total := FoldBytes(0, size);
      num := Int64(total);
    }

    /** ebml_read_sint: the sign bit is taken off the first byte and subtracted at the end. */
    method ReadSint() returns (status: Status, num: int)
      requires Valid()
      modifies this, io
      ensures Valid()
      ensures var r := Sint(old(Seen())); Seen() == r.view && status == r.status && num == r.value
    {
      hide Header, Consume, FromBE, Padded, Int64, Pow256, Pow2, Flatten;
      var size;
      status, size := ReadHeader();
      if status != Ok {
        return status, 0;
      }
      if size < 1 || size > 8 {
        return Thrown, 0;
      }
      ghost var v := Seen();
      var first := GetByte();
      var negative := first >= 0x80;
      var total := FoldBytes(if negative then first - 0x80 else first, size - 1);
      FoldRest(v, size, first);
      ConsumeTwice(v, 1, size - 1);
      num := if negative then Int64(total - Pow2(8 * size - 1)) else Int64(total);
    }

    /** ebml_read_master. */
    method ReadMaster() returns (status: Status)
      requires Valid()
      modifies this, io, levels
      ensures Valid()
      ensures var r := Master(old(Seen())); Seen() == r.view && status == r.status
    {
      hide Header;
      var length;
      status, length := ReadHeader();
      if status != Ok {
        return;
      }
      if numLevels >= EBML_MAX_DEPTH {
        return Thrown;
      }
      levels[numLevels] := Level(io.processed, length);
      numLevels := numLevels + 1;
    }
  }

  // ------------------------------------------------------------------ reading byte by byte

  lemma FoldNothing(v: View, first: nat)
    ensures Consume(v, 0) == v && first == first * Pow256(0) + FromBE(Padded(v.rest, 0))
  {}

  lemma FoldOne(v: View, first: nat, i: nat)
    ensures Consume(Consume(v, i), 1) == Consume(v, i + 1)
    ensures first * Pow256(i + 1) + FromBE(Padded(v.rest, i + 1))
         == (first * Pow256(i) + FromBE(Padded(v.rest, i))) * 256 + Padded(Consume(v, i).rest, 1)[0] as int
  {
    hide FromBE;
    var a, b := Padded(v.rest, i), Padded(v.rest, i + 1);
    assert b[..i] == a;
    assert FromBE(b) == 256 * FromBE(a) + b[i] as int by { FromBELast(b); }
    assert b[i] == Padded(Consume(v, i).rest, 1)[0];
    assert first * Pow256(i + 1) == first * Pow256(i) * 256;
  }

  lemma FromBELast(s: seq<Byte>)
    requires s != []
    ensures FromBE(s) == 256 * FromBE(s[..|s| - 1]) + s[|s| - 1] as int
  {}

  lemma ConsumeTwice(v: View, a: nat, b: nat)
    ensures Consume(Consume(v, a), b) == Consume(v, a + b)
  {}

  lemma AtEndIsEof(v: View, maxSize: nat)
    requires maxSize <= 8 && Consume(v, 1).eof && (v.eof ==> v.rest == [])
    ensures v.rest == [] && NumAt(v, maxSize) == Read(Consume(v, 1), Eof, AtEof)
  {}

  lemma FoldRest(v: View, n: nat, first: Byte)
    requires 1 <= n && first == Padded(v.rest, 1)[0]
    ensures var s, rest := Padded(v.rest, n), Padded(Consume(v, 1).rest, n - 1);
            && s[0] == first
            && FromBE(s) == first as int * Pow256(n - 1) + FromBE(rest)
            && (first >= 0x80 ==> FromBE([first - 0x80] + s[1..]) == (first as int - 0x80) * Pow256(n - 1) + FromBE(rest))
  {
    hide FromBE, Pow256;
    var s, rest := Padded(v.rest, n), Padded(Consume(v, 1).rest, n - 1);
    FromBEFirst(s);
    assert s[1..] == rest;
    if first >= 0x80 {
      var t := [first - 0x80] + s[1..];
      FromBEFirst(t);
      assert t[1..] == rest;
    }
  }

  lemma NumSplit(s: seq<Byte>, w: nat)
    requires s != [] && w == Width(s[0]) <= 8
    ensures FromBE(Digits(Padded(s, w))) == (s[0] - Marker(w)) * Pow256(w - 1) + FromBE(Padded(s[1..], w - 1))
  {
    hide FromBE, Pow256, Width, Marker;
    var d := Digits(Padded(s, w));
    FromBEFirst(d);
    assert d[1..] == Padded(s[1..], w - 1);
  }
}
