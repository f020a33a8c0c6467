/**
  The word-buffered bit reader and bit writer of tsMuxer/bitStream.h.

  Memory is an array of bytes; an `unsigned*` into it is the offset of the first of the
  word's four bytes.  A 32-bit value is a natural number below 2^32: a shift left by k is
  multiplication by 2^k reduced modulo 2^32, a shift right by k is division by 2^k, and
  masking with m_masks[k] == 2^k - 1 is reduction modulo 2^k.  A thrown BitStreamException
  is a result of `false` that leaves the object as it was.
  */
module BitStream {
  import opened Bits

  const INT_BIT: nat := 32
  const WORD: nat := 0x1_0000_0000

  function Shl(x: nat, k: nat): nat { x * Pow2(k) % WORD }

  function Shr(x: nat, k: nat): nat {
    DivBounds(x, Pow2(k));
    x / Pow2(k)
  }

  function Masked(x: nat, k: nat): nat { x % Pow2(k) }

  /** my_ntohl of the word whose bytes are `b`. */
  function Load32(b: seq<Byte>): nat
    requires |b| == 4
  {
    var b0: int, b1: int, b2: int, b3: int := b[0], b[1], b[2], b[3];
    b0 * 0x100_0000 + b1 * 0x1_0000 + b2 * 0x100 + b3
  }

  lemma Load32Val(b: seq<Byte>)
    requires |b| == 4
    ensures Load32(b) == Val(BytesBits(b)) < WORD
  {
    hide BytesBits, Val;
    WordVal(b);
  }

  /** my_htonl followed by the store: the bytes of `v`, most significant first. */
  function Bytes32(v: nat): (b: seq<Byte>)
    requires v < WORD
    ensures |b| == 4
  {
    assert v / 0x100_0000 < 0x100;
    [v / 0x100_0000, v / 0x1_0000 % 0x100, v / 0x100 % 0x100, v % 0x100]
  }

  lemma Load32Bytes32(v: nat)
    requires v < WORD
    ensures Load32(Bytes32(v)) == v
  {
    var a := v / 0x100;
    var b := a / 0x100;
    assert v / 0x1_0000 == b && v / 0x100_0000 == b / 0x100;
  }

  lemma Bytes32Bits(v: nat)
    requires v < WORD
    ensures BytesBits(Bytes32(v)) == ToBits(v, 32)
  {
    hide BytesBits, Val, ToBits, Load32, Bytes32;
    var b := Bytes32(v);
    Load32Bytes32(v);
    Load32Val(b);
    ToBitsVal(BytesBits(b));
  }

  /** Putting `num` bits behind `w` waiting ones when they all fit in the word. */
  lemma AppendFits(cur: nat, w: nat, value: nat, num: nat)
    requires cur < Pow2(w) && w + num < 32
    ensures var next := Shl(cur, num) + Masked(value, num);
            next < Pow2(w + num) && next < WORD && ToBits(next, w + num) == ToBits(cur, w) + ToBits(value, num)
  {
    var next := cur * Pow2(num) + value % Pow2(num);
    JoinBound(cur, w, value % Pow2(num), num);
    Pow2Monotone(w + num, 32);
    Pow2Values();
    assert Shl(cur, num) == cur * Pow2(num);
    DivModUnique(next, Pow2(num), cur, value % Pow2(num));
    ToBitsSplit(next, w, num);
    ToBitsMod(next, num);
    ToBitsMod(value, num);
  }

  lemma JoinBound(cur: nat, w: nat, low: nat, num: nat)
    requires cur < Pow2(w) && low < Pow2(num)
    ensures cur * Pow2(num) + low < Pow2(w + num)
    ensures cur * Pow2(num) >= 0
  {
    hide Pow2;
    Pow2Add(w, num);
    var p, q := Pow2(num), Pow2(w);
    MulGrows(q - cur, p);
    assert (q - cur) * p == q * p - cur * p;
  }

  lemma {:induction false} QuotientBound(v: nat, k: nat, r: nat)
    requires v < Pow2(k + r)
    ensures 0 <= v / Pow2(r) < Pow2(k)
  {
    Pow2Add(k, r);
    DivLess(v, Pow2(r), Pow2(k));
  }

  /** Putting `num` bits behind `w` waiting ones when they complete the word. */
  lemma AppendSpills(cur: nat, w: nat, value: nat, num: nat)
    requires cur < Pow2(w) && w < 32 && num <= 32 && w + num >= 32
    ensures var r := w + num - 32;
            var full := Shl(cur, 32 - w) + Shr(Masked(value, num), r);
            && full < WORD && Shl(cur, 32 - w) == cur * Pow2(32 - w)
            && ToBits(full, 32) + ToBits(Masked(Masked(value, num), r), r) == ToBits(cur, w) + ToBits(value, num)
  {
    hide ToBits, Pow2;
    var k, r, v := 32 - w, w + num - 32, value % Pow2(num);
    var high := v / Pow2(r);
    QuotientBound(v, k, r);
    JoinWord(cur, w, high, k);
    ToBitsSplit(v, k, r);
    ToBitsMod(value, num);
    ToBitsMod(v, r);
    Associative(ToBits(cur, w), ToBits(high, k), ToBits(v, r));
  }

  /** Two parts that make up one word. */
  lemma JoinWord(cur: nat, w: nat, low: nat, k: nat)
    requires cur < Pow2(w) && low < Pow2(k) && w + k == 32
    ensures Shl(cur, k) == cur * Pow2(k) && Shl(cur, k) + low < WORD
    ensures ToBits(Shl(cur, k) + low, 32) == ToBits(cur, w) + ToBits(low, k)
  {
    hide ToBits, Pow2;
    JoinBound(cur, w, low, k);
    Pow2Values();
    var full := cur * Pow2(k) + low;
    DivModUnique(full, Pow2(k), cur, low);
    ToBitsSplit(full, w, k);
    ToBitsMod(full, k);
  }

  lemma {:induction false} StoredPrefix(m0: seq<Byte>, m1: seq<Byte>, init: nat, pos: nat, v: nat)
    requires init <= pos && pos + 4 <= |m0| && v < WORD
    requires m1 == m0[..pos] + Bytes32(v) + m0[pos + 4..]
    ensures BytesBits(m1[init..pos + 4]) == BytesBits(m0[init..pos]) + ToBits(v, 32)
    ensures m1[..init] == m0[..init] && m1[pos + 4..] == m0[pos + 4..]
  {
    hide BytesBits, ToBits;
    assert m1[init..pos + 4] == m0[init..pos] + Bytes32(v);
    BytesBitsConcat(m0[init..pos], Bytes32(v));
    Bytes32Bits(v);
  }

  /** All that a put leaves waiting in m_curVal. */
  lemma PutFits(stored: seq<Bit>, cur: nat, w: nat, value: nat, num: nat)
    requires cur < Pow2(w) && w + num < 32
    ensures var next := Shl(cur, num) + Masked(value, num);
            && next < Pow2(w + num) && next < WORD
            && stored + ToBits(next, w + num) == (stored + ToBits(cur, w)) + ToBits(value, num)
  {
    hide ToBits, Pow2, Shl, Masked;
    AppendFits(cur, w, value, num);
    Associative(stored, ToBits(cur, w), ToBits(value, num));
  }

  /** A put that completes a word and stores it. */
  lemma {:induction false} PutSpills(m0: seq<Byte>, m1: seq<Byte>, init: nat, pos: nat, cur: nat, w: nat, value: nat, num: nat, full: nat)
    requires cur < Pow2(w) && w < 32 && num <= 32 && w + num >= 32
    requires init <= pos && pos + 4 <= |m0|
    requires full == Shl(cur, 32 - w) + Shr(Masked(value, num), w + num - 32) < WORD
    requires m1 == m0[..pos] + Bytes32(full) + m0[pos + 4..]
    ensures var rest := Masked(Masked(value, num), w + num - 32);
            && rest < Pow2(w + num - 32)
            && BytesBits(m1[init..pos + 4]) + ToBits(rest, w + num - 32)
               == (BytesBits(m0[init..pos]) + ToBits(cur, w)) + ToBits(value, num)
    ensures m1[..init] == m0[..init] && m1[pos + 4..] == m0[pos + 4..]
  {
    hide ToBits, Pow2, BytesBits;
    AppendSpills(cur, w, value, num);
    StoredPrefix(m0, m1, init, pos, full);
    var rest := Masked(Masked(value, num), w + num - 32);
    Associative(BytesBits(m0[init..pos]), ToBits(full, 32), ToBits(rest, w + num - 32));
    Associative(BytesBits(m0[init..pos]), ToBits(cur, w), ToBits(value, num));
  }

  /** Memory that agrees outside the words stored so far has the same bits outside the bits put. */
  lemma {:induction false} SameOutside(m: seq<Byte>, m': seq<Byte>, i: nat, p: nat, k: nat)
    requires i <= p <= |m| == |m'| && m[..i] == m'[..i] && m[p..] == m'[p..] && 8 * p <= k <= 8 * |m|
    ensures BytesBits(m)[..8 * i] == BytesBits(m')[..8 * i] && BytesBits(m)[k..] == BytesBits(m')[k..]
  {
    hide BytesBits;
    BytesBitsSlice(m, 0, i);
    BytesBitsSlice(m', 0, i);
    BytesBitsSlice(m, p, |m|);
    BytesBitsSlice(m', p, |m|);
    assert m[0..i] == m[..i] && m'[0..i] == m'[..i] && m[p..|m|] == m[p..] && m'[p..|m|] == m'[p..];
    var x, y := BytesBits(m), BytesBits(m');
    assert x[k..] == x[8 * p..8 * |m|][k - 8 * p..] && y[k..] == y[8 * p..8 * |m|][k - 8 * p..];
  }

  /** With no bit waiting there is nothing to shift. */
  lemma ZeroShift(cur: nat, w: nat)
    requires cur < Pow2(w)
    ensures w == 0 ==> cur == 0 && Shl(cur, 32) == 0
  {}

  /** The word a flush stores: `w` waiting bits, then what memory held. */
  lemma {:induction false} FlushedWord(b: seq<Byte>, cur: nat, w: nat)
    requires |b| == 4 && cur < Pow2(w) && w < 32
    ensures var v := Masked(Load32(b), 32 - w) + Shl(cur, 32 - w);
            v < WORD && ToBits(v, 32) == ToBits(cur, w) + BytesBits(b)[w..]
  {
    hide ToBits, Pow2, BytesBits, Val;
    Load32Val(b);
    var all := BytesBits(b);
    assert all == all[..w] + all[w..];
    ValSplit(all[..w], all[w..]);
    ValBound(all[w..]);
    JoinWord(cur, w, Val(all[w..]), 32 - w);
    ToBitsVal(all[w..]);
  }

  lemma Flushed(m0: seq<Byte>, m1: seq<Byte>, init: nat, pos: nat, cur: nat, w: nat)
    requires cur < Pow2(w) && w < 32 && init <= pos && pos + 4 <= |m0|
    requires Masked(Load32(m0[pos..pos + 4]), 32 - w) + Shl(cur, 32 - w) < WORD
    requires m1 == m0[..pos] + Bytes32(Masked(Load32(m0[pos..pos + 4]), 32 - w) + Shl(cur, 32 - w)) + m0[pos + 4..]
    ensures var all, written := BytesBits(m0), BytesBits(m0[init..pos]) + ToBits(cur, w);
            BytesBits(m1) == all[..8 * init] + written + all[8 * init + |written|..]
  {
    hide ToBits, Pow2, BytesBits, Val, Load32;
    var word, v := m0[pos..pos + 4], Masked(Load32(m0[pos..pos + 4]), 32 - w) + Shl(cur, 32 - w);
    FlushedWord(word, cur, w);
    Bytes32Bits(v);
    BytesBitsParts(m1, m0[..pos], Bytes32(v), m0[pos + 4..]);
    BytesBitsSlice(m0, 0, pos);
    BytesBitsSlice(m0, init, pos);
    BytesBitsSlice(m0, pos, pos + 4);
    BytesBitsSlice(m0, pos + 4, |m0|);
    assert m0[0..pos] == m0[..pos] && m0[pos + 4..|m0|] == m0[pos + 4..];
    Spliced(BytesBits(m0), 8 * init, 8 * pos, w, ToBits(cur, w));
  }

  lemma Spliced(all: seq<Bit>, i: nat, p: nat, w: nat, bits: seq<Bit>)
    requires i <= p && p + 32 <= |all| && |bits| == w <= 32
    ensures (all[0..p] + (bits + all[p..p + 32][w..])) + all[p + 32..|all|]
            == all[..i] + (all[i..p] + bits) + all[i + |all[i..p] + bits|..]
  {
  }

  class BitStreamWriter {
    const mem: array<Byte>
    var init: nat         // m_initBuffer
    var pos: nat          // m_buffer
    var curVal: nat       // m_curVal
    var bitWrited: nat    // m_bitWrited
    var totalBits: nat    // m_totalBits
    ghost var end: nat    // the end given to SetBuffer

    constructor (mem: array<Byte>)
      ensures this.mem == mem
    {
      this.mem := mem;
      init, pos, curVal, bitWrited, totalBits, end := 0, 0, 0, 0, 0, 0;
    }

    ghost predicate Valid()
      reads this
    {
      && init <= pos && (pos - init) % 4 == 0
      && bitWrited < INT_BIT && curVal < Pow2(bitWrited)
      && totalBits + 8 * (pos - init) + bitWrited == 8 * (end - init)
      && end <= mem.Length
    }

    /** Every bit put so far: the words stored and the bits waiting in m_curVal. */
    ghost function Written(): seq<Bit>
      requires pos <= mem.Length && init <= pos
      reads this, mem
    {
      BytesBits(mem[init..pos]) + ToBits(curVal, bitWrited)
    }

    method SetBuffer(buffer: nat, end: nat) returns (ok: bool)
      requires end <= mem.Length && 8 * (end - buffer) < WORD  // m_totalBits is 32 bits wide
      modifies this
      ensures ok <==> buffer < end
      ensures ok ==> Valid() && Written() == [] && init == pos == buffer && this.end == end
      ensures !ok ==> unchanged(this)
    {
      if buffer >= end {
        return false;
      }
      totalBits := (end - buffer) * 8;
      init, pos, this.end := buffer, buffer, end;
      curVal, bitWrited := 0, 0;
      return true;
    }

    method StoreWord(v: nat)
      requires v < WORD && pos + 4 <= mem.Length
      modifies mem
      ensures mem[..] == old(mem[..])[..pos] + Bytes32(v) + old(mem[..])[pos + 4..]
    {
      assert v / 0x100_0000 < 0x100;
      mem[pos] := v / 0x100_0000;
      mem[pos + 1] := v / 0x1_0000 % 0x100;
      mem[pos + 2] := v / 0x100 % 0x100;
      mem[pos + 3] := v % 0x100;
    }

    /** The branch of PutBits for bits that complete the word; `value` is already masked. */
    method CompleteWord(num: nat, value: nat, ghost given: nat)
      requires init <= pos && pos + 4 <= mem.Length && curVal < Pow2(bitWrited)
      requires num <= INT_BIT && value == Masked(given, num)
      requires bitWrited < INT_BIT && bitWrited + num >= INT_BIT
      modifies this`curVal, this`bitWrited, this`pos, mem
      ensures pos == old(pos) + 4 && bitWrited == old(bitWrited) + num - INT_BIT && curVal < Pow2(bitWrited)
      ensures Written() == old(Written()) + ToBits(given, num)
      ensures mem[..init] == old(mem[..init]) && mem[pos..] == old(mem[..])[pos..]
    {
      hide ToBits, Pow2, BytesBits, Shl, Shr, Masked, Bytes32, Val;
      ghost var w, cur, p := bitWrited, curVal, pos;
      AppendSpills(cur, w, given, num);
      ZeroShift(cur, w);
      if bitWrited != 0 {
        curVal := Shl(curVal, INT_BIT - bitWrited);
      }
      bitWrited := bitWrited + num - INT_BIT;
      curVal := (curVal + Shr(value, bitWrited)) % WORD;
      StoreWord(curVal);
      PutSpills(old(mem[..]), mem[..], init, p, cur, w, given, num, curVal);
      pos := pos + 4;
      curVal := Masked(value, bitWrited);
    }

    method PutBits(num: nat, value: nat) returns (ok: bool)
      requires Valid() && num <= INT_BIT && value < WORD
      modifies this, mem
      ensures ok <==> old(totalBits) >= num
      ensures !ok ==> unchanged(this) && unchanged(mem)
      ensures ok ==>
                && Valid() && init == old(init) && end == old(end) && totalBits == old(totalBits) - num
                && Written() == old(Written()) + ToBits(value, num)
                && mem[..init] == old(mem[..init]) && mem[pos..] == old(mem[..])[pos..]
    {
      hide ToBits, Pow2, BytesBits, Shl, Shr, Masked, Bytes32;
      if totalBits < num {
        return false;
      }
      ghost var given := value;
      var value := Masked(value, num);
      if bitWrited + num < INT_BIT {
        PutFits(BytesBits(mem[init..pos]), curVal, bitWrited, given, num);
        bitWrited := bitWrited + num;
        curVal := Shl(curVal, num);
        curVal := (curVal + value) % WORD;
      } else {
        CompleteWord(num, value, given);
      }
      totalBits := totalBits - num;
      return true;
    }

    /** The word at m_buffer is read and stored back even when it lies past the end given
        to SetBuffer, so the caller owes four bytes there. */
    method FlushBits()
      requires Valid() && pos + 4 <= mem.Length
      modifies this`curVal, mem
      ensures BytesBits(mem[..]) == old(var all := BytesBits(mem[..]);
                                        all[..8 * init] + Written() + all[8 * init + |Written()|..])
    {
      hide ToBits, Pow2, BytesBits, Masked, Bytes32, Load32;
      ghost var w, cur := bitWrited, curVal;
      FlushedWord(mem[pos..pos + 4], cur, w);
      ZeroShift(cur, w);
      if bitWrited != 0 {
        curVal := Shl(curVal, INT_BIT - bitWrited);
      }
      var prevVal := Load32(mem[pos..pos + 4]);
      prevVal := Masked(prevVal, INT_BIT - bitWrited);
      prevVal := prevVal + curVal;  // the two operands of |= have no bit in common
      StoreWord(prevVal);
      Flushed(old(mem[..]), mem[..], init, pos, cur, w);
    }

    method GetBitsCount() returns (n: nat)
      requires Valid()
      ensures n == |Written()|
    {
      n := 8 * (pos - init) + bitWrited;
    }
  }

  // ------------------------------------------------------------------ the reader

  /** The word the reader loads at `pos`: bytes at or past `end` count as zero. */
  function Padded(m: seq<Byte>, pos: nat, end: nat): (b: seq<Byte>)
    requires pos <= end <= |m|
    ensures |b| == 4
  {
    if end - pos >= 4 then m[pos..pos + 4]
    else m[pos..end] + [0, 0, 0, 0][end - pos..]
  }

  /** Inside the buffer the padded word shows the buffer's own bits. */
  lemma PaddedBits(m: seq<Byte>, init: nat, pos: nat, end: nat, i: nat, j: nat)
    requires init <= pos <= end <= |m| && i <= j <= 32 && 8 * (pos - init) + j <= 8 * (end - init)
    ensures BytesBits(Padded(m, pos, end))[i..j]
            == BytesBits(m[init..end])[8 * (pos - init) + i..8 * (pos - init) + j]
  {
    hide BytesBits;
    var k := if end - pos >= 4 then 4 else end - pos;
    var b, all := Padded(m, pos, end), m[init..end];
    PaddedBytes(m, init, pos, end, k);
    BytesBitsSlice(b, 0, k);
    BytesBitsSlice(all, pos - init, pos - init + k);
    SameSlice(BytesBits(b), 0, BytesBits(all), 8 * (pos - init), 8 * k, i, j);
  }

  lemma PaddedBytes(m: seq<Byte>, init: nat, pos: nat, end: nat, k: nat)
    requires init <= pos <= end <= |m| && k == if end - pos >= 4 then 4 else end - pos
    ensures Padded(m, pos, end)[0..k] == m[init..end][pos - init..pos - init + k]
  {
    Subslice(m, init, end, pos - init, pos - init + k);
    var b := Padded(m, pos, end);
    assert forall i :: 0 <= i < k ==> b[i] == m[pos + i];
    assert b[0..k] == m[pos..pos + k];
  }

  lemma SameSlice(a: seq<Bit>, p: nat, b: seq<Bit>, q: nat, n: nat, i: nat, j: nat)
    requires p + n <= |a| && q + n <= |b| && a[p..p + n] == b[q..q + n] && i <= j <= n
    ensures a[p + i..p + j] == b[q + i..q + j]
  {
    var x, y := a[p..p + n], b[q..q + n];
    assert x[i..j] == a[p + i..p + j] by { Subslice(a, p, p + n, i, j); }
    assert y[i..j] == b[q + i..q + j] by { Subslice(b, q, q + n, i, j); }
  }

  lemma Subslice<T>(a: seq<T>, p: nat, q: nat, i: nat, j: nat)
    requires p <= q <= |a| && i <= j <= q - p
    ensures a[p..q][i..j] == a[p + i..p + j]
  {
    var x, y := a[p..q][i..j], a[p + i..p + j];
    assert forall k :: 0 <= k < j - i ==> x[k] == y[k];
  }

  /** Reading `num` bits that start `o` bits into a word. */
  lemma ReadInWord(b: seq<Byte>, o: nat, num: nat)
    requires |b| == 4 && o + num <= 32
    ensures Masked(Shr(Load32(b), 32 - o - num), num) == Val(BytesBits(b)[o..o + num])
  {
    hide BytesBits, Val, Pow2, Load32;
    Load32Val(b);
    ValSlice(BytesBits(b), o, o + num);
  }

  /** The rest of a word, to be followed by `more` bits of the next one. */
  lemma {:induction false} ReadTail(b: seq<Byte>, left: nat, more: nat)
    requires |b| == 4 && left + more <= 32
    ensures Shl(Masked(Load32(b), left), more) == Val(BytesBits(b)[32 - left..]) * Pow2(more)
  {
    hide BytesBits, Val, Pow2, Load32;
    Load32Val(b);
    var all := BytesBits(b);
    assert all == all[..32 - left] + all[32 - left..];
    ValSplit(all[..32 - left], all[32 - left..]);
    ValBound(all[32 - left..]);
    JoinBound(Val(all[32 - left..]), left, 0, more) by { Pow2Positive(more); }
    Pow2Monotone(left + more, 32);
    Pow2Values();
  }

  lemma Pow2Positive(n: nat)
    ensures 0 < Pow2(n)
  {}

  /** A field that runs over the end of one word into the next. */
  lemma {:induction false} ReadAcross(b: seq<Byte>, c: seq<Byte>, left: nat, num: nat)
    requires |b| == 4 && |c| == 4 && left < num <= 32
    ensures var high, low := Shl(Masked(Load32(b), left), num - left), Shr(Load32(c), left + 32 - num);
            Masked(high + low, num) == Val(BytesBits(b)[32 - left..] + BytesBits(c)[..num - left])
  {
    hide BytesBits, Val, Pow2, Load32;
    var x, y := BytesBits(b)[32 - left..], BytesBits(c)[..num - left];
    ReadTail(b, left, num - left);
    Load32Val(c);
    assert BytesBits(c) == y + BytesBits(c)[num - left..];
    ValSplit(y, BytesBits(c)[num - left..]);
    ValConcat(x, y);
    ValBound(x + y);
    DivModUnique(Val(x + y), Pow2(num), 0, Val(x + y));
  }

  /** The next `num` bits, when the current word has them. */
  lemma {:induction false} FieldInWord(m: seq<Byte>, init: nat, pos: nat, end: nat, left: nat, num: nat)
    requires init <= pos <= end <= |m| && num <= left <= 32
    requires 8 * (pos - init) + 32 - left + num <= 8 * (end - init)
    ensures var p := 8 * (pos - init) + 32 - left;
            Masked(Shr(Load32(Padded(m, pos, end)), left - num), num) == Val(BytesBits(m[init..end])[p..p + num])
  {
    hide BytesBits, Val, Pow2, Load32, Padded, Shl, Shr, Masked;
    ReadInWord(Padded(m, pos, end), 32 - left, num);
    PaddedBits(m, init, pos, end, 32 - left, 32 - left + num);
  }

  /** The next `num` bits, when they run into the next word. */
  lemma {:induction false} FieldAcross(m: seq<Byte>, init: nat, pos: nat, end: nat, left: nat, num: nat)
    requires init <= pos && pos + 4 <= end <= |m| && left < num <= 32
    requires 8 * (pos - init) + 32 - left + num <= 8 * (end - init)
    ensures var p := 8 * (pos - init) + 32 - left;
            var high := Shl(Masked(Load32(Padded(m, pos, end)), left), num - left);
            var low := Shr(Load32(Padded(m, pos + 4, end)), left + 32 - num);
            && Masked(high + low, num) == Val(BytesBits(m[init..end])[p..p + num])
            && (left == 0 ==> high == 0)
  {
    hide *;
    var p, q, r := 8 * (pos - init) + 32 - left, 8 * (pos + 4 - init), 8 * (pos - init) + 32 - left + num;
    var all := BytesBits(m[init..end]);
    var b, c := Padded(m, pos, end), Padded(m, pos + 4, end);
    ReadAcross(b, c, left, num);
    PaddedBits(m, init, pos, end, 32 - left, 32);
    PaddedBits(m, init, pos + 4, end, 0, num - left);
    assert BytesBits(b)[32 - left..] == BytesBits(b)[32 - left..32] && BytesBits(c)[..num - left] == BytesBits(c)[0..num - left];
    Adjacent(all, p, q, r);
    if left == 0 {
      MaskNothing(Load32(b), num);
    }
  }

  lemma Adjacent(s: seq<Bit>, p: nat, q: nat, r: nat)
    requires p <= q <= r <= |s|
    ensures s[p..q] + s[q..r] == s[p..r]
  {}

  lemma MaskNothing(x: nat, k: nat)
    ensures Shl(Masked(x, 0), k) == 0
  {}

  class BitStreamReader {
    const mem: array<Byte>
    var init: nat        // m_initBuffer
    var pos: nat         // m_buffer
    var curVal: nat      // m_curVal
    var bitLeft: nat     // m_bitLeft
    var totalBits: nat   // m_totalBits
    ghost var end: nat   // the end given to SetBuffer

    constructor (mem: array<Byte>)
      ensures this.mem == mem
    {
      this.mem := mem;
      init, pos, curVal, bitLeft, totalBits, end := 0, 0, 0, 0, 0, 0;
    }

    ghost predicate Valid()
      reads this, mem
    {
      && init <= pos < end <= mem.Length && (pos - init) % 4 == 0
      && bitLeft <= INT_BIT
      && totalBits + Position() == 8 * (end - init) < WORD
      && curVal == Load32(Padded(mem[..], pos, end))
    }

    /** Bits consumed since SetBuffer. */
    ghost function Position(): int
      reads this
    {
      8 * (pos - init) + INT_BIT - bitLeft
    }

    /** The buffer as a plain bit string, from the current position on. */
    ghost function Unread(): seq<Bit>
      requires Valid()
      reads this, mem
    {
      BytesBits(mem[init..end])[Position()..]
    }

    /** The source subtracts unsigned numbers; a result below 8 throws. */
    method GetCurVal(buff: nat) returns (ok: bool, v: nat)
      requires buff <= mem.Length
      requires var left := (totalBits - bitLeft) % WORD; buff + (if left >= 32 then 4 else left / 8) <= mem.Length
      ensures ok <==> (totalBits - bitLeft) % WORD >= 8
      ensures buff < end <= mem.Length && totalBits - bitLeft == 8 * (end - buff) < WORD ==>
                ok && v == Load32(Padded(mem[..], buff, end))
    {
      var left := (totalBits - bitLeft) % WORD;
      if left >= 32 {
        return true, Load32(mem[buff..buff + 4]);
      }
      if left >= 24 {
        return true, Load32([mem[buff], mem[buff + 1], mem[buff + 2], 0]);
      }
      if left >= 16 {
        return true, Load32([mem[buff], mem[buff + 1], 0, 0]);
      }
      if left >= 8 {
        return true, Load32([mem[buff], 0, 0, 0]);
      }
      return false, 0;
    }

    method SetBuffer(buffer: nat, end: nat) returns (ok: bool)
      requires end <= mem.Length && 8 * (end - buffer) < WORD  // m_totalBits is 32 bits wide
      modifies this
      ensures ok <==> buffer < end
      ensures ok ==> Valid() && init == buffer && this.end == end && Position() == 0
      ensures !ok ==> unchanged(this)
    {
      if buffer >= end {
        return false;
      }
      totalBits := (end - buffer) * 8;
      init, pos, this.end := buffer, buffer, end;
      bitLeft := 0;
      ok, curVal := GetCurVal(pos);
      bitLeft := INT_BIT;
    }

    /** The step onto the next word: after the length check, getCurVal cannot throw. */
    method NextWord(num: nat) returns (ok: bool)
      requires Valid() && bitLeft < num <= INT_BIT && num <= totalBits
      modifies `pos, `curVal, `bitLeft
      ensures ok && pos == old(pos) + 4 < end && curVal == Load32(Padded(mem[..], pos, end))
      ensures bitLeft == old(bitLeft) + INT_BIT - num
    {
      hide Load32, Padded;
      pos := pos + 4;
      ok, curVal := GetCurVal(pos);
      bitLeft := bitLeft + INT_BIT - num;
    }

    method GetBits(num: nat) returns (ok: bool, v: nat)
      requires Valid()
      modifies this
      ensures ok <==> num <= INT_BIT && num <= |old(Unread())|
      ensures !ok ==> unchanged(this)
      ensures ok ==> Valid() && init == old(init) && end == old(end) && Position() == old(Position()) + num
      ensures ok ==> v == Val(old(Unread())[..num])
    {
      hide BytesBits, Val, Pow2, Load32, Padded, Shl, Shr, Masked;
      if num > INT_BIT || totalBits < num {
        return false, 0;
      }
      ghost var all, p := BytesBits(mem[init..end]), Position();
      assert all[p..][..num] == all[p..p + num];
      var prevVal := 0;
      if num <= bitLeft {
        FieldInWord(mem[..], init, pos, end, bitLeft, num);
        bitLeft := bitLeft - num;
      } else {
        FieldAcross(mem[..], init, pos, end, bitLeft, num);
        if bitLeft != 0 {
          prevVal := Shl(Masked(curVal, bitLeft), num - bitLeft);
        }
        ok := NextWord(num);
      }
      totalBits := totalBits - num;
      return true, Masked(prevVal + Shr(curVal, bitLeft), num);
    }

    /** The same bits, without consuming them; at most 31 at a time. */
    method ShowBits(num: nat) returns (ok: bool, v: nat)
      requires Valid()
      ensures ok <==> num <= INT_BIT - 1 && num <= |Unread()|
      ensures ok ==> v == Val(Unread()[..num])
    {
      hide BytesBits, Val, Pow2, Load32, Padded, Shl, Shr, Masked;
      if num > INT_BIT - 1 || totalBits < num {
        return false, 0;
      }
      ghost var all, p := BytesBits(mem[init..end]), Position();
      assert all[p..][..num] == all[p..p + num];
      var prevVal, left, cur := 0, bitLeft, curVal;
      if num <= left {
        FieldInWord(mem[..], init, pos, end, left, num);
        left := left - num;
      } else {
        FieldAcross(mem[..], init, pos, end, left, num);
        prevVal := Shl(Masked(cur, left), num - left);
        ok, cur := GetCurVal(pos + 4);
        left := left + INT_BIT - num;
      }
      return true, Masked(prevVal + Shr(cur, left), num);
    }

    method GetBit() returns (ok: bool, b: bool)
      requires Valid()
      modifies this
      ensures ok <==> 1 <= |old(Unread())|
      ensures !ok ==> unchanged(this)
      ensures ok ==> Valid() && init == old(init) && end == old(end) && Position() == old(Position()) + 1
      ensures ok ==> (b <==> Val(old(Unread())[..1]) == 1)
    {
      hide BytesBits, Val, Load32, Padded, Shl, Shr, Masked;
      if totalBits < 1 {
        return false, false;
      }
      ghost var all, p := BytesBits(mem[init..end]), Position();
      assert all[p..][..1] == all[p..p + 1];
      if bitLeft > 0 {
        FieldInWord(mem[..], init, pos, end, bitLeft, 1);
        bitLeft := bitLeft - 1;
      } else {
        FieldAcross(mem[..], init, pos, end, bitLeft, 1);
        ok := NextWord(1);
      }
      totalBits := totalBits - 1;
      return true, Masked(Shr(curVal, bitLeft), 1) == 1;
    }

    method SkipBits(num: nat) returns (ok: bool)
      requires Valid() && num <= INT_BIT
      modifies this
      ensures ok <==> num <= |old(Unread())|
      ensures !ok ==> unchanged(this)
      ensures ok ==> Valid() && init == old(init) && end == old(end) && Position() == old(Position()) + num
    {
      hide BytesBits, Load32, Padded;
      if totalBits < num {
        return false;
      }
      if num <= bitLeft {
        bitLeft := bitLeft - num;
      } else {
        ok := NextWord(num);
      }
      totalBits := totalBits - num;
      return true;
    }

    method GetBitsCount() returns (n: nat)
      requires Valid()
      ensures n == Position() && n + |Unread()| == 8 * (end - init)
    {
      n := 8 * (pos - init) + INT_BIT - bitLeft;
    }
  }
}
