/**
  EBML identifiers, variable-length sizes and integers: the writers of
  tsMuxer/matroskaMuxer.cpp against the two readers of tsMuxer/matroskaDemuxer.cpp
  (sections 4 to 7 of RFC 8794).
  */
module EbmlNumbers {
  import opened Bits
  import opened BigEndian

  // ------------------------------------------------------------------ variable-length numbers

  /** The marker bit of a number that takes `w` bytes. */
  function Marker(w: nat): (m: Byte)
    requires 1 <= w <= 8
    ensures m == Pow2(8 - w)
  {
    Pow2Small();
    if w == 1 then 0x80 else if w == 2 then 0x40 else if w == 3 then 0x20 else if w == 4 then 0x10
    else if w == 5 then 0x08 else if w == 6 then 0x04 else if w == 7 then 0x02 else 0x01
  }

  lemma Pow2Small()
    ensures Pow2(0) == 1 && Pow2(1) == 2 && Pow2(2) == 4 && Pow2(3) == 8 && Pow2(4) == 16
    ensures Pow2(5) == 32 && Pow2(6) == 64 && Pow2(7) == 128 && Pow2(8) == 256
  {
    assert Pow2(2) == 4;
    assert Pow2(4) == 16;
    assert Pow2(6) == 64;
  }

  /** How many bytes a number starting with `b` takes; 9 when there is no marker. */
  function Width(b: Byte): (w: nat)
    ensures 1 <= w <= 9
    ensures w <= 8 ==> Marker(w) <= b < 2 * Marker(w) as int
  {
    if b >= 0x80 then 1 else if b >= 0x40 then 2 else if b >= 0x20 then 3 else if b >= 0x10 then 4
    else if b >= 0x08 then 5 else if b >= 0x04 then 6 else if b >= 0x02 then 7 else if b >= 0x01 then 8 else 9
  }

  /** Outcome of reading a number: its data bits and its width, or why there is none. */
  datatype Num = Num(value: nat, width: nat) | Unknown(width: nat) | Invalid | AtEof

  /** The next `n` bytes of a stream that reads as zero past its end. */
  function Padded(s: seq<Byte>, n: nat): (r: seq<Byte>)
    ensures |r| == n
  {
    seq(n, i requires 0 <= i => if i < |s| then s[i] else 0)
  }

  /** The data bits of a number: the marker removed from its bytes. */
  function Digits(s: seq<Byte>): (d: seq<Byte>)
    requires s != [] && Width(s[0]) <= 8
    ensures |d| == |s|
  {
    [s[0] - Marker(Width(s[0]))] + s[1..]
  }

  /** ebml_read_num on what is left of the stream. */
  function ReadNum(s: seq<Byte>, maxSize: nat): (r: Num)
    requires maxSize <= 8
    ensures r.Num? ==> 1 <= r.width <= maxSize && s != []
  {
    if s == [] then AtEof
    else if Width(s[0]) > maxSize then Invalid
    else Num(FromBE(Digits(Padded(s, Width(s[0])))), Width(s[0]))
  }

  /** matroska_ebmlnum_uint on the bytes of a block. */
  function BlockNum(s: seq<Byte>): (r: Num)
    ensures r.Num? || r.Unknown? ==> 1 <= r.width <= 8 && r.width <= |s|
    ensures !r.AtEof?
  {
    if s == [] || Width(s[0]) > 8 || |s| < Width(s[0]) then Invalid
    else if AllOnes(s[..Width(s[0])]) then Unknown(Width(s[0]))
    else Num(FromBE(Digits(s[..Width(s[0])])), Width(s[0]))
  }

  /** Every data bit is one. */
  predicate AllOnes(s: seq<Byte>) {
    && s != [] && Width(s[0]) <= 8 && s[0] as int == 2 * Marker(Width(s[0])) as int - 1
    && forall i :: 1 <= i < |s| ==> s[i] == 0xFF
  }

  lemma WidthOf(b: Byte, w: nat)
    requires 1 <= w <= 8 && Marker(w) <= b < 2 * Marker(w) as int
    ensures Width(b) == w
  {}

  lemma MarkerWeight(n: nat)
    requires 1 <= n <= 8
    ensures Pow2(7 * n) == Marker(n) as int * Pow256(n - 1)
  {
    hide Marker;
    Pow256IsPow2(n - 1);
    Pow2Add(8 - n, 8 * (n - 1));
  }

  lemma {:induction false} Pow256IsPow2(n: nat)
    ensures Pow256(n) == Pow2(8 * n)
  {
    if n > 0 {
      Pow256IsPow2(n - 1);
      Pow2Add(8, 8 * (n - 1));
      Pow2Small();
    }
  }

  /** A number of width `w` has 7w data bits. */
  lemma DigitsBound(s: seq<Byte>)
    requires s != [] && Width(s[0]) == |s| <= 8
    ensures FromBE(Digits(s)) < Pow2(7 * |s|)
    ensures FromBE(Digits(s)) == Pow2(7 * |s|) - 1 <==> AllOnes(s)
  {
    hide FromBE, Pow2, Pow256, Width, Marker;
    var n, m: int, d := |s|, Marker(|s|), Digits(s);
    var h: int := d[0];
    MarkerWeight(n);
    FromBEFirst(d);
    FromBEBound(d[1..]);
    DigitsBoundStep(h, m, Pow256(n - 1), FromBE(d[1..]));
    assert d[1..] == s[1..];
    OnesExactly(s[1..]);
  }

  lemma {:induction false} DigitsBoundStep(h: nat, m: nat, p: nat, r: nat)
    requires h < m && r < p
    ensures h * p + r < m * p
    ensures h * p + r == m * p - 1 <==> h == m - 1 && r == p - 1
  {
    MulMonotone(h, m - 1, p);
    assert (m - 1) * p == m * p - p;
    if h < m - 1 {
      MulMonotone(h, m - 2, p);
      assert (m - 2) * p == m * p - 2 * p;
    }
  }

  lemma {:induction false} OnesExactly(s: seq<Byte>)
    ensures FromBE(s) == Pow256(|s|) - 1 <==> forall i :: 0 <= i < |s| ==> s[i] == 0xFF
  {
    if s != [] {
      var t := s[..|s| - 1];
      OnesExactly(t);
      FromBEBound(t);
      assert s == t + [s[|s| - 1]];
      assert (forall i :: 0 <= i < |s| ==> s[i] == 0xFF) <==>
             (forall i :: 0 <= i < |t| ==> t[i] == 0xFF) && s[|s| - 1] == 0xFF;
    }
  }

  // ------------------------------------------------------------------ sizes

  /** ebml_size_size. */
  function SizeSize(size: nat): (n: nat)
    ensures 1 <= n <= 8
  {
    if size < 0x7F then 1
    else if size < 0x3FFF then 2
    else if size < 0x1F_FFFF then 3
    else if size < 0x0FFF_FFFF then 4
    else if size < 0x07_FFFF_FFFF then 5
    else if size < 0x03FF_FFFF_FFFF then 6
    else if size < 0x01_FFFF_FFFF_FFFF then 7
    else 8
  }

  /** `x | bit` for a power of two `bit`. */
  function Or(x: Byte, bit: nat): (r: nat)
    requires bit > 0
  {
    if x / bit % 2 == 1 then x else x + bit
  }

  lemma OrIsByte(x: Byte, n: nat)
    requires 1 <= n <= 8
    ensures Or(x, Marker(n)) < 256
    ensures x < Marker(n) ==> Or(x, Marker(n)) == x as int + Marker(n) as int
  {}

  /** The bytes ebml_write_size_fixed leaves: the marker is OR-ed onto the first one. */
  function SizeFixed(size: nat, n: nat): (s: seq<Byte>)
    requires 1 <= n <= 8
    ensures |s| == n
  {
    var b := BE(size, n);
    OrIsByte(b[0], n);
    [Or(b[0], Marker(n))] + b[1..]
  }

  function SizeBytes(size: nat): (s: seq<Byte>)
    ensures |s| == SizeSize(size)
  {
    SizeFixed(size, SizeSize(size))
  }

  /** The bytes ebml_write_unknown_size leaves. */
  function UnknownSize(n: nat): (s: seq<Byte>)
    requires 1 <= n <= 8
    ensures |s| == n
  {
    [2 * Marker(n) as int - 1] + seq(n - 1, _ => 0xFF)
  }

  lemma Pow2Sizes()
    ensures Pow2(7) == 0x80 && Pow2(14) == 0x4000 && Pow2(21) == 0x20_0000 && Pow2(28) == 0x1000_0000
    ensures Pow2(35) == 0x08_0000_0000 && Pow2(42) == 0x0400_0000_0000 && Pow2(49) == 0x02_0000_0000_0000
    ensures Pow2(56) == 0x0100_0000_0000_0000
  {
    hide Pow2;
    Pow2Small7();
    Pow2Add(7, 7);
    Pow2Add(14, 7);
    Pow2Add(21, 7);
    Pow2Add(28, 7);
    Pow2Add(35, 7);
    Pow2Add(42, 7);
    Pow2Add(49, 7);
  }

  lemma Pow2Small7()
    ensures Pow2(7) == 0x80
  {
    Pow2Small();
  }

  /** The written width is the smallest whose data bits are not all needed as ones. */
  lemma SizeSizeIsMinimal(size: nat, n: nat)
    requires 1 <= n <= 8
    ensures size < Pow2(7 * n) - 1 ==> SizeSize(size) <= n
    ensures n == SizeSize(size) < 8 ==> size < Pow2(7 * n) - 1
  {
    hide Pow2;
    Pow2Sizes();
    if n <= 4 {
      assert n == 1 || n == 2 || n == 3 || n == 4;
    } else {
      assert n == 5 || n == 6 || n == 7 || n == 8;
    }
  }

  /** A size of at most 7n bits leaves the marker's place free. */
  lemma SizeFixedDigits(size: nat, n: nat)
    requires 1 <= n <= 8 && size < Pow2(7 * n)
    ensures var s := SizeFixed(size, n); Width(s[0]) == n && FromBE(Digits(s)) == size
  {
    hide BE, FromBE, Pow2, Pow256, Or, Width, Marker;
    var b, m: int := BE(size, n), Marker(n);
    MarkerWeight(n);
    FirstByteFree(size, n);
    OrIsByte(b[0], n);
    var s := SizeFixed(size, n);
    WidthOf(s[0], n);
    assert Digits(s) == b;
    MarkerFits(n);
    BERoundTrip(size, n);
  }

  lemma FirstByteFree(size: nat, n: nat)
    requires 1 <= n <= 8 && size < Marker(n) as int * Pow256(n - 1)
    ensures BE(size, n)[0] < Marker(n)
  {
    hide BE, Pow256, Marker;
    BEAt(size, n, 0);
    DivLess(size, Pow256(n - 1), Marker(n));
  }

  lemma MarkerFits(n: nat)
    requires 1 <= n <= 8
    ensures Pow2(7 * n) <= Pow256(n)
  {
    hide Pow256, Marker;
    Pow256IsPow2(n);
    Pow2Monotone(7 * n, 8 * n);
  }

  lemma PaddedPrefix(a: seq<Byte>, rest: seq<Byte>)
    ensures Padded(a + rest, |a|) == a
  {}

  /** A number that the stream ends in is read as if zeros followed; in a block it is none. */
  lemma ShortNumber(s: seq<Byte>, maxSize: nat, n: nat)
    requires s != [] && maxSize <= 8
    ensures ReadNum(s, maxSize) == ReadNum(s + seq(n, _ => 0), maxSize)
    ensures ReadNum(s, maxSize).Num? ==> (BlockNum(s).Invalid? <==> |s| < ReadNum(s, maxSize).width)
    ensures ReadNum(s, maxSize).Invalid? ==> s[0] as int < Pow2(8 - maxSize)
    ensures ReadNum(s, maxSize).Num? ==> s[0] as int >= Pow2(8 - maxSize)
  {
    var t := s + seq(n, _ => 0);
    assert s[0] == t[0];
    assert Padded(t, Width(s[0])) == Padded(s, Width(s[0]));
    Pow2Small();
  }

  /** A fixed-width size that fits is read back, whatever follows it. */
  lemma FixedSizeRoundTrip(size: nat, n: nat, rest: seq<Byte>)
    requires 1 <= n <= 8 && size < Pow2(7 * n)
    ensures ReadNum(SizeFixed(size, n) + rest, 8) == Num(size, n)
    ensures BlockNum(SizeFixed(size, n) + rest) == if size == Pow2(7 * n) - 1 then Unknown(n) else Num(size, n)
  {
    hide SizeFixed, FromBE, Pow2, Width, AllOnes;
    var s := SizeFixed(size, n);
    SizeFixedDigits(size, n);
    PaddedPrefix(s, rest);
    assert (s + rest)[..n] == s && (s + rest)[0] == s[0];
    DigitsBound(s);
  }

  /** Sizes survive the element reader exactly below 2^56. */
  lemma SizeRoundTrip(size: nat, rest: seq<Byte>)
    ensures ReadNum(SizeBytes(size) + rest, 8) == Num(size, SizeSize(size)) <==> size < Pow2(56)
  {
    hide SizeFixed, Pow2, ReadNum, SizeSize;
    var n := SizeSize(size);
    SizeSizeIsMinimal(size, n);
    if size < Pow2(56) {
      FixedSizeRoundTrip(size, n, rest);
    } else {
      ReadNumBound(SizeBytes(size) + rest, 8);
      Pow2Monotone(7 * n, 56);
    }
  }

  /** ... and the block reader exactly below 2^56 - 1, the reserved form. */
  lemma {:induction false} BlockNumRoundTrip(size: nat, rest: seq<Byte>)
    ensures BlockNum(SizeBytes(size) + rest) == Num(size, SizeSize(size)) <==> size < Pow2(56) - 1
    ensures size == Pow2(56) - 1 ==> BlockNum(SizeBytes(size) + rest) == Unknown(8)
  {
    hide SizeFixed, Pow2, BlockNum, SizeSize;
    var n := SizeSize(size);
    SizeSizeIsMinimal(size, n);
    SizeSizeIsMinimal(size, 7);
    Pow2Monotone(7 * n, 56);
    if size < Pow2(56) {
      FixedSizeRoundTrip(size, n, rest);
      LastSizeIsWide(size);
    } else {
      BlockNumBound(SizeBytes(size) + rest);
    }
  }

  lemma LastSizeIsWide(size: nat)
    ensures size == Pow2(56) - 1 ==> SizeSize(size) == 8
  {
    Pow2Sizes();
  }

  lemma ReadNumBound(s: seq<Byte>, maxSize: nat)
    requires maxSize <= 8
    ensures var r := ReadNum(s, maxSize); r.Num? ==> r.value < Pow2(7 * r.width) <= Pow2(56)
  {
    hide FromBE, Pow2, Width, Digits;
    if s != [] && Width(s[0]) <= maxSize {
      var w := Width(s[0]);
      DigitsBound(Padded(s, w));
      Pow2Monotone(7 * w, 56);
    }
  }

  lemma BlockNumBound(s: seq<Byte>)
    ensures var r := BlockNum(s); r.Num? ==> r.value < Pow2(7 * r.width) - 1 < Pow2(56)
  {
    hide FromBE, Pow2, Width, Digits, AllOnes;
    if s != [] && Width(s[0]) <= |s| && Width(s[0]) <= 8 {
      var w := Width(s[0]);
      DigitsBound(s[..w]);
      Pow2Monotone(7 * w, 56);
    }
  }

  /** The unknown form is read as unknown, and the element reader takes it for 2^(7n) - 1. */
  lemma UnknownSizeReads(n: nat, rest: seq<Byte>)
    requires 1 <= n <= 8
    ensures BlockNum(UnknownSize(n) + rest) == Unknown(n)
    ensures ReadNum(UnknownSize(n) + rest, 8) == Num(Pow2(7 * n) - 1, n)
  {
    hide FromBE, Pow2;
    var s := UnknownSize(n);
    WidthOf(s[0], n);
    PaddedPrefix(s, rest);
    assert (s + rest)[..n] == s && (s + rest)[0] == s[0];
    DigitsBound(s);
  }

  // ------------------------------------------------------------------ identifiers

  /** ebml_id_size. */
  function IdSize(id: nat): (n: nat)
    ensures n <= 4
  {
    if id < 0x80 then 0 else if id <= 0xFF then 1 else if id <= 0xFFFF then 2 else if id <= 0xFF_FFFF then 3 else 4
  }

  function IdBytes(id: nat): (s: seq<Byte>)
    ensures |s| == IdSize(id)
  {
    BE(id, IdSize(id))
  }

  /** An identifier includes its marker. */
  predicate ValidId(id: nat) {
    || 0x80 <= id <= 0xFF || 0x4000 <= id <= 0x7FFF || 0x20_0000 <= id <= 0x3F_FFFF || 0x1000_0000 <= id <= 0x1FFF_FFFF
  }

  /** The identifier ebml_read_element_id makes of a number. */
  function IdOf(n: Num): nat
    requires n.Num?
  {
    n.value + Pow2(7 * n.width)
  }

  lemma IdParts(id: nat)
    requires ValidId(id)
    ensures var n := IdSize(id);
            1 <= n <= 4 && Pow2(7 * n) <= id < 2 * Pow2(7 * n) && id < Pow256(n)
  {
    Pow2Sizes();
  }

  /** Whatever the identifier, its bytes are all it has, without zeros in front; below 0x80 there are none. */
  lemma IdKeepsItsBytes(id: nat)
    requires id < 0x1_0000_0000
    ensures id < 0x80 ==> IdBytes(id) == []
    ensures id >= 0x80 ==> IdBytes(id) != [] && IdBytes(id)[0] != 0 && FromBE(IdBytes(id)) == id
  {
    hide BE, FromBE;
    if id >= 0x80 {
      BERoundTrip(id, IdSize(id));
      BEAt(id, IdSize(id), 0);
    }
  }

  /** A valid identifier is its number with the marker put in. */
  lemma IdIsMarkedNumber(id: nat, n: nat, v: nat)
    requires 1 <= n <= 4 && n == IdSize(id) && id == v + Pow2(7 * n) && v < Pow2(7 * n)
    ensures IdBytes(id) == SizeFixed(v, n)
  {
    hide BE, Pow2, Pow256, Marker, IdSize, SizeFixed;
    var a, b := BE(id, n), BE(v, n);
    MarkerWeight(n);
    FirstByteFree(v, n);
    forall k | 0 <= k < n
      ensures a[k] as int == b[k] as int + if k == 0 then Marker(n) as int else 0
    {
      MarkedByte(v, n, k);
    }
    OrIsByte(b[0], n);
    assert a == [b[0] + Marker(n)] + b[1..];
    SizeFixedIs(v, n);
  }

  lemma {:induction false} SizeFixedIs(v: nat, n: nat)
    requires 1 <= n <= 8 && BE(v, n)[0] < Marker(n)
    ensures SizeFixed(v, n) == [BE(v, n)[0] + Marker(n)] + BE(v, n)[1..]
  {
    hide BE, Marker;
    OrIsByte(BE(v, n)[0], n);
  }

  /** Adding the marker changes the first byte only. */
  lemma MarkedByte(v: nat, n: nat, k: nat)
    requires k < n <= 8 && v < Pow2(7 * n)
    ensures BE(v + Pow2(7 * n), n)[k] as int == BE(v, n)[k] as int + if k == 0 then Marker(n) as int else 0
  {
    hide *;
    MarkerWeight(n);
    BEAt(v, n, k);
    BEAt(v + Pow2(7 * n), n, k);
    var m: nat, p := Marker(n), Pow256(n - 1 - k);
    var q := v / p;
    if k == 0 {
      MarkedFirst(v, m, p);
      DivLess(v, p, m);
      MarkerSmall(n);
    } else {
      var r := Pow256(k - 1);
      assert Pow256(n - 1) == p * (256 * r) by {
        Pow256Split(n - 1 - k, k);
        Pow256Step(k);
      }
      MarkedLater(v, m, p, r);
      Mod256Drops(q, m * r);
    }
  }

  lemma Mod256Drops(q: int, j: int)
    ensures (q + 256 * j) % 256 == q % 256
  {}

  lemma {:induction false} MarkedFirst(v: nat, m: nat, p: nat)
    requires p > 0
    ensures (v + m * p) / p == v / p + m
  {
    DivModUnique(v + m * p, p, v / p + m, v % p);
  }

  lemma {:induction false} MarkedLater(v: nat, m: nat, p: nat, r: nat)
    requires p > 0
    ensures (v + m * (p * (256 * r))) / p == v / p + 256 * (m * r)
  {
    var j := 256 * (m * r);
    assert m * (p * (256 * r)) == j * p;
    DivModUnique(v + j * p, p, v / p + j, v % p);
  }

  lemma MarkerSmall(n: nat)
    requires 1 <= n <= 8
    ensures 2 * Marker(n) as int <= 256
  {}

  lemma Pow256Step(k: nat)
    requires k > 0
    ensures Pow256(k) == 256 * Pow256(k - 1)
  {}

  lemma {:induction false} Pow256Split(a: nat, b: nat)
    ensures Pow256(a + b) == Pow256(a) * Pow256(b)
  {
    hide Pow256;
    Pow256IsPow2(a);
    Pow256IsPow2(b);
    Pow256IsPow2(a + b);
    Pow2Add(8 * a, 8 * b);
  }

  /** Identifiers survive exactly when they carry their marker in the right place. */
  lemma IdRoundTrip(id: nat, rest: seq<Byte>)
    ensures var r := ReadNum(IdBytes(id) + rest, 4);
            (r.Num? && r.width == IdSize(id) && IdOf(r) == id) <==> ValidId(id)
  {
    hide Pow2, ReadNum, IdSize, IdBytes, SizeFixed;
    if ValidId(id) {
      IdParts(id);
      var n := IdSize(id);
      var v: nat := id - Pow2(7 * n);
      IdIsMarkedNumber(id, n, v);
      IdReads(v, n, rest);
    } else {
      ReadIdIsValid(IdBytes(id) + rest);
    }
  }

  lemma IdReads(v: nat, n: nat, rest: seq<Byte>)
    requires 1 <= n <= 4 && v < Pow2(7 * n)
    ensures ReadNum(SizeFixed(v, n) + rest, 4) == Num(v, n)
  {
    hide FromBE, Pow2, Width, SizeFixed;
    FixedSizeRoundTrip(v, n, rest);
  }

  /** Whatever the bytes, an identifier that is read is a valid one. */
  lemma ReadIdIsValid(s: seq<Byte>)
    ensures var r := ReadNum(s, 4); r.Num? ==> ValidId(IdOf(r))
  {
    hide *;
    ReadNumBound(s, 4);
    var r := ReadNum(s, 4);
    if r.Num? {
      IdOfIsValid(r);
    }
  }

  lemma IdOfIsValid(r: Num)
    requires r.Num? && 1 <= r.width <= 4 && r.value < Pow2(7 * r.width)
    ensures ValidId(IdOf(r))
  {
    hide Pow2;
    Pow2Sizes();
    assert r.width == 1 || r.width == 2 || r.width == 3 || r.width == 4;
  }

  // ------------------------------------------------------------------ integers

  /** Reinterpretation as a 64-bit signed integer. */
  function Int64(v: int): (r: int)
    ensures -0x8000_0000_0000_0000 <= r < 0x8000_0000_0000_0000
  {
    var m := v % 0x1_0000_0000_0000_0000;
    if m < 0x8000_0000_0000_0000 then m else m - 0x1_0000_0000_0000_0000
  }

  /** uint_size: as many bytes as there are base-256 digits, and at least one. */
  function UintSize(value: nat): (n: nat)
    ensures n >= 1
  {
    if value < 256 then 1 else 1 + UintSize(value / 256)
  }

  function SintSize(value: int): (n: nat)
    ensures 1 <= n <= 8
  {
    if -0x80 <= value <= 0x7F then 1
    else if -0x8000 <= value <= 0x7FFF then 2
    else if -0x80_0000 <= value <= 0x7F_FFFF then 3
    else if -0x8000_0000 <= value <= 0x7FFF_FFFF then 4
    else 8
  }

  /** What ebml_read_uint makes of the content bytes. */
  function UintOf(s: seq<Byte>): int { Int64(FromBE(s)) }

  /** What ebml_read_sint makes of them: bit 7 of the first byte is the sign. */
  function SintOf(s: seq<Byte>): int
    requires s != []
  {
    if s[0] >= 0x80 then Int64(FromBE([s[0] - 0x80] + s[1..]) - Pow2(8 * |s| - 1)) else Int64(FromBE(s))
  }

  function Element(id: nat, content: seq<Byte>): seq<Byte> {
    IdBytes(id) + SizeBytes(|content|) + content
  }

  function UintContent(value: nat): (s: seq<Byte>)
    ensures |s| == UintSize(value)
  {
    BE(value, UintSize(value))
  }

  function SintContent(value: int): (s: seq<Byte>)
    ensures |s| == SintSize(value)
  {
    BE(value, SintSize(value))
  }

  /** The length chosen is the least that holds the value. */
  lemma {:induction false} UintSizeIsMinimal(value: nat, n: nat)
    requires n >= 1
    ensures value < Pow256(n) <==> UintSize(value) <= n
  {
    if value >= 256 && n > 1 {
      UintSizeIsMinimal(value / 256, n - 1);
      assert value == 256 * (value / 256) + value % 256;
    } else {
      assert Pow256(1) == 256;
    }
  }

  /** The least of one, two, three, four and eight bytes that holds the value with its sign. */
  lemma SintSizeIsLeast(value: int, n: nat)
    requires -0x8000_0000_0000_0000 <= value < 0x8000_0000_0000_0000 && (n == 1 || n == 2 || n == 3 || n == 4 || n == 8)
    ensures SintSize(value) in {1, 2, 3, 4, 8}
    ensures -(Pow2(8 * n - 1) as int) <= value < Pow2(8 * n - 1) <==> SintSize(value) <= n
  {
    hide Pow2;
    SignBits();
  }

  lemma SignBits()
    ensures Pow2(7) == 0x80 && Pow2(15) == 0x8000 && Pow2(23) == 0x80_0000 && Pow2(31) == 0x8000_0000
    ensures Pow2(63) == 0x8000_0000_0000_0000
  {
    hide Pow2;
    Pow2Small();
    Pow2Add(7, 8);
    Pow2Add(15, 8);
    Pow2Add(15, 16);
    Pow2Add(8, 8);
    Pow2Add(31, 16);
    Pow2Add(47, 16);
  }

  /** Unsigned 64-bit values come back exactly when they fit the signed variable they are read into. */
  lemma UintRoundTrip(value: nat)
    requires value < Pow256(8)
    ensures |UintContent(value)| <= 8
    ensures UintOf(UintContent(value)) == value <==> value < 0x8000_0000_0000_0000
  {
    hide BE, FromBE, UintSize;
    UintSizeIsMinimal(value, 8);
    UintSizeIsMinimal(value, UintSize(value));
    BERoundTrip(value, UintSize(value));
  }

  /** A first byte of 0x80 or more is read as that much less than 0x100. */
  lemma {:induction false} SintOfBytes(s: seq<Byte>)
    requires s != []
    ensures SintOf(s) == Int64(FromBE(s) - if s[0] >= 0x80 then Pow256(|s|) else 0)
  {
    hide BE, FromBE, Pow256, Pow2, SintSize, Int64;
    if s[0] >= 0x80 {
      var t := [s[0] - 0x80] + s[1..];
      FromBEFirst(s);
      FromBEFirst(t);
      assert t[1..] == s[1..];
      Pow256Halves(|s|);
    }
  }

  lemma {:induction false} FirstByteBounds(s: seq<Byte>)
    requires s != []
    ensures s[0] as int * Pow256(|s| - 1) <= FromBE(s) < (s[0] as int + 1) * Pow256(|s| - 1)
  {
    hide FromBE, Pow256;
    FromBEFirst(s);
    FromBEBound(s[1..]);
  }

  lemma HalfOf(h: int, p: int, v: int)
    requires p > 0 && h * p <= v < (h + 1) * p
    ensures h >= 0x80 <==> v >= 0x80 * p
  {
    if h >= 0x80 {
      MulMonotone(0x80, h, p);
    } else {
      MulMonotone(h + 1, 0x80, p);
    }
  }

  /** Signed 64-bit values always come back. */
  lemma SintRoundTrip(value: int)
    requires Int64(value) == value
    ensures SintOf(SintContent(value)) == value
  {
    hide BE, FromBE, Pow256, Pow2, SintSize, Int64, SintOf;
    var n := SintSize(value);
    SintFits(value);
    var s := BE(value, n);
    FromBEOfBE(value, n);
    SintOfBytes(s);
    FirstByteBounds(s);
    Pow256Halves(n);
    HalfOf(s[0] as int, Pow256(n - 1), FromBE(s));
    if value >= 0 {
      DivModUnique(value, Pow256(n), 0, value);
    } else {
      DivModUnique(value, Pow256(n), -1, value + Pow256(n));
    }
  }

  lemma SintFits(value: int)
    requires Int64(value) == value
    ensures -(Pow2(8 * SintSize(value) - 1) as int) <= value < Pow2(8 * SintSize(value) - 1)
  {
    SintPowers();
  }

  lemma SintPowers()
    ensures Pow2(7) == 0x80 && Pow2(15) == 0x8000 && Pow2(23) == 0x80_0000 && Pow2(31) == 0x8000_0000
    ensures Pow2(63) == 0x8000_0000_0000_0000
  {
    hide Pow2;
    Pow2Small7();
    Pow2Values();
    Pow2Add(7, 8);
    Pow2Add(7, 16);
    Pow2Add(7, 24);
    Pow2Add(31, 32);
  }

  lemma Pow256Halves(n: nat)
    requires n >= 1
    ensures Pow2(8 * n - 1) == 0x80 * Pow256(n - 1) && Pow256(n) == 2 * Pow2(8 * n - 1)
  {
    Pow256IsPow2(n - 1);
    Pow2Small7();
    Pow2Add(7, 8 * (n - 1));
    Pow256Step(n);
  }

  // ------------------------------------------------------------------ the writers and readers as loops

  /** ebml_write_id. */
  method WriteId(dst: array<Byte>, at: nat, id: nat) returns (len: nat)
    requires at + IdSize(id) <= dst.Length
    modifies dst
    ensures len == IdSize(id)
    ensures dst[..] == old(dst[..at]) + IdBytes(id) + old(dst[at + len..])
  {
    len := IdSize(id);
    WriteBE(dst, at, id, len);
  }

  /** ebml_write_size_fixed. */
  method WriteSizeFixed(dst: array<Byte>, at: nat, size: nat, bytes: nat) returns (len: nat)
    requires 1 <= bytes <= 8 && at + bytes <= dst.Length
    modifies dst
    ensures len == bytes
    ensures dst[..] == old(dst[..at]) + SizeFixed(size, bytes) + old(dst[at + bytes..])
  {
    hide BE, Or, Marker;
    WriteBE(dst, at, size, bytes);
    ghost var b := BE(size, bytes);
    assert dst[at] == dst[..][at] == b[0];
    OrIsByte(b[0], bytes);
    dst[at] := Or(dst[at], Marker(bytes));
    return bytes;
  }

  /** ebml_write_size. */
  method WriteSize(dst: array<Byte>, at: nat, size: nat) returns (len: nat)
    requires at + SizeSize(size) <= dst.Length
    modifies dst
    ensures len == SizeSize(size)
    ensures dst[..] == old(dst[..at]) + SizeBytes(size) + old(dst[at + len..])
  {
    len := WriteSizeFixed(dst, at, size, SizeSize(size));
  }

  /** ebml_write_unknown_size. */
  method WriteUnknownSize(dst: array<Byte>, at: nat, bytes: nat) returns (len: nat)
    requires 1 <= bytes <= 8 && at + bytes <= dst.Length
    modifies dst
    ensures len == bytes
    ensures dst[..] == old(dst[..at]) + UnknownSize(bytes) + old(dst[at + bytes..])
  {
    ghost var u := UnknownSize(bytes);
    dst[at] := 2 * Marker(bytes) as int - 1;
    var i := 1;
    while i < bytes
      invariant 1 <= i <= bytes
      invariant dst[..at] == old(dst[..at]) && dst[at + bytes..] == old(dst[at + bytes..])
      invariant dst[at..at + i] == u[..i]
    {
      dst[at + i] := 0xFF;
      assert dst[at..at + i + 1] == dst[at..at + i] + [0xFF] && u[i] == 0xFF;
      i := i + 1;
    }
    assert dst[..] == dst[..at] + dst[at..at + bytes] + dst[at + bytes..] && u[..bytes] == u;
    return bytes;
  }

  /** ebml_write_uint; ebml_write_sint differs in the size function only. */
  method WriteUint(dst: array<Byte>, at: nat, id: nat, value: nat) returns (pos: nat)
    requires at + |Element(id, UintContent(value))| <= dst.Length
    modifies dst
    ensures pos == |Element(id, UintContent(value))|
    ensures dst[..] == old(dst[..at]) + Element(id, UintContent(value)) + old(dst[at + pos..])
  {
    var valSize := CountBytes(value);
    pos := WriteInteger(dst, at, id, value, valSize);
  }

  /** uint_size: count the bytes that are shifted out until nothing is left. */
  method CountBytes(value: nat) returns (bytes: nat)
    ensures bytes == UintSize(value)
  {
    if value == 0 {
      return 1;
    }
    bytes := 0;
    var v := value;
    while v > 0
      invariant 0 <= v && bytes >= 0
      invariant v > 0 ==> bytes + UintSize(v) == UintSize(value)
      invariant v == 0 ==> bytes == UintSize(value)
    {
      v := v / 256;
      bytes := bytes + 1;
    }
  }

  method WriteSint(dst: array<Byte>, at: nat, id: nat, value: int) returns (pos: nat)
    requires at + |Element(id, SintContent(value))| <= dst.Length
    modifies dst
    ensures pos == |Element(id, SintContent(value))|
    ensures dst[..] == old(dst[..at]) + Element(id, SintContent(value)) + old(dst[at + pos..])
  {
    pos := WriteInteger(dst, at, id, value, SintSize(value));
  }

  method WriteInteger(dst: array<Byte>, at: nat, id: nat, value: int, valSize: nat) returns (pos: nat)
    requires at + |Element(id, BE(value, valSize))| <= dst.Length
    modifies dst
    ensures pos == |Element(id, BE(value, valSize))|
    ensures dst[..] == old(dst[..at]) + Element(id, BE(value, valSize)) + old(dst[at + pos..])
  {
    hide IdBytes, SizeBytes, BE, IdSize, SizeSize;
    ghost var before := dst[..];
    ghost var a, b, c := IdBytes(id), SizeBytes(valSize), BE(value, valSize);
    pos := WriteId(dst, at, id);
    ghost var mid := dst[..];
    var n := WriteSize(dst, at + pos, valSize);
    Spliced(before, mid, dst[..], at, a, b);
    pos := pos + n;
    mid := dst[..];
    WriteBE(dst, at + pos, value, valSize);
    Spliced(before, mid, dst[..], at, a + b, c);
    pos := pos + valSize;
  }

  /** Writing `x` behind an `a` already written at `at` leaves `a + x` there. */
  lemma Spliced(before: seq<Byte>, mid: seq<Byte>, after: seq<Byte>, at: nat, a: seq<Byte>, x: seq<Byte>)
    requires at + |a| + |x| <= |before|
    requires mid == before[..at] + a + before[at + |a|..]
    requires after == mid[..at + |a|] + x + mid[at + |a| + |x|..]
    ensures after == before[..at] + (a + x) + before[at + |a| + |x|..]
  {}

  /** matroska_ebmlnum_uint: look for the marker, strip it, then fold in the other bytes. */
  method ReadBlockNum(data: seq<Byte>) returns (r: Num)
    ensures r == BlockNum(data)
  {
    hide FromBE;
    if data == [] {
      return Invalid;
    }
    var read := FindMarker(data[0]);
    if read > 8 {
      return Invalid;
    }
    var total: nat := data[0] - Marker(read);
    var numFfs := if total == Marker(read) as int - 1 then 1 else 0;
    if |data| < read {
      return Invalid;
    }
    ghost var d := Digits(data[..read]);
    FromBEOne(d[0]);
    assert d[..1] == [d[0]];
    var n := 1;
    while n < read
      invariant 1 <= n <= read
      invariant total == FromBE(d[..n])
      invariant 0 <= numFfs <= n
      invariant numFfs == n <==> d[0] as int == Marker(read) as int - 1 && forall i :: 1 <= i < n ==> data[i] == 0xFF
    {
      if data[n] == 0xFF {
        numFfs := numFfs + 1;
      }
      Fold(d, n);
      total := total * 256 + data[n];
      n := n + 1;
    }
    assert d[..read] == d;
    if read == numFfs {
      return Unknown(read);
    } else {
      return Num(total, read);
    }
  }

  lemma Fold(d: seq<Byte>, n: nat)
    requires n < |d|
    ensures FromBE(d[..n + 1]) == 256 * FromBE(d[..n]) + d[n] as int
  {
    assert d[..n + 1][..n] == d[..n];
  }

  /** The loop that shifts the mask until it meets the marker. */
  method FindMarker(b: Byte) returns (read: nat)
    ensures read == Width(b)
  {
    read := 1;
    var mask := 0x80;
    while read <= 8 && b / mask % 2 == 0
      invariant 1 <= read <= 9 && mask > 0
      invariant read <= 8 ==> mask == Marker(read) && b < 2 * Marker(read) as int
      invariant read == 9 ==> b == 0
      decreases 9 - read
    {
      read := read + 1;
      mask := if read <= 8 then mask / 2 else 1;
    }
  }
}
