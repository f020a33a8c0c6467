/**
  The buffer converters of tsMuxer/convertUTF.cpp against the encoding forms they are named after
  (section 3 of RFC 3629 for UTF-8, section 2 of RFC 2781 for UTF-16).
  */
module Utf {
  import opened Bits

  type Unit = x: int | 0 <= x < 0x1_0000

  const REPLACEMENT := 0xFFFD

  // ------------------------------------------------------------------ characters and their encodings

  /** A Unicode scalar value. */
  type Scalar = ch: int | 0 <= ch < 0xD800 || 0xE000 <= ch < 0x11_0000

  /** Section 2.1 of RFC 2781. */
  function Utf16Of(ch: Scalar): (s: seq<Unit>)
    ensures 1 <= |s| <= 2
  {
    if ch < 0x1_0000 then [ch] else [0xD800 + (ch - 0x1_0000) / 0x400, 0xDC00 + (ch - 0x1_0000) % 0x400]
  }

  /** The table of section 3 of RFC 3629. */
  function Utf8Of(ch: Scalar): (s: seq<Byte>)
    ensures 1 <= |s| <= 4
  {
    if ch < 0x80 then [ch]
    else if ch < 0x800 then [0xC0 + ch / 0x40, 0x80 + ch % 0x40]
    else if ch < 0x1_0000 then [0xE0 + ch / 0x1000, 0x80 + ch / 0x40 % 0x40, 0x80 + ch % 0x40]
    else [0xF0 + ch / 0x4_0000, 0x80 + ch / 0x1000 % 0x40, 0x80 + ch / 0x40 % 0x40, 0x80 + ch % 0x40]
  }

  function Utf16All(cs: seq<Scalar>): seq<Unit> {
    if cs == [] then [] else Utf16Of(cs[0]) + Utf16All(cs[1..])
  }

  function Utf8All(cs: seq<Scalar>): seq<Byte> {
    if cs == [] then [] else Utf8Of(cs[0]) + Utf8All(cs[1..])
  }

  // ------------------------------------------------------------------ the converters, one character at a time

  datatype Result = Ok | SourceExhausted | TargetExhausted | SourceIllegal

  /** A converter's outcome: units read, and units written. */
  datatype Conv<T> = Conv(result: Result, used: nat, out: seq<T>)

  /** The next character of the source and its length there, or why there is none. */
  datatype Next = Char(ch: nat, len: nat) | Stop(why: Result)

  predicate High(u: int) { 0xD800 <= u <= 0xDBFF }

  predicate Low(u: int) { 0xDC00 <= u <= 0xDFFF }

  /** The first half of ConvertUTF16toUTF8's loop. */
  function Next16(s: seq<Unit>, strict: bool): (n: Next)
    requires s != []
    ensures n.Char? ==> 1 <= n.len <= |s| && n.len <= 2 && n.ch < 0x11_0000
    ensures n.Stop? ==> n.why == SourceIllegal || n.why == SourceExhausted
  {
    if High(s[0]) then
      if |s| < 2 then Stop(SourceExhausted)
      else if Low(s[1]) then Char((s[0] as int - 0xD800) * 0x400 + (s[1] as int - 0xDC00) + 0x1_0000, 2)
      else if strict then Stop(SourceIllegal)
      else Char(s[0], 1)
    else if strict && Low(s[0]) then Stop(SourceIllegal)
    else Char(s[0], 1)
  }

  /** How many bytes the loop decides on; what is too large becomes the replacement character. */
  function BytesToWrite(ch: nat): (n: nat)
    ensures 1 <= n <= 4
  {
    if ch < 0x80 then 1 else if ch < 0x800 then 2 else if ch < 0x1_0000 then 3 else if ch < 0x11_0000 then 4 else 3
  }

  function FirstByteMark(n: nat): (m: nat)
    requires 1 <= n <= 4
  {
    if n == 1 then 0 else if n == 2 then 0xC0 else if n == 3 then 0xE0 else 0xF0
  }

  /** The last `n - 1` bytes are filled from the back with six bits each, the first one with what is left. */
  function Filled8(ch: nat, n: nat, k: nat): (s: seq<Byte>)
    requires 1 <= k <= n <= 4 && FirstByteMark(n) + ch / Shift(k - 1) < 0x100
    ensures |s| == k
    decreases k
  {
    if k == 1 then [ch + FirstByteMark(n)]
    else
      ShiftStep(ch, k);
      Filled8(ch / 0x40, n, k - 1) + [0x80 + ch % 0x40]
  }

  /** 64 to the power of `k`. */
  function Shift(k: nat): (p: nat)
    ensures p > 0
  {
    if k == 0 then 1 else 0x40 * Shift(k - 1)
  }

  lemma {:induction false} ShiftStep(ch: nat, k: nat)
    requires k >= 2
    ensures ch / 0x40 / Shift(k - 2) == ch / Shift(k - 1)
  {
    var p := Shift(k - 2);
    var h := ch / 0x40;
    assert ch == (h / p) * (0x40 * p) + (0x40 * (h % p) + ch % 0x40) by {
      assert h == (h / p) * p + h % p;
      assert 0x40 * ((h / p) * p) == (h / p) * (0x40 * p);
    }
    DivModUnique(ch, 0x40 * p, h / p, 0x40 * (h % p) + ch % 0x40);
  }

  /** The bytes the loop leaves for a character of the UTF-16 source. */
  function Bytes8(ch: nat): (s: seq<Byte>)
    requires ch < 0x11_0000
    ensures 1 <= |s| <= 4
  {
    Filled8(ch, BytesToWrite(ch), BytesToWrite(ch))
  }

  /** ConvertUTF16toUTF8, `room` bytes being left in the target. */
  function To8(s: seq<Unit>, room: nat, strict: bool): (c: Conv<Byte>)
    ensures c.used <= |s| && |c.out| <= room
    decreases |s|
  {
    if s == [] then Conv(Ok, 0, [])
    else
      var n := Next16(s, strict);
      if n.Stop? then Conv(n.why, 0, [])
      else
        var b := Bytes8(n.ch);
        if |b| > room then Conv(TargetExhausted, 0, [])
        else
          var more := To8(s[n.len..], room - |b|, strict);
          Conv(more.result, n.len + more.used, b + more.out)
  }

  /** trailingBytesForUTF8. */
  function Trailing(b: Byte): (n: nat)
    ensures n <= 5
  {
    if b < 0xC0 then 0 else if b < 0xE0 then 1 else if b < 0xF0 then 2 else if b < 0xF8 then 3 else if b < 0xFC then 4 else 5
  }

  /** offsetsFromUTF8. */
  function Offset(n: nat): nat
    requires n <= 5
  {
    if n == 0 then 0 else if n == 1 then 0x3080 else if n == 2 then 0xE_2080 else if n == 3 then 0x3C8_2080
    else if n == 4 then 0xFA08_2080 else 0x8208_2080
  }

  /** isLegalUTF8: the cases fall through from the length down. */
  predicate Legal(s: seq<Byte>)
    requires s != []
  {
    && |s| <= 4
    && (|s| >= 4 ==> 0x80 <= s[3] <= 0xBF)
    && (|s| >= 3 ==> 0x80 <= s[2] <= 0xBF)
    && (|s| >= 2 ==> s[1] <= 0xBF && SecondByteOk(s[0], s[1]))
    && !(0x80 <= s[0] < 0xC2) && s[0] <= 0xF4
  }

  /** The inner switch; only its default case has the general lower bound. */
  predicate SecondByteOk(lead: Byte, a: Byte) {
    if lead == 0xE0 then a >= 0xA0
    else if lead == 0xED then a <= 0x9F
    else if lead == 0xF0 then a >= 0x90
    else if lead == 0xF4 then a <= 0x8F
    else a >= 0x80
  }

  /** The shifting sum over a sequence, in 32 bits. */
  function Fold32(s: seq<Byte>): nat {
    if s == [] then 0 else (Fold32(s[..|s| - 1]) * 0x40 + s[|s| - 1]) % 0x1_0000_0000
  }

  /** The decoder with the table of offsets. */
  function Decode8(s: seq<Byte>): nat
    requires 1 <= |s| <= 6
  {
    (Fold32(s) - Offset(|s| - 1)) % 0x1_0000_0000
  }

  /** The next sequence of a UTF-8 source. */
  function Next8(s: seq<Byte>): (n: Next)
    requires s != []
    ensures n.Char? ==> 1 <= n.len <= |s| && n.len == Trailing(s[0]) + 1
    ensures n.Stop? ==> n.why == SourceIllegal || n.why == SourceExhausted
  {
    var extra := Trailing(s[0]);
    if extra >= |s| then Stop(SourceExhausted)
    else if !Legal(s[..extra + 1]) then Stop(SourceIllegal)
    else Char(Decode8(s[..extra + 1]), extra + 1)
  }

  /** The units written for a decoded character, or none. */
  datatype Units = Units(units: seq<Unit>) | NoUnits

  function Units16(ch: nat, strict: bool): (u: Units)
    ensures u.Units? ==> 1 <= |u.units| <= 2
  {
    if ch <= 0xFFFF then
      if 0xD800 <= ch <= 0xDFFF then if strict then NoUnits else Units([REPLACEMENT])
      else Units([ch])
    else if ch > 0x10_FFFF then if strict then NoUnits else Units([REPLACEMENT])
    else Units([(ch - 0x1_0000) / 0x400 + 0xD800, (ch - 0x1_0000) % 0x400 + 0xDC00])
  }

  /** ConvertUTF8toUTF16; a full target is noticed before an illegal character is. */
  function To16(s: seq<Byte>, room: nat, strict: bool): (c: Conv<Unit>)
    ensures c.used <= |s| && |c.out| <= room
    decreases |s|
  {
    if s == [] then Conv(Ok, 0, [])
    else
      var n := Next8(s);
      if n.Stop? then Conv(n.why, 0, [])
      else if room == 0 then Conv(TargetExhausted, 0, [])
      else
        var u := Units16(n.ch, strict);
        if u.NoUnits? then Conv(SourceIllegal, 0, [])
        else if |u.units| > room then Conv(TargetExhausted, 0, [])
        else
          var more := To16(s[n.len..], room - |u.units|, strict);
          Conv(more.result, n.len + more.used, u.units + more.out)
  }

  // ------------------------------------------------------------------ one character

  lemma Bytes8IsUtf8(ch: Scalar)
    ensures Bytes8(ch) == Utf8Of(ch)
  {
    var n := BytesToWrite(ch);
    if n == 3 {
      assert Filled8(ch / 0x40, 3, 2) == [0xE0 + ch / 0x40 / 0x40, 0x80 + ch / 0x40 % 0x40];
      assert ch / 0x40 / 0x40 == ch / 0x1000;
    } else if n == 4 {
      assert ch / 0x40 / 0x40 == ch / 0x1000 && ch / 0x1000 / 0x40 == ch / 0x4_0000;
      assert Filled8(ch / 0x1000, 4, 2) == [0xF0 + ch / 0x4_0000, 0x80 + ch / 0x1000 % 0x40];
      assert Filled8(ch / 0x40, 4, 3) == Filled8(ch / 0x1000, 4, 2) + [0x80 + ch / 0x40 % 0x40];
    }
  }

  lemma Next16OfScalar(ch: Scalar, rest: seq<Unit>, strict: bool)
    ensures Next16(Utf16Of(ch) + rest, strict) == Char(ch, |Utf16Of(ch)|)
  {}

  lemma FoldStep(s: seq<Byte>, b: Byte)
    ensures Fold32(s + [b]) == (Fold32(s) * 0x40 + b as int) % 0x1_0000_0000
  {
    assert (s + [b])[..|s|] == s;
  }

  /** The shifting sum of short sequences, written out. */
  lemma FoldValues(a: Byte, b: Byte, c: Byte, d: Byte)
    ensures Fold32([a]) == a as int && Fold32([a, b]) == a as int * 0x40 + b as int
    ensures Fold32([a, b, c]) == a as int * 0x1000 + b as int * 0x40 + c as int
    ensures Fold32([a, b, c, d]) == a as int * 0x4_0000 + b as int * 0x1000 + c as int * 0x40 + d as int
  {
    hide Fold32;
    FoldNothing();
    FoldStep([], a);
    FoldStep([a], b);
    FoldStep([a, b], c);
    FoldStep([a, b, c], d);
    assert [] + [a] == [a] && [a] + [b] == [a, b] && [a, b] + [c] == [a, b, c] && [a, b, c] + [d] == [a, b, c, d];
  }

  lemma FoldNothing()
    ensures Fold32([]) == 0
  {}

  /** The bits of a sequence put together again, by its length. */
  function Bitwise(s: seq<Byte>): int
    requires 1 <= |s| <= 4
  {
    if |s| == 1 then s[0] as int
    else if |s| == 2 then (s[0] as int - 0xC0) * 0x40 + (s[1] as int - 0x80)
    else if |s| == 3 then (s[0] as int - 0xE0) * 0x1000 + (s[1] as int - 0x80) * 0x40 + (s[2] as int - 0x80)
    else (s[0] as int - 0xF0) * 0x4_0000 + (s[1] as int - 0x80) * 0x1000 + (s[2] as int - 0x80) * 0x40 + (s[3] as int - 0x80)
  }

  /** Subtracting the table's offset takes off all markers at once. */
  lemma OffsetIsBitwise(s: seq<Byte>)
    requires 1 <= |s| <= 4 && Bitwise(s) >= 0
    ensures Decode8(s) == Bitwise(s)
  {
    hide Fold32;
    if |s| == 1 {
      FoldValues(s[0], 0, 0, 0);
      assert s == [s[0]];
    } else if |s| == 2 {
      FoldValues(s[0], s[1], 0, 0);
      assert s == [s[0], s[1]];
    } else if |s| == 3 {
      FoldValues(s[0], s[1], s[2], 0);
      assert s == [s[0], s[1], s[2]];
    } else {
      FoldValues(s[0], s[1], s[2], s[3]);
      assert s == [s[0], s[1], s[2], s[3]];
    }
  }

  lemma {:induction false} BitwiseOfScalar(ch: Scalar)
    ensures Bitwise(Utf8Of(ch)) == ch && Trailing(Utf8Of(ch)[0]) + 1 == |Utf8Of(ch)| && Legal(Utf8Of(ch))
  {
    if 0x800 <= ch {
      assert ch == ch / 0x1000 * 0x1000 + ch / 0x40 % 0x40 * 0x40 + ch % 0x40;
    }
    if 0x1_0000 <= ch {
      assert ch / 0x1000 == ch / 0x4_0000 * 0x40 + ch / 0x1000 % 0x40;
    }
  }

  /** The table-and-offset decoder inverts the encoding of every character. */
  lemma Decode8Inverts(ch: Scalar)
    ensures Decode8(Utf8Of(ch)) == ch && Trailing(Utf8Of(ch)[0]) + 1 == |Utf8Of(ch)| && Legal(Utf8Of(ch))
  {
    hide Utf8Of, Bitwise, Legal, Decode8;
    BitwiseOfScalar(ch);
    OffsetIsBitwise(Utf8Of(ch));
  }

  lemma Next8OfScalar(ch: Scalar, rest: seq<Byte>)
    ensures Next8(Utf8Of(ch) + rest) == Char(ch, |Utf8Of(ch)|)
  {
    hide Utf8Of, Legal, Decode8, Trailing;
    Decode8Inverts(ch);
    var u := Utf8Of(ch);
    assert (u + rest)[..|u|] == u && (u + rest)[0] == u[0];
  }

  lemma Units16OfScalar(ch: Scalar, strict: bool)
    ensures Units16(ch, strict) == Units(Utf16Of(ch))
  {}

  // ------------------------------------------------------------------ what is legal

  /** Leads 0xED and 0xF4, whose second byte is not checked against the general lower bound. */
  predicate Loose(s: seq<Byte>) {
    || (|s| == 3 && s[0] == 0xED && s[1] < 0x80 && 0x80 <= s[2] <= 0xBF)
    || (|s| == 4 && s[0] == 0xF4 && s[1] < 0x80 && 0x80 <= s[2] <= 0xBF && 0x80 <= s[3] <= 0xBF)
  }

  ghost predicate WellFormed8(s: seq<Byte>) { exists ch: Scalar :: s == Utf8Of(ch) }

  lemma {:induction false} LegalDecodes(s: seq<Byte>)
    requires s != [] && Legal(s) && |s| == Trailing(s[0]) + 1 && !Loose(s)
    ensures var ch := Bitwise(s);
            (0 <= ch < 0xD800 || 0xE000 <= ch < 0x11_0000) && Utf8Of(ch) == s
  {
    if |s| == 3 {
      ThreeBytes(s[0], s[1], s[2]);
    } else if |s| == 4 {
      FourBytes(s[0], s[1], s[2], s[3]);
    }
  }

  lemma ThreeBytes(a: Byte, b: Byte, c: Byte)
    requires 0xE0 <= a <= 0xEF && 0x80 <= b <= 0xBF && 0x80 <= c <= 0xBF
    ensures var ch := (a as int - 0xE0) * 0x1000 + (b as int - 0x80) * 0x40 + (c as int - 0x80);
            ch / 0x1000 == a as int - 0xE0 && ch / 0x40 % 0x40 == b as int - 0x80 && ch % 0x40 == c as int - 0x80
  {
    var h := (a as int - 0xE0) * 0x40 + (b as int - 0x80);
    DivModUnique(h * 0x40 + (c as int - 0x80), 0x40, h, c as int - 0x80);
    DivModUnique(h, 0x40, a as int - 0xE0, b as int - 0x80);
  }

  lemma FourBytes(a: Byte, b: Byte, c: Byte, d: Byte)
    requires 0xF0 <= a <= 0xF4 && 0x80 <= b <= 0xBF && 0x80 <= c <= 0xBF && 0x80 <= d <= 0xBF
    ensures var ch := (a as int - 0xF0) * 0x4_0000 + (b as int - 0x80) * 0x1000 + (c as int - 0x80) * 0x40 + (d as int - 0x80);
            && ch / 0x4_0000 == a as int - 0xF0 && ch / 0x1000 % 0x40 == b as int - 0x80
            && ch / 0x40 % 0x40 == c as int - 0x80 && ch % 0x40 == d as int - 0x80
  {
    var h := (a as int - 0xF0) * 0x40 + (b as int - 0x80);
    var g := h * 0x40 + (c as int - 0x80);
    DivModUnique(g * 0x40 + (d as int - 0x80), 0x40, g, d as int - 0x80);
    DivModUnique(g, 0x40, h, c as int - 0x80);
    DivModUnique(h, 0x40, a as int - 0xF0, b as int - 0x80);
  }

  /** isLegalUTF8 accepts exactly the well-formed sequences and the loose ones. */
  lemma LegalExactly(s: seq<Byte>)
    requires s != [] && |s| == Trailing(s[0]) + 1
    ensures Legal(s) <==> WellFormed8(s) || Loose(s)
  {
    if WellFormed8(s) {
      var ch: Scalar :| s == Utf8Of(ch);
      BitwiseOfScalar(ch);
    }
    if Legal(s) && !Loose(s) {
      LegalDecodes(s);
      var ch: Scalar := Bitwise(s);
      assert s == Utf8Of(ch);
    }
  }

  /** A loose sequence is taken for some other character, which is written differently. */
  lemma LooseDecodes(s: seq<Byte>)
    requires Loose(s)
    ensures var ch := Decode8(s);
            && (0xB000 <= ch < 0xD000 || 0x8_0000 <= ch < 0x10_0000)
            && Utf8Of(ch) != s && !WellFormed8(s)
  {
    OffsetIsBitwise(s);
    if WellFormed8(s) {
      var ch: Scalar :| s == Utf8Of(ch);
      SecondIsTrail(ch);
    }
  }

  lemma SecondIsTrail(ch: Scalar)
    ensures |Utf8Of(ch)| > 1 ==> Utf8Of(ch)[1] >= 0x80
  {}

  /** The smallest example. */
  lemma LooseExample()
    ensures Legal([0xED, 0x20, 0x80]) && To16([0xED, 0x20, 0x80], 1, true) == Conv(Ok, 3, [0xB800])
            && Utf8Of(0xB800) == [0xEB, 0xA0, 0x80]
  {
    var s: seq<Byte> := [0xED, 0x20, 0x80];
    OffsetIsBitwise(s);
    assert s[..3] == s && s[3..] == [];
  }

  // ------------------------------------------------------------------ whole strings

  /** Strict conversion of well-formed UTF-16 with room enough: all of it, to the UTF-8 of its characters. */
  lemma {:induction false} To8OfCharacters(cs: seq<Scalar>, room: nat, strict: bool)
    requires room >= |Utf8All(cs)|
    ensures To8(Utf16All(cs), room, strict) == Conv(Ok, |Utf16All(cs)|, Utf8All(cs))
  {
    hide Utf8Of, Utf16Of, Next16, Bytes8;
    if cs != [] {
      var u, rest := Utf16Of(cs[0]), Utf16All(cs[1..]);
      Next16OfScalar(cs[0], rest, strict);
      Bytes8IsUtf8(cs[0]);
      assert (u + rest)[|u|..] == rest;
      To8OfCharacters(cs[1..], room - |Utf8Of(cs[0])|, strict);
    }
  }

  lemma {:induction false} To16OfCharacters(cs: seq<Scalar>, room: nat, strict: bool)
    requires room >= |Utf16All(cs)|
    ensures To16(Utf8All(cs), room, strict) == Conv(Ok, |Utf8All(cs)|, Utf16All(cs))
  {
    hide Utf8Of, Utf16Of, Next8, Units16;
    if cs != [] {
      var u, rest := Utf8Of(cs[0]), Utf8All(cs[1..]);
      Next8OfScalar(cs[0], rest);
      Units16OfScalar(cs[0], strict);
      assert (u + rest)[|u|..] == rest;
      To16OfCharacters(cs[1..], room - |Utf16Of(cs[0])|, strict);
    }
  }

  /** There and back: the identity on well-formed input. */
  lemma RoundTrip(cs: seq<Scalar>, room8: nat, room16: nat, strict: bool)
    requires room8 >= |Utf8All(cs)| && room16 >= |Utf16All(cs)|
    ensures var there := To8(Utf16All(cs), room8, strict);
            var back := To16(there.out, room16, strict);
            there.result == Ok && there.used == |Utf16All(cs)| && back.result == Ok && back.used == |there.out|
            && back.out == Utf16All(cs)
  {
    To8OfCharacters(cs, room8, strict);
    To16OfCharacters(cs, room16, strict);
  }

  /** The characters that strict conversion finds in a UTF-16 source. */
  function Characters16(s: seq<Unit>): seq<Scalar>
    decreases |s|
  {
    if s == [] then []
    else
      var n := Next16(s, true);
      if n.Stop? then [] else [ScalarOf(s, n)] + Characters16(s[n.len..])
  }

  function ScalarOf(s: seq<Unit>, n: Next): Scalar
    requires s != [] && n == Next16(s, true) && n.Char?
  {
    n.ch
  }

  lemma Next16IsUtf16(s: seq<Unit>)
    requires s != [] && Next16(s, true).Char?
    ensures var n := Next16(s, true); s[..n.len] == Utf16Of(ScalarOf(s, n))
  {}

  /** So strict conversion succeeds exactly on well-formed UTF-16. */
  lemma {:induction false} StrictAcceptsWellFormed(s: seq<Unit>, room: nat)
    ensures To8(s, room, true).result == Ok ==>
              s == Utf16All(Characters16(s)) && To8(s, room, true) == Conv(Ok, |s|, Utf8All(Characters16(s)))
    decreases |s|
  {
    hide Next16, Utf8Of, Utf16Of, Bytes8, ScalarOf;
    if s != [] && Next16(s, true).Char? {
      var n := Next16(s, true);
      var ch := ScalarOf(s, n);
      Next16IsUtf16(s);
      ScalarOfIs(s, n);
      Bytes8IsUtf8(ch);
      var b := Bytes8(n.ch);
      if |b| <= room {
        StrictAcceptsWellFormed(s[n.len..], room - |b|);
        assert s == s[..n.len] + s[n.len..];
      }
    }
  }

  lemma ScalarOfIs(s: seq<Unit>, n: Next)
    requires s != [] && n == Next16(s, true) && n.Char?
    ensures ScalarOf(s, n) as int == n.ch
  {}

  // ------------------------------------------------------------------ a target that is too small

  /** Two outcomes one after the other. */
  function Glue<T>(a: Conv<T>, b: Conv<T>): Conv<T> { Conv(b.result, a.used + b.used, a.out + b.out) }

  lemma GlueAssociates<T>(a: Conv<T>, b: Conv<T>, c: Conv<T>)
    ensures Glue(a, Glue(b, c)) == Glue(Glue(a, b), c)
  {
    assert a.out + (b.out + c.out) == a.out + b.out + c.out;
  }

  lemma GlueParts<T>(a: Conv<T>, b: Conv<T>)
    ensures var c := Glue(a, b); c.used == a.used + b.used && |c.out| == |a.out| + |b.out| && c.result == b.result
  {}

  lemma GlueNothing<T>(r: Result, b: Conv<T>)
    ensures Glue(Conv(r, 0, []), b) == b
  {
    assert [] + b.out == b.out;
  }

  /** One turn of ConvertUTF16toUTF8's loop. */
  lemma To8Step(s: seq<Unit>, room: nat, strict: bool)
    requires s != [] && Next16(s, strict).Char?
    ensures var n := Next16(s, strict);
            var b := Bytes8(n.ch);
            To8(s, room, strict) == if |b| > room then Conv(TargetExhausted, 0, [])
                                    else Glue(Conv(Ok, n.len, b), To8(s[n.len..], room - |b|, strict))
  {
    hide Next16, Bytes8;
  }

  lemma To8Stops(s: seq<Unit>, room: nat, strict: bool)
    requires s == [] || Next16(s, strict).Stop?
    ensures To8(s, room, strict) == Conv(if s == [] then Ok else Next16(s, strict).why, 0, [])
  {
    hide Next16;
  }

  /** Stopping for want of room and going on from there is the same as having had the room at once. */
  lemma {:induction false} To8GoesOn(s: seq<Unit>, room: nat, more: nat, strict: bool)
    ensures var c := To8(s, room, strict);
            To8(s, |c.out| + more, strict) == Glue(c, To8(s[c.used..], more, strict))
    decreases |s|
  {
    hide *;
    assert s[0..] == s;
    if s == [] || Next16(s, strict).Stop? {
      To8Stops(s, room, strict);
      To8Stops(s, more, strict);
      GlueNothing(To8(s, room, strict).result, To8(s, more, strict));
    } else {
      var n := Next16(s, strict);
      var b, rest := Bytes8(n.ch), s[n.len..];
      To8Step(s, room, strict);
      if |b| <= room {
        var h, d := Conv(Ok, n.len, b), To8(rest, room - |b|, strict);
        var c := To8(s, room, strict);
        GlueParts(h, d);
        To8GoesOn(rest, room - |b|, more, strict);
        To8Step(s, |c.out| + more, strict);
        assert rest[d.used..] == s[c.used..];
        GlueAssociates(h, d, To8(s[c.used..], more, strict));
      } else {
        GlueNothing(TargetExhausted, To8(s, more, strict));
      }
    }
  }

  /** One turn of ConvertUTF8toUTF16's loop. */
  lemma To16Step(s: seq<Byte>, room: nat, strict: bool)
    requires s != [] && Next8(s).Char?
    ensures var n := Next8(s);
            var u := Units16(n.ch, strict);
            To16(s, room, strict) == if room == 0 then Conv(TargetExhausted, 0, [])
                                     else if u.NoUnits? then Conv(SourceIllegal, 0, [])
                                     else if |u.units| > room then Conv(TargetExhausted, 0, [])
                                     else Glue(Conv(Ok, n.len, u.units), To16(s[n.len..], room - |u.units|, strict))
  {
    hide Next8, Units16;
  }

  lemma To16Stops(s: seq<Byte>, room: nat, strict: bool)
    requires s == [] || Next8(s).Stop?
    ensures To16(s, room, strict) == Conv(if s == [] then Ok else Next8(s).why, 0, [])
  {
    hide Next8;
  }

  lemma {:induction false} To16GoesOn(s: seq<Byte>, room: nat, more: nat, strict: bool)
    ensures var c := To16(s, room, strict);
            To16(s, |c.out| + more, strict) == Glue(c, To16(s[c.used..], more, strict))
    decreases |s|
  {
    hide *;
    assert s[0..] == s;
    if s == [] || Next8(s).Stop? {
      To16Stops(s, room, strict);
      To16Stops(s, more, strict);
      GlueNothing(To16(s, room, strict).result, To16(s, more, strict));
    } else {
      var n := Next8(s);
      var u, rest := Units16(n.ch, strict), s[n.len..];
      To16Step(s, room, strict);
      if u.Units? && |u.units| <= room {
        var h, d := Conv(Ok, n.len, u.units), To16(rest, room - |u.units|, strict);
        var c := To16(s, room, strict);
        GlueParts(h, d);
        To16GoesOn(rest, room - |u.units|, more, strict);
        To16Step(s, |c.out| + more, strict);
        assert rest[d.used..] == s[c.used..];
        GlueAssociates(h, d, To16(s[c.used..], more, strict));
      } else {
        GlueNothing(To16(s, room, strict).result, To16(s, more, strict));
      }
    }
  }

  /** Converting through a series of buffers. */
  function Chunks8(s: seq<Unit>, rooms: seq<nat>, strict: bool): (c: Conv<Byte>)
    ensures c.used <= |s|
  {
    if rooms == [] then Conv(TargetExhausted, 0, [])
    else
      var c := To8(s, rooms[0], strict);
      if c.result != TargetExhausted then c else Glue(c, Chunks8(s[c.used..], rooms[1..], strict))
  }

  function Chunks16(s: seq<Byte>, rooms: seq<nat>, strict: bool): (c: Conv<Unit>)
    ensures c.used <= |s|
  {
    if rooms == [] then Conv(TargetExhausted, 0, [])
    else
      var c := To16(s, rooms[0], strict);
      if c.result != TargetExhausted then c else Glue(c, Chunks16(s[c.used..], rooms[1..], strict))
  }

  lemma {:induction false} To8MoreRoom(s: seq<Unit>, room: nat, more: nat, strict: bool)
    requires To8(s, room, strict).result != TargetExhausted && more >= |To8(s, room, strict).out|
    ensures To8(s, more, strict) == To8(s, room, strict)
    decreases |s|
  {
    hide To8, Next16, Bytes8;
    if s == [] || Next16(s, strict).Stop? {
      To8Stops(s, room, strict);
      To8Stops(s, more, strict);
    } else {
      var n, b := Next16(s, strict), Bytes8(Next16(s, strict).ch);
      To8Step(s, room, strict);
      To8Step(s, more, strict);
      if |b| <= room {
        To8MoreRoom(s[n.len..], room - |b|, more - |b|, strict);
      }
    }
  }

  lemma {:induction false} To16MoreRoom(s: seq<Byte>, room: nat, more: nat, strict: bool)
    requires To16(s, room, strict).result != TargetExhausted && more > |To16(s, room, strict).out|
    ensures To16(s, more, strict) == To16(s, room, strict)
    decreases |s|
  {
    hide To16, Next8, Units16;
    if s == [] || Next8(s).Stop? {
      To16Stops(s, room, strict);
      To16Stops(s, more, strict);
    } else {
      var n, u := Next8(s), Units16(Next8(s).ch, strict);
      To16Step(s, room, strict);
      To16Step(s, more, strict);
      if u.Units? && |u.units| <= room {
        To16MoreRoom(s[n.len..], room - |u.units|, more - |u.units|, strict);
      }
    }
  }

  /** However the buffers were cut, a conversion that comes to an end is the conversion at once. */
  lemma {:induction false} ChunksAreWhole8(s: seq<Unit>, rooms: seq<nat>, room: nat, strict: bool)
    requires Chunks8(s, rooms, strict).result != TargetExhausted && room >= |Chunks8(s, rooms, strict).out|
    ensures To8(s, room, strict) == Chunks8(s, rooms, strict)
    decreases |rooms|
  {
    hide To8;
    var c := To8(s, rooms[0], strict);
    if c.result == TargetExhausted {
      ChunksAreWhole8(s[c.used..], rooms[1..], room - |c.out|, strict);
      To8GoesOn(s, rooms[0], room - |c.out|, strict);
    } else {
      To8MoreRoom(s, rooms[0], room, strict);
    }
  }

  lemma {:induction false} ChunksAreWhole16(s: seq<Byte>, rooms: seq<nat>, room: nat, strict: bool)
    requires Chunks16(s, rooms, strict).result != TargetExhausted && room > |Chunks16(s, rooms, strict).out|
    ensures To16(s, room, strict) == Chunks16(s, rooms, strict)
    decreases |rooms|
  {
    hide To16;
    var c := To16(s, rooms[0], strict);
    if c.result == TargetExhausted {
      ChunksAreWhole16(s[c.used..], rooms[1..], room - |c.out|, strict);
      To16GoesOn(s, rooms[0], room - |c.out|, strict);
    } else {
      To16MoreRoom(s, rooms[0], room, strict);
    }
  }

  /** Both pointers are left on a character boundary. */
  lemma {:induction false} StopsBetweenCharacters(cs: seq<Scalar>, room: nat, strict: bool) returns (k: nat)
    ensures k <= |cs|
    ensures var c := To8(Utf16All(cs), room, strict);
            c.used == |Utf16All(cs[..k])| && c.out == Utf8All(cs[..k]) && (c.result == Ok <==> k == |cs|)
    decreases |cs|
  {
    hide *;
    NoCharacters(room, strict);
    if cs == [] {
      assert cs[..0] == [];
      return 0;
    }
    var ch, rest := cs[0], cs[1..];
    var u := Utf16Of(ch);
    FirstCharacter(cs);
    Next16OfScalar(ch, Utf16All(rest), strict);
    Bytes8IsUtf8(ch);
    To8Step(Utf16All(cs), room, strict);
    if |Utf8Of(ch)| > room {
      assert cs[..0] == [];
      return 0;
    }
    assert (u + Utf16All(rest))[|u|..] == Utf16All(rest);
    var j := StopsBetweenCharacters(rest, room - |Utf8Of(ch)|, strict);
    GlueParts(Conv(Ok, |u|, Utf8Of(ch)), To8(Utf16All(rest), room - |Utf8Of(ch)|, strict));
    GlueOut(Conv(Ok, |u|, Utf8Of(ch)), To8(Utf16All(rest), room - |Utf8Of(ch)|, strict));
    k := j + 1;
    assert cs[..k][1..] == rest[..j] && cs[..k][0] == ch;
    FirstCharacter(cs[..k]);
  }

  lemma {:induction false} StopsBetweenSequences(cs: seq<Scalar>, room: nat, strict: bool) returns (k: nat)
    ensures k <= |cs|
    ensures var c := To16(Utf8All(cs), room, strict);
            c.used == |Utf8All(cs[..k])| && c.out == Utf16All(cs[..k]) && (c.result == Ok <==> k == |cs|)
    decreases |cs|
  {
    hide *;
    NoCharacters(room, strict);
    if cs == [] {
      assert cs[..0] == [];
      return 0;
    }
    var ch, rest := cs[0], cs[1..];
    var u, units := Utf8Of(ch), Utf16Of(ch);
    FirstCharacter(cs);
    Next8OfScalar(ch, Utf8All(rest));
    Units16OfScalar(ch, strict);
    To16Step(Utf8All(cs), room, strict);
    if |units| > room {
      assert cs[..0] == [];
      return 0;
    }
    assert (u + Utf8All(rest))[|u|..] == Utf8All(rest);
    var j := StopsBetweenSequences(rest, room - |units|, strict);
    var head, more := Conv(Ok, |u|, units), To16(Utf8All(rest), room - |units|, strict);
    GlueParts(head, more);
    GlueOut(head, more);
    k := j + 1;
    assert cs[..k][1..] == rest[..j] && cs[..k][0] == ch;
    FirstCharacter(cs[..k]);
  }

  lemma GlueOut<T>(a: Conv<T>, b: Conv<T>)
    ensures Glue(a, b).out == a.out + b.out
  {}

  lemma NoCharacters(room: nat, strict: bool)
    ensures Utf16All([]) == [] && Utf8All([]) == []
    ensures To8([], room, strict) == Conv(Ok, 0, []) && To16([], room, strict) == Conv(Ok, 0, [])
  {}

  lemma FirstCharacter(cs: seq<Scalar>)
    requires cs != []
    ensures Utf16All(cs) == Utf16Of(cs[0]) + Utf16All(cs[1..]) && Utf8All(cs) == Utf8Of(cs[0]) + Utf8All(cs[1..])
  {}

  // ------------------------------------------------------------------ legal strings

  /** isLegalUTF8String. */
  predicate LegalString(s: seq<Byte>)
    decreases |s|
  {
    s == [] ||
    var n := Trailing(s[0]) + 1;
    n < 5 && n <= |s| && Legal(s[..n]) && LegalString(s[n..])
  }

  /** A legal sequence, loose or not, always decodes to a character. */
  lemma LegalIsCharacter(s: seq<Byte>)
    requires s != [] && Legal(s) && |s| == Trailing(s[0]) + 1
    ensures var ch := Decode8(s); (ch < 0xD800 || 0xE000 <= ch < 0x11_0000) && Units16(ch, true).Units?
  {
    hide Decode8, Utf8Of, Bitwise, Legal, Loose;
    if Loose(s) {
      LooseDecodes(s);
    } else {
      LegalDecodes(s);
      LegalLength(s);
      OffsetIsBitwise(s);
    }
  }

  lemma LegalLength(s: seq<Byte>)
    requires s != [] && Legal(s)
    ensures |s| <= 4
  {}

  /** So strict conversion, given the room, succeeds exactly on what isLegalUTF8String accepts. */
  lemma {:induction false} StrictAcceptsLegal(s: seq<Byte>, room: nat)
    requires room >= 2 * |s|
    ensures To16(s, room, true).result == Ok <==> LegalString(s)
    decreases |s|
  {
    hide Legal, Decode8, Units16, To16;
    if s == [] || Next8(s).Stop? {
      To16Stops(s, room, true);
    } else {
      var n := Next8(s);
      LegalIsCharacter(s[..n.len]);
      LegalLength(s[..n.len]);
      To16Step(s, room, true);
      StrictAcceptsLegal(s[n.len..], room - |Units16(n.ch, true).units|);
    }
  }

  // ------------------------------------------------------------------ characters of a string

  /** IterateUTF8Chars: every sequence is decoded, without a check; it needs its trailing bytes to be there. */
  function Iterated(s: seq<Byte>): seq<nat>
    decreases |s|
  {
    if s == [] || Trailing(s[0]) >= |s| then []
    else [Decode8(s[..Trailing(s[0]) + 1])] + Iterated(s[Trailing(s[0]) + 1..])
  }

  /** Over well-formed UTF-8 it hands out the characters, one by one. */
  lemma {:induction false} IterateFindsCharacters(cs: seq<Scalar>)
    ensures |Iterated(Utf8All(cs))| == |cs|
    ensures forall i :: 0 <= i < |cs| ==> Iterated(Utf8All(cs))[i] == cs[i] as int
  {
    hide Utf8Of, Decode8, Trailing, Legal;
    if cs != [] {
      var u, rest := Utf8Of(cs[0]), Utf8All(cs[1..]);
      Decode8Inverts(cs[0]);
      assert (u + rest)[..|u|] == u && (u + rest)[|u|..] == rest && (u + rest)[0] == u[0];
      IterateFindsCharacters(cs[1..]);
    }
  }

  // ------------------------------------------------------------------ UTF-32

  /** ConvertUTF16toUTF32. */
  function To32(s: seq<Unit>, room: nat, strict: bool): (c: Conv<nat>)
    ensures c.used <= |s|
    decreases |s|
  {
    if s == [] then Conv(Ok, 0, [])
    else
      var n := Next16(s, strict);
      if n.Stop? then Conv(n.why, 0, [])
      else if room == 0 then Conv(TargetExhausted, 0, [])
      else Glue(Conv(Ok, n.len, [n.ch]), To32(s[n.len..], room - 1, strict))
  }

  /** A result noted on the way stays, unless a later one replaces it. */
  function Noted<T>(why: Result, c: Conv<T>): Conv<T> { if c.result == Ok then c.(result := why) else c }

  /** ConvertUTF32toUTF16; a value that is too large is noted as illegal, but passed over. */
  function From32(s: seq<nat>, room: nat, strict: bool): (c: Conv<Unit>)
    ensures c.used <= |s|
    decreases |s|
  {
    if s == [] then Conv(Ok, 0, [])
    else if room == 0 then Conv(TargetExhausted, 0, [])
    else
      var u := Units16(s[0], strict);
      if u.NoUnits? then
        if s[0] <= 0xFFFF then Conv(SourceIllegal, 0, [])
        else Noted(SourceIllegal, Glue(Conv(Ok, 1, []), From32(s[1..], room, strict)))
      else if |u.units| > room then Conv(TargetExhausted, 0, [])
      else Glue(Conv(Ok, 1, u.units), From32(s[1..], room - |u.units|, strict))
  }

  /** The function that converts a single character: its second unit is zero when there is none. */
  function Pair32(ch: nat): (Unit, Unit)
    requires ch < 0x11_0000
  {
    if ch <= 0xFFFF then (ch, 0) else ((ch - 0x1_0000) / 0x400 + 0xD800, (ch - 0x1_0000) % 0x400 + 0xDC00)
  }

  lemma PairIsUtf16(ch: Scalar)
    ensures var p := Pair32(ch); Utf16Of(ch) == if p.1 == 0 then [p.0] else [p.0, p.1]
  {}

  function Values(cs: seq<Scalar>): (vs: seq<nat>)
    ensures |vs| == |cs|
  {
    seq(|cs|, i requires 0 <= i < |cs| => cs[i])
  }

  lemma {:induction false} To32OfCharacters(cs: seq<Scalar>, room: nat, strict: bool)
    requires room >= |cs|
    ensures To32(Utf16All(cs), room, strict) == Conv(Ok, |Utf16All(cs)|, Values(cs))
    decreases |cs|
  {
    hide Utf16Of, Next16;
    if cs != [] {
      var u, rest := Utf16Of(cs[0]), Utf16All(cs[1..]);
      Next16OfScalar(cs[0], rest, strict);
      assert (u + rest)[|u|..] == rest;
      To32OfCharacters(cs[1..], room - 1, strict);
      assert Values(cs) == [cs[0] as nat] + Values(cs[1..]);
    }
  }

  lemma {:induction false} From32OfCharacters(cs: seq<Scalar>, room: nat, strict: bool)
    requires room >= |Utf16All(cs)|
    ensures From32(Values(cs), room, strict) == Conv(Ok, |cs|, Utf16All(cs))
    decreases |cs|
  {
    hide Utf16Of, Units16;
    if cs != [] {
      Units16OfScalar(cs[0], strict);
      assert Values(cs)[1..] == Values(cs[1..]);
      From32OfCharacters(cs[1..], room - |Utf16Of(cs[0])|, strict);
    }
  }

  /** UTF-16 to UTF-32 and back. */
  lemma Utf32RoundTrip(cs: seq<Scalar>, room32: nat, room16: nat, strict: bool)
    requires room32 >= |cs| && room16 >= |Utf16All(cs)|
    ensures var there := To32(Utf16All(cs), room32, strict);
            there.result == Ok && there.used == |Utf16All(cs)| && From32(there.out, room16, strict) == Conv(Ok, |cs|, Utf16All(cs))
  {
    To32OfCharacters(cs, room32, strict);
    From32OfCharacters(cs, room16, strict);
  }

  predicate NoSurrogates(vs: seq<nat>) { forall i :: 0 <= i < |vs| ==> !(0xD800 <= vs[i] < 0xE000) }

  predicate AllCharacters(vs: seq<nat>) { forall i :: 0 <= i < |vs| ==> vs[i] < 0x11_0000 }

  /** The characters among the values. */
  function Legal32(vs: seq<nat>): seq<Scalar>
    requires NoSurrogates(vs)
  {
    if vs == [] then []
    else
      assert NoSurrogates(vs[1..]);
      var v := vs[0];
      if v < 0x11_0000 then
        var ch: Scalar := v;
        [ch] + Legal32(vs[1..])
      else Legal32(vs[1..])
  }

  lemma Units16OfValue(v: nat)
    requires !(0xD800 <= v < 0xE000)
    ensures Units16(v, true) == if v < 0x11_0000 then Units(Utf16Of(v as Scalar)) else NoUnits
  {}

  /** Without surrogates, strict conversion goes through to the end: values beyond U+10FFFF are left out, and noted. */
  lemma {:induction false} TooLargeIsLeftOut(vs: seq<nat>, room: nat)
    requires room >= 2 * |vs| && NoSurrogates(vs)
    ensures var c := From32(vs, room, true);
            && c.used == |vs| && c.out == Utf16All(Legal32(vs)) && c.result == if AllCharacters(vs) then Ok else SourceIllegal
    decreases |vs|
  {
    hide *;
    From32Step(vs, room, true);
    LegalFirst(vs);
    if vs != [] {
      var v, rest := vs[0], vs[1..];
      Units16OfValue(v);
      var u := Units16(v, true);
      var n := if u.Units? then |u.units| else 0;
      TooLargeIsLeftOut(rest, room - n);
      var c := From32(rest, room - n, true);
      GlueOut(Conv(Ok, 1, if u.Units? then u.units else []), c);
      GlueParts(Conv(Ok, 1, if u.Units? then u.units else []), c);
      NotedIs(Glue(Conv(Ok, 1, []), c));
    }
  }

  lemma NotedIs<T>(c: Conv<T>)
    ensures Noted(SourceIllegal, c) == if c.result == Ok then c.(result := SourceIllegal) else c
  {}

  lemma LegalFirst(vs: seq<nat>)
    requires NoSurrogates(vs)
    ensures vs == [] ==> Utf16All(Legal32(vs)) == [] && AllCharacters(vs)
    ensures vs != [] ==>
              && !(0xD800 <= vs[0] < 0xE000) && NoSurrogates(vs[1..])
              && (AllCharacters(vs) <==> vs[0] < 0x11_0000 && AllCharacters(vs[1..]))
              && Utf16All(Legal32(vs)) == (if vs[0] < 0x11_0000 then Utf16Of(vs[0] as Scalar) else []) + Utf16All(Legal32(vs[1..]))
  {
    hide Utf16Of;
    if vs != [] {
      assert forall i :: 0 < i < |vs| ==> vs[i] == vs[1..][i - 1];
      if vs[0] < 0x11_0000 {
        assert Legal32(vs)[1..] == Legal32(vs[1..]);
      }
    }
  }

  // ------------------------------------------------------------------ the converters as loops

  /** A converter that stops adds nothing to what was done. */
  lemma StopHere<T>(all: Conv<T>, used: nat, out: seq<T>, why: Result)
    requires all == Glue(Conv(Ok, used, out), Conv(why, 0, []))
    ensures all == Conv(why, used, out)
  {
    assert out + [] == out;
  }

  /** One more character is done. */
  lemma StepOn<T>(all: Conv<T>, used: nat, out: seq<T>, len: nat, b: seq<T>, rest: Conv<T>)
    requires all == Glue(Conv(Ok, used, out), Glue(Conv(Ok, len, b), rest))
    ensures all == Glue(Conv(Ok, used + len, out + b), rest)
  {
    GlueAssociates(Conv(Ok, used, out), Conv(Ok, len, b), rest);
  }

  /** `out` was written over `before` at `at`, and nothing else was. */
  predicate Placed<T(==)>(before: seq<T>, now: seq<T>, at: nat, out: seq<T>) {
    at + |out| <= |before| && now == before[..at] + out + before[at + |out|..]
  }

  lemma IsPlaced<T>(before: seq<T>, now: seq<T>, at: nat, out: seq<T>)
    requires at + |out| <= |before| && now == before[..at] + out + before[at + |out|..]
    ensures Placed(before, now, at, out)
  {}

  lemma PlacedNothing<T>(before: seq<T>, at: nat)
    requires at <= |before|
    ensures Placed(before, before, at, [])
  {
    assert before == before[..at] + [] + before[at..];
  }

  lemma PlacedMore<T>(before: seq<T>, mid: seq<T>, after: seq<T>, at: nat, out: seq<T>, b: seq<T>)
    requires Placed(before, mid, at, out) && Placed(mid, after, at + |out|, b)
    ensures Placed(before, after, at, out + b)
  {}

  /** The bytes, by their number: six bits are shifted out for each but the first. */
  lemma Bytes8Cases(ch: nat)
    requires ch < 0x11_0000
    ensures var n, h, g, f := BytesToWrite(ch), ch / 0x40, ch / 0x40 / 0x40, ch / 0x40 / 0x40 / 0x40;
            && |Bytes8(ch)| == n && FirstByteMark(n) + (if n == 1 then ch else if n == 2 then h else if n == 3 then g else f) < 0x100
            && Bytes8(ch) == if n == 1 then [ch + FirstByteMark(n)]
                             else if n == 2 then [h + FirstByteMark(n), 0x80 + ch % 0x40]
                             else if n == 3 then [g + FirstByteMark(n), 0x80 + h % 0x40, 0x80 + ch % 0x40]
                             else [f + FirstByteMark(n), 0x80 + g % 0x40, 0x80 + h % 0x40, 0x80 + ch % 0x40]
  {
    var n, h, g := BytesToWrite(ch), ch / 0x40, ch / 0x40 / 0x40;
    assert g == ch / 0x1000 && g / 0x40 == ch / 0x4_0000;
    if n >= 3 {
      assert Filled8(ch, n, n) == Filled8(h, n, n - 1) + [0x80 + ch % 0x40];
      assert Filled8(h, n, n - 1) == Filled8(g, n, n - 2) + [0x80 + h % 0x40];
    }
  }

  /** The switch that falls through, filling the bytes of one character from the back. */
  method PutCharacter(target: array<Byte>, at: nat, ch0: nat, bytesToWrite: nat)
    requires ch0 < 0x11_0000 && bytesToWrite == BytesToWrite(ch0) && at + bytesToWrite <= target.Length
    modifies target
    ensures target[..] == old(target[..])[..at] + Bytes8(ch0) + old(target[..])[at + bytesToWrite..]
  {
    hide Bytes8, BytesToWrite;
    Bytes8Cases(ch0);
    var ch: nat := ch0;
    if bytesToWrite >= 4 {
      target[at + 3] := 0x80 + ch % 0x40;
      ch := ch / 0x40;
    }
    if bytesToWrite >= 3 {
      target[at + 2] := 0x80 + ch % 0x40;
      ch := ch / 0x40;
    }
    if bytesToWrite >= 2 {
      target[at + 1] := 0x80 + ch % 0x40;
      ch := ch / 0x40;
    }
    target[at] := ch + FirstByteMark(bytesToWrite);
  }

  lemma BytesLength(ch: nat)
    requires ch < 0x11_0000
    ensures |Bytes8(ch)| == BytesToWrite(ch)
  {}

  /** Reading one character, with its low surrogate if there is one. */
  method ReadUnit(source: seq<Unit>, src: nat, strict: bool) returns (n: Next)
    requires src < |source|
    ensures n == Next16(source[src..], strict)
  {
    var ch: nat := source[src];
    assert source[src..][0] == source[src] && (src + 1 < |source| ==> source[src..][1] == source[src + 1]);
    if High(ch) {
      if src + 1 >= |source| {
        return Stop(SourceExhausted);
      }
      var ch2: nat := source[src + 1];
      if Low(ch2) {
        return Char((ch - 0xD800) * 0x400 + (ch2 - 0xDC00) + 0x1_0000, 2);
      }
      if strict {
        return Stop(SourceIllegal);
      }
    } else if strict && Low(ch) {
      return Stop(SourceIllegal);
    }
    return Char(ch, 1);
  }

  /** One turn of ConvertUTF16toUTF8's loop; the source pointer is backed up by not being moved. */
  method Turn8(source: seq<Unit>, src: nat, target: array<Byte>, dst: nat, strict: bool)
    returns (why: Result, len: nat, ghost b: seq<Byte>, written: nat)
    requires src < |source| && dst <= target.Length
    modifies target
    ensures written == |b| && src + len <= |source| && dst + written <= target.Length
    ensures if why == Ok then Placed(old(target[..]), target[..], dst, b) else target[..] == old(target[..])
    ensures var rest, room := source[src..], target.Length - dst;
            if why != Ok then len == 0 && b == [] && To8(rest, room, strict) == Conv(why, 0, [])
            else len > 0 && To8(rest, room, strict) == Glue(Conv(Ok, len, b), To8(source[src + len..], room - |b|, strict))
  {
    hide *;
    ghost var rest := source[src..];
    len, b, written := 0, [], 0;
    var n := ReadUnit(source, src, strict);
    if n.Stop? {
      To8Stops(rest, target.Length - dst, strict);
      why := n.why;
      return;
    }
    To8Step(rest, target.Length - dst, strict);
    BytesLength(n.ch);
    var bytesToWrite := BytesToWrite(n.ch);
    if dst + bytesToWrite > target.Length {
      why := TargetExhausted;
      return;
    }
    ghost var was := target[..];
    PutCharacter(target, dst, n.ch, bytesToWrite);
    IsPlaced(was, target[..], dst, Bytes8(n.ch));
    assert rest[n.len..] == source[src + n.len..];
    why, len, b, written := Ok, n.len, Bytes8(n.ch), bytesToWrite;
  }

  /** The loop of ConvertUTF16toUTF8; `out` is what it wrote. */
  method Loop8(source: seq<Unit>, sourceStart: nat, target: array<Byte>, targetStart: nat, strict: bool)
    returns (result: Result, src: nat, dst: nat, ghost out: seq<Byte>)
    requires sourceStart <= |source| && targetStart <= target.Length
    modifies target
    ensures sourceStart <= src && dst == targetStart + |out| && Placed(old(target[..]), target[..], targetStart, out)
    ensures To8(source[sourceStart..], target.Length - targetStart, strict) == Conv(result, src - sourceStart, out)
  {
    hide *;
    src, dst, result, out := sourceStart, targetStart, Ok, [];
    ghost var all, before := To8(source[sourceStart..], target.Length - targetStart, strict), target[..];
    GlueNothing(Ok, all);
    PlacedNothing(before, targetStart);
    while src < |source|
      invariant sourceStart <= src <= |source| && dst == targetStart + |out| <= target.Length && result == Ok
      invariant all == Glue(Conv(Ok, src - sourceStart, out), To8(source[src..], target.Length - dst, strict))
      invariant Placed(before, target[..], targetStart, out)
    {
      ghost var mid := target[..];
      ghost var b;
      var len, written;
      result, len, b, written := Turn8(source, src, target, dst, strict);
      if result != Ok {
        StopHere(all, src - sourceStart, out, result);
        return;
      }
      PlacedMore(before, mid, target[..], targetStart, out, b);
      StepOn(all, src - sourceStart, out, len, b, To8(source[src + len..], target.Length - dst - |b|, strict));
      out := out + b;
      src := src + len;
      dst := dst + written;
    }
    To8Stops(source[src..], target.Length - dst, strict);
    StopHere(all, src - sourceStart, out, Ok);
  }

  /** ConvertUTF16toUTF8; the two pointers are returned as indices. */
  method ConvertUtf16ToUtf8(source: seq<Unit>, sourceStart: nat, target: array<Byte>, targetStart: nat, strict: bool)
    returns (result: Result, src: nat, dst: nat)
    requires sourceStart <= |source| && targetStart <= target.Length
    modifies target
    ensures var c := To8(source[sourceStart..], target.Length - targetStart, strict);
            && result == c.result && src == sourceStart + c.used && dst == targetStart + |c.out|
            && target[..] == old(target[..targetStart]) + c.out + old(target[dst..])
  {
    hide To8;
    ghost var out;
    result, src, dst, out := Loop8(source, sourceStart, target, targetStart, strict);
  }

  /** The sum of the switch in ConvertUTF8toUTF16, then the offset. */
  method SumBytes(source: seq<Byte>, src: nat, extra: nat) returns (ch: nat)
    requires extra <= 5 && src + extra < |source|
    ensures ch == Decode8(source[src..src + extra + 1])
  {
    hide Fold32;
    var sum: int, i := 0, 0;
    FoldNothing();
    assert source[src..src] == [];
    while i <= extra
      invariant 0 <= i <= extra + 1 && sum == Fold32(source[src..src + i])
    {
      FoldStep(source[src..src + i], source[src + i]);
      assert source[src..src + i] + [source[src + i]] == source[src..src + i + 1];
      sum := (sum * 0x40 + source[src + i]) % 0x1_0000_0000;
      i := i + 1;
    }
    ch := (sum - Offset(extra)) % 0x1_0000_0000;
  }

  /** One turn of ConvertUTF8toUTF16's loop. */
  method Turn16(source: seq<Byte>, src: nat, target: array<Unit>, dst: nat, strict: bool)
    returns (why: Result, len: nat, ghost b: seq<Unit>, written: nat)
    requires src < |source| && dst <= target.Length
    modifies target
    ensures written == |b| && src + len <= |source| && dst + written <= target.Length
    ensures if why == Ok then Placed(old(target[..]), target[..], dst, b) else target[..] == old(target[..])
    ensures var rest, room := source[src..], target.Length - dst;
            if why != Ok then len == 0 && b == [] && To16(rest, room, strict) == Conv(why, 0, [])
            else len > 0 && To16(rest, room, strict) == Glue(Conv(Ok, len, b), To16(source[src + len..], room - |b|, strict))
  {
    hide *;
    ghost var rest := source[src..];
    len, b, written := 0, [], 0;
    var n := ReadSequence(source, src);
    if n.Stop? {
      To16Stops(rest, target.Length - dst, strict);
      why := n.why;
      return;
    }
    To16Step(rest, target.Length - dst, strict);
    if dst >= target.Length {
      why := TargetExhausted;
      return;
    }
    var u := Units16(n.ch, strict);
    if u.NoUnits? {
      why := SourceIllegal;
      return;
    }
    if dst + |u.units| > target.Length {
      why := TargetExhausted;
      return;
    }
    ghost var was := target[..];
    PutUnits(target, dst, u.units);
    IsPlaced(was, target[..], dst, u.units);
    assert rest[n.len..] == source[src + n.len..];
    why, len, b, written := Ok, n.len, u.units, |u.units|;
  }

  /** The loop of ConvertUTF8toUTF16; `out` is what it wrote. */
  method Loop16(source: seq<Byte>, sourceStart: nat, target: array<Unit>, targetStart: nat, strict: bool)
    returns (result: Result, src: nat, dst: nat, ghost out: seq<Unit>)
    requires sourceStart <= |source| && targetStart <= target.Length
    modifies target
    ensures sourceStart <= src && dst == targetStart + |out| && Placed(old(target[..]), target[..], targetStart, out)
    ensures To16(source[sourceStart..], target.Length - targetStart, strict) == Conv(result, src - sourceStart, out)
  {
    hide *;
    src, dst, result, out := sourceStart, targetStart, Ok, [];
    ghost var all, before := To16(source[sourceStart..], target.Length - targetStart, strict), target[..];
    GlueNothing(Ok, all);
    PlacedNothing(before, targetStart);
    while src < |source|
      invariant sourceStart <= src <= |source| && dst == targetStart + |out| <= target.Length && result == Ok
      invariant all == Glue(Conv(Ok, src - sourceStart, out), To16(source[src..], target.Length - dst, strict))
      invariant Placed(before, target[..], targetStart, out)
    {
      ghost var mid := target[..];
      ghost var b;
      var len, written;
      result, len, b, written := Turn16(source, src, target, dst, strict);
      if result != Ok {
        StopHere(all, src - sourceStart, out, result);
        return;
      }
      PlacedMore(before, mid, target[..], targetStart, out, b);
      StepOn(all, src - sourceStart, out, len, b, To16(source[src + len..], target.Length - dst - |b|, strict));
      out := out + b;
      src := src + len;
      dst := dst + written;
    }
    To16Stops(source[src..], target.Length - dst, strict);
    StopHere(all, src - sourceStart, out, Ok);
  }

  /** ConvertUTF8toUTF16; the two pointers are returned as indices. */
  method ConvertUtf8ToUtf16(source: seq<Byte>, sourceStart: nat, target: array<Unit>, targetStart: nat, strict: bool)
    returns (result: Result, src: nat, dst: nat)
    requires sourceStart <= |source| && targetStart <= target.Length
    modifies target
    ensures var c := To16(source[sourceStart..], target.Length - targetStart, strict);
            && result == c.result && src == sourceStart + c.used && dst == targetStart + |c.out|
            && target[..] == old(target[..targetStart]) + c.out + old(target[dst..])
  {
    hide To16;
    ghost var out;
    result, src, dst, out := Loop16(source, sourceStart, target, targetStart, strict);
  }

  method PutUnits(target: array<Unit>, at: nat, units: seq<Unit>)
    requires 1 <= |units| <= 2 && at + |units| <= target.Length
    modifies target
    ensures target[..] == old(target[..])[..at] + units + old(target[..])[at + |units|..]
  {
    target[at] := units[0];
    if |units| == 2 {
      target[at + 1] := units[1];
    }
  }

  /** The checks at the head of ConvertUTF8toUTF16's loop, and the sum. */
  method ReadSequence(source: seq<Byte>, src: nat) returns (n: Next)
    requires src < |source|
    ensures n == Next8(source[src..])
  {
    hide Legal, Decode8;
    var extra := Trailing(source[src]);
    ghost var rest := source[src..];
    assert rest[0] == source[src];
    if src + extra >= |source| {
      return Stop(SourceExhausted);
    }
    assert rest[..extra + 1] == source[src..src + extra + 1];
    if !Legal(source[src..src + extra + 1]) {
      return Stop(SourceIllegal);
    }
    var ch := SumBytes(source, src, extra);
    return Char(ch, extra + 1);
  }

  /** isLegalUTF8String. */
  method IsLegalString(s: seq<Byte>) returns (ok: bool)
    ensures ok == LegalString(s)
  {
    hide Legal;
    var at := 0;
    assert s[0..] == s;
    while at < |s|
      invariant 0 <= at <= |s| && LegalString(s) == LegalString(s[at..])
    {
      var n := Trailing(s[at]) + 1;
      assert s[at..][0] == s[at];
      if n >= 5 || at + n > |s| {
        return false;
      }
      assert s[at..][..n] == s[at..at + n] && s[at..][n..] == s[at + n..];
      if !Legal(s[at..at + n]) {
        return false;
      }
      at := at + n;
    }
    return true;
  }

  // ------------------------------------------------------------------ the UTF-32 converters and the iteration as loops

  lemma PlacedIs<T>(before: seq<T>, now: seq<T>, at: nat, out: seq<T>)
    requires Placed(before, now, at, out)
    ensures at + |out| <= |before| && now == before[..at] + out + before[at + |out|..]
  {}

  method PutValue(target: array<nat>, dst: nat, ch: nat, ghost before: seq<nat>, ghost at: nat, ghost out: seq<nat>)
    requires dst < target.Length && dst == at + |out| && Placed(before, target[..], at, out)
    modifies target
    ensures Placed(before, target[..], at, out + [ch])
  {
    ghost var mid := target[..];
    target[dst] := ch;
    IsPlaced(mid, target[..], dst, [ch]);
    PlacedMore(before, mid, target[..], at, out, [ch]);
  }

  method PutUnitsBehind(target: array<Unit>, dst: nat, units: seq<Unit>, ghost before: seq<Unit>, ghost at: nat, ghost out: seq<Unit>)
    requires 1 <= |units| <= 2 && dst + |units| <= target.Length && dst == at + |out| && Placed(before, target[..], at, out)
    modifies target
    ensures Placed(before, target[..], at, out + units)
  {
    ghost var mid := target[..];
    PutUnits(target, dst, units);
    IsPlaced(mid, target[..], dst, units);
    PlacedMore(before, mid, target[..], at, out, units);
  }

  lemma To32Step(s: seq<Unit>, room: nat, strict: bool)
    ensures To32(s, room, strict) ==
            if s == [] then Conv(Ok, 0, [])
            else if Next16(s, strict).Stop? then Conv(Next16(s, strict).why, 0, [])
            else if room == 0 then Conv(TargetExhausted, 0, [])
            else Glue(Conv(Ok, Next16(s, strict).len, [Next16(s, strict).ch]), To32(s[Next16(s, strict).len..], room - 1, strict))
  {
    hide Next16;
  }

  /** ConvertUTF16toUTF32. */
  method ConvertUtf16ToUtf32(source: seq<Unit>, sourceStart: nat, target: array<nat>, targetStart: nat, strict: bool)
    returns (result: Result, src: nat, dst: nat)
    requires sourceStart <= |source| && targetStart <= target.Length
    modifies target
    ensures var c := To32(source[sourceStart..], target.Length - targetStart, strict);
            && result == c.result && src == sourceStart + c.used && dst == targetStart + |c.out|
            && dst <= target.Length && target[..] == old(target[..])[..targetStart] + c.out + old(target[..])[dst..]
  {
    hide *;
    src, dst, result := sourceStart, targetStart, Ok;
    ghost var out: seq<nat> := [];
    ghost var all, before := To32(source[sourceStart..], target.Length - targetStart, strict), target[..];
    GlueNothing(Ok, all);
    PlacedNothing(before, targetStart);
    while src < |source|
      invariant sourceStart <= src <= |source| && dst == targetStart + |out| <= target.Length && result == Ok
      invariant all == Glue(Conv(Ok, src - sourceStart, out), To32(source[src..], target.Length - dst, strict))
      invariant Placed(before, target[..], targetStart, out)
    {
      ghost var rest := source[src..];
      To32Step(rest, target.Length - dst, strict);
      PlacedIs(before, target[..], targetStart, out);
      var n := ReadUnit(source, src, strict);
      if n.Stop? || dst >= target.Length {
        result := if n.Stop? then n.why else TargetExhausted;
        StopHere(all, src - sourceStart, out, result);
        return;
      }
      PutValue(target, dst, n.ch, before, targetStart, out);
      assert rest[n.len..] == source[src + n.len..];
      StepOn(all, src - sourceStart, out, n.len, [n.ch], To32(source[src + n.len..], target.Length - dst - 1, strict));
      out := out + [n.ch];
      src := src + n.len;
      dst := dst + 1;
    }
    To32Step(source[src..], target.Length - dst, strict);
    StopHere(all, src - sourceStart, out, Ok);
    PlacedIs(before, target[..], targetStart, out);
  }

  lemma From32Step(s: seq<nat>, room: nat, strict: bool)
    ensures From32(s, room, strict) ==
            if s == [] then Conv(Ok, 0, [])
            else if room == 0 then Conv(TargetExhausted, 0, [])
            else if Units16(s[0], strict).NoUnits? then
              if s[0] <= 0xFFFF then Conv(SourceIllegal, 0, [])
              else Noted(SourceIllegal, Glue(Conv(Ok, 1, []), From32(s[1..], room, strict)))
            else if |Units16(s[0], strict).units| > room then Conv(TargetExhausted, 0, [])
            else Glue(Conv(Ok, 1, Units16(s[0], strict).units), From32(s[1..], room - |Units16(s[0], strict).units|, strict))
  {
    hide Units16;
  }

  /** Where the converter stands: `result` is noted, and `rest` is still to come. */
  predicate Stands(all: Conv<Unit>, result: Result, used: nat, out: seq<Unit>, rest: Conv<Unit>) {
    (result == Ok || result == SourceIllegal) && all == Noted(result, Glue(Conv(Ok, used, out), rest))
  }

  lemma StandsAtStart(all: Conv<Unit>)
    ensures Stands(all, Ok, 0, [], all)
  {
    GlueNothing(Ok, all);
  }

  lemma StandsAtEnd(all: Conv<Unit>, result: Result, used: nat, out: seq<Unit>, why: Result)
    requires Stands(all, result, used, out, Conv(why, 0, []))
    ensures all == Conv(if why == Ok then result else why, used, out)
  {
    assert out + [] == out;
  }

  lemma StandsOn(all: Conv<Unit>, result: Result, used: nat, out: seq<Unit>, b: seq<Unit>, rest: Conv<Unit>)
    ensures Stands(all, result, used, out, Glue(Conv(Ok, 1, b), rest)) ==> Stands(all, result, used + 1, out + b, rest)
    ensures Stands(all, result, used, out, Noted(SourceIllegal, Glue(Conv(Ok, 1, b), rest)))
            ==> Stands(all, SourceIllegal, used + 1, out + b, rest)
  {
    GlueAssociates(Conv(Ok, used, out), Conv(Ok, 1, b), rest);
  }

  /** ConvertUTF32toUTF16 on buffers. */
  method ConvertUtf32ToUtf16(source: seq<nat>, sourceStart: nat, target: array<Unit>, targetStart: nat, strict: bool)
    returns (result: Result, src: nat, dst: nat)
    requires sourceStart <= |source| && targetStart <= target.Length
    modifies target
    ensures var c := From32(source[sourceStart..], target.Length - targetStart, strict);
            && result == c.result && src == sourceStart + c.used && dst == targetStart + |c.out|
            && dst <= target.Length && target[..] == old(target[..])[..targetStart] + c.out + old(target[..])[dst..]
  {
    hide *;
    src, dst, result := sourceStart, targetStart, Ok;
    ghost var out: seq<Unit> := [];
    ghost var all, before := From32(source[sourceStart..], target.Length - targetStart, strict), target[..];
    StandsAtStart(all);
    PlacedNothing(before, targetStart);
    while src < |source|
      invariant sourceStart <= src <= |source| && dst == targetStart + |out| <= target.Length
      invariant Stands(all, result, src - sourceStart, out, From32(source[src..], target.Length - dst, strict))
      invariant Placed(before, target[..], targetStart, out)
    {
      ghost var rest := source[src..];
      From32Step(rest, target.Length - dst, strict);
      assert rest[0] == source[src] && rest[1..] == source[src + 1..];
      PlacedIs(before, target[..], targetStart, out);
      var u := Units16(source[src], strict);
      if dst >= target.Length || (u.Units? && |u.units| > target.Length - dst) {
        StandsAtEnd(all, result, src - sourceStart, out, TargetExhausted);
        result := TargetExhausted;
        return;
      }
      if u.NoUnits? {
        if source[src] <= 0xFFFF {
          StandsAtEnd(all, result, src - sourceStart, out, SourceIllegal);
          result := SourceIllegal;
          return;
        }
        StandsOn(all, result, src - sourceStart, out, [], From32(source[src + 1..], target.Length - dst, strict));
        assert out + [] == out;
        result := SourceIllegal;
      } else {
        PutUnitsBehind(target, dst, u.units, before, targetStart, out);
        StandsOn(all, result, src - sourceStart, out, u.units, From32(source[src + 1..], target.Length - dst - |u.units|, strict));
        out := out + u.units;
        dst := dst + |u.units|;
      }
      src := src + 1;
    }
    From32Step(source[src..], target.Length - dst, strict);
    StandsAtEnd(all, result, src - sourceStart, out, Ok);
    PlacedIs(before, target[..], targetStart, out);
  }

  lemma IteratedStep(s: seq<Byte>)
    ensures Iterated(s) ==
            if s == [] || Trailing(s[0]) >= |s| then [] else [Decode8(s[..Trailing(s[0]) + 1])] + Iterated(s[Trailing(s[0]) + 1..])
  {
    hide Decode8, Trailing;
  }

  /** The loop of IterateUTF8Chars, up to a sequence cut short by the end; the callback's arguments, in order. */
  method IterateChars(s: seq<Byte>) returns (calls: seq<nat>)
    ensures calls == Iterated(s)
  {
    hide *;
    calls := [];
    var at := 0;
    assert s[0..] == s;
    while at < |s| && at + Trailing(s[at]) < |s|
      invariant 0 <= at <= |s| && Iterated(s) == calls + Iterated(s[at..])
    {
      var extra := Trailing(s[at]);
      var ch := SumBytes(s, at, extra);
      ghost var rest := s[at..];
      assert rest[0] == s[at] && rest[..extra + 1] == s[at..at + extra + 1] && rest[extra + 1..] == s[at + extra + 1..];
      IteratedStep(rest);
      assert calls + ([ch] + Iterated(rest[extra + 1..])) == calls + [ch] + Iterated(rest[extra + 1..]);
      calls := calls + [ch];
      at := at + extra + 1;
    }
    ghost var rest := s[at..];
    assert at < |s| ==> rest[0] == s[at];
    IteratedStep(rest);
  }
}
