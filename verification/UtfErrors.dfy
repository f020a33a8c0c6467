/**
  What the converters of tsMuxer/convertUTF.cpp make of sources that are not well-formed: how far they get,
  what they report, and what stands for a surrogate without its partner.
  */
module UtfErrors {
  import opened Bits
  import opened Utf

  // ------------------------------------------------------------------ up to the first fault

  lemma {:induction false} To8Prefix(cs: seq<Scalar>, t: seq<Unit>, room: nat, strict: bool)
    requires room >= |Utf8All(cs)|
    ensures To8(Utf16All(cs) + t, room, strict) == Glue(Conv(Ok, |Utf16All(cs)|, Utf8All(cs)), To8(t, room - |Utf8All(cs)|, strict))
  {
    hide *;
    NoCharacters(room, strict);
    if cs == [] {
      assert Utf16All(cs) + t == t;
      GlueNothing(Ok, To8(t, room, strict));
    } else {
      var u, b, rest := Utf16Of(cs[0]), Utf8Of(cs[0]), Utf16All(cs[1..]) + t;
      var s := Utf16All(cs) + t;
      FirstCharacter(cs);
      assert s == u + rest && s[|u|..] == rest;
      Next16OfScalar(cs[0], rest, strict);
      Bytes8IsUtf8(cs[0]);
      To8Step(s, room, strict);
      To8Prefix(cs[1..], t, room - |b|, strict);
      GlueAssociates(Conv(Ok, |u|, b), Conv(Ok, |Utf16All(cs[1..])|, Utf8All(cs[1..])), To8(t, room - |Utf8All(cs)|, strict));
      GlueOks(u, b, Utf16All(cs[1..]), Utf8All(cs[1..]));
    }
  }

  lemma GlueOks<S, T>(u: seq<S>, b: seq<T>, us: seq<S>, bs: seq<T>)
    ensures Glue(Conv(Ok, |u|, b), Conv(Ok, |us|, bs)) == Conv(Ok, |u + us|, b + bs)
  {}

  lemma {:induction false} To16Prefix(cs: seq<Scalar>, t: seq<Byte>, room: nat, strict: bool)
    requires room >= |Utf16All(cs)|
    ensures To16(Utf8All(cs) + t, room, strict) == Glue(Conv(Ok, |Utf8All(cs)|, Utf16All(cs)), To16(t, room - |Utf16All(cs)|, strict))
  {
    hide *;
    NoCharacters(room, strict);
    if cs == [] {
      assert Utf8All(cs) + t == t;
      GlueNothing(Ok, To16(t, room, strict));
    } else {
      var u, b, rest := Utf8Of(cs[0]), Utf16Of(cs[0]), Utf8All(cs[1..]) + t;
      var s := Utf8All(cs) + t;
      FirstCharacter(cs);
      assert s == u + rest && s[|u|..] == rest;
      Next8OfScalar(cs[0], rest);
      Units16OfScalar(cs[0], strict);
      To16Step(s, room, strict);
      To16Prefix(cs[1..], t, room - |b|, strict);
      GlueAssociates(Conv(Ok, |u|, b), Conv(Ok, |Utf8All(cs[1..])|, Utf16All(cs[1..])), To16(t, room - |Utf16All(cs)|, strict));
      GlueOks(u, b, Utf8All(cs[1..]), Utf16All(cs[1..]));
    }
  }

  lemma {:induction false} To32Prefix(cs: seq<Scalar>, t: seq<Unit>, room: nat, strict: bool)
    requires room >= |cs|
    ensures To32(Utf16All(cs) + t, room, strict) == Glue(Conv(Ok, |Utf16All(cs)|, Values(cs)), To32(t, room - |cs|, strict))
    decreases |cs|
  {
    hide *;
    NoCharacters(room, strict);
    FirstValue(cs);
    if cs == [] {
      assert Utf16All(cs) + t == t;
      GlueNothing(Ok, To32(t, room, strict));
    } else {
      var u, rest := Utf16Of(cs[0]), Utf16All(cs[1..]) + t;
      var s := Utf16All(cs) + t;
      FirstCharacter(cs);
      assert s == u + rest && s[|u|..] == rest;
      Next16OfScalar(cs[0], rest, strict);
      To32Step(s, room, strict);
      To32Prefix(cs[1..], t, room - 1, strict);
      GlueAssociates(Conv(Ok, |u|, [cs[0] as nat]), Conv(Ok, |Utf16All(cs[1..])|, Values(cs[1..])), To32(t, room - |cs|, strict));
      GlueOks(u, [cs[0] as nat], Utf16All(cs[1..]), Values(cs[1..]));
    }
  }

  lemma FirstValue(cs: seq<Scalar>)
    ensures if cs == [] then Values(cs) == [] else Values(cs) == [cs[0] as nat] + Values(cs[1..])
  {}

  lemma {:induction false} From32Prefix(cs: seq<Scalar>, t: seq<nat>, room: nat, strict: bool)
    requires room > |Utf16All(cs)|
    ensures From32(Values(cs) + t, room, strict) == Glue(Conv(Ok, |cs|, Utf16All(cs)), From32(t, room - |Utf16All(cs)|, strict))
    decreases |cs|
  {
    hide *;
    NoCharacters(room, strict);
    FirstValue(cs);
    if cs == [] {
      assert Values(cs) + t == t;
      GlueNothing(Ok, From32(t, room, strict));
    } else {
      var u, b := [cs[0] as nat], Utf16Of(cs[0]);
      var s := Values(cs) + t;
      FirstCharacter(cs);
      assert s[1..] == Values(cs[1..]) + t && s[0] == cs[0];
      Units16OfScalar(cs[0], strict);
      From32Step(s, room, strict);
      From32Prefix(cs[1..], t, room - |b|, strict);
      GlueAssociates(Conv(Ok, 1, b), Conv(Ok, |cs| - 1, Utf16All(cs[1..])), From32(t, room - |Utf16All(cs)|, strict));
      GlueOks(u, b, cs[1..], Utf16All(cs[1..]));
    }
  }

  // ------------------------------------------------------------------ surrogates without their partners

  /** A surrogate that is not the first half of a pair that `rest` goes on with. */
  predicate Unpaired(u: Unit, rest: seq<Unit>) {
    0xDC00 <= u <= 0xDFFF || (0xD800 <= u <= 0xDBFF && (rest == [] || !(0xDC00 <= rest[0] <= 0xDFFF)))
  }

  lemma UnpairedNext(u: Unit, rest: seq<Unit>, strict: bool)
    requires Unpaired(u, rest)
    ensures Next16([u] + rest, strict) == if u <= 0xDBFF && rest == [] then Stop(SourceExhausted)
                                          else if strict then Stop(SourceIllegal) else Char(u, 1)
  {}

  lemma SurrogateBytes(u: Unit)
    requires 0xD800 <= u <= 0xDFFF
    ensures Bytes8(u) == [0xED, 0x80 + u / 0x40 % 0x40, 0x80 + u % 0x40]
  {
    assert Filled8(u / 0x40, 3, 2) == [0xE0 + u / 0x40 / 0x40, 0x80 + u / 0x40 % 0x40];
  }

  /**
    UTF-16 to UTF-8 at the first surrogate without a partner: a high one at the very end is waited for; any other ends
    strict conversion in front of it, and gets three bytes of its own from lenient conversion, which goes on.
    */
  lemma LoneSurrogateTo8(cs: seq<Scalar>, u: Unit, rest: seq<Unit>, room: nat, strict: bool)
    requires Unpaired(u, rest) && room >= |Utf8All(cs)| + 3
    ensures var c, n, out := To8(Utf16All(cs) + ([u] + rest), room, strict), |Utf16All(cs)|, Utf8All(cs);
            if u <= 0xDBFF && rest == [] then c == Conv(SourceExhausted, n, out)
            else if strict then c == Conv(SourceIllegal, n, out)
            else
              var d := To8(rest, room - |out| - 3, false);
              c == Conv(d.result, n + 1 + d.used, out + ([0xED, 0x80 + u / 0x40 % 0x40, 0x80 + u % 0x40] + d.out))
  {
    hide Utf16All, Utf8All, Next16, Bytes8, To8;
    var t := [u] + rest;
    To8Prefix(cs, t, room, strict);
    UnpairedNext(u, rest, strict);
    if Next16(t, strict).Stop? {
      To8Stops(t, room - |Utf8All(cs)|, strict);
      assert Utf8All(cs) + [] == Utf8All(cs);
    } else {
      assert t[1..] == rest;
      To8Step(t, room - |Utf8All(cs)|, strict);
      SurrogateBytes(u);
    }
  }

  /** UTF-16 to UTF-32 the same, except that lenient conversion hands the surrogate through. */
  lemma LoneSurrogateTo32(cs: seq<Scalar>, u: Unit, rest: seq<Unit>, room: nat, strict: bool)
    requires Unpaired(u, rest) && room > |cs|
    ensures var c, n, out := To32(Utf16All(cs) + ([u] + rest), room, strict), |Utf16All(cs)|, Values(cs);
            if u <= 0xDBFF && rest == [] then c == Conv(SourceExhausted, n, out)
            else if strict then c == Conv(SourceIllegal, n, out)
            else
              var d := To32(rest, room - |cs| - 1, false);
              c == Conv(d.result, n + 1 + d.used, out + ([u as nat] + d.out))
  {
    hide Utf16All, Next16;
    var t := [u] + rest;
    To32Prefix(cs, t, room, strict);
    UnpairedNext(u, rest, strict);
    assert t[1..] == rest && Values(cs) + [] == Values(cs);
  }

  /** UTF-32 to UTF-16: a surrogate ends strict conversion; lenient conversion replaces it, and values beyond U+10FFFF. */
  lemma SurrogateFrom32(cs: seq<Scalar>, v: nat, rest: seq<nat>, room: nat, strict: bool)
    requires (0xD800 <= v <= 0xDFFF || (!strict && v > 0x10_FFFF)) && room > |Utf16All(cs)|
    ensures var c, out := From32(Values(cs) + ([v] + rest), room, strict), Utf16All(cs);
            if strict then c == Conv(SourceIllegal, |cs|, out)
            else
              var d := From32(rest, room - |out| - 1, false);
              c == Conv(d.result, |cs| + 1 + d.used, out + ([0xFFFD] + d.out))
  {
    hide Utf16All;
    var t := [v] + rest;
    From32Prefix(cs, t, room, strict);
    assert t[1..] == rest && Utf16All(cs) + [] == Utf16All(cs);
  }

  // ------------------------------------------------------------------ UTF-8 that is cut short or not legal

  /**
    UTF-8 to UTF-16 at the first sequence that is cut short or that isLegalUTF8 refuses: strict or not,
    both pointers stay in front of it; sequences of five and six bytes are told by their length only.
    */
  lemma BadSequenceTo16(cs: seq<Scalar>, t: seq<Byte>, n: nat, room: nat, strict: bool)
    requires t != [] && room >= |Utf16All(cs)|
    requires n == if t[0] < 0xC0 then 1 else if t[0] < 0xE0 then 2 else if t[0] < 0xF0 then 3
                  else if t[0] < 0xF8 then 4 else if t[0] < 0xFC then 5 else 6
    requires |t| < n || !Legal(t[..n])
    ensures To16(Utf8All(cs) + t, room, strict)
         == Conv(if |t| < n then SourceExhausted else SourceIllegal, |Utf8All(cs)|, Utf16All(cs))
  {
    hide Utf16All, Utf8All, Legal, To16;
    To16Prefix(cs, t, room, strict);
    To16Stops(t, room - |Utf16All(cs)|, strict);
    assert Utf16All(cs) + [] == Utf16All(cs);
  }

  // ------------------------------------------------------------------ five and six bytes

  /** Without a check, sequences of five bytes decode to their 26 bits ... */
  lemma FiveBytes(a: Byte, b: Byte, c: Byte, d: Byte, e: Byte)
    requires 0xF8 <= a < 0xFC && 0x80 <= b < 0xC0 && 0x80 <= c < 0xC0 && 0x80 <= d < 0xC0 && 0x80 <= e < 0xC0
    ensures Trailing(a) == 4
    ensures Decode8([a, b, c, d, e])
         == (a as int - 0xF8) * 0x100_0000 + (b as int - 0x80) * 0x4_0000 + (c as int - 0x80) * 0x1000 + (d as int - 0x80) * 0x40
            + (e as int - 0x80)
  {
    hide Fold32;
    FoldValues(a, b, c, d);
    FoldStep([a, b, c, d], e);
    assert [a, b, c, d] + [e] == [a, b, c, d, e];
  }

  /** ... and those of six to their 31, though the sum runs over in between. */
  lemma SixBytes(a: Byte, b: Byte, c: Byte, d: Byte, e: Byte, f: Byte)
    requires 0xFC <= a < 0xFE && 0x80 <= b < 0xC0 && 0x80 <= c < 0xC0 && 0x80 <= d < 0xC0 && 0x80 <= e < 0xC0 && 0x80 <= f < 0xC0
    ensures Trailing(a) == 5
    ensures Decode8([a, b, c, d, e, f])
         == (a as int - 0xFC) * 0x4000_0000 + (b as int - 0x80) * 0x100_0000 + (c as int - 0x80) * 0x4_0000 + (d as int - 0x80) * 0x1000
            + (e as int - 0x80) * 0x40 + (f as int - 0x80)
  {
    hide Fold32;
    var x := a as int * 0x4_0000 + b as int * 0x1000 + c as int * 0x40 + d as int;
    FoldValues(a, b, c, d);
    FoldStep([a, b, c, d], e);
    FoldStep([a, b, c, d, e], f);
    assert [a, b, c, d] + [e] == [a, b, c, d, e] && [a, b, c, d, e] + [f] == [a, b, c, d, e, f];
    TwoSteps(x, e, f, 0x8208_2080);
    var value := (a as int - 0xFC) * 0x4000_0000 + (b as int - 0x80) * 0x100_0000 + (c as int - 0x80) * 0x4_0000
                 + (d as int - 0x80) * 0x1000 + (e as int - 0x80) * 0x40 + (f as int - 0x80);
    DivModUnique(value + 63 * 0x1_0000_0000, 0x1_0000_0000, 63, value);
  }

  /** Wrapping twice is wrapping once. */
  lemma TwoSteps(x: int, e: int, f: int, less: int)
    ensures var m := 0x1_0000_0000; (((x * 0x40 + e) % m * 0x40 + f) % m - less) % m == (x * 0x1000 + e * 0x40 + f - less) % m
  {}
}
