/**
  Laced blocks: the size lists of matroska_parse_block in tsMuxer/matroskaDemuxer.cpp against
  encoders written from section 10.3 of RFC 9559, and the frames that are cut out with them.
  */
module Lacing {
  import opened Bits
  import opened BigEndian
  import opened EbmlNumbers
  import opened EbmlReader

  // ------------------------------------------------------------------ signed numbers

  /** A signed difference, none, or a shift wider than the int it is done in. */
  datatype Delta = Delta(value: int, width: nat) | NoDelta | TooWide

  /** matroska_ebmlnum_sint, then the cast to a 32-bit int; the reserved form casts to -1. */
  function BlockDelta(s: seq<Byte>): (r: Delta)
    ensures r.Delta? ==> 1 <= r.width <= |s|
  {
    match BlockNum(s)
    case Unknown(w) => Delta(-1, w)
    case Num(v, w) => if w > 4 then TooWide else Delta(v - Bias(w), w)
    case _ => NoDelta
  }

  function Bias(w: nat): int
    requires 1 <= w
  {
    Pow2(7 * w - 1) - 1
  }

  /** The written form of a difference that fits `w` bytes. */
  function DeltaBytes(value: int, w: nat): seq<Byte>
    requires 1 <= w <= 4 && Fits(value, w)
  {
    SizeFixed(value + Bias(w), w)
  }

  predicate Fits(value: int, w: nat)
    requires 1 <= w <= 4
  {
    -Bias(w) <= value <= Bias(w)
  }

  lemma {:induction false} DeltaRoundTrip(value: int, w: nat, rest: seq<Byte>)
    requires 1 <= w <= 4 && Fits(value, w)
    ensures |DeltaBytes(value, w)| == w && BlockDelta(DeltaBytes(value, w) + rest) == Delta(value, w)
  {
    hide Pow2, SizeFixed, BlockNum;
    Pow2Double(7 * w - 1);
    FixedSizeRoundTrip(value + Bias(w), w, rest);
  }

  lemma Pow2Double(n: nat)
    ensures Pow2(n + 1) == 2 * Pow2(n)
  {}

  // ------------------------------------------------------------------ 32-bit sums

  const INT_MIN := -0x8000_0000

  /** A 32-bit value is right exactly when it is in range. */
  lemma Int32Exactly(x: int)
    ensures INT_MIN <= Int32(x) <= INT_MAX
    ensures Int32(x) == x <==> INT_MIN <= x <= INT_MAX
  {}

  /** Adding up in 32 bits wraps the exact sum. */
  lemma Int32Add(a: int, b: int)
    ensures Int32(Int32(a) + b) == Int32(a + b) && Int32(b - Int32(a)) == Int32(b - a)
  {
    hide Int32;
    var k := Int32Turns(a);
    Int32Same(a + b, k);
    Int32Same(b - a, -k);
  }

  lemma Int32Turns(x: int) returns (k: int)
    ensures Int32(x) == x + k * 0x1_0000_0000
  {
    k := -(x / 0x1_0000_0000);
    if Int32(x) < 0 {
      k := k - 1;
    }
  }

  lemma Int32Same(x: int, k: int)
    ensures Int32(x + k * 0x1_0000_0000) == Int32(x)
  {
    DivModUnique(x + k * 0x1_0000_0000, 0x1_0000_0000, x / 0x1_0000_0000 + k, x % 0x1_0000_0000);
  }

  // ------------------------------------------------------------------ the three kinds of lacing

  /** The frame sizes, the bytes they cut up, and whether nothing was logged as an error. */
  datatype Laces = Laces(sizes: seq<int>, rest: seq<Byte>, clean: bool) | Failed | Undefined

  function Sum(s: seq<int>): int {
    if s == [] then 0 else Sum(s[..|s| - 1]) + s[|s| - 1]
  }

  /** A list of numbers taken off the front of the data. */
  datatype Taken = Taken(sizes: seq<int>, rest: seq<Byte>) | Short

  /** One Xiph size: bytes are added up as long as they are 255. */
  function XiphNum(d: seq<Byte>): (t: Taken)
    ensures t.Taken? ==> |t.sizes| == 1 && t.sizes[0] >= 0
  {
    if d == [] then Short
    else if d[0] != 0xFF then Taken([d[0]], d[1..])
    else AddFirst(0xFF, XiphNum(d[1..]))
  }

  function AddFirst(n: nat, t: Taken): Taken {
    match t
    case Taken(sizes, rest) => Taken(if sizes == [] then [n] else [n + sizes[0]] + sizes[1..], rest)
    case Short => Short
  }

  function Prepend(pre: seq<int>, t: Taken): Taken {
    match t
    case Taken(sizes, rest) => Taken(pre + sizes, rest)
    case Short => Short
  }

  /** All sizes but the last, in the 32-bit lace array. */
  function XiphSizes(d: seq<Byte>, n: nat): (t: Taken)
    ensures t.Taken? ==> |t.sizes| == n
    decreases n
  {
    if n == 0 then Taken([], d)
    else
      var t := XiphNum(d);
      if t.Short? then Short else Prepend([Int32(t.sizes[0])], XiphSizes(t.rest, n - 1))
  }

  function XiphLaces(d: seq<Byte>, laces: nat): Laces
    requires laces >= 1
  {
    match XiphSizes(d, laces - 1)
    case Short => Failed
    case Taken(sizes, rest) =>
      if Int32(Sum(sizes)) > |rest| then Laces(sizes + [0], rest, false)
      else if laces > 1 then Laces(sizes + [Int32(|rest| - Sum(sizes))], rest, true)
      else Laces([0], rest, true)
  }

  function FixedLaces(d: seq<Byte>, laces: nat): Laces
    requires laces >= 1
  {
    Laces(seq(laces, _ => |d| / laces), d, true)
  }

  /** Sizes given by differences, up to the first one that cannot be read. */
  datatype Run = Run(sizes: seq<int>, rest: seq<Byte>, good: bool, wide: bool)

  function DeltaSizes(previous: int, d: seq<Byte>, n: nat): (r: Run)
    ensures |r.sizes| <= n && (r.good ==> |r.sizes| == n)
    decreases n
  {
    if n == 0 then Run([], d, true, false)
    else
      match BlockDelta(d)
      case NoDelta => Run([], d, false, false)
      case TooWide => Run([], d, false, true)
      case Delta(value, width) =>
        var size := Int32(previous + value);
        var more := DeltaSizes(size, d[width..], n - 1);
        more.(sizes := [size] + more.sizes)
  }

  predicate NonNegative(s: seq<int>) { forall i :: 0 <= i < |s| ==> s[i] >= 0 }

  function Zeros(n: nat): seq<int> { seq(n, _ => 0) }

  /** The first size: a block number cast to a 32-bit int. */
  function FirstSize(n: Num): int
    requires n.Num? || n.Unknown?
  {
    if n.Unknown? then -1 else Int32(n.value)
  }

  function EbmlLaces(d: seq<Byte>, laces: nat): Laces
    requires laces >= 1
  {
    var n := BlockNum(d);
    if !n.Num? && !n.Unknown? then Laces(Zeros(laces), d, false)
    else
      var first := FirstSize(n);
      if laces == 1 then Laces([first], d[n.width..], first >= 0)
      else
        var run := DeltaSizes(first, d[n.width..], laces - 2);
        if run.wide then Undefined
        else
          var sizes := [first] + run.sizes;
          var all := sizes + [Int32(|run.rest| - Sum(sizes))] + Zeros(laces - 1 - |sizes|);
          Laces(all, run.rest, run.good && NonNegative(all))
  }

  /** The lacing switch; `kind` is bits 1 and 2 of the flags. */
  function ReadLaces(d: seq<Byte>, kind: nat): Laces
    requires kind < 4
  {
    if kind == 0 then Laces([|d|], d, true)
    else if d == [] then Failed
    else
      var laces: nat := d[0] as int + 1;
      if kind == 1 then XiphLaces(d[1..], laces)
      else if kind == 2 then FixedLaces(d[1..], laces)
      else EbmlLaces(d[1..], laces)
  }

  // ------------------------------------------------------------------ sizes and what is left

  lemma {:induction false} SumConcat(a: seq<int>, b: seq<int>)
    ensures Sum(a + b) == Sum(a) + Sum(b)
  {
    if b == [] {
      assert a + b == a;
    } else {
      SumConcat(a, b[..|b| - 1]);
      assert (a + b)[..|a + b| - 1] == a + b[..|b| - 1];
    }
  }

  lemma SumLast(a: seq<int>, x: int)
    ensures Sum(a + [x]) == Sum(a) + x
  {
    assert (a + [x])[..|a|] == a;
  }

  lemma {:induction false} SumSame(n: nat, x: int)
    ensures Sum(seq(n, _ => x)) == n * x
  {
    if n > 0 {
      SumSame(n - 1, x);
      assert seq(n, _ => x)[..n - 1] == seq(n - 1, _ => x);
    }
  }

  /** The bytes that the sizes before the last ask for. */
  function Front(l: Laces): int
    requires l.Laces? && l.sizes != []
  {
    Sum(l.sizes[..|l.sizes| - 1])
  }

  /**
    Two or more laces and no error logged: the sizes add up to the bytes behind the lace header exactly
    if the last one did not wrap; when no size is negative, exactly if the others ask for no more than there is.
    */
  lemma {:induction false} CleanLacesFillTheBlock(d: seq<Byte>, kind: nat)
    requires kind < 4 && (kind != 0 ==> d != [] && d[0] >= 1) && |d| <= INT_MAX
    ensures var l := ReadLaces(d, kind);
            l.Laces? && l.clean ==>
              && |l.sizes| == (if kind == 0 then 1 else d[0] as int + 1)
              && (kind == 0 ==> Sum(l.sizes) == |l.rest|)
              && (kind == 2 ==> Sum(l.sizes) == |l.rest| - |l.rest| % |l.sizes|)
              && (kind == 1 || kind == 3 ==>
                    && (Sum(l.sizes) == |l.rest| <==> INT_MIN <= |l.rest| - Front(l) <= INT_MAX)
                    && (NonNegative(l.sizes) ==> (Sum(l.sizes) == |l.rest| <==> Front(l) <= |l.rest|)))
              && (kind == 3 ==> NonNegative(l.sizes))
  {
    hide XiphLaces, EbmlLaces, Sum;
    if kind == 0 {
      SumLast([], |d|);
      assert [] + [|d|] == [|d|];
      SumNothing();
    } else if kind == 1 {
      XiphFills(d[1..], d[0] as int + 1);
    } else if kind == 2 {
      var n: nat := d[0] as int + 1;
      SumSame(n, |d[1..]| / n);
    } else {
      EbmlFills(d[1..], d[0] as int + 1);
    }
  }

  /** The last size makes up for the others, as far as 32 bits go. */
  lemma {:induction false} LastFills(sizes: seq<int>, n: nat)
    requires n <= INT_MAX
    ensures var all := sizes + [Int32(n - Sum(sizes))];
            && all[..|all| - 1] == sizes
            && (Sum(all) == n <==> INT_MIN <= n - Sum(sizes) <= INT_MAX)
            && (NonNegative(all) ==> (Sum(all) == n <==> Sum(sizes) <= n))
  {
    hide Sum, Int32;
    var last := Int32(n - Sum(sizes));
    var all := sizes + [last];
    SumLast(sizes, last);
    Int32Exactly(n - Sum(sizes));
    assert all[..|all| - 1] == sizes;
    if NonNegative(all) {
      assert all[|sizes|] == last;
      assert forall i :: 0 <= i < |sizes| ==> sizes[i] == all[i];
      SumNonNegative(sizes);
    }
  }

  lemma SumNothing()
    ensures Sum([]) == 0
  {}

  lemma {:induction false} XiphFills(d: seq<Byte>, laces: nat)
    requires laces >= 2 && |d| <= INT_MAX
    ensures var l := XiphLaces(d, laces);
            l.Laces? && l.clean ==>
              && |l.sizes| == laces
              && (Sum(l.sizes) == |l.rest| <==> INT_MIN <= |l.rest| - Front(l) <= INT_MAX)
              && (NonNegative(l.sizes) ==> (Sum(l.sizes) == |l.rest| <==> Front(l) <= |l.rest|))
  {
    hide XiphSizes, Sum, Int32;
    var t := XiphSizes(d, laces - 1);
    if t.Taken? {
      XiphLeaves(d, laces - 1);
      LastFills(t.sizes, |t.rest|);
    }
  }

  lemma {:induction false} XiphNumLeaves(d: seq<Byte>)
    ensures var t := XiphNum(d); t.Taken? ==> |t.rest| < |d| && t.sizes[0] <= 0xFF * (|d| - |t.rest|)
  {
    if d != [] && d[0] == 0xFF {
      XiphNumLeaves(d[1..]);
    }
  }

  lemma {:induction false} XiphLeaves(d: seq<Byte>, n: nat)
    ensures var t := XiphSizes(d, n); t.Taken? ==> |t.rest| <= |d|
    decreases n
  {
    if n > 0 {
      XiphNumLeaves(d);
      var t := XiphNum(d);
      if t.Taken? {
        XiphLeaves(t.rest, n - 1);
      }
    }
  }

  /** In a block of less than 2^31 / 255 bytes no Xiph size can wrap ... */
  lemma {:induction false} XiphStaysSmall(d: seq<Byte>, n: nat)
    requires 0xFF * |d| <= INT_MAX
    ensures var t := XiphSizes(d, n);
            t.Taken? ==> |t.rest| <= |d| && NonNegative(t.sizes) && 0 <= Sum(t.sizes) <= 0xFF * (|d| - |t.rest|)
    decreases n
  {
    hide Int32, XiphNum, Sum;
    if n == 0 {
      SumNothing();
    } else {
      XiphNumLeaves(d);
      var t := XiphNum(d);
      if t.Taken? {
        XiphStaysSmall(t.rest, n - 1);
        Int32Exactly(t.sizes[0]);
        var more := XiphSizes(t.rest, n - 1);
        if more.Taken? {
          SumConcat([t.sizes[0]], more.sizes);
          SumOne(t.sizes[0]);
        }
      }
    }
  }

  /** ... and a clean lace header always gives sizes that fill the block. */
  lemma {:induction false} SmallXiphLacesFill(d: seq<Byte>)
    requires d != [] && d[0] >= 1 && 0xFF * |d| <= INT_MAX
    ensures var l := ReadLaces(d, 1);
            l.Laces? && l.clean ==> |l.sizes| == d[0] as int + 1 && NonNegative(l.sizes) && Sum(l.sizes) == |l.rest|
  {
    hide XiphSizes, Sum, Int32;
    var t := XiphSizes(d[1..], d[0]);
    XiphStaysSmall(d[1..], d[0]);
    if t.Taken? {
      Int32Exactly(Sum(t.sizes));
      Int32Exactly(|t.rest| - Sum(t.sizes));
      LastFills(t.sizes, |t.rest|);
    }
  }

  lemma {:induction false} EbmlFills(d: seq<Byte>, laces: nat)
    requires laces >= 2 && |d| <= INT_MAX
    ensures var l := EbmlLaces(d, laces);
            l.Laces? && l.clean ==>
              && |l.sizes| == laces && NonNegative(l.sizes)
              && (Sum(l.sizes) == |l.rest| <==> INT_MIN <= |l.rest| - Front(l) <= INT_MAX)
              && (Sum(l.sizes) == |l.rest| <==> Front(l) <= |l.rest|)
  {
    hide BlockNum, DeltaSizes, Sum, FirstSize, Int32;
    var n, l := BlockNum(d), EbmlLaces(d, laces);
    if l.Laces? && l.clean {
      var run := DeltaSizes(FirstSize(n), d[n.width..], laces - 2);
      var sizes := [FirstSize(n)] + run.sizes;
      DeltasLeave(FirstSize(n), d[n.width..], laces - 2);
      assert l.sizes == sizes + [Int32(|run.rest| - Sum(sizes))];
      LastFills(sizes, |run.rest|);
    }
  }

  lemma {:induction false} DeltasLeave(previous: int, d: seq<Byte>, n: nat)
    ensures |DeltaSizes(previous, d, n).rest| <= |d|
    decreases n
  {
    hide BlockDelta, Int32;
    if n > 0 {
      var r := BlockDelta(d);
      if r.Delta? {
        DeltasLeave(Int32(previous + r.value), d[r.width..], n - 1);
      }
    }
  }

  /** Three laces whose first two sizes are 2^31 - 1: nothing is logged, and the sizes exceed the data by 2^32. */
  lemma {:induction false} WrappedLaces(data: seq<Byte>)
    requires |data| <= INT_MAX - 2
    ensures var l := ReadLaces([0x02, 0x08, 0x7F, 0xFF, 0xFF, 0xFF, 0xBF] + data, 3);
            && l == Laces([INT_MAX, INT_MAX, |data| + 2], data, true)
            && Sum(l.sizes) == |data| + 0x1_0000_0000 && Front(l) > |data|
  {
    hide BlockNum, DeltaSizes, Sum, FirstSize, BlockDelta, Pow2, Int32, EbmlLaces;
    var d := [0x02, 0x08, 0x7F, 0xFF, 0xFF, 0xFF, 0xBF] + data;
    var head, more := [0x08, 0x7F, 0xFF, 0xFF, 0xFF], [0xBF] + data;
    assert d[1..] == head + more;
    WideFirstSize(more);
    NoDifference(data);
    DeltaStep(INT_MAX, [0xBF], 0, data, 0);
    NoDeltas(INT_MAX, data);
    var sizes: seq<int> := [INT_MAX, INT_MAX];
    assert sizes == [INT_MAX] + [INT_MAX];
    SumLast([INT_MAX], INT_MAX);
    SumOne(INT_MAX);
    SumLast(sizes, |data| + 2);
    Int32Same(|data| + 2, -1);
    Int32Exactly(|data| + 2);
    EbmlThree(head, more, INT_MAX, INT_MAX, data);
    var l := ReadLaces(d, 3);
    assert l.sizes == sizes + [|data| + 2] && l.sizes[..2] == sizes;
  }

  /** Three laces, put together. */
  lemma {:induction false} EbmlThree(head: seq<Byte>, more: seq<Byte>, a: nat, b: nat, data: seq<Byte>)
    requires BlockNum(head + more) == Num(a, |head|) && FirstSize(Num(a, |head|)) == a
    requires DeltaSizes(a, more, 1) == Run([b], data, true, false)
    requires Int32(|data| - Sum([a, b])) >= 0
    ensures EbmlLaces(head + more, 3) == Laces([a, b, Int32(|data| - Sum([a, b]))], data, true)
  {
    hide BlockNum, DeltaSizes, Sum, FirstSize, Int32;
    assert (head + more)[|head|..] == more;
    assert [a] + [b] == [a, b];
    var last := Int32(|data| - Sum([a, b]));
    assert [a, b] + [last] + Zeros(0) == [a, b, last];
  }

  lemma NoDeltas(previous: int, d: seq<Byte>)
    ensures DeltaSizes(previous, d, 0) == Run([], d, true, false)
  {}

  lemma WideFirstSize(more: seq<Byte>)
    ensures BlockNum([0x08, 0x7F, 0xFF, 0xFF, 0xFF] + more) == Num(INT_MAX, 5) && FirstSize(Num(INT_MAX, 5)) == INT_MAX
  {
    hide BlockNum, Pow2, SizeFixed;
    Pow2Sizes();
    WideSizeBytes();
    FixedSizeRoundTrip(INT_MAX, 5, more);
  }

  lemma WideSizeBytes()
    ensures SizeFixed(INT_MAX, 5) == [0x08, 0x7F, 0xFF, 0xFF, 0xFF]
  {
    hide Pow2;
    Pow2Sizes();
    assert BE(INT_MAX, 5) == [0x00, 0x7F, 0xFF, 0xFF, 0xFF] by {
      assert BE(INT_MAX, 5) == BE(0x7F_FFFF, 4) + [0xFF];
      assert BE(0x7F_FFFF, 4) == BE(0x7FFF, 3) + [0xFF];
      assert BE(0x7FFF, 3) == BE(0x7F, 2) + [0xFF];
      assert BE(0x7F, 2) == BE(0, 1) + [0x7F];
      assert BE(0, 1) == [0];
    }
  }

  lemma NoDifference(data: seq<Byte>)
    ensures BlockDelta([0xBF] + data) == Delta(0, 1)
  {
    hide BlockNum, BlockDelta, Pow2;
    Pow2Small7();
    Pow2Double(6);
    assert BE(63, 1) == [63];
    assert DeltaBytes(0, 1) == [0xBF];
    DeltaRoundTrip(0, 1, data);
  }

  // ------------------------------------------------------------------ reference encoders

  function XiphBytes(n: nat): seq<Byte> {
    if n < 0xFF then [n] else [0xFF] + XiphBytes(n - 0xFF)
  }

  lemma {:induction false} XiphNumRoundTrip(n: nat, rest: seq<Byte>)
    ensures XiphNum(XiphBytes(n) + rest) == Taken([n], rest)
    decreases n
  {
    if n >= 0xFF {
      XiphNumRoundTrip(n - 0xFF, rest);
      assert (XiphBytes(n) + rest)[1..] == XiphBytes(n - 0xFF) + rest;
    }
  }

  function XiphList(sizes: seq<nat>): seq<Byte> {
    if sizes == [] then [] else XiphBytes(sizes[0]) + XiphList(sizes[1..])
  }

  lemma {:induction false} XiphListRoundTrip(sizes: seq<nat>, rest: seq<Byte>)
    requires Ints(sizes)
    ensures XiphSizes(XiphList(sizes) + rest, |sizes|) == Taken(sizes, rest)
  {
    if sizes != [] {
      hide XiphNum, XiphBytes;
      var more := XiphList(sizes[1..]) + rest;
      assert XiphList(sizes) + rest == XiphBytes(sizes[0]) + more;
      XiphNumRoundTrip(sizes[0], more);
      XiphListRoundTrip(sizes[1..], rest);
    } else {
      assert XiphList(sizes) + rest == rest;
    }
  }

  /** The shortest width of at most four bytes that a difference fits. */
  function DeltaWidth(value: int): (w: nat)
    requires Fits(value, 4)
    ensures 1 <= w <= 4 && Fits(value, w)
  {
    if Fits(value, 1) then 1 else if Fits(value, 2) then 2 else if Fits(value, 3) then 3 else 4
  }

  /** Neighbouring sizes differ by less than 2^27. */
  predicate CloseEnough(previous: int, sizes: seq<nat>)
    decreases |sizes|
  {
    sizes == [] || (Fits(sizes[0] - previous, 4) && CloseEnough(sizes[0], sizes[1..]))
  }

  function DeltaList(previous: int, sizes: seq<nat>): seq<Byte>
    requires CloseEnough(previous, sizes)
    decreases |sizes|
  {
    if sizes == [] then []
    else
      var delta := sizes[0] - previous;
      DeltaBytes(delta, DeltaWidth(delta)) + DeltaList(sizes[0], sizes[1..])
  }

  lemma DeltaStep(previous: int, head: seq<Byte>, value: int, more: seq<Byte>, n: nat)
    requires BlockDelta(head + more) == Delta(value, |head|) && 0 <= previous + value <= INT_MAX
    ensures var r := DeltaSizes(previous + value, more, n);
            DeltaSizes(previous, head + more, n + 1) == r.(sizes := [previous + value] + r.sizes)
  {
    hide BlockDelta;
    assert (head + more)[|head|..] == more;
  }

  /** Sizes an int can hold. */
  predicate Ints(sizes: seq<nat>) { forall i :: 0 <= i < |sizes| ==> sizes[i] <= INT_MAX }

  lemma {:induction false} DeltaListRoundTrip(previous: int, sizes: seq<nat>, rest: seq<Byte>)
    requires CloseEnough(previous, sizes) && Ints(sizes)
    ensures DeltaSizes(previous, DeltaList(previous, sizes) + rest, |sizes|) == Run(sizes, rest, true, false)
    decreases |sizes|
  {
    hide DeltaBytes, BlockDelta, DeltaSizes, Fits, Bias, DeltaWidth, Pow2, Int32;
    if sizes == [] {
      assert DeltaList(previous, sizes) + rest == rest;
      NoDeltas(previous, rest);
    } else {
      var delta := sizes[0] - previous;
      var head := DeltaBytes(delta, DeltaWidth(delta));
      var more := DeltaList(sizes[0], sizes[1..]) + rest;
      assert DeltaList(previous, sizes) + rest == head + more;
      DeltaRoundTrip(delta, DeltaWidth(delta), more);
      DeltaStep(previous, head, delta, more, |sizes| - 1);
      DeltaListRoundTrip(sizes[0], sizes[1..], rest);
    }
  }

  /** A laced payload: the number of frames less one, all sizes but the last, and the frames. */
  function Laced(frames: seq<seq<Byte>>, kind: nat): seq<Byte>
    requires 1 <= kind <= 3 && 2 <= |frames| <= 256
    requires kind == 3 ==> CloseEnough(|frames[0]|, Lengths(frames)[1..|frames| - 1])
  {
    var sizes := Lengths(frames)[..|frames| - 1];
    [|frames| - 1] + SizeList(sizes, kind) + Concat(frames)
  }

  function SizeList(sizes: seq<nat>, kind: nat): seq<Byte>
    requires sizes != [] && (kind == 3 ==> CloseEnough(sizes[0], sizes[1..]))
  {
    if kind == 1 then XiphList(sizes) else if kind == 3 then SizeBytes(sizes[0]) + DeltaList(sizes[0], sizes[1..]) else []
  }

  function Lengths(frames: seq<seq<Byte>>): (s: seq<nat>)
    ensures |s| == |frames|
    ensures forall i :: 0 <= i < |s| ==> s[i] == |frames[i]|
  {
    seq(|frames|, i requires 0 <= i < |frames| => |frames[i]|)
  }

  function Concat(frames: seq<seq<Byte>>): seq<Byte> {
    if frames == [] then [] else frames[0] + Concat(frames[1..])
  }

  // ------------------------------------------------------------------ cutting out the frames

  /** The packet loop for a plain track: it stops at the first size that does not fit. */
  function Cut(sizes: seq<int>, data: seq<Byte>): seq<seq<Byte>> {
    if sizes == [] || !(0 <= sizes[0] <= |data|) then []
    else [data[..sizes[0]]] + Cut(sizes[1..], data[sizes[0]..])
  }

  lemma {:induction false} CutRestoresFrames(frames: seq<seq<Byte>>)
    ensures Cut(Lengths(frames), Concat(frames)) == frames
    ensures Sum(Lengths(frames)) == |Concat(frames)|
  {
    if frames != [] {
      var f, rest := frames[0], frames[1..];
      CutRestoresFrames(rest);
      assert Lengths(frames)[1..] == Lengths(rest);
      assert Concat(frames)[|f|..] == Concat(rest) && Concat(frames)[..|f|] == f;
      assert Lengths(frames) == [|f|] + Lengths(rest);
      SumConcat([|f|], Lengths(rest));
      assert [|f|][..0] == [];
    }
  }

  lemma SumFirst(s: seq<int>)
    requires s != []
    ensures Sum(s) == s[0] + Sum(s[1..])
  {
    assert s == [s[0]] + s[1..];
    SumConcat([s[0]], s[1..]);
    assert [s[0]][..0] == [];
  }

  lemma CutStep(sizes: seq<int>, data: seq<Byte>)
    requires sizes != [] && 0 <= sizes[0] <= |data|
    ensures Cut(sizes, data) == [data[..sizes[0]]] + Cut(sizes[1..], data[sizes[0]..])
  {}

  lemma ConcatFirst(f: seq<Byte>, more: seq<seq<Byte>>)
    ensures Concat([f] + more) == f + Concat(more)
  {
    assert ([f] + more)[1..] == more;
  }

  /** Whatever sizes fill the data, the frames cut out are the data, in order. */
  lemma {:induction false} CutTiles(sizes: seq<int>, data: seq<Byte>)
    requires NonNegative(sizes) && Sum(sizes) == |data|
    ensures var frames := Cut(sizes, data); Concat(frames) == data && Lengths(frames) == sizes
  {
    hide Sum, Cut, Concat, Lengths;
    if sizes == [] {
      NothingCut(data);
    } else {
      var n, rest := sizes[0], sizes[1..];
      SumFirst(sizes);
      SumNonNegative(rest);
      CutStep(sizes, data);
      CutTiles(rest, data[n..]);
      ConcatFirst(data[..n], Cut(rest, data[n..]));
      assert data[..n] + data[n..] == data;
      assert [n] + rest == sizes;
    }
  }

  lemma NothingCut(data: seq<Byte>)
    requires Sum([]) == |data|
    ensures Concat(Cut([], data)) == data && Lengths(Cut([], data)) == []
  {}

  lemma {:induction false} SumNonNegative(s: seq<int>)
    requires NonNegative(s)
    ensures Sum(s) >= 0
  {
    if s != [] {
      SumNonNegative(s[..|s| - 1]);
    }
  }

  // ------------------------------------------------------------------ the round trips

  /** Lengths of the frames but the last are a list the block can hold; a block's size is an int. */
  predicate Encodable(frames: seq<seq<Byte>>, kind: nat) {
    && 1 <= kind <= 3 && 2 <= |frames| <= 256 && |Concat(frames)| <= INT_MAX
    && (kind == 3 ==> |frames[0]| <= INT_MAX && CloseEnough(|frames[0]|, Lengths(frames)[1..|frames| - 1]))
    && (kind == 2 ==> forall i :: 0 <= i < |frames| ==> |frames[i]| == |frames[0]|)
  }

  /** The decoder finds the sizes the encoder was given, and then the frames themselves. */
  lemma LacingRoundTrip(frames: seq<seq<Byte>>, kind: nat)
    requires Encodable(frames, kind)
    ensures var l := ReadLaces(Laced(frames, kind), kind);
            && l == Laces(Lengths(frames), Concat(frames), true)
            && Cut(l.sizes, l.rest) == frames
  {
    hide XiphLaces, EbmlLaces, FixedLaces, XiphList, DeltaList, SizeBytes, Cut, Sum, Concat, CloseEnough;
    var n := |frames|;
    var sizes := Lengths(frames)[..n - 1];
    var d := Laced(frames, kind);
    CutRestoresFrames(frames);
    assert d[0] as int + 1 == n && d[1..] == SizeList(sizes, kind) + Concat(frames);
    assert Lengths(frames) == sizes + [|frames[n - 1]|];
    SumLast(sizes, |frames[n - 1]|);
    if kind == 1 {
      XiphDecodes(sizes, Concat(frames));
    } else if kind == 2 {
      FixedDecodes(frames);
    } else {
      assert sizes[1..] == Lengths(frames)[1..n - 1];
      EbmlDecodes(sizes, Concat(frames));
    }
  }

  lemma {:induction false} PartsAreSmall(sizes: seq<nat>)
    ensures Sum(sizes) >= 0 && forall i :: 0 <= i < |sizes| ==> sizes[i] <= Sum(sizes)
  {
    if sizes != [] {
      PartsAreSmall(sizes[..|sizes| - 1]);
    }
  }

  lemma AreInts(sizes: seq<nat>)
    requires Sum(sizes) <= INT_MAX
    ensures Ints(sizes) && (sizes != [] ==> Ints(sizes[1..]))
  {
    hide Sum;
    PartsAreSmall(sizes);
  }

  lemma {:induction false} XiphDecodes(sizes: seq<nat>, data: seq<Byte>)
    requires sizes != [] && Sum(sizes) <= |data| <= INT_MAX
    ensures XiphLaces(SizeList(sizes, 1) + data, |sizes| + 1) == Laces(sizes + [|data| - Sum(sizes)], data, true)
  {
    hide XiphList, XiphSizes, Sum, Int32;
    PartsAreSmall(sizes);
    XiphListRoundTrip(sizes, data);
    Int32Exactly(Sum(sizes));
    Int32Exactly(|data| - Sum(sizes));
  }

  lemma FixedDecodes(frames: seq<seq<Byte>>)
    requires |frames| >= 2 && forall i :: 0 <= i < |frames| ==> |frames[i]| == |frames[0]|
    ensures FixedLaces([] + Concat(frames), |frames|) == Laces(Lengths(frames), Concat(frames), true)
  {
    var n, s := |frames|, |frames[0]|;
    CutRestoresFrames(frames);
    assert Lengths(frames) == seq(n, _ => s);
    SumSame(n, s);
    DivModUnique(n * s, n, s, 0);
    assert [] + Concat(frames) == Concat(frames);
  }

  lemma {:induction false} EbmlDecodes(sizes: seq<nat>, data: seq<Byte>)
    requires sizes != [] && sizes[0] <= INT_MAX && CloseEnough(sizes[0], sizes[1..]) && Sum(sizes) <= |data| <= INT_MAX
    ensures EbmlLaces(SizeList(sizes, 3) + data, |sizes| + 1) == Laces(sizes + [|data| - Sum(sizes)], data, true)
  {
    hide *;
    var deltas := DeltaList(sizes[0], sizes[1..]);
    var head := SizeBytes(sizes[0]);
    assert SizeList(sizes, 3) + data == head + (deltas + data) by { EbmlHeader(sizes); }
    SmallSize(sizes[0]);
    BlockNumRoundTrip(sizes[0], deltas + data);
    AreInts(sizes);
    DeltaListRoundTrip(sizes[0], sizes[1..], data);
    EbmlAssembles(head, sizes, deltas + data, data);
  }

  lemma EbmlHeader(sizes: seq<nat>)
    requires sizes != [] && CloseEnough(sizes[0], sizes[1..])
    ensures SizeList(sizes, 3) == SizeBytes(sizes[0]) + DeltaList(sizes[0], sizes[1..])
  {}

  lemma {:induction false} EbmlAssembles(head: seq<Byte>, sizes: seq<nat>, more: seq<Byte>, data: seq<Byte>)
    requires sizes != [] && sizes[0] <= INT_MAX && Sum(sizes) <= |data| <= INT_MAX
    requires BlockNum(head + more) == Num(sizes[0], |head|)
    requires DeltaSizes(sizes[0], more, |sizes| - 1) == Run(sizes[1..], data, true, false)
    ensures EbmlLaces(head + more, |sizes| + 1) == Laces(sizes + [|data| - Sum(sizes)], data, true)
  {
    hide BlockNum, DeltaSizes, Sum, Int32;
    assert (head + more)[|head|..] == more;
    PartsAreSmall(sizes);
    Int32Exactly(sizes[0]);
    Int32Exactly(|data| - Sum(sizes));
    var all: seq<int> := sizes;
    assert [sizes[0]] + sizes[1..] == sizes;
    assert sizes + [|data| - Sum(sizes)] + Zeros(0) == sizes + [|data| - Sum(sizes)];
  }

  lemma SmallSize(n: nat)
    requires n <= INT_MAX
    ensures n < Pow2(56) - 1 && Int32(n) == n
  {
    hide Pow2;
    Pow2Sizes();
  }

  // ------------------------------------------------------------------ the decoder as loops

  /** matroska_ebmlnum_sint with the cast that follows it. */
  method ReadBlockDelta(data: seq<Byte>) returns (r: Delta)
    ensures r == BlockDelta(data)
  {
    hide BlockNum, Bias;
    var unum := ReadBlockNum(data);
    match unum
    case Unknown(w) => r := Delta(-1, w);
    case Num(v, w) => r := if w > 4 then TooWide else Delta(v - Bias(w), w);
    case _ => r := NoDelta;
  }

  /** The lace array while it is being filled: `sizes` so far, zero behind. */
  ghost predicate Filled(a: array<int>, sizes: seq<int>)
    reads a
  {
    |sizes| <= a.Length && a[..] == sizes + Zeros(a.Length - |sizes|)
  }

  lemma FilledOne(before: seq<int>, after: seq<int>, sizes: seq<int>, x: int)
    requires |sizes| < |before| == |after| && before == sizes + Zeros(|before| - |sizes|)
    requires after == before[|sizes| := x]
    ensures after == (sizes + [x]) + Zeros(|after| - |sizes + [x]|)
  {}

  /** One Xiph size, added up in place. */
  method ReadXiphSize(laceSize: array<int>, n: nat, data: seq<Byte>) returns (short: bool, rest: seq<Byte>)
    requires n < laceSize.Length && laceSize[n] == 0
    modifies laceSize
    ensures short <==> XiphNum(data) == Short
    ensures !short ==> XiphNum(data).rest == rest
    ensures !short ==> laceSize[..] == old(laceSize[..])[n := Int32(XiphNum(data).sizes[0])]
  {
    hide Int32;
    rest, short := data, false;
    ghost var all, exact := XiphNum(data), 0;
    Int32Exactly(0);
    while true
      invariant exact >= 0 && laceSize[n] == Int32(exact) && laceSize[..] == old(laceSize[..])[n := laceSize[n]]
      invariant XiphNum(rest).Short? <==> all.Short?
      invariant all.Taken? ==>
                  all.rest == XiphNum(rest).rest && all.sizes[0] == exact + XiphNum(rest).sizes[0]
      decreases |rest|
    {
      if rest == [] {
        return true, rest;
      }
      var temp := rest[0];
      Int32Add(exact, temp);
      laceSize[n] := Int32(laceSize[n] + temp);
      exact := exact + temp;
      rest := rest[1..];
      if temp != 0xFF {
        break;
      }
    }
  }

  /** Xiph lacing: laces - 1 sizes, the last one is what remains. */
  method ReadXiphLaces(data: seq<Byte>, laces: nat) returns (r: Laces)
    requires laces >= 1
    ensures r == XiphLaces(data, laces)
  {
    hide XiphSizes, Sum, Int32;
    var laceSize := new int[laces](_ => 0);
    var short, rest, total := ReadXiphSizes(laceSize, data);
    if short {
      return Failed;
    }
    ghost var sizes := XiphSizes(data, laces - 1).sizes;
    assert laceSize[..] == sizes + [0];
    if total > |rest| {
      return Laces(laceSize[..], rest, false);
    }
    if laces > 1 {
      laceSize[laces - 1] := Int32(|rest| - total);
      Int32Add(Sum(sizes), |rest|);
      assert laceSize[..] == sizes + [Int32(|rest| - total)];
    } else {
      assert sizes == [];
      SumNothing();
    }
    return Laces(laceSize[..], rest, true);
  }

  method ReadXiphSizes(laceSize: array<int>, data: seq<Byte>) returns (short: bool, rest: seq<Byte>, total: int)
    requires laceSize.Length >= 1 && Filled(laceSize, [])
    modifies laceSize
    ensures var t := XiphSizes(data, laceSize.Length - 1);
            && (short <==> t.Short?)
            && (!short ==> rest == t.rest && total == Int32(Sum(t.sizes)) && Filled(laceSize, t.sizes))
  {
    hide XiphNum, Sum, XiphSizes, Int32;
    var count := laceSize.Length - 1;
    short, rest, total := false, data, 0;
    var n := 0;
    ghost var sizes: seq<int> := [];
    SumNothing();
    Int32Exactly(0);
    while n < count
      invariant 0 <= n <= count && n == |sizes| && Filled(laceSize, sizes) && total == Int32(Sum(sizes)) && !short
      invariant XiphSizes(data, count) == Prepend(sizes, XiphSizes(rest, count - n))
    {
      ghost var before, t := laceSize[..], XiphNum(rest);
      XiphStep(rest, count - n);
      assert laceSize[n] == before[n] == 0;
      short, rest := ReadXiphSize(laceSize, n, rest);
      if short {
        return;
      }
      ghost var size := Int32(t.sizes[0]);
      FilledOne(before, laceSize[..], sizes, size);
      SumLast(sizes, size);
      Int32Add(Sum(sizes), size);
      PrependTwice(sizes, size, XiphSizes(rest, count - n - 1));
      sizes := sizes + [size];
      assert laceSize[n] == laceSize[..][n] == size;
      total := Int32(total + laceSize[n]);
      n := n + 1;
    }
    XiphEnd(sizes, rest);
  }

  lemma XiphStep(d: seq<Byte>, n: nat)
    requires n > 0
    ensures var t := XiphNum(d);
            XiphSizes(d, n) == if t.Short? then Short else Prepend([Int32(t.sizes[0])], XiphSizes(t.rest, n - 1))
  {}

  lemma PrependTwice(sizes: seq<int>, x: int, t: Taken)
    ensures Prepend(sizes, Prepend([x], t)) == Prepend(sizes + [x], t) && (Prepend([x], t).Short? <==> t.Short?)
  {
    if t.Taken? {
      assert sizes + ([x] + t.sizes) == sizes + [x] + t.sizes;
    }
  }

  lemma XiphEnd(sizes: seq<int>, d: seq<Byte>)
    ensures Prepend(sizes, XiphSizes(d, 0)) == Taken(sizes, d)
  {
    assert sizes + [] == sizes;
  }

  /** EBML lacing: a size, then differences; the last size is what remains. */
  method ReadEbmlLaces(data: seq<Byte>, laces: nat) returns (r: Laces)
    requires laces >= 1
    ensures r == EbmlLaces(data, laces)
  {
    hide BlockNum, Sum, DeltaSizes, FirstSize, Int32;
    var laceSize := new int[laces](_ => 0);
    var num := ReadBlockNum(data);
    if !num.Num? && !num.Unknown? {
      assert laceSize[..] == Zeros(laces);
      return Laces(laceSize[..], data, false);
    }
    var rest := data[num.width..];
    var first := FirstSize(num);
    laceSize[0] := first;
    FirstSizeFits(num);
    if laces == 1 {
      assert laceSize[..] == [first];
      return Laces(laceSize[..], rest, first >= 0);
    }
    var n, total, good, wide;
    n, rest, total, good, wide := ReadDeltas(laceSize, rest);
    if wide {
      return Undefined;
    }
    ghost var before := laceSize[..];
    laceSize[n] := Int32(|rest| - total);
    ghost var sizes := [first] + DeltaSizes(first, data[num.width..], laces - 2).sizes;
    Int32Add(Sum(sizes), |rest|);
    FilledOne(before, laceSize[..], sizes, Int32(|rest| - total));
    var nonNegative := AllNonNegative(laceSize);
    return Laces(laceSize[..], rest, good && nonNegative);
  }

  lemma FirstSizeFits(n: Num)
    requires n.Num? || n.Unknown?
    ensures Int32(FirstSize(n)) == FirstSize(n)
  {}

  /** The loop over the differences: each size is the one before it, changed. */
  method ReadDeltas(laceSize: array<int>, data: seq<Byte>)
    returns (n: nat, rest: seq<Byte>, total: int, good: bool, wide: bool)
    requires laceSize.Length >= 2 && Filled(laceSize, [laceSize[0]]) && Int32(laceSize[0]) == laceSize[0]
    modifies laceSize
    ensures var first := old(laceSize[0]);
            var run := DeltaSizes(first, data, laceSize.Length - 2);
            && rest == run.rest && good == run.good && wide == run.wide
            && n == 1 + |run.sizes| && Filled(laceSize, [first] + run.sizes) && total == Int32(Sum([first] + run.sizes))
  {
    hide BlockDelta, Sum, Int32;
    ghost var first := laceSize[0];
    ghost var run := DeltaSizes(first, data, laceSize.Length - 2);
    ghost var sizes := [first];
    n, rest, total, good, wide := 1, data, laceSize[0], true, false;
    SumOne(first);
    while n < laceSize.Length - 1
      invariant 1 <= n <= laceSize.Length - 1 && n == |sizes| && Filled(laceSize, sizes) && total == Int32(Sum(sizes))
      invariant good && !wide
      invariant var more := DeltaSizes(sizes[n - 1], rest, laceSize.Length - 1 - n);
                run == more.(sizes := run.sizes) && [first] + run.sizes == sizes + more.sizes
    {
      var snum := ReadBlockDelta(rest);
      if !snum.Delta? {
        good, wide := false, snum.TooWide?;
        break;
      }
      ghost var before, size := laceSize[..], Int32(sizes[n - 1] + snum.value);
      assert laceSize[n - 1] == before[n - 1] == sizes[n - 1];
      rest := rest[snum.width..];
      laceSize[n] := Int32(laceSize[n - 1] + snum.value);
      FilledOne(before, laceSize[..], sizes, size);
      SumLast(sizes, size);
      Int32Add(Sum(sizes), size);
      total := Int32(total + laceSize[n]);
      ghost var more := DeltaSizes(size, rest, laceSize.Length - 2 - n);
      assert sizes + ([size] + more.sizes) == sizes + [size] + more.sizes;
      sizes := sizes + [size];
      n := n + 1;
    }
    assert [first] + run.sizes == sizes;
  }

  lemma SumOne(x: int)
    ensures Sum([x]) == x
  {
    assert [x][..0] == [];
  }

  method AllNonNegative(laceSize: array<int>) returns (ok: bool)
    ensures ok == NonNegative(laceSize[..])
  {
    var n := 0;
    while n < laceSize.Length
      invariant 0 <= n <= laceSize.Length && forall i :: 0 <= i < n ==> laceSize[i] >= 0
    {
      if laceSize[n] < 0 {
        assert laceSize[..][n] < 0;
        return false;
      }
      n := n + 1;
    }
    return true;
  }

  /** The whole lacing switch. */
  method ReadLaceSizes(data: seq<Byte>, kind: nat) returns (r: Laces)
    requires kind < 4
    ensures r == ReadLaces(data, kind)
  {
    hide XiphLaces, EbmlLaces;
    if kind == 0 {
      return Laces([|data|], data, true);
    }
    if data == [] {
      return Failed;
    }
    var laces: nat := data[0] as int + 1;
    match kind
    case 1 => r := ReadXiphLaces(data[1..], laces);
    case 2 =>
      var laceSize := new int[laces](_ => 0);
      var n := 0;
      while n < laces
        invariant 0 <= n <= laces && forall i :: 0 <= i < n ==> laceSize[i] == |data[1..]| / laces
      {
        laceSize[n] := |data[1..]| / laces;
        n := n + 1;
      }
      assert laceSize[..] == FixedLaces(data[1..], laces).sizes;
      r := Laces(laceSize[..], data[1..], true);
    case _ => r := ReadEbmlLaces(data[1..], laces);
  }
}
