/**
  What matroska_parse_block of tsMuxer/matroskaDemuxer.cpp makes of lace headers that do not fit their
  block: which are refused, which are only noted, and the sizes it goes on with.
  */
module LaceFaults {
  import opened Bits
  import opened EbmlNumbers
  import opened EbmlReader
  import opened Lacing

  // ------------------------------------------------------------------ Xiph lacing

  /** Bytes that end a Xiph size. */
  function Ends(d: seq<Byte>): nat { if d == [] then 0 else Ends(d[1..]) + if d[0] == 0xFF then 0 else 1 }

  lemma {:induction false} XiphNumEnds(d: seq<Byte>)
    ensures XiphNum(d).Short? <==> Ends(d) == 0
    ensures XiphNum(d).Taken? ==> Ends(XiphNum(d).rest) == Ends(d) - 1
  {
    if d != [] && d[0] == 0xFF {
      XiphNumEnds(d[1..]);
    }
  }

  lemma {:induction false} XiphSizesEnd(d: seq<Byte>, n: nat)
    ensures XiphSizes(d, n).Short? <==> Ends(d) < n
    decreases n
  {
    hide XiphNum, Ends, Int32;
    if n > 0 {
      XiphNumEnds(d);
      if XiphNum(d).Taken? {
        XiphSizesEnd(XiphNum(d).rest, n - 1);
      }
    }
  }

  /** A Xiph header is refused exactly if it has fewer sizes than it announces. */
  lemma XiphFailsExactly(announced: Byte, d: seq<Byte>)
    ensures ReadLaces([announced] + d, 1) == Failed <==> Ends(d) < announced as int
  {
    hide XiphSizes, Sum, Int32;
    assert ([announced] + d)[1..] == d;
    XiphSizesEnd(d, announced);
  }

  /** Its sizes are taken as they are; the last one is what remains, and is left at zero with a note if nothing does. */
  lemma XiphSizesExactly(sizes: seq<nat>, data: seq<Byte>)
    requires |sizes| <= 255 && Ints(sizes)
    ensures ReadLaces([|sizes|] + (XiphList(sizes) + data), 1)
         == if sizes == [] then Laces([0], data, true)
            else if Int32(Sum(sizes)) > |data| then Laces(sizes + [0], data, false)
            else Laces(sizes + [Int32(|data| - Sum(sizes))], data, true)
  {
    hide *;
    var d := XiphList(sizes) + data;
    XiphListRoundTrip(sizes, data);
    XiphResult(d, sizes, data);
    XiphIsRead(|sizes|, d);
  }

  lemma XiphIsRead(announced: Byte, d: seq<Byte>)
    ensures ReadLaces([announced] + d, 1) == XiphLaces(d, announced as int + 1)
  {
    hide XiphLaces;
    assert ([announced] + d)[1..] == d;
  }

  lemma XiphResult(d: seq<Byte>, sizes: seq<nat>, data: seq<Byte>)
    requires XiphSizes(d, |sizes|) == Taken(sizes, data)
    ensures XiphLaces(d, |sizes| + 1)
         == if sizes == [] then Laces([0], data, true)
            else if Int32(Sum(sizes)) > |data| then Laces(sizes + [0], data, false)
            else Laces(sizes + [Int32(|data| - Sum(sizes))], data, true)
  {
    hide XiphSizes;
    if sizes == [] {
      NothingSummed(data);
    } else {
      hide Sum, Int32;
    }
  }

  lemma NothingSummed(data: seq<Byte>)
    ensures Sum([]) == 0 && Int32(0) == 0
  {}

  // ------------------------------------------------------------------ EBML lacing

  /** The reserved form counts as -1, as a first size and as a difference. */
  lemma ReservedSizes(w: nat, data: seq<Byte>)
    requires 1 <= w <= 8
    ensures BlockDelta(UnknownSize(w) + data) == Delta(-1, w)
    ensures ReadLaces([0] + (UnknownSize(w) + data), 3) == Laces([-1], data, false)
  {
    hide BlockNum, DeltaSizes, Pow2;
    UnknownSizeReads(w, data);
    var d := UnknownSize(w) + data;
    assert ([0] + d)[1..] == d && d[w..] == data;
  }

  /** A single size is taken as it is read. */
  lemma SingleSize(size: nat, data: seq<Byte>)
    requires size < Pow2(56) - 1
    ensures ReadLaces([0] + (SizeBytes(size) + data), 3) == Laces([Int32(size)], data, Int32(size) >= 0)
  {
    hide BlockNum, DeltaSizes, Pow2, SizeFixed, Int32;
    BlockNumRoundTrip(size, data);
    var d := SizeBytes(size) + data;
    assert ([0] + d)[1..] == d && d[SizeSize(size)..] == data;
  }

  /** With no first size all of them are left at zero. */
  lemma NoFirstSize(announced: Byte, d: seq<Byte>)
    requires BlockNum(d).Invalid?
    ensures ReadLaces([announced] + d, 3) == Laces(seq(announced as int + 1, _ => 0), d, false)
  {
    hide BlockNum, DeltaSizes;
    assert ([announced] + d)[1..] == d;
  }

  /** Well-read sizes that ask for more than there is leave a negative rest, which is noted. */
  lemma {:induction false} SizesExactly(sizes: seq<nat>, data: seq<Byte>)
    requires 1 <= |sizes| <= 255 && Ints(sizes) && CloseEnough(sizes[0], sizes[1..])
    ensures var last := Int32(|data| - Sum(sizes));
            ReadLaces([|sizes|] + (SizeList(sizes, 3) + data), 3) == Laces(sizes + [last], data, last >= 0)
  {
    hide BlockNum, DeltaSizes, Sum, Int32, SizeBytes, DeltaList, CloseEnough;
    var head, more := SizeBytes(sizes[0]), DeltaList(sizes[0], sizes[1..]) + data;
    HeaderReads(sizes, data);
    var d := SizeList(sizes, 3) + data;
    assert ([|sizes| as Byte] + d)[1..] == d;
    EbmlResult(head, more, sizes, data, |sizes|, true);
    var last := Int32(|data| - Sum(sizes));
    assert sizes + [last] + Zeros(0) == sizes + [last];
  }

  /** A difference that cannot be read ends the list: the next size is what remains, those behind it are zero. */
  lemma {:induction false} SizesStop(sizes: seq<nat>, bad: seq<Byte>, announced: nat)
    requires 1 <= |sizes| < announced <= 255 && Ints(sizes) && CloseEnough(sizes[0], sizes[1..]) && BlockNum(bad).Invalid?
    ensures ReadLaces([announced] + (SizeList(sizes, 3) + bad), 3)
         == Laces(sizes + [Int32(|bad| - Sum(sizes))] + seq(announced - |sizes|, _ => 0), bad, false)
  {
    hide BlockNum, DeltaSizes, Sum, Int32, SizeBytes, DeltaList, CloseEnough;
    var head, more := SizeBytes(sizes[0]), DeltaList(sizes[0], sizes[1..]) + bad;
    HeaderReads(sizes, bad);
    DeltasStop(sizes[0], sizes[1..], bad, announced - 1);
    var d := SizeList(sizes, 3) + bad;
    assert ([announced as Byte] + d)[1..] == d;
    EbmlResult(head, more, sizes, bad, announced, false);
  }

  lemma HeaderReads(sizes: seq<nat>, data: seq<Byte>)
    requires sizes != [] && Ints(sizes) && CloseEnough(sizes[0], sizes[1..])
    ensures var head, more := SizeBytes(sizes[0]), DeltaList(sizes[0], sizes[1..]) + data;
            && SizeList(sizes, 3) + data == head + more && BlockNum(head + more) == Num(sizes[0], |head|) && Int32(sizes[0]) == sizes[0]
            && DeltaSizes(sizes[0], more, |sizes| - 1) == Run(sizes[1..], data, true, false)
  {
    hide BlockNum, DeltaSizes, Int32, SizeFixed, DeltaList, CloseEnough, Pow2;
    EbmlHeader(sizes);
    SmallSize(sizes[0]);
    BlockNumRoundTrip(sizes[0], DeltaList(sizes[0], sizes[1..]) + data);
    DeltaListRoundTrip(sizes[0], sizes[1..], data);
  }

  lemma {:induction false} DeltasStop(previous: int, sizes: seq<nat>, bad: seq<Byte>, n: nat)
    requires CloseEnough(previous, sizes) && Ints(sizes) && |sizes| < n && BlockNum(bad).Invalid?
    ensures DeltaSizes(previous, DeltaList(previous, sizes) + bad, n) == Run(sizes, bad, false, false)
    decreases |sizes|
  {
    hide DeltaBytes, BlockNum, Fits, Bias, DeltaWidth, Pow2, Int32;
    if sizes == [] {
      assert DeltaList(previous, sizes) + bad == bad;
    } else {
      hide BlockDelta, DeltaSizes;
      var delta := sizes[0] - previous;
      var head := DeltaBytes(delta, DeltaWidth(delta));
      var more := DeltaList(sizes[0], sizes[1..]) + bad;
      assert DeltaList(previous, sizes) + bad == head + more;
      DeltaRoundTrip(delta, DeltaWidth(delta), more);
      DeltaStep(previous, head, delta, more, n - 1);
      DeltasStop(sizes[0], sizes[1..], bad, n - 1);
    }
  }

  /** The sizes read, put into the lace array. */
  lemma EbmlResult(head: seq<Byte>, more: seq<Byte>, sizes: seq<nat>, rest: seq<Byte>, announced: nat, good: bool)
    requires 1 <= |sizes| <= announced <= 255 && BlockNum(head + more) == Num(sizes[0], |head|) && Int32(sizes[0]) == sizes[0]
    requires DeltaSizes(sizes[0], more, announced - 1) == Run(sizes[1..], rest, good, false)
    ensures var last := Int32(|rest| - Sum(sizes));
            EbmlLaces(head + more, announced + 1) == Laces(sizes + [last] + Zeros(announced - |sizes|), rest, good && last >= 0)
  {
    hide BlockNum, DeltaSizes, Sum, Int32;
    assert (head + more)[|head|..] == more;
    var ints: seq<int> := sizes;
    assert [sizes[0]] + sizes[1..] == ints;
    var last := Int32(|rest| - Sum(sizes));
    var all := ints + [last] + Zeros(announced - |sizes|);
    assert all[|sizes|] == last;
  }
}
