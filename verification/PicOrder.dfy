/**
  HEVC picture order (tsMuxer/hevcStreamReader.cpp): the full order is recovered from its low bits,
  and presentation times follow from it (section 8.3.1 of ITU-T H.265).
  */
module PicOrder {
  import opened Bits

  /** The reader's timing fields. */
  datatype Timing = Timing(frameNum: int, base: int, msb: int, prev: int, full: int, total: nat, dts: int, pts: int, depth: int)

  /** A picture: the true picture order count, counted from its IDR picture. */
  datatype Pic = Pic(idr: bool, poc: int)

  /** What the slice header carries. */
  function Lsb(p: Pic, range: nat): (lsb: int)
    requires range > 0
    ensures 0 <= lsb < range
  {
    if p.idr then 0 else p.poc % range
  }

  /** toFullPicOrder. */
  function ToFull(t: Timing, idr: bool, lsb: int, range: nat): Timing {
    var u := if idr then t.(base := t.frameNum, msb := 0, prev := 0)
             else if lsb < t.prev && t.prev - lsb >= range / 2 then t.(msb := t.msb + range, prev := lsb)
             else if lsb > t.prev && lsb - t.prev >= range / 2 then t.(msb := t.msb - range, prev := lsb)
             else t.(prev := lsb);
    u.(full := lsb + u.msb + u.base)
  }

  /** incTimings. */
  function Inc(t: Timing, step: int): Timing {
    var dts := if t.total > 0 then t.dts + step else t.dts;
    var delta := t.frameNum - t.full;
    t.(total := t.total + 1, dts := dts, pts := dts - delta * step, frameNum := t.frameNum + 1,
       depth := if delta > t.depth then (if delta < 4 then delta else 4) else t.depth)
  }

  function Picture(t: Timing, p: Pic, range: nat, step: int): Timing
    requires range > 0
  {
    Inc(ToFull(t, p.idr, Lsb(p, range), range), step)
  }

  function Start(dts: int): Timing { Timing(0, 0, 0, 0, 0, 0, dts, dts, 1) }

  function Run(ps: seq<Pic>, range: nat, step: int, dts: int): Timing
    requires range > 0
  {
    if ps == [] then Start(dts) else Picture(Run(ps[..|ps| - 1], range, step, dts), ps[|ps| - 1], range, step)
  }

  // ------------------------------------------------------------------ one picture

  /** The fields stand for the true count of the picture before. */
  predicate Tracks(t: Timing, poc: int, range: nat)
    requires range > 0
  {
    t.msb + t.prev == poc && t.prev == poc % range
  }

  /** The change the low bits can tell: less than half the range, or half of it on the right side. */
  predicate Tellable(d: int, prev: int, range: nat) {
    var half: int := range / 2;
    0 - half < d < half || (d == half && prev >= half) || (d == 0 - half && prev < half)
  }

  lemma ModDifference(a: int, b: int, range: nat) returns (k: int)
    requires range > 0
    ensures b % range - a % range == b - a + k * range
  {
    k := a / range - b / range;
    assert a == (a / range) * range + a % range && b == (b / range) * range + b % range;
    assert k * range == (a / range) * range - (b / range) * range;
  }

  /** Multiples of the range are far apart. */
  lemma FarApart(k: int, range: nat)
    ensures k > 0 ==> k * range >= range
    ensures k < 0 ==> k * range <= 0 - range
    ensures k > 1 ==> k * range >= 2 * range
    ensures k < -1 ==> k * range <= 0 - 2 * range
  {}

  /** Whatever the pictures: the full order is recovered exactly when the change can be told from the low bits. */
  lemma {:induction false} RecoversExactly(t: Timing, p: Pic, poc: int, range: nat)
    requires range > 0 && range % 2 == 0 && !p.idr && Tracks(t, poc, range)
    ensures var u := ToFull(t, p.idr, Lsb(p, range), range);
            && u.prev == p.poc % range && u.base == t.base && u.full == u.msb + u.prev + u.base
            && (u.msb + u.prev == p.poc <==> Tellable(p.poc - poc, t.prev, range))
  {
    var k := ModDifference(poc, p.poc, range);
    FarApart(k, range);
    var lsb := p.poc % range;
    var d := p.poc - poc;
    assert lsb - t.prev == d + k * range;
    assert 1 * range == range && (-1) * range == 0 - range;
  }

  /** An IDR picture starts over at the number of the frame. */
  lemma IdrStartsOver(t: Timing, p: Pic, range: nat)
    requires range > 0 && p.idr && p.poc == 0
    ensures var u := ToFull(t, p.idr, Lsb(p, range), range);
            Tracks(u, 0, range) && u.base == t.frameNum && u.full == t.frameNum
  {}

  // ------------------------------------------------------------------ whole runs

  /** The index of the last IDR picture, or the start. */
  function BaseOf(ps: seq<Pic>): (b: nat)
    ensures b == 0 || b < |ps|
  {
    if ps == [] then 0
    else if ps[|ps| - 1].idr then |ps| - 1
    else BaseOf(ps[..|ps| - 1])
  }

  function LastPoc(ps: seq<Pic>): int { if ps == [] then 0 else ps[|ps| - 1].poc }

  /** Every picture's count can be told from the one before; a sequence starts with an IDR picture of count zero. */
  predicate AllTellable(ps: seq<Pic>, range: nat)
    requires range > 0
  {
    ps == [] ||
    var p, before := ps[|ps| - 1], ps[..|ps| - 1];
    && AllTellable(before, range)
    && if p.idr then p.poc == 0 else Tellable(p.poc - LastPoc(before), LastPoc(before) % range, range)
  }

  function PocBefore(ps: seq<Pic>, i: nat): int
    requires i <= |ps|
  {
    if i == 0 then 0 else ps[i - 1].poc
  }

  /** What the standard asks of a stream: a change below half the range. */
  predicate SmallChange(ps: seq<Pic>, i: nat, range: nat)
    requires i < |ps|
  {
    if ps[i].idr then ps[i].poc == 0
    else 2 * (ps[i].poc - PocBefore(ps, i)) < range && 2 * (PocBefore(ps, i) - ps[i].poc) < range
  }

  /** In particular, changes below half the range are enough. */
  lemma {:induction false} SmallChangesAreTellable(ps: seq<Pic>, range: nat)
    requires range > 0 && range % 2 == 0
    requires forall i :: 0 <= i < |ps| ==> SmallChange(ps, i, range)
    ensures AllTellable(ps, range)
  {
    if ps != [] {
      var before := ps[..|ps| - 1];
      forall i | 0 <= i < |before|
        ensures SmallChange(before, i, range)
      {
        assert SmallChange(ps, i, range);
      }
      SmallChangesAreTellable(before, range);
      assert SmallChange(ps, |ps| - 1, range);
    }
  }

  /** What a picture does to the order, the reader having followed the pictures before it. */
  lemma {:induction false} OrderStep(t: Timing, p: Pic, poc: int, base: int, range: nat)
    requires range > 0 && range % 2 == 0 && Tracks(t, poc, range) && t.base == base
    requires p.idr ==> p.poc == 0
    ensures var u := ToFull(t, p.idr, Lsb(p, range), range);
            && (u.msb + u.prev == p.poc <==> p.idr || Tellable(p.poc - poc, poc % range, range))
            && u.prev == p.poc % range && u.full == u.msb + u.prev + u.base
            && u.base == if p.idr then t.frameNum else base
  {
    hide ToFull, Tellable;
    if p.idr {
      IdrStartsOver(t, p, range);
    } else {
      RecoversExactly(t, p, poc, range);
    }
  }

  /** The reader's fields after the pictures. */
  predicate Recovered(t: Timing, ps: seq<Pic>, range: nat, step: int, dts: int)
    requires range > 0
  {
    && t.frameNum == t.total == |ps| && t.base == BaseOf(ps) && Tracks(t, LastPoc(ps), range)
    && (if ps == [] then t.dts == dts
        else && t.full == BaseOf(ps) + LastPoc(ps)
             && t.dts == dts + (|ps| - 1) * step
             && t.pts == dts + t.full * step)
  }

  lemma {:induction false} TimesStep(t: Timing, p: Pic, ps: seq<Pic>, range: nat, step: int, dts: int)
    requires range > 0 && ps != [] && ps[|ps| - 1] == p && Recovered(t, ps[..|ps| - 1], range, step, dts)
    requires var u := ToFull(t, p.idr, Lsb(p, range), range);
             && u.msb + u.prev == p.poc && u.prev == p.poc % range && u.full == u.msb + u.prev + u.base
             && u.base == if p.idr then t.frameNum else t.base
    ensures Recovered(Picture(t, p, range, step), ps, range, step, dts)
  {
    hide Inc, ToFull;
    var n := |ps| - 1;
    var u := ToFull(t, p.idr, Lsb(p, range), range);
    ToFullKeeps(t, p.idr, Lsb(p, range), range);
    TimesOf(u, step);
    assert n >= 1 ==> (n - 1) * step + step == n * step;
    assert n * step - (n - u.full) * step == u.full * step;
  }

  /**
    Over a whole run: the full order of the last picture is its count from the base, and its times
    are the start time plus so many frames.
    */
  lemma {:induction false} RunRecovers(ps: seq<Pic>, range: nat, step: int, dts: int)
    requires range > 0 && range % 2 == 0 && AllTellable(ps, range)
    ensures Recovered(Run(ps, range, step, dts), ps, range, step, dts)
  {
    if ps == [] {
    } else {
      hide Inc, ToFull, Run, Tellable, Picture;
      var n := |ps| - 1;
      var before, p := ps[..n], ps[n];
      RunRecovers(before, range, step, dts);
      var t := Run(before, range, step, dts);
      OrderStep(t, p, LastPoc(before), BaseOf(before), range);
      TimesStep(t, p, ps, range, step, dts);
    }
  }

  /** After every picture the count is the true one. */
  predicate AllRecovered(ps: seq<Pic>, range: nat, step: int, dts: int)
    requires range > 0
  {
    ps == [] ||
    var t := Run(ps, range, step, dts);
    AllRecovered(ps[..|ps| - 1], range, step, dts) && t.msb + t.prev == LastPoc(ps)
  }

  /** Over whole runs the recovery works exactly for the streams whose changes can all be told. */
  lemma {:induction false} RecoveredExactly(ps: seq<Pic>, range: nat, step: int, dts: int)
    requires range > 0 && range % 2 == 0
    requires forall p :: p in ps && p.idr ==> p.poc == 0
    ensures AllRecovered(ps, range, step, dts) <==> AllTellable(ps, range)
  {
    if ps != [] {
      hide Inc, ToFull, Run, Tellable;
      var n := |ps| - 1;
      var before, p := ps[..n], ps[n];
      RecoveredExactly(before, range, step, dts);
      if AllTellable(before, range) {
        RunRecovers(before, range, step, dts);
        var t := Run(before, range, step, dts);
        OrderStep(t, p, LastPoc(before), BaseOf(before), range);
        TimesOf(ToFull(t, p.idr, Lsb(p, range), range), step);
      }
    }
  }

  lemma ToFullKeeps(t: Timing, idr: bool, lsb: int, range: nat)
    ensures var u := ToFull(t, idr, lsb, range);
            u.frameNum == t.frameNum && u.total == t.total && u.dts == t.dts && u.depth == t.depth
  {}

  lemma TimesOf(t: Timing, step: int)
    ensures var u := Inc(t, step);
            && u.frameNum == t.frameNum + 1 && u.total == t.total + 1 && u.base == t.base && u.msb == t.msb && u.prev == t.prev
            && u.full == t.full && u.dts == (if t.total > 0 then t.dts + step else t.dts)
            && u.pts == u.dts - (t.frameNum - t.full) * step
  {}

  /** So in a sequence, pictures are presented in the order of their counts. */
  lemma {:induction false} PresentationOrder(ps: seq<Pic>, qs: seq<Pic>, range: nat, step: int, dts: int)
    requires range > 0 && range % 2 == 0 && step > 0 && ps != [] && qs != []
    requires AllTellable(ps, range) && AllTellable(qs, range) && BaseOf(ps) == BaseOf(qs)
    ensures Run(ps, range, step, dts).pts < Run(qs, range, step, dts).pts <==> LastPoc(ps) < LastPoc(qs)
    ensures Run(ps, range, step, dts).pts == Run(qs, range, step, dts).pts <==> LastPoc(ps) == LastPoc(qs)
  {
    hide Run, AllTellable;
    RunRecovers(ps, range, step, dts);
    RunRecovers(qs, range, step, dts);
    var a, b := BaseOf(ps) + LastPoc(ps), BaseOf(qs) + LastPoc(qs);
    Ordered(a, b, step);
    Ordered(b, a, step);
  }

  lemma Ordered(a: int, b: int, step: int)
    requires step > 0
    ensures a < b ==> a * step < b * step
  {
    if a < b {
      MulGrows(b - a, step);
      assert (b - a) * step == b * step - a * step;
    }
  }

  /** The frame depth only grows, from one to at most four. */
  lemma {:induction false} DepthIsBounded(ps: seq<Pic>, range: nat, step: int, dts: int)
    requires range > 0
    ensures 1 <= Run(ps, range, step, dts).depth <= 4
    ensures ps != [] ==> Run(ps[..|ps| - 1], range, step, dts).depth <= Run(ps, range, step, dts).depth
  {
    if ps != [] {
      DepthIsBounded(ps[..|ps| - 1], range, step, dts);
    }
  }

  /** How far a picture's place behind its IDR picture exceeds its count. */
  function Ahead(ps: seq<Pic>, i: nat): int
    requires i < |ps|
  {
    (i - BaseOf(ps[..i + 1])) - ps[i].poc
  }

  /** The larger of one and the greatest such excess. */
  ghost predicate Greatest(ps: seq<Pic>, g: int) {
    && g >= 1 && (forall i :: 0 <= i < |ps| ==> Ahead(ps, i) <= g)
    && (g == 1 || exists i :: 0 <= i < |ps| && Ahead(ps, i) == g)
  }

  lemma GreatestStep(ps: seq<Pic>, g: int)
    requires ps != [] && Greatest(ps[..|ps| - 1], g)
    ensures var n := |ps| - 1; Greatest(ps, if Ahead(ps, n) > g then Ahead(ps, n) else g)
  {
    hide BaseOf;
    var n := |ps| - 1;
    var before := ps[..n];
    forall i | 0 <= i < n
      ensures Ahead(ps, i) == Ahead(before, i)
    {
      assert before[..i + 1] == ps[..i + 1];
    }
    if g > 1 {
      var i :| 0 <= i < n && Ahead(before, i) == g;
      assert Ahead(ps, i) == g;
    }
  }

  /** The frame depth is the greatest reordering so far: at least one, at most four. */
  lemma {:induction false} DepthIsGreatest(ps: seq<Pic>, range: nat, step: int, dts: int) returns (g: int)
    requires range > 0 && range % 2 == 0 && AllTellable(ps, range)
    ensures Greatest(ps, g)
    ensures Run(ps, range, step, dts).depth == if g < 4 then g else 4
  {
    if ps == [] {
      g := 1;
    } else {
      hide Run, Tellable, BaseOf, ToFull;
      var n := |ps| - 1;
      var before, p := ps[..n], ps[n];
      var t := Run(before, range, step, dts);
      g := DepthIsGreatest(before, range, step, dts);
      GreatestStep(ps, g);
      RunStep(ps, range, step, dts);
      RunRecovers(before, range, step, dts);
      RunRecovers(ps, range, step, dts);
      ToFullKeeps(t, p.idr, Lsb(p, range), range);
      TimesOf(ToFull(t, p.idr, Lsb(p, range), range), step);
      assert ps[..n + 1] == ps;
      g := if Ahead(ps, n) > g then Ahead(ps, n) else g;
    }
  }

  lemma RunStep(ps: seq<Pic>, range: nat, step: int, dts: int)
    requires range > 0 && ps != []
    ensures Run(ps, range, step, dts) == Picture(Run(ps[..|ps| - 1], range, step, dts), ps[|ps| - 1], range, step)
  {
    hide Picture;
  }

  /** Shifted back by the frame depth, no picture is decoded after it is presented - exactly if it is not reordered by more than four. */
  lemma {:induction false} DecodedInTime(ps: seq<Pic>, range: nat, step: int, dts: int)
    requires range > 0 && step > 0 && ps != []
    ensures var t := Run(ps, range, step, dts);
            t.dts - t.depth * step <= t.pts <==> t.frameNum - 1 - t.full <= 4
  {
    hide ToFull;
    var before := Run(ps[..|ps| - 1], range, step, dts);
    DepthIsBounded(ps[..|ps| - 1], range, step, dts);
    ToFullKeeps(before, ps[|ps| - 1].idr, Lsb(ps[|ps| - 1], range), range);
    var u := ToFull(before, ps[|ps| - 1].idr, Lsb(ps[|ps| - 1], range), range);
    var t := Inc(u, step);
    var delta := u.frameNum - u.full;
    assert t.pts == t.dts - delta * step;
    Ordered(delta, t.depth, step);
    Ordered(t.depth, delta, step);
  }

  /** In the stream's own terms: the last picture's place behind its IDR picture exceeds its count by at most four. */
  lemma StreamDecodedInTime(ps: seq<Pic>, range: nat, step: int, dts: int)
    requires range > 0 && range % 2 == 0 && step > 0 && ps != [] && AllTellable(ps, range)
    ensures var t := Run(ps, range, step, dts);
            t.dts - t.depth * step <= t.pts <==> (|ps| - 1 - BaseOf(ps)) - LastPoc(ps) <= 4
  {
    hide Run, AllTellable, LastPoc, BaseOf;
    RunRecovers(ps, range, step, dts);
    DecodedInTime(ps, range, step, dts);
  }

  // ------------------------------------------------------------------ the reader

  class HevcTimings {
    const step: int
    var frameNum: int
    var picOrderBase: int
    var picOrderMsb: int
    var prevPicOrder: int
    var fullPicOrder: int
    var totalFrameNum: nat
    var curDts: int
    var curPts: int
    var frameDepth: int

    ghost function State(): Timing
      reads this
    {
      Timing(frameNum, picOrderBase, picOrderMsb, prevPicOrder, fullPicOrder, totalFrameNum, curDts, curPts, frameDepth)
    }

    constructor (step: int, dts: int)
      ensures this.step == step && State() == Start(dts)
    {
      this.step := step;
      frameNum, picOrderBase, picOrderMsb, prevPicOrder, fullPicOrder := 0, 0, 0, 0, 0;
      totalFrameNum, curDts, curPts, frameDepth := 0, dts, dts, 1;
    }

    /** toFullPicOrder, the slice header carrying `picBits` low bits; the caller stores the result in the field. */
    method ToFullPicOrder(idr: bool, lsb: int, picBits: nat)
      requires picBits >= 1
      modifies this
      ensures State() == ToFull(old(State()), idr, lsb, Pow2(picBits))
    {
      if idr {
        picOrderBase := frameNum;
        picOrderMsb := 0;
        prevPicOrder := 0;
      } else {
        var range := Pow2(picBits);
        if lsb < prevPicOrder && prevPicOrder - lsb >= range / 2 {
          picOrderMsb := picOrderMsb + range;
        } else if lsb > prevPicOrder && lsb - prevPicOrder >= range / 2 {
          picOrderMsb := picOrderMsb - range;
        }
        prevPicOrder := lsb;
      }
      fullPicOrder := lsb + picOrderMsb + picOrderBase;
    }

    /** incTimings. */
    method IncTimings()
      modifies this
      ensures State() == Inc(old(State()), step)
    {
      if totalFrameNum > 0 {
        curDts := curDts + step;
      }
      totalFrameNum := totalFrameNum + 1;
      var delta := frameNum - fullPicOrder;
      curPts := curDts - delta * step;
      frameNum := frameNum + 1;
      if delta > frameDepth {
        frameDepth := if delta < 4 then delta else 4;
      }
    }
  }
}
