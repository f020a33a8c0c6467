/**
  Laced blocks, written as section 10.3 of RFC 9559 has them and read by matroska_parse_block and
  matroska_parse_blockgroup of tsMuxer/matroskaDemuxer.cpp: each frame comes back as a packet of its own.
  */
module LacedBlocks {
  import opened Bits
  import opened EbmlNumbers
  import opened EbmlReader
  import opened EbmlLevels
  import opened LaceFaults
  import opened Lacing
  import opened Cluster

  // ------------------------------------------------------------------ the block

  /** Frames that a kind of lacing holds: none, Xiph, fixed size, EBML. */
  predicate Holdable(frames: seq<seq<Byte>>, kind: nat) {
    if kind == 0 then |frames| == 1 && frames[0] != [] else Encodable(frames, kind)
  }

  /** A block's head after its track: `spare` are the bits the reader has no use for. */
  datatype Head = Head(track: nat, offset: int, key: bool, spare: nat)

  predicate HeadOk(h: Head, tracks: seq<Track>) {
    && h.track < Pow2(56) - 1 && -0x8000 <= h.offset < 0x8000 && h.spare < 32
    && FindTrack(tracks, h.track) >= 0 && tracks[FindTrack(tracks, h.track)].streamIndex >= 0
  }

  /** The flags: key frame, four spare bits, two bits of lacing, one spare bit. */
  function Flags(h: Head, kind: nat): Byte
    requires h.spare < 32 && kind <= 3
  {
    (if h.key then 128 else 0) + h.spare / 2 * 8 + 2 * kind + h.spare % 2
  }

  function LacedContent(h: Head, frames: seq<seq<Byte>>, kind: nat): seq<Byte>
    requires h.spare < 32 && Holdable(frames, kind)
  {
    SizeBytes(h.track) + ([h.offset / 256 % 256, h.offset % 256, Flags(h, kind)]
                          + if kind == 0 then frames[0] else Laced(frames, kind))
  }

  // ------------------------------------------------------------------ the packets

  /** Track, position, bytes and key flag of the packets; only the first can be a key frame. */
  predicate FramesIn(ps: seq<Packet>, frames: seq<seq<Byte>>, stream: nat, key: bool, pos: nat) {
    && |ps| == |frames|
    && forall i :: 0 <= i < |ps| ==>
         ps[i].stream == stream && ps[i].pos == pos && ps[i].data == frames[i] && ps[i].key == (key && i == 0)
  }

  /** The time of the first frame, or none: a cluster's time of -1 stands for none, and an offset must not lead
      below zero. */
  function FirstTime(time: int, offset: int): int {
    if time == -1 || (offset < 0 && time + offset < 0) then NO_PTS else time + offset
  }

  /** The times of the frames, the first one's being `at`: a duration lies between them; without one the time stays, and
      a duration of zero makes it zero, as having none does. */
  predicate TimesIn(ps: seq<Packet>, at: int, duration: int) {
    && (ps != [] ==> ps[0].pts == if at == NO_PTS then 0 else Pts(at))
    && (at == NO_PTS ==> forall i :: 0 <= i < |ps| ==> ps[i].pts == 0)
    && (duration == NO_PTS ==> forall i :: 0 <= i < |ps| ==> ps[i].pts == Pts(at))
    && (duration == 0 ==> forall i :: 0 < i < |ps| ==> ps[i].pts == 0)
    && (at != NO_PTS && duration > 0 && at + (|ps| - 1) * duration < 0x8000_0000_0000_0000 ==>
          forall i :: 0 <= i < |ps| ==> ps[i].pts == Pts(at + i * duration))
  }

  lemma QueuedStep(frames: seq<seq<Byte>>, stream: nat, time: int, duration: int, key: bool, pos: nat)
    requires frames != []
    ensures Queued(frames, stream, time, duration, key, pos)
         == [Packet(stream, Pts(time), key, pos, frames[0])]
            + Queued(frames[1..], stream, NextTime(time, duration), duration, false, pos)
  {}

  lemma {:induction false} QueuedFrames(frames: seq<seq<Byte>>, stream: nat, time: int, duration: int, key: bool, pos: nat)
    ensures FramesIn(Queued(frames, stream, time, duration, key, pos), frames, stream, key, pos)
  {
    hide Pts, NextTime;
    if frames != [] {
      QueuedFrames(frames[1..], stream, NextTime(time, duration), duration, false, pos);
    }
  }

  /** Steps that leave the scaled time alone. */
  lemma {:induction false} QueuedSame(frames: seq<seq<Byte>>, stream: nat, time: int, duration: int, key: bool, pos: nat)
    requires time == NO_PTS || duration == NO_PTS
    ensures var ps := Queued(frames, stream, time, duration, key, pos);
            |ps| == |frames| && forall i :: 0 <= i < |ps| ==> ps[i].pts == Pts(time)
  {
    hide Pts;
    if frames != [] {
      NoDurationKeepsTime(time);
      QueuedSame(frames[1..], stream, NextTime(time, duration), duration, false, pos);
    }
  }

  /** The value that stands for no time, 2^63 below zero, vanishes in the 64-bit product. */
  lemma NoDurationKeepsTime(time: int)
    ensures Pts(NextTime(time, NO_PTS)) == Pts(time) && Pts(NO_PTS) == 0
  {
    PtsOfEarly(-1);
    if time != NO_PTS {
      var v := time + NO_PTS;
      var q := v / 0x1_0000_0000_0000_0000 + if v % 0x1_0000_0000_0000_0000 < 0x8000_0000_0000_0000 then 0 else 1;
      assert Int64(v) == v - q * 0x1_0000_0000_0000_0000;
      Int64Shift(time * PTS_FREQ, -2_646_000_000 - q * PTS_FREQ);
    }
  }

  lemma Int64Shift(a: int, k: int)
    ensures Int64(a + k * 0x1_0000_0000_0000_0000) == Int64(a)
  {
    var b, m := a + k * 0x1_0000_0000_0000_0000, 0x1_0000_0000_0000_0000;
    assert b == (a / m + k) * m + a % m;
    DivModUnique(b, m, a / m + k, a % m);
  }

  lemma {:induction false} QueuedTimes(frames: seq<seq<Byte>>, stream: nat, time: int, duration: int, key: bool, pos: nat, i: nat)
    requires time > NO_PTS && duration > 0 && i < |frames| && time + i * duration < 0x8000_0000_0000_0000
    ensures var ps := Queued(frames, stream, time, duration, key, pos); |ps| == |frames| && ps[i].pts == Pts(time + i * duration)
    decreases i
  {
    hide Pts, Queued, Int64;
    QueuedFrames(frames, stream, time, duration, key, pos);
    QueuedStep(frames, stream, time, duration, key, pos);
    if i > 0 {
      OneLess(i, duration);
      MulMonotone(1, i, duration);
      Int64Same(time + duration);
      QueuedTimes(frames[1..], stream, time + duration, duration, false, pos, i - 1);
    }
  }

  lemma OneLess(i: nat, duration: int)
    requires i > 0
    ensures duration + (i - 1) * duration == i * duration
  {}

  lemma Int64Same(v: int)
    requires -0x8000_0000_0000_0000 <= v < 0x8000_0000_0000_0000
    ensures Int64(v) == v
  {}

  lemma {:induction false} QueuedInTime(frames: seq<seq<Byte>>, stream: nat, at: int, duration: int, key: bool, pos: nat)
    requires frames != [] && at >= NO_PTS
    ensures TimesIn(Queued(frames, stream, at, duration, key, pos), at, duration)
  {
    hide Pts, Queued;
    QueuedFrames(frames, stream, at, duration, key, pos);
    QueuedStep(frames, stream, at, duration, key, pos);
    NoDurationKeepsTime(0);
    if at == NO_PTS || duration == NO_PTS {
      QueuedSame(frames, stream, at, duration, key, pos);
    } else if duration == 0 {
      QueuedSame(frames[1..], stream, NO_PTS, duration, false, pos);
    } else if duration > 0 && at + (|frames| - 1) * duration < 0x8000_0000_0000_0000 {
      forall i | 0 <= i < |frames|
        ensures Queued(frames, stream, at, duration, key, pos)[i].pts == Pts(at + i * duration)
      {
        MulMonotone(i, |frames| - 1, duration);
        QueuedTimes(frames, stream, at, duration, key, pos, i);
      }
    }
  }

  // ------------------------------------------------------------------ blocks that were written

  lemma FlagsRead(h: Head, kind: nat)
    requires h.spare < 32 && kind <= 3
    ensures Flags(h, kind) as int / 2 % 4 == kind && (Flags(h, kind) as int >= 0x80 <==> h.key)
  {}

  /** What the frames are cut from. */
  lemma LacesRead(frames: seq<seq<Byte>>, kind: nat)
    requires kind <= 3 && Holdable(frames, kind)
    ensures var d := if kind == 0 then frames[0] else Laced(frames, kind);
            var l := ReadLaces(d, kind);
            d != [] && l.Laces? && Cut(l.sizes, l.rest) == frames
  {
    hide Laced, ReadLaces, Cut, CloseEnough, Concat;
    if kind == 0 {
      var f := frames[0];
      NoLacing(f);
      CutAll(f);
      assert frames == [f];
    } else {
      LacingRoundTrip(frames, kind);
      LacedNotEmpty(frames, kind);
    }
  }

  lemma CutAll(f: seq<Byte>)
    ensures Cut([|f|], f) == [f]
  {
    assert f[..|f|] == f && f[|f|..] == [] && [|f|][1..] == [];
    assert Cut([|f|], f) == [f] + Cut([], []);
  }

  lemma LacedNotEmpty(frames: seq<seq<Byte>>, kind: nat)
    requires Encodable(frames, kind)
    ensures Laced(frames, kind) != []
  {
    hide SizeList, Concat, CloseEnough;
  }

  /**
    A block comes back frame by frame, whatever its lacing: the track, the position and the bytes of each, a key
    frame at most first, and times a duration apart.
    */
  lemma {:induction false} LacedBlockRoundTrip(h: Head, frames: seq<seq<Byte>>, kind: nat, tracks: seq<Track>, time: int, pos: nat,
                                               duration: int, key: KeyFlag)
    requires HeadOk(h, tracks) && kind <= 3 && Holdable(frames, kind) && time >= NO_PTS
    ensures var r := ParseBlock(tracks, LacedContent(h, frames, kind), pos, time, duration, key);
            && r.0 == Done && TimesIn(r.1, FirstTime(time, h.offset), duration)
            && FramesIn(r.1, frames, FindTrack(tracks, h.track) + 1, if key.Given? then key.key else h.key, pos)
  {
    hide SizeBytes, BlockNum, Pow2, Pts, FindTrack, Queued, Cut, ReadLaces, Laced, CloseEnough, Concat, FramesIn, TimesIn, Flags, Int16;
    var body := if kind == 0 then frames[0] else Laced(frames, kind);
    var d := [h.offset / 256 % 256, h.offset % 256, Flags(h, kind)] + body;
    BlockNumRoundTrip(h.track, d);
    assert LacedContent(h, frames, kind)[SizeSize(h.track)..] == d;
    LacesRead(frames, kind);
    FlagsRead(h, kind);
    OffsetReads(h.offset);
    assert d[3..] == body;
    var stream: nat := FindTrack(tracks, h.track) + 1;
    var isKey := if key.Given? then key.key else h.key;
    var at := FirstTime(time, h.offset);
    assert frames != [] by { SomeFrames(frames, kind); }
    QueuedFrames(frames, stream, at, duration, isKey, pos);
    QueuedInTime(frames, stream, at, duration, isKey, pos);
  }

  lemma SomeFrames(frames: seq<seq<Byte>>, kind: nat)
    requires Holdable(frames, kind)
    ensures frames != []
  {}

  /** Blocks that give nothing, and say nothing: without a readable track number, of a track that is not known or not
      wanted, or with no byte behind the flags. */
  lemma RefusedBlock(data: seq<Byte>, d: seq<Byte>, track: nat, tracks: seq<Track>, time: int, pos: nat, duration: int, key: KeyFlag)
    requires || data == [] || data[0] == 0
             || (track < Pow2(56) - 1 && data == SizeBytes(track) + d
                 && (|d| <= 3 || FindTrack(tracks, track) < 0 || tracks[FindTrack(tracks, track)].streamIndex < 0))
    ensures ParseBlock(tracks, data, pos, time, duration, key) == (Done, [])
  {
    hide SizeBytes, ParseFrames, Pow2, FindTrack;
    if data == [] || data[0] == 0 {
    } else {
      hide BlockNum;
      BlockNumRoundTrip(track, d);
      assert data[SizeSize(track)..] == d;
    }
  }

  /** The reserved form of a track number stands for track -1. */
  lemma ReservedTrack(w: nat, d: seq<Byte>, tracks: seq<Track>, time: int, pos: nat, duration: int, key: KeyFlag)
    requires 1 <= w <= 8
    ensures var r := ParseBlock(tracks, UnknownSize(w) + d, pos, time, duration, key);
            && ((forall i :: 0 <= i < |tracks| ==> tracks[i].num != -1) ==> r == (Done, []))
            && (tracks != [] && tracks[0].num == -1 && tracks[0].streamIndex >= 0 && |d| > 3 && d[2] == 0 ==>
                  r.0 == Done && |r.1| == 1 && r.1[0].stream == 1)
  {
    hide BlockNum, Pts, Cut, Queued, Int16;
    UnknownSizeReads(w, d);
    var data := UnknownSize(w) + d;
    assert data[w..] == d;
    if |d| > 3 && d[2] == 0 && tracks != [] && tracks[0].num == -1 {
      var at := BlockTime(time, Int16(d[0] as int * 256 + d[1] as int));
      OneFrame(d[3..], 1, at, duration, key.Given? && key.key, pos);
    }
  }

  /** A Xiph lace header that announces more sizes than it has spoils the block, and ends the loop that met it. */
  lemma SpoiltBlock(h: Head, announced: Byte, d: seq<Byte>, tracks: seq<Track>, time: int, pos: nat, duration: int, key: KeyFlag)
    requires HeadOk(h, tracks) && Ends(d) < announced as int
    ensures var data := SizeBytes(h.track) + ([h.offset / 256 % 256, h.offset % 256, Flags(h, 1)] + ([announced] + d));
            ParseBlock(tracks, data, pos, time, duration, key) == (BadLace, [])
  {
    hide SizeBytes, BlockNum, Pow2, FindTrack, Queued, Cut, ReadLaces, Flags, Int16, Ends;
    var body := [announced] + d;
    var b := [h.offset / 256 % 256, h.offset % 256, Flags(h, 1)] + body;
    BlockNumRoundTrip(h.track, b);
    assert (SizeBytes(h.track) + b)[SizeSize(h.track)..] == b && b[3..] == body;
    FlagsRead(h, 1);
    XiphFailsExactly(announced, d);
  }

  /** And from a block group that something follows, with the group's duration and its references. */
  lemma {:induction false} LacedGroupRoundTrip(v: View, h: Head, frames: seq<seq<Byte>>, kind: nat, duration: seq<Byte>,
                                               references: seq<seq<Byte>>, width: SizeWidth, tracks: seq<Track>, time: int,
                                               tail: seq<Byte>, nextId: nat, more: seq<Byte>)
    requires HeadOk(h, tracks) && kind <= 3 && Holdable(frames, kind) && time >= NO_PTS && tail != []
    requires 1 <= |duration| <= 8 && forall i :: 0 <= i < |references| ==> 1 <= |references[i]| <= 8
    requires |LacedContent(h, frames, kind)| < Pow2(7 * width) && |LacedContent(h, frames, kind)| <= INT_MAX
    requires var ts := GroupOf(LacedContent(h, frames, kind), duration, references, width);
             v.rest == Document(ts) + tail && Inside(v, |Document(ts)|, tail, nextId, more)
    ensures var ps, block := ParseGroup(v, tracks, time).packets, v.pos + |Bytes(Leaf(ID_BLOCKDURATION, width, duration))| + 1;
            && FramesIn(ps, frames, FindTrack(tracks, h.track) + 1, references == [], block)
            && TimesIn(ps, FirstTime(time, h.offset), UintOf(duration))
  {
    hide Document, Bytes, Pow2, ParseGroup, ParseBlock, UintOf, Inside, GroupOf, FramesIn, TimesIn, Encodable, FindTrack, LacedContent;
    var block := v.pos + |Bytes(Leaf(ID_BLOCKDURATION, width, duration))| + 1;
    AnyGroupReads(v, LacedContent(h, frames, kind), duration, references, width, tracks, time, tail, nextId, more);
    LacedBlockRoundTrip(h, frames, kind, tracks, time, block, UintOf(duration), Given(references == []));
  }
}
