/**
  Clusters: what matroska_parse_cluster, matroska_parse_blockgroup and matroska_parse_block of
  tsMuxer/matroskaDemuxer.cpp make of the bytes that tsMuxer/matroskaMuxer.cpp buffers for a cluster.
  */
module Cluster {
  import opened Bits
  import opened EbmlNumbers
  import opened BlockStream
  import opened EbmlReader
  import opened EbmlLevels
  import opened Lacing

  const ID_CLUSTER := 0x1F43_B675
  const ID_TIMECODE := 0xE7
  const ID_BLOCKGROUP := 0xA0
  const ID_SIMPLEBLOCK := 0xA3
  const ID_BLOCK := 0xA1
  const ID_BLOCKDURATION := 0x9B
  const ID_BLOCKREFERENCE := 0xFB

  const PTS_FREQ := 5_292_000_000
  const NO_PTS := -0x8000_0000_0000_0000

  // ------------------------------------------------------------------ one block

  /** A track without compression, private-data parser or RealVideo slices. */
  datatype Track = Track(num: int, streamIndex: int)

  datatype Packet = Packet(stream: nat, pts: int, key: bool, pos: nat, data: seq<Byte>)

  /** How a parse loop or a block ends: well, at the end of the file, thrown, with a bad lace, or outside the model. */
  datatype Result = Done | AtEnd | Broken | BadLace | OutOfModel

  function FindTrack(tracks: seq<Track>, num: int): (r: int)
    ensures -1 <= r < |tracks|
    ensures r >= 0 ==> tracks[r].num == num
    ensures r < 0 ==> forall i :: 0 <= i < |tracks| ==> tracks[i].num != num
  {
    if tracks == [] then -1
    else if tracks[0].num == num then 0
    else
      var r := FindTrack(tracks[1..], num);
      assert r < 0 ==> forall i :: 1 <= i < |tracks| ==> tracks[i] == tracks[1..][i - 1];
      if r < 0 then -1 else r + 1
  }

  function Int16(n: int): int {
    var m := n % 0x1_0000;
    if m < 0x8000 then m else m - 0x1_0000
  }

  /** Division that truncates towards zero. */
  function TruncDiv(a: int, b: nat): int
    requires b > 0
  {
    if a >= 0 then a / b else -((-a) / b)
  }

  /** The remainder has the sign of the dividend, and is smaller than the divisor. */
  lemma TruncDivRemainder(a: int, b: nat)
    requires b > 0
    ensures var r := a - b * TruncDiv(a, b); if a >= 0 then 0 <= r < b else -r < b && r <= 0
  {
    var n := if a >= 0 then a else -a;
    assert n == b * (n / b) + n % b;
    assert b * -(n / b) == -(b * (n / b));
  }

  /** Milliseconds to the internal clock, in 64-bit arithmetic. */
  function Pts(ms: int): int { TruncDiv(Int64(ms * PTS_FREQ), 1000) }

  /** The time code of the next frame of a lace. */
  function NextTime(time: int, duration: int): int {
    if time == NO_PTS || duration == 0 then NO_PTS else Int64(time + duration)
  }

  /** The packets of the frames, in order; only the first one can be a key frame. */
  function Queued(frames: seq<seq<Byte>>, stream: nat, time: int, duration: int, key: bool, pos: nat): seq<Packet> {
    if frames == [] then []
    else [Packet(stream, Pts(time), key, pos, frames[0])]
         + Queued(frames[1..], stream, NextTime(time, duration), duration, false, pos)
  }

  /** The time of a block: its 16-bit offset from the cluster, unless the sum would be negative. */
  function BlockTime(clusterTime: int, offset: int): int {
    if clusterTime != -1 && (offset >= 0 || clusterTime >= -offset) then clusterTime + offset else NO_PTS
  }

  /** matroska_parse_block; `key` is absent for a simple block, whose flags tell. */
  datatype KeyFlag = FromFlags | Given(key: bool)

  function ParseBlock(tracks: seq<Track>, data: seq<Byte>, pos: nat, clusterTime: int, duration: int, key: KeyFlag)
    : (r: (Result, seq<Packet>))
  {
    var n := BlockNum(data);
    if n.Invalid? then (Done, [])
    else
      var d := data[n.width..];
      var track := FindTrack(tracks, if n.Num? then n.value else -1);
      if |d| <= 3 || track < 0 || tracks[track].streamIndex < 0 then (Done, [])
      else ParseFrames(track + 1, d, pos, clusterTime, duration, key)
  }

  /** From the block's time on. */
  function ParseFrames(stream: nat, d: seq<Byte>, pos: nat, clusterTime: int, duration: int, key: KeyFlag)
    : (r: (Result, seq<Packet>))
    requires |d| >= 3
  {
    var offset, flags: nat := Int16(d[0] as int * 256 + d[1] as int), d[2];
    var isKey := if key.Given? then key.key else flags >= 0x80;
    match ReadLaces(d[3..], flags / 2 % 4)
    case Failed => (BadLace, [])
    case Undefined => (OutOfModel, [])
    case Laces(sizes, rest, _) =>
      (Done, Queued(Cut(sizes, rest), stream, BlockTime(clusterTime, offset), duration, isKey, pos))
  }

  // ------------------------------------------------------------------ block groups

  datatype Demuxed = Demuxed(view: View, result: Result, packets: seq<Packet>)

  function ResultOf(s: Status): Result {
    match s
    case Ok => Done
    case Eof => AtEnd
    case Thrown => Broken
  }

  /** What a block group has told so far. */
  datatype GroupState = GroupState(key: bool, duration: int, block: seq<Byte>, pos: nat, found: bool)

  /** One element of a block group. */
  function GroupElement(v: View, id: nat, g: GroupState): (r: Read<GroupState>)
    ensures |r.view.rest| <= |v.rest|
    ensures r.status == Ok ==> |r.view.rest| < |v.rest|
  {
    if id == ID_BLOCK then
      var b := Binary(v);
      Read(b.view, b.status, if b.status == Ok then g.(block := b.value, pos := v.pos, found := true) else g)
    else if id == ID_BLOCKDURATION then
      var n := Uint(v);
      Read(n.view, n.status, if n.status == Ok then g.(duration := n.value) else g)
    else if id == ID_BLOCKREFERENCE then
      var n := Sint(v);
      Read(n.view, n.status, g.(key := false))
    else
      var s := Skip(v);
      Read(s.view, s.status, g)
  }

  /** The loop of matroska_parse_blockgroup. */
  function GroupLoop(v: View, g: GroupState): (r: Read<GroupState>)
    ensures |r.view.rest| <= |v.rest|
    decreases |v.rest|
  {
    var i := ElementId(v, true);
    if i.status != Ok then Read(i.view, i.status, g)
    else if i.view.up > 0 then Read(Lower(i.view), Ok, g)
    else
      var e := GroupElement(i.view, i.value, g);
      if e.status != Ok || e.view.up > 0 then e.(view := Lower(e.view))
      else GroupLoop(e.view, e.value)
  }

  /** The block of a group is parsed only when the loop saw the group end. */
  function ParseGroup(v: View, tracks: seq<Track>, clusterTime: int): (r: Demuxed)
    ensures |r.view.rest| <= |v.rest|
  {
    var g := GroupLoop(v, GroupState(true, NO_PTS, [], 0, false));
    if g.status != Ok || !g.value.found then Demuxed(g.view, ResultOf(g.status), [])
    else
      var b := ParseBlock(tracks, g.value.block, g.value.pos, clusterTime, g.value.duration, Given(g.value.key));
      Demuxed(g.view, b.0, b.1)
  }

  // ------------------------------------------------------------------ clusters

  /** One element of a cluster; the new cluster time comes with it. */
  function ClusterElement(v: View, id: nat, tracks: seq<Track>, time: int): (r: (Demuxed, int))
    ensures |r.0.view.rest| <= |v.rest|
    ensures r.0.result == Done ==> |r.0.view.rest| < |v.rest|
  {
    if id == ID_TIMECODE then
      var n := Uint(v);
      (Demuxed(n.view, ResultOf(n.status), []), if n.status == Ok then n.value else time)
    else if id == ID_BLOCKGROUP then
      var m := Master(v);
      (if m.status != Ok then Demuxed(m.view, ResultOf(m.status), []) else ParseGroup(m.view, tracks, time), time)
    else if id == ID_SIMPLEBLOCK then
      var b := Binary(v);
      if b.status != Ok then (Demuxed(b.view, ResultOf(b.status), []), time)
      else
        var p := ParseBlock(tracks, b.value, v.pos, time, NO_PTS, FromFlags);
        (Demuxed(b.view, p.0, p.1), time)
    else
      var s := Skip(v);
      (Demuxed(s.view, ResultOf(s.status), []), time)
  }

  /** matroska_parse_cluster. */
  function ParseCluster(v: View, tracks: seq<Track>, time: int): (r: Demuxed)
    ensures |r.view.rest| <= |v.rest|
    decreases |v.rest|
  {
    var i := ElementId(v, true);
    if i.status != Ok then Demuxed(i.view, ResultOf(i.status), [])
    else if i.view.up > 0 then Demuxed(Lower(i.view), Done, [])
    else if i.value == ID_CLUSTER then Demuxed(i.view, Done, [])
    else
      var e := ClusterElement(i.view, i.value, tracks, time);
      if e.0.result != Done || e.0.view.up > 0 then e.0.(view := Lower(e.0.view))
      else
        var more := ParseCluster(e.0.view, tracks, e.1);
        more.(packets := e.0.packets + more.packets)
  }

  // ------------------------------------------------------------------ what the muxer writes

  /** A frame as flushPendingFrame hands it to the cluster buffer; `offset` is relative to the cluster's time. */
  datatype Block = Block(track: nat, offset: int, key: bool, payload: seq<Byte>)

  function BlockContent(b: Block): seq<Byte> {
    SizeBytes(b.track) + ([b.offset / 256 % 256, b.offset % 256, if b.key then 0x80 else 0] + b.payload)
  }

  function BlockBytes(b: Block): seq<Byte> { Element(ID_SIMPLEBLOCK, BlockContent(b)) }

  function BlocksBytes(bs: seq<Block>): seq<Byte> {
    if bs == [] then [] else BlockBytes(bs[0]) + BlocksBytes(bs[1..])
  }

  /** The content of a cluster: its time, then its blocks. */
  function ClusterContent(time: nat, bs: seq<Block>): seq<Byte> {
    Element(ID_TIMECODE, UintContent(time)) + BlocksBytes(bs)
  }

  /** The reader knows the track, the frame is not empty, and its time is in reach of the cluster. */
  predicate Readable(b: Block, tracks: seq<Track>, time: int) {
    && b.track < Pow2(56) - 1 && b.payload != [] && |BlockContent(b)| <= INT_MAX
    && FindTrack(tracks, b.track) >= 0 && tracks[FindTrack(tracks, b.track)].streamIndex >= 0
    && -0x8000 <= b.offset < 0x8000 && time >= 0 && time + b.offset >= 0
  }

  predicate AllReadable(bs: seq<Block>, tracks: seq<Track>, time: int) {
    forall i :: 0 <= i < |bs| ==> Readable(bs[i], tracks, time)
  }

  /** The packet a block ought to come back as. */
  function PacketOf(b: Block, tracks: seq<Track>, time: int, pos: nat): Packet {
    Packet(FindTrack(tracks, b.track) + 1, Pts(time + b.offset), b.key, pos, b.payload)
  }

  function PacketsOf(bs: seq<Block>, tracks: seq<Track>, time: int, pos: nat): seq<Packet> {
    if bs == [] then [] else [PacketOf(bs[0], tracks, time, pos + 1)] + PacketsOf(bs[1..], tracks, time, pos + |BlockBytes(bs[0])|)
  }

  // ------------------------------------------------------------------ the round trip

  lemma OffsetReads(offset: int)
    requires -0x8000 <= offset < 0x8000
    ensures Int16((offset / 256 % 256) * 256 + offset % 256) == offset
  {}

  lemma {:induction false} OneFrame(payload: seq<Byte>, stream: nat, time: int, duration: int, key: bool, pos: nat)
    ensures Queued(Cut([|payload|], payload), stream, time, duration, key, pos) == [Packet(stream, Pts(time), key, pos, payload)]
  {
    hide Pts;
    assert payload[..|payload|] == payload && payload[|payload|..] == [] && [|payload|][1..] == [];
    assert Cut([|payload|], payload) == [payload] + Cut([], []);
    assert [payload][1..] == [];
  }

  lemma NoLacing(d: seq<Byte>)
    ensures ReadLaces(d, 0) == Laces([|d|], d, true)
  {}

  function KeyOf(key: KeyFlag, b: Block): bool { if key.Given? then key.key else b.key }

  lemma {:induction false} FramesRead(b: Block, stream: nat, pos: nat, time: int, duration: int, key: KeyFlag)
    requires -0x8000 <= b.offset < 0x8000 && time >= 0 && time + b.offset >= 0
    ensures var d := [b.offset / 256 % 256, b.offset % 256, if b.key then 0x80 else 0] + b.payload;
            (ParseFrames(stream, d, pos, time, duration, key)
             == (Done, [Packet(stream, Pts(time + b.offset), KeyOf(key, b), pos, b.payload)]))
  {
    hide Queued, Cut, Pts, Int16, ReadLaces;
    NoLacing(b.payload);
    var d := [b.offset / 256 % 256, b.offset % 256, if b.key then 0x80 else 0] + b.payload;
    assert d[3..] == b.payload;
    OffsetReads(b.offset);
    OneFrame(b.payload, stream, time + b.offset, duration, KeyOf(key, b), pos);
  }

  /** A block that was written is read back: track, time, key flag and frame. */
  lemma {:induction false} BlockRoundTrip(b: Block, tracks: seq<Track>, time: int, pos: nat)
    requires Readable(b, tracks, time)
    ensures ParseBlock(tracks, BlockContent(b), pos, time, NO_PTS, FromFlags) == (Done, [PacketOf(b, tracks, time, pos)])
  {
    hide Readable, ParseBlock, Pts, FindTrack;
    AnyBlockReads(b, tracks, time, pos, NO_PTS, FromFlags);
  }

  /** The same wherever the block stands; in a group the other elements say whether it is a key frame. */
  lemma {:induction false} AnyBlockReads(b: Block, tracks: seq<Track>, time: int, pos: nat, duration: int, key: KeyFlag)
    requires Readable(b, tracks, time)
    ensures ParseBlock(tracks, BlockContent(b), pos, time, duration, key)
         == (Done, [PacketOf(b, tracks, time, pos).(key := KeyOf(key, b))])
  {
    hide SizeBytes, BlockNum, ParseFrames, Pow2, Pts, FindTrack;
    var d := [b.offset / 256 % 256, b.offset % 256, if b.key then 0x80 else 0] + b.payload;
    var n := SizeSize(b.track);
    BlockNumRoundTrip(b.track, d);
    assert BlockContent(b)[n..] == d;
    FramesRead(b, FindTrack(tracks, b.track) + 1, pos, time, duration, key);
  }

  /** A written element, seen by the reader that stands before it. */
  lemma ElementReads(v: View, id: nat, content: seq<Byte>, after: seq<Byte>)
    requires v.peek == 0 && v.up == 0 && v.rest == Element(id, content) + after
    requires ValidId(id) && |content| <= INT_MAX
    requires NoneEndsWithin(v.levels, v.pos, IdSize(id)) && (v.levels != [] ==> v.pos < v.levels[|v.levels| - 1].End())
    ensures var w := v.(rest := SizeBytes(|content|) + (content + after), pos := v.pos + IdSize(id), peek := id);
            var done := v.(rest := after, pos := v.pos + |Element(id, content)|);
            && ElementId(v, true) == Read(w, Ok, id)
            && Binary(w) == Read(done, Ok, content)
            && (1 <= |content| <= 8 ==> Uint(w) == Read(done, Ok, UintOf(content)))
  {
    hide IdBytes, SizeFixed, Pow2, Binary, Skip, Uint, Sint, UintOf, IdSize, SizeSize, ElementId, ValidId, NoneEndsWithin;
    var width := SizeSize(|content|);
    var more := SizeFixed(|content|, width) + (content + after);
    assert v.rest == IdBytes(id) + more;
    ValidIdIsNotZero(id);
    EnterElement(v, id, more, v.pos);
    SmallSize(|content|);
    SizeFits(|content|);
    LeafReaders(v.(rest := more, pos := v.pos + IdSize(id), peek := id), content, width, after);
  }

  lemma SizeFits(size: nat)
    requires size < Pow2(56)
    ensures size < Pow2(7 * SizeSize(size))
  {
    hide Pow2;
    SizeSizeIsMinimal(size, SizeSize(size));
    assert SizeSize(size) == 8 ==> 7 * SizeSize(size) == 56;
  }

  /** One turn of the cluster loop. */
  lemma ClusterTurn(v: View, w: View, id: nat, tracks: seq<Track>, time: int)
    requires ElementId(v, true) == Read(w, Ok, id) && w.up == 0 && id != ID_CLUSTER
    ensures var e := ClusterElement(w, id, tracks, time);
            e.0.result == Done && e.0.view.up == 0 ==>
              var more := ParseCluster(e.0.view, tracks, e.1);
              ParseCluster(v, tracks, time) == more.(packets := e.0.packets + more.packets)
  {
    hide ElementId, ClusterElement;
  }

  /** The loop ended well at offset `end`, in front of the element `nextId`. */
  predicate ClusterEnds(r: Demuxed, v: View, end: nat, tail: seq<Byte>, nextId: nat, more: seq<Byte>) {
    if tail == [] then r.result == AtEnd
    else
      && r.result == Done
      && var left := PopLevels(v.levels, end);
         && |left| < |v.levels|
         && r.view == v.(rest := more, pos := end + IdSize(nextId), peek := nextId, levels := left, up := |v.levels| - |left| - 1)
  }

  /** The innermost master ends `size` bytes ahead, and what comes then is not cut in two. */
  ghost predicate Inside(v: View, size: nat, tail: seq<Byte>, nextId: nat, more: seq<Byte>) {
    && v.peek == 0 && v.up == 0 && v.levels != [] && Nested(v.levels)
    && v.levels[|v.levels| - 1].End() == v.pos + size
    && Follows(v.levels, v.pos + size, tail, nextId, more)
  }

  lemma ClusterOver(v: View, tracks: seq<Track>, time: int, tail: seq<Byte>, nextId: nat, more: seq<Byte>)
    requires Inside(v, 0, tail, nextId, more) && v.rest == tail
    ensures var r := ParseCluster(v, tracks, time); ClusterEnds(r, v, v.pos, tail, nextId, more) && r.packets == []
  {
    hide IdBytes, ValidId, IdSize, Pow2, ClusterElement;
    if tail != [] {
      FreshPeek(v, nextId, more);
      TopCloses(v.levels, v.pos);
    }
  }

  lemma NotCut(v: View, id: nat, content: seq<Byte>, size: nat)
    requires v.levels != [] && Nested(v.levels) && v.levels[|v.levels| - 1].End() == v.pos + size
    requires |Element(id, content)| <= size
    ensures NoneEndsWithin(v.levels, v.pos, IdSize(id)) && v.pos < v.levels[|v.levels| - 1].End()
  {
    hide IdBytes, SizeBytes, IdSize;
    assert forall i :: 0 <= i < |v.levels| ==> v.levels[i].End() >= v.pos + size;
  }

  /** A simple block in the loop: one packet, then the loop goes on behind it. */
  lemma {:induction false} SimpleBlockTurn(v: View, b: Block, after: seq<Byte>, tracks: seq<Track>, time: int)
    requires v.peek == 0 && v.up == 0 && v.rest == BlockBytes(b) + after && Readable(b, tracks, time)
    requires NoneEndsWithin(v.levels, v.pos, 1) && (v.levels != [] ==> v.pos < v.levels[|v.levels| - 1].End())
    ensures var next := v.(rest := after, pos := v.pos + |BlockBytes(b)|);
            var more := ParseCluster(next, tracks, time);
            ParseCluster(v, tracks, time) == more.(packets := [PacketOf(b, tracks, time, v.pos + 1)] + more.packets)
  {
    hide Readable, ParseCluster, Element, BlockContent, ElementId, ParseBlock, NoneEndsWithin, PacketOf, Binary, SizeBytes;
    var content := BlockContent(b);
    ReadableFits(b, tracks, time);
    ElementReads(v, ID_SIMPLEBLOCK, content, after);
    BlockRoundTrip(b, tracks, time, v.pos + 1);
    var w := v.(rest := SizeBytes(|content|) + (content + after), pos := v.pos + 1, peek := ID_SIMPLEBLOCK);
    ClusterTurn(v, w, ID_SIMPLEBLOCK, tracks, time);
  }

  /** The time code in the loop. */
  lemma {:induction false} TimecodeTurn(v: View, time: nat, after: seq<Byte>, tracks: seq<Track>, before: int)
    requires v.peek == 0 && v.up == 0 && v.rest == Element(ID_TIMECODE, UintContent(time)) + after
    requires time < 0x8000_0000_0000_0000
    requires NoneEndsWithin(v.levels, v.pos, 1) && (v.levels != [] ==> v.pos < v.levels[|v.levels| - 1].End())
    ensures var next := v.(rest := after, pos := v.pos + |Element(ID_TIMECODE, UintContent(time))|);
            var more := ParseCluster(next, tracks, time);
            ParseCluster(v, tracks, before) == more
  {
    hide ParseCluster, Element, ElementId, NoneEndsWithin, UintContent, Uint, UintOf, SizeBytes;
    var content := UintContent(time);
    TimeFits(time);
    ElementReads(v, ID_TIMECODE, content, after);
    var w := v.(rest := SizeBytes(|content|) + (content + after), pos := v.pos + 1, peek := ID_TIMECODE);
    ClusterTurn(v, w, ID_TIMECODE, tracks, before);
    var next := v.(rest := after, pos := v.pos + |Element(ID_TIMECODE, content)|);
    var more := ParseCluster(next, tracks, time);
    assert [] + more.packets == more.packets;
  }

  lemma {:induction false} BlocksRoundTrip(v: View, bs: seq<Block>, tracks: seq<Track>, time: int,
                        tail: seq<Byte>, nextId: nat, more: seq<Byte>)
    requires AllReadable(bs, tracks, time) && v.rest == BlocksBytes(bs) + tail
    requires Inside(v, |BlocksBytes(bs)|, tail, nextId, more)
    ensures var r := ParseCluster(v, tracks, time);
            && r.packets == PacketsOf(bs, tracks, time, v.pos)
            && ClusterEnds(r, v, v.pos + |BlocksBytes(bs)|, tail, nextId, more)
    decreases |bs|
  {
    hide Readable, ParseCluster, ClusterEnds, Element, BlockContent, Follows, PopLevels, Nested, NoneEndsWithin, PacketOf;
    if bs == [] {
      assert BlocksBytes(bs) + tail == tail;
      ClusterOver(v, tracks, time, tail, nextId, more);
    } else {
      var b, rest := bs[0], bs[1..];
      var after := BlocksBytes(rest) + tail;
      var end := v.pos + |BlocksBytes(bs)|;
      assert v.rest == BlockBytes(b) + after;
      NotCut(v, ID_SIMPLEBLOCK, BlockContent(b), |BlocksBytes(bs)|);
      SimpleBlockTurn(v, b, after, tracks, time);
      var next := v.(rest := after, pos := v.pos + |BlockBytes(b)|);
      BlocksRoundTrip(next, rest, tracks, time, tail, nextId, more);
      SameEnd(v, next, ParseCluster(next, tracks, time), ParseCluster(v, tracks, time), end, tail, nextId, more);
    }
  }

  lemma ReadableFits(b: Block, tracks: seq<Track>, time: int)
    requires Readable(b, tracks, time)
    ensures |BlockContent(b)| <= INT_MAX
  {}

  lemma SameEnd(v: View, w: View, r: Demuxed, r': Demuxed, end: nat, tail: seq<Byte>, nextId: nat, more: seq<Byte>)
    requires w == v.(rest := w.rest, pos := w.pos) && r' == r.(packets := r'.packets)
    requires ClusterEnds(r, w, end, tail, nextId, more)
    ensures ClusterEnds(r', v, end, tail, nextId, more)
  {}

  /** The content of a cluster that was written, read by the loop entered behind its header. */
  lemma {:induction false} ClusterRoundTrip(v: View, time: nat, bs: seq<Block>, tracks: seq<Track>,
                         tail: seq<Byte>, nextId: nat, more: seq<Byte>)
    requires time < 0x8000_0000_0000_0000 && AllReadable(bs, tracks, time)
    requires v.rest == ClusterContent(time, bs) + tail
    requires Inside(v, |ClusterContent(time, bs)|, tail, nextId, more)
    ensures var r, first := ParseCluster(v, tracks, 0), |Element(ID_TIMECODE, UintContent(time))|;
            && r.packets == PacketsOf(bs, tracks, time, v.pos + first)
            && ClusterEnds(r, v, v.pos + |ClusterContent(time, bs)|, tail, nextId, more)
  {
    hide ParseCluster, ClusterEnds, Element, Follows, PopLevels, Nested, NoneEndsWithin, BlocksBytes, UintContent, PacketsOf, AllReadable;
    var content, after := UintContent(time), BlocksBytes(bs) + tail;
    var end := v.pos + |ClusterContent(time, bs)|;
    assert v.rest == Element(ID_TIMECODE, content) + after;
    NotCut(v, ID_TIMECODE, content, |ClusterContent(time, bs)|);
    TimecodeTurn(v, time, after, tracks, 0);
    var next := v.(rest := after, pos := v.pos + |Element(ID_TIMECODE, content)|);
    BlocksRoundTrip(next, bs, tracks, time, tail, nextId, more);
    SameEnd(v, next, ParseCluster(next, tracks, time), ParseCluster(v, tracks, 0), end, tail, nextId, more);
  }

  lemma TimeFits(time: nat)
    requires time < 0x8000_0000_0000_0000
    ensures 1 <= |UintContent(time)| <= 8 && UintOf(UintContent(time)) == time
  {
    hide UintContent, UintOf;
    UintRoundTrip(time);
    UintSizeIsMinimal(time, 8);
  }

  // ------------------------------------------------------------------ exactly when

  /** The internal time is exact until the product leaves 64 bits. */
  lemma PtsExact(ms: nat)
    ensures Pts(ms) == ms * 5_292_000 <==> ms * PTS_FREQ < 0x8000_0000_0000_0000
  {
    var x := ms * PTS_FREQ;
    if x < 0x8000_0000_0000_0000 {
      assert Int64(x) == x;
    }
  }

  /** An empty frame is dropped, and a frame before time zero is stamped zero; all others survive. */
  lemma {:induction false} BlockSurvives(b: Block, tracks: seq<Track>, time: int, pos: nat)
    requires b.track < Pow2(56) - 1 && time >= 0 && -0x8000 <= b.offset < 0x8000
    requires FindTrack(tracks, b.track) >= 0 && tracks[FindTrack(tracks, b.track)].streamIndex >= 0
    ensures ParseBlock(tracks, BlockContent(b), pos, time, NO_PTS, FromFlags) == (Done, [PacketOf(b, tracks, time, pos)])
            <==> b.payload != [] && time + b.offset >= 0
  {
    hide SizeBytes, BlockNum, ParseFrames, Pow2, Pts, FindTrack;
    var d := [b.offset / 256 % 256, b.offset % 256, if b.key then 0x80 else 0] + b.payload;
    BlockNumRoundTrip(b.track, d);
    assert BlockContent(b)[SizeSize(b.track)..] == d;
    var stream: nat := FindTrack(tracks, b.track) + 1;
    if b.payload == [] {
      assert |d| == 3;
    } else if time + b.offset >= 0 {
      FramesRead(b, stream, pos, time, NO_PTS, FromFlags);
    } else {
      EarlyFrame(b, stream, pos, time);
    }
  }

  lemma {:induction false} EarlyFrame(b: Block, stream: nat, pos: nat, time: int)
    requires -0x8000 <= b.offset < 0x8000 && time >= 0 && time + b.offset < 0
    ensures var d := [b.offset / 256 % 256, b.offset % 256, if b.key then 0x80 else 0] + b.payload;
            (ParseFrames(stream, d, pos, time, NO_PTS, FromFlags) == (Done, [Packet(stream, 0, b.key, pos, b.payload)]))
    ensures Pts(time + b.offset) != 0
  {
    hide Queued, Cut, Int16, Pts, ReadLaces;
    NoLacing(b.payload);
    var d := [b.offset / 256 % 256, b.offset % 256, if b.key then 0x80 else 0] + b.payload;
    assert d[3..] == b.payload;
    OffsetReads(b.offset);
    OneFrame(b.payload, stream, NO_PTS, NO_PTS, b.key, pos);
    PtsOfEarly(time + b.offset);
  }

  /** The time that stands for none is scaled to zero, and no small negative time is. */
  lemma PtsOfEarly(ms: int)
    requires -0x8000 <= ms < 0
    ensures Pts(NO_PTS) == 0 && Pts(ms) != 0
  {
    assert NO_PTS * PTS_FREQ == -2_646_000_000 * 0x1_0000_0000_0000_0000;
    assert Int64(NO_PTS * PTS_FREQ) == 0;
    assert Int64(ms * PTS_FREQ) == ms * PTS_FREQ;
  }

  // ------------------------------------------------------------------ block groups that were written

  /** An element of a block group, its size written in any width; durations and references are numbers. */
  predicate GroupTree(t: Tree) {
    && t.Leaf? && ValidId(t.id) && |t.body| < Pow2(7 * t.width) && |t.body| <= INT_MAX
    && (t.id == ID_BLOCKDURATION || t.id == ID_BLOCKREFERENCE ==> 1 <= |t.body| <= 8)
  }

  predicate GroupTrees(ts: seq<Tree>) { forall i :: 0 <= i < |ts| ==> GroupTree(ts[i]) }

  /** What an element at offset `p` adds. */
  function Tell(g: GroupState, t: Tree, p: nat): GroupState
    requires GroupTree(t)
  {
    if t.id == ID_BLOCK then g.(block := t.body, pos := p + IdSize(t.id), found := true)
    else if t.id == ID_BLOCKDURATION then g.(duration := UintOf(t.body))
    else if t.id == ID_BLOCKREFERENCE then g.(key := false)
    else g
  }

  function Told(ts: seq<Tree>, g: GroupState, p: nat): GroupState
    requires GroupTrees(ts)
    decreases |ts|
  {
    if ts == [] then g
    else
      assert GroupTree(ts[0]);
      Told(ts[1..], Tell(g, ts[0], p), p + |Bytes(ts[0])|)
  }

  const NOTHING_TOLD := GroupState(true, NO_PTS, [], 0, false)

  predicate Has(ts: seq<Tree>, id: nat) { exists i :: 0 <= i < |ts| && ts[i].id == id }

  lemma {:induction false} HasFirst(ts: seq<Tree>, id: nat)
    requires ts != []
    ensures Has(ts, id) <==> ts[0].id == id || Has(ts[1..], id)
  {
    var rest := ts[1..];
    if Has(rest, id) {
      var i :| 0 <= i < |rest| && rest[i].id == id;
      assert ts[i + 1].id == id;
    }
    if Has(ts, id) && ts[0].id != id {
      var i :| 0 <= i < |ts| && ts[i].id == id;
      assert rest[i - 1].id == id;
    }
  }

  /** A group holds a block if one of its elements is one, and a key frame if none is a reference. */
  lemma {:induction false} ToldSays(ts: seq<Tree>, g: GroupState, p: nat)
    requires GroupTrees(ts)
    ensures Told(ts, g, p).found <==> g.found || Has(ts, ID_BLOCK)
    ensures Told(ts, g, p).key <==> g.key && !Has(ts, ID_BLOCKREFERENCE)
    decreases |ts|
  {
    hide GroupTree, GroupTrees, Told, Tell, Bytes, Has;
    ToldStep(ts, g, p);
    if ts == [] {
      NoneHas(ID_BLOCK);
      NoneHas(ID_BLOCKREFERENCE);
    } else {
      assert GroupTree(ts[0]);
      TellSays(g, ts[0], p);
      HasFirst(ts, ID_BLOCK);
      HasFirst(ts, ID_BLOCKREFERENCE);
      ToldSays(ts[1..], Tell(g, ts[0], p), p + |Bytes(ts[0])|);
    }
  }

  lemma TellSays(g: GroupState, t: Tree, p: nat)
    requires GroupTree(t)
    ensures Tell(g, t, p).found <==> g.found || t.id == ID_BLOCK
    ensures Tell(g, t, p).key <==> g.key && t.id != ID_BLOCKREFERENCE
  {
    hide GroupTree, UintOf, IdSize;
  }

  lemma ToldStep(ts: seq<Tree>, g: GroupState, p: nat)
    requires GroupTrees(ts)
    ensures ts != [] ==> GroupTree(ts[0]) && GroupTrees(ts[1..])
    ensures Told(ts, g, p) == if ts == [] then g else Told(ts[1..], Tell(g, ts[0], p), p + |Bytes(ts[0])|)
  {
    hide GroupTree, Bytes, Tell;
    if ts != [] {
      assert GroupTree(ts[0]);
    }
  }

  lemma NoneHas(id: nat)
    ensures !Has([], id)
  {}

  lemma IsLeaf(t: Tree)
    requires GroupTree(t)
    ensures t.Leaf? && Body(t) == t.body
  {}

  /** One turn of the group's loop. */
  lemma GroupTurn(v: View, w: View, id: nat, g: GroupState, next: View, g': GroupState)
    requires ElementId(v, true) == Read(w, Ok, id) && w.up == 0
    requires GroupElement(w, id, g) == Read(next, Ok, g') && next.up == 0
    ensures GroupLoop(v, g) == GroupLoop(next, g')
  {
    hide ElementId, GroupElement;
  }

  /** An element is read by the function that fits it. */
  lemma {:induction false} GroupElementReads(w: View, t: Tree, g: GroupState, p: nat, after: seq<Byte>)
    requires GroupTree(t) && w.peek == t.id && w.pos == p + IdSize(t.id)
    requires w.rest == SizeFixed(|t.body|, t.width) + (t.body + after)
    ensures GroupElement(w, t.id, g)
         == Read(w.(rest := after, pos := w.pos + t.width + |t.body|, peek := 0), Ok, Tell(g, t, p))
  {
    hide SizeFixed, Pow2, Binary, Skip, Uint, Sint, UintOf, SintOf, IdSize, ValidId;
    ValidIdIsNotZero(t.id);
    LeafReaders(w, t.body, t.width, after);
  }

  /** The group's loop ended at offset `end`, in front of the element `nextId`, having been told `g`. */
  predicate GroupEnds(r: Read<GroupState>, v: View, g: GroupState, end: nat, tail: seq<Byte>, nextId: nat, more: seq<Byte>) {
    if tail == [] then r.status == Eof
    else
      && r.status == Ok && r.value == g
      && var left := PopLevels(v.levels, end);
         && |left| < |v.levels|
         && r.view == v.(rest := more, pos := end + IdSize(nextId), peek := nextId, levels := left, up := |v.levels| - |left| - 1)
  }

  lemma {:induction false} GroupOver(v: View, g: GroupState, tail: seq<Byte>, nextId: nat, more: seq<Byte>)
    requires Inside(v, 0, tail, nextId, more) && v.rest == tail
    ensures GroupEnds(GroupLoop(v, g), v, g, v.pos, tail, nextId, more)
  {
    hide IdBytes, ValidId, IdSize, Pow2, GroupElement;
    if tail != [] {
      FreshPeek(v, nextId, more);
      TopCloses(v.levels, v.pos);
    }
  }

  lemma {:induction false} NotCutShort(v: View, ts: seq<Tree>)
    requires ts != [] && v.levels != [] && Nested(v.levels) && v.levels[|v.levels| - 1].End() == v.pos + |Document(ts)|
    ensures NoneEndsWithin(v.levels, v.pos, IdSize(ts[0].id)) && v.pos < v.levels[|v.levels| - 1].End()
    ensures |Bytes(ts[0])| == IdSize(ts[0].id) + ts[0].width + |Body(ts[0])| && |Document(ts)| == |Bytes(ts[0])| + |Document(ts[1..])|
  {
    hide IdBytes, SizeFixed, IdSize, Body;
    assert forall i :: 0 <= i < |v.levels| ==> v.levels[i].End() >= v.pos + |Document(ts)|;
  }

  /** The loop of a group reads every element, and reports the end of the group - or of the file, if nothing follows. */
  lemma {:induction false} GroupReads(v: View, ts: seq<Tree>, g: GroupState, tail: seq<Byte>, nextId: nat, more: seq<Byte>)
    requires GroupTrees(ts) && v.rest == Document(ts) + tail
    requires Inside(v, |Document(ts)|, tail, nextId, more)
    ensures GroupEnds(GroupLoop(v, g), v, Told(ts, g, v.pos), v.pos + |Document(ts)|, tail, nextId, more)
    decreases |ts|
  {
    hide GroupTree, GroupLoop, GroupElement, Tell, IdBytes, SizeFixed, IdSize, ValidId, Pow2, Nested, NoneEndsWithin, Follows, PopLevels,
      Bytes, ElementId;
    if ts == [] {
      assert Document(ts) + tail == tail;
      GroupOver(v, g, tail, nextId, more);
    } else {
      var t, rest := ts[0], ts[1..];
      assert GroupTree(t);
      var after := Document(rest) + tail;
      IsLeaf(t);
      FirstOfGroup(v, ts, tail);
      NotCutShort(v, ts);
      var w := v.(rest := SizeFixed(|t.body|, t.width) + (t.body + after), pos := v.pos + IdSize(t.id), peek := t.id);
      GroupElementReads(w, t, g, v.pos, after);
      var next := v.(rest := after, pos := v.pos + |Bytes(t)|);
      GroupTurn(v, w, t.id, g, next, Tell(g, t, v.pos));
      GroupReads(next, rest, Tell(g, t, v.pos), tail, nextId, more);
    }
  }

  /** The loop meets the first element of the group. */
  lemma {:induction false} FirstOfGroup(v: View, ts: seq<Tree>, tail: seq<Byte>)
    requires ts != [] && GroupTree(ts[0]) && v.rest == Document(ts) + tail && v.peek == 0 && v.up == 0
    requires v.levels != [] && Nested(v.levels) && v.levels[|v.levels| - 1].End() == v.pos + |Document(ts)|
    ensures var t, after := ts[0], Document(ts[1..]) + tail;
            ElementId(v, true) == Read(v.(rest := SizeFixed(|t.body|, t.width) + (t.body + after), pos := v.pos + IdSize(t.id),
                                          peek := t.id), Ok, t.id)
  {
    hide IdBytes, SizeFixed, IdSize, ValidId, Pow2, Nested, NoneEndsWithin, PopLevels, ElementId;
    var t, after := ts[0], Document(ts[1..]) + tail;
    NotCutShort(v, ts);
    ValidIdIsNotZero(t.id);
    var rest := SizeFixed(|t.body|, t.width) + (t.body + after);
    assert v.rest == IdBytes(t.id) + rest;
    EnterElement(v, t.id, rest, v.pos);
  }

  /**
    A block group that holds a block: the block is parsed exactly if something follows the group.
    At the very end of a file the loop's end-of-file result is returned first.
    */
  lemma {:induction false} LastGroupIsLost(v: View, ts: seq<Tree>, tracks: seq<Track>, time: int,
                                           tail: seq<Byte>, nextId: nat, more: seq<Byte>)
    requires GroupTrees(ts) && v.rest == Document(ts) + tail && Inside(v, |Document(ts)|, tail, nextId, more)
    requires Has(ts, ID_BLOCK)
    ensures var g := Told(ts, NOTHING_TOLD, v.pos);
            var b, r := ParseBlock(tracks, g.block, g.pos, time, g.duration, Given(g.key)), ParseGroup(v, tracks, time);
            && (tail == [] ==> r.packets == [] && r.result == AtEnd)
            && (tail != [] ==> r.packets == b.1 && r.result == b.0)
            && (b.1 != [] ==> (r.packets == b.1 <==> tail != []))
  {
    hide GroupLoop, ParseBlock, Told, Document, Inside, GroupTrees, Has;
    GroupReads(v, ts, NOTHING_TOLD, tail, nextId, more);
    ToldSays(ts, NOTHING_TOLD, v.pos);
  }

  /** A group with a duration, any number of references, and a block. */
  function GroupOf(content: seq<Byte>, duration: seq<Byte>, references: seq<seq<Byte>>, width: SizeWidth): seq<Tree> {
    [Leaf(ID_BLOCKDURATION, width, duration), Leaf(ID_BLOCK, width, content)]
    + seq(|references|, i requires 0 <= i < |references| => Leaf(ID_BLOCKREFERENCE, width, references[i]))
  }

  /** Such a group gives its block's frames with its duration, a key frame if there is no reference - unless the file
      ends behind it. */
  lemma {:induction false} AnyGroupReads(v: View, content: seq<Byte>, duration: seq<Byte>, references: seq<seq<Byte>>, width: SizeWidth,
                                         tracks: seq<Track>, time: int, tail: seq<Byte>, nextId: nat, more: seq<Byte>)
    requires 1 <= |duration| <= 8 && forall i :: 0 <= i < |references| ==> 1 <= |references[i]| <= 8
    requires |content| < Pow2(7 * width) && |content| <= INT_MAX
    requires var ts := GroupOf(content, duration, references, width);
             v.rest == Document(ts) + tail && Inside(v, |Document(ts)|, tail, nextId, more)
    ensures var block := v.pos + |Bytes(Leaf(ID_BLOCKDURATION, width, duration))| + 1;
            ParseGroup(v, tracks, time).packets
            == if tail == [] then []
               else ParseBlock(tracks, content, block, time, UintOf(duration), Given(references == [])).1
  {
    hide Document, Bytes, Pow2, ParseGroup, ParseBlock, UintOf, Inside;
    var ts := GroupOf(content, duration, references, width);
    GroupIsWellFormed(content, duration, references, width);
    assert ts[1].id == ID_BLOCK;
    LastGroupIsLost(v, ts, tracks, time, tail, nextId, more);
    GroupTells(content, duration, references, width, v.pos);
  }

  /** The frame of a written block comes back from its group. */
  lemma {:induction false} GroupRoundTrip(v: View, b: Block, duration: seq<Byte>, references: seq<seq<Byte>>, width: SizeWidth,
                                          tracks: seq<Track>, time: int, tail: seq<Byte>, nextId: nat, more: seq<Byte>)
    requires Readable(b, tracks, time) && 1 <= |duration| <= 8 && forall i :: 0 <= i < |references| ==> 1 <= |references[i]| <= 8
    requires |BlockContent(b)| < Pow2(7 * width)
    requires var ts := GroupOf(BlockContent(b), duration, references, width);
             v.rest == Document(ts) + tail && Inside(v, |Document(ts)|, tail, nextId, more)
    ensures var r := ParseGroup(v, tracks, time);
            var block := v.pos + |Bytes(Leaf(ID_BLOCKDURATION, width, duration))| + 1;
            r.packets == if tail == [] then [] else [PacketOf(b, tracks, time, block).(key := references == [])]
  {
    hide Document, Bytes, BlockContent, Readable, Pow2, ParseGroup, ParseBlock, UintOf, Inside, PacketOf, GroupOf;
    ReadableFits(b, tracks, time);
    AnyGroupReads(v, BlockContent(b), duration, references, width, tracks, time, tail, nextId, more);
    var block := v.pos + |Bytes(Leaf(ID_BLOCKDURATION, width, duration))| + 1;
    AnyBlockReads(b, tracks, time, block, UintOf(duration), Given(references == []));
  }

  lemma GroupIsWellFormed(content: seq<Byte>, duration: seq<Byte>, references: seq<seq<Byte>>, width: SizeWidth)
    requires 1 <= |duration| <= 8 && forall i :: 0 <= i < |references| ==> 1 <= |references[i]| <= 8
    requires |content| < Pow2(7 * width) && |content| <= INT_MAX
    ensures GroupTrees(GroupOf(content, duration, references, width))
  {
    hide Pow2, ValidId;
    Pow2Small7();
    Pow2Monotone(7, 7 * width);
    GroupIdsAreValid();
  }

  lemma GroupIdsAreValid()
    ensures ValidId(ID_BLOCKDURATION) && ValidId(ID_BLOCK) && ValidId(ID_BLOCKREFERENCE) && IdSize(ID_BLOCK) == 1
  {}

  lemma {:induction false} GroupTells(content: seq<Byte>, duration: seq<Byte>, references: seq<seq<Byte>>, width: SizeWidth, p: nat)
    requires GroupTrees(GroupOf(content, duration, references, width))
    ensures var g := Told(GroupOf(content, duration, references, width), NOTHING_TOLD, p);
            && g.block == content && g.key == (references == []) && g.duration == UintOf(duration)
            && g.pos == p + |Bytes(Leaf(ID_BLOCKDURATION, width, duration))| + 1
  {
    hide Bytes, UintOf, GroupTree;
    var ts := GroupOf(content, duration, references, width);
    var d, k := ts[0], ts[1];
    assert GroupTree(d) && GroupTree(k);
    GroupIdsAreValid();
    var g1 := Tell(NOTHING_TOLD, d, p);
    var p1 := p + |Bytes(d)|;
    var g2 := Tell(g1, k, p1);
    assert ts[1..][0] == k && ts[1..][1..] == ts[2..];
    assert Told(ts, NOTHING_TOLD, p) == Told(ts[1..], g1, p1) == Told(ts[2..], g2, p1 + |Bytes(k)|);
    ReferencesKeepBlock(ts[2..], g2, p1 + |Bytes(k)|);
    ToldSays(ts, NOTHING_TOLD, p);
    assert references != [] ==> ts[2].id == ID_BLOCKREFERENCE;
  }

  lemma {:induction false} ReferencesKeepBlock(ts: seq<Tree>, g: GroupState, p: nat)
    requires GroupTrees(ts) && forall i :: 0 <= i < |ts| ==> ts[i].id == ID_BLOCKREFERENCE
    ensures Told(ts, g, p).block == g.block && Told(ts, g, p).pos == g.pos && Told(ts, g, p).duration == g.duration
    decreases |ts|
  {
    hide Bytes, GroupTree;
    if ts != [] {
      assert GroupTree(ts[0]);
      ReferencesKeepBlock(ts[1..], Tell(g, ts[0], p), p + |Bytes(ts[0])|);
    }
  }

  /** For example: a file that ends with a group of one frame of one byte. Its frame is never delivered. */
  lemma {:induction false} LostFrame()
    ensures var ts := GroupOf(BlockContent(Block(1, 0, false, [7])), [40], [], 1);
            var v := View(Document(ts), 0, false, 0, [Level(0, |Document(ts)|)], 0);
            && Readable(Block(1, 0, false, [7]), [Track(1, 0)], 0)
            && ParseGroup(v, [Track(1, 0)], 0).packets == [] && ParseGroup(v, [Track(1, 0)], 0).result == AtEnd
  {
    hide Document, Bytes, Pow2, ParseGroup, PacketOf, SizeBytes;
    var b := Block(1, 0, false, [7]);
    var ts := GroupOf(BlockContent(b), [40], [], 1);
    var v := View(Document(ts), 0, false, 0, [Level(0, |Document(ts)|)], 0);
    Pow2Small7();
    Pow2Sizes();
    assert SizeSize(1) == 1 && |BlockContent(b)| == 5;
    assert Readable(b, [Track(1, 0)], 0);
    GroupIsWellFormed(BlockContent(b), [40], [], 1);
    assert ts[1].id == ID_BLOCK && Document(ts) + [] == Document(ts);
    LastGroupIsLost(v, ts, [Track(1, 0)], 0, [], 0, []);
  }

  // ------------------------------------------------------------------ the reader as loops

  class ClusterReader {
    const d: Demuxer
    const tracks: seq<Track>
    var packets: seq<Packet>

    constructor (d: Demuxer, tracks: seq<Track>)
      ensures this.d == d && this.tracks == tracks && packets == []
    {
      this.d, this.tracks := d, tracks;
      packets := [];
    }

    /** The packet loop of matroska_parse_block. */
    method QueueFrames(sizes: seq<int>, rest: seq<Byte>, stream: nat, firstTime: int, duration: int, key: bool, pos: nat)
      modifies `packets
      ensures packets == old(packets) + Queued(Cut(sizes, rest), stream, firstTime, duration, key, pos)
    {
      hide Pts, NextTime;
      var data, time, n := rest, firstTime, 0;
      ghost var all := Queued(Cut(sizes, rest), stream, time, duration, key, pos);
      assert sizes[0..] == sizes;
      while n < |sizes|
        invariant 0 <= n <= |sizes|
        invariant old(packets) + all == packets + Queued(Cut(sizes[n..], data), stream, time, duration, key && n == 0, pos)
      {
        var size := sizes[n];
        if size < 0 || |data| < size {
          return;
        }
        ghost var frames := Cut(sizes[n..], data);
        packets := packets + [Packet(stream, Pts(time), key && n == 0, pos, data[..size])];
        time := NextTime(time, duration);
        data := data[size..];
        n := n + 1;
      }
    }

    /** matroska_parse_block. */
    method Block(data: seq<Byte>, pos: nat, clusterTime: int, duration: int, key: KeyFlag) returns (res: Result)
      modifies `packets
      ensures var r := ParseBlock(tracks, data, pos, clusterTime, duration, key);
              res == r.0 && packets == old(packets) + r.1
    {
      hide BlockNum, ReadLaces, Queued, Cut;
      var num := ReadBlockNum(data);
      if num.Invalid? {
        return Done;
      }
      var rest := data[num.width..];
      var track := FindTrackByNum(if num.Num? then num.value else -1);
      if |rest| <= 3 || track < 0 {
        return Done;
      }
      if tracks[track].streamIndex < 0 {
        return Done;
      }
      var blockTime := Int16(rest[0] as int * 256 + rest[1] as int);
      var flags: nat := rest[2];
      rest := rest[3..];
      var isKey := if key.Given? then key.key else flags >= 0x80;
      var laces := ReadLaceSizes(rest, flags / 2 % 4);
      match laces
      case Failed => return BadLace;
      case Undefined => return OutOfModel;
      case Laces(sizes, frames, _) =>
        QueueFrames(sizes, frames, track + 1, BlockTime(clusterTime, blockTime), duration, isKey, pos);
        return Done;
    }

    /** matroska_find_track_by_num. */
    method FindTrackByNum(num: int) returns (r: int)
      ensures r == FindTrack(tracks, num)
    {
      var i := 0;
      while i < |tracks|
        invariant 0 <= i <= |tracks|
        invariant forall k :: 0 <= k < i ==> tracks[k].num != num
      {
        if tracks[i].num == num {
          FirstMatch(tracks, num, i);
          return i;
        }
        i := i + 1;
      }
      return -1;
    }

    /** matroska_parse_blockgroup. */
    method BlockGroup(clusterTime: int) returns (res: Result)
      requires d.Valid()
      modifies `packets, d, d.io, d.levels
      ensures d.Valid()
      ensures var r := ParseGroup(old(d.Seen()), tracks, clusterTime);
              d.Seen() == r.view && res == r.result && packets == old(packets) + r.packets
    {
      hide GroupLoop, ParseBlock, d.Seen;
      var status, g := RunGroup();
      if status != Ok || !g.found {
        return ResultOf(status);
      }
      res := Block(g.block, g.pos, clusterTime, g.duration, Given(g.key));
    }

    method RunGroup() returns (status: Status, g: GroupState)
      requires d.Valid()
      modifies d, d.io, d.levels
      ensures d.Valid()
      ensures var r := GroupLoop(old(d.Seen()), GroupState(true, NO_PTS, [], 0, false));
              d.Seen() == r.view && status == r.status && g == r.value
    {
      hide ElementId, GroupElement, Flatten;
      g := GroupState(true, NO_PTS, [], 0, false);
      ghost var all := GroupLoop(d.Seen(), g);
      status := Ok;
      while status == Ok
        invariant d.Valid() && status == Ok && GroupLoop(d.Seen(), g) == all
        decreases |d.Seen().rest|
      {
        var id;
        status, id := d.ReadElementId(true);
        if status != Ok {
          return;
        }
        if d.levelUp > 0 {
          d.levelUp := d.levelUp - 1;
          return;
        }
        status, g := RunGroupElement(id, g);
        if d.levelUp > 0 {
          d.levelUp := d.levelUp - 1;
          return;
        }
        if status != Ok {
          return;
        }
      }
    }

    method RunGroupElement(id: nat, g0: GroupState) returns (status: Status, g: GroupState)
      requires d.Valid()
      modifies d, d.io, d.levels
      ensures d.Valid()
      ensures var r := GroupElement(old(d.Seen()), id, g0);
              d.Seen() == r.view && status == r.status && g == r.value
    {
      hide Binary, Uint, Sint, Skip, Flatten;
      g := g0;
      if id == ID_BLOCK {
        var pos, data := d.io.processed, [];
        status, data := d.ReadBinary();
        if status == Ok {
          g := g.(block := data, pos := pos, found := true);
        }
      } else if id == ID_BLOCKDURATION {
        var num;
        status, num := d.ReadUint();
        if status == Ok {
          g := g.(duration := num);
        }
      } else if id == ID_BLOCKREFERENCE {
        var num;
        g := g.(key := false);
        status, num := d.ReadSint();
      } else {
        status := d.ReadSkip();
      }
    }

    /** matroska_parse_cluster. */
    method Cluster(time: int) returns (res: Result)
      requires d.Valid()
      modifies `packets, d, d.io, d.levels
      ensures d.Valid()
      ensures var r := ParseCluster(old(d.Seen()), tracks, time);
              d.Seen() == r.view && res == r.result && packets == old(packets) + r.packets
    {
      hide ElementId, ClusterElement, Flatten;
      var clusterTime := time;
      ghost var all := ParseCluster(d.Seen(), tracks, time);
      res := Done;
      while res == Done
        invariant d.Valid() && res == Done
        invariant var r := ParseCluster(d.Seen(), tracks, clusterTime);
                  all.view == r.view && all.result == r.result && old(packets) + all.packets == packets + r.packets
        decreases |d.Seen().rest|
      {
        var status, id := d.ReadElementId(true);
        if status != Ok {
          return ResultOf(status);
        }
        if d.levelUp > 0 {
          d.levelUp := d.levelUp - 1;
          return;
        }
        if id == ID_CLUSTER {
          return Done;
        }
        res, clusterTime := RunClusterElement(id, clusterTime);
        if d.levelUp > 0 {
          d.levelUp := d.levelUp - 1;
          return;
        }
        if res != Done {
          return;
        }
      }
    }

    method RunClusterElement(id: nat, time: int) returns (res: Result, newTime: int)
      requires d.Valid()
      modifies `packets, d, d.io, d.levels
      ensures d.Valid()
      ensures var r := ClusterElement(old(d.Seen()), id, tracks, time);
              d.Seen() == r.0.view && res == r.0.result && newTime == r.1 && packets == old(packets) + r.0.packets
    {
      hide Binary, Uint, Master, Skip, ParseGroup, ParseBlock, Flatten;
      newTime := time;
      var status;
      if id == ID_TIMECODE {
        var num;
        status, num := d.ReadUint();
        if status == Ok {
          newTime := num;
        }
        res := ResultOf(status);
      } else if id == ID_BLOCKGROUP {
        status := d.ReadMaster();
        if status != Ok {
          return ResultOf(status), time;
        }
        res := BlockGroup(time);
      } else if id == ID_SIMPLEBLOCK {
        var pos, data := d.io.processed, [];
        status, data := d.ReadBinary();
        if status != Ok {
          return ResultOf(status), time;
        }
        res := Block(data, pos, time, NO_PTS, FromFlags);
      } else {
        status := d.ReadSkip();
        res := ResultOf(status);
      }
    }
  }

  lemma {:induction false} FirstMatch(tracks: seq<Track>, num: int, i: nat)
    requires i < |tracks| && tracks[i].num == num && forall k :: 0 <= k < i ==> tracks[k].num != num
    ensures FindTrack(tracks, num) == i
  {
    if i > 0 {
      assert tracks[0].num != num;
      FirstMatch(tracks[1..], num, i - 1);
    }
  }
}
