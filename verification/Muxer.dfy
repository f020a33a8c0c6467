/**
  The Matroska muxer (tsMuxer/matroskaMuxer.cpp): packets are held back until the header can be
  written, gathered into frames, and put into clusters that the cues point at.
  */
module Muxer {
  import opened Bits
  import opened EbmlNumbers
  import opened Cluster

  const PTS_PER_MS := 5_292_000
  const CLUSTER_MAX_DURATION_MS := 5000
  const CLUSTER_MAX_SIZE := 5 * 1024 * 1024

  /** How far into a cluster a video key frame does not start another one. */
  const KEY_FRAME_REACH_MS := 1000

  // ------------------------------------------------------------------ state

  datatype Pkt = Pkt(stream: int, pts: int, key: bool, data: seq<Byte>)

  /** What is fixed about a track. */
  datatype TrackInfo = TrackInfo(stream: int, number: nat, video: bool)

  /** The frame a track is gathering. */
  datatype Pending = Pending(data: seq<Byte>, pts: int, key: bool, has: bool)

  datatype Cue = Cue(ms: int, track: nat, offset: nat)

  /** The tracks; frame conversion, by stream, and the bytes of SegmentInfo and Tracks are not part of this model. */
  datatype Env = Env(tracks: seq<TrackInfo>, convert: (int, seq<Byte>) -> seq<Byte>, header: seq<Byte>)

  /** The tracks are kept in a map, so no stream has two. */
  predicate ValidEnv(env: Env) {
    forall i, j :: 0 <= i < |env.tracks| && 0 <= j < |env.tracks| && env.tracks[i].stream == env.tracks[j].stream ==> i == j
  }

  /** The muxer's fields; `file` holds the bytes from the start of the segment's data on. */
  datatype Mux = Mux(file: seq<Byte>, pending: seq<Pending>,
                     buf: seq<Byte>, clusterMs: int, clusterStart: nat, open: bool, size: nat,
                     cues: seq<Cue>, first: int, firstSet: bool, lastMs: int,
                     headerWritten: bool, preHeader: seq<Pkt>, seen: set<int>)

  // ------------------------------------------------------------------ steps

  function RelMs(m: Mux, pts: int): int { TruncDiv(pts - m.first, PTS_PER_MS) }

  /** flushCluster. */
  function CloseCluster(m: Mux): Mux {
    if !m.open || m.buf == [] then m
    else m.(file := m.file + Element(ID_CLUSTER, m.buf), buf := [], open := false, size := 0)
  }

  function Uint64(n: int): nat { n % 0x1_0000_0000_0000_0000 }

  function TimeElement(ms: int): seq<Byte> { Element(ID_TIMECODE, UintContent(Uint64(ms))) }

  /** startCluster. */
  function OpenCluster(m: Mux, ms: int): Mux {
    var c := if m.open then CloseCluster(m) else m;
    c.(clusterMs := ms, buf := TimeElement(ms), size := |TimeElement(ms)|, open := true, clusterStart := |c.file|)
  }

  predicate NeedsCluster(m: Mux, video: bool, key: bool, ms: int) {
    || !m.open || ms - m.clusterMs >= CLUSTER_MAX_DURATION_MS || m.size >= CLUSTER_MAX_SIZE
    || (video && key && m.open && ms - m.clusterMs >= KEY_FRAME_REACH_MS)
  }

  /** The frame as it goes into the file: converted, unless conversion gave nothing. */
  function Payload(env: Env, stream: int, raw: seq<Byte>): seq<Byte> {
    var c := env.convert(stream, raw);
    if c == [] then raw else c
  }

  function BlockOf(env: Env, clusterMs: int, i: nat, t: Pending, ms: int): Block
    requires i < |env.tracks|
  {
    Block(env.tracks[i].number, Int16(ms - clusterMs), t.key, Payload(env, env.tracks[i].stream, t.data))
  }

  /** The second half of flushPendingFrame: the cue, then the block. */
  function PutBlock(m: Mux, i: nat, t: Pending, ms: int, env: Env): Mux
    requires i < |env.tracks|
  {
    var b := BlockBytes(BlockOf(env, m.clusterMs, i, t, ms));
    m.(buf := m.buf + b, size := m.size + |b|,
       cues := if env.tracks[i].video && t.key then m.cues + [Cue(ms, env.tracks[i].number, m.clusterStart)] else m.cues)
  }

  function Cleared(t: Pending): Pending { t.(data := [], has := false) }

  /** The first half: a cluster is started if there is need. */
  function Prepared(m: Mux, i: nat, t: Pending, env: Env): Mux
    requires i < |env.tracks|
  {
    var ms := RelMs(m, t.pts);
    if NeedsCluster(m, env.tracks[i].video, t.key, ms) then OpenCluster(m, ms) else m
  }

  /** flushPendingFrame. */
  function FlushTrack(m: Mux, i: nat, env: Env): (r: Mux)
    requires i < |m.pending| == |env.tracks|
    ensures |r.pending| == |m.pending|
  {
    var t := m.pending[i];
    var ms := RelMs(m, t.pts);
    if !t.has || t.data == [] then m.(pending := m.pending[i := Cleared(t)])
    else PutBlock(Prepared(m, i, t, env), i, t, ms, env)
         .(pending := m.pending[i := Cleared(t)], lastMs := if ms > m.lastMs then ms else m.lastMs)
  }

  function FindStream(tracks: seq<TrackInfo>, stream: int): (r: int)
    ensures -1 <= r < |tracks|
    ensures r >= 0 ==> tracks[r].stream == stream
  {
    if tracks == [] then -1
    else if tracks[0].stream == stream then 0
    else
      var r := FindStream(tracks[1..], stream);
      if r < 0 then -1 else r + 1
  }

  /** The packet's data joins the frame being gathered, or starts a new one. */
  function Gather(t: Pending, p: Pkt): Pending {
    if !t.has then Pending(t.data + p.data, p.pts, p.key, true)
    else t.(key := t.key || p.key, data := t.data + p.data)
  }

  /** muxPacketInternal. */
  function MuxInternal(m: Mux, p: Pkt, env: Env): (r: Mux)
    requires |m.pending| == |env.tracks|
    ensures |r.pending| == |m.pending|
  {
    var i := FindStream(env.tracks, p.stream);
    if i < 0 then m
    else
      var t := m.pending[i];
      var f := if t.has && p.pts != t.pts then FlushTrack(m, i, env) else m;
      f.(pending := f.pending[i := Gather(f.pending[i], p)])
  }

  function MinPts(ps: seq<Pkt>): int
    requires ps != []
  {
    if |ps| == 1 then ps[0].pts
    else
      var rest := MinPts(ps[..|ps| - 1]);
      if ps[|ps| - 1].pts < rest then ps[|ps| - 1].pts else rest
  }

  function MuxAll(m: Mux, ps: seq<Pkt>, env: Env): (r: Mux)
    requires |m.pending| == |env.tracks|
    ensures |r.pending| == |m.pending|
  {
    if ps == [] then m else MuxInternal(MuxAll(m, ps[..|ps| - 1], env), ps[|ps| - 1], env)
  }

  /** The replay starts: no packet held back lies before the reference time, and none is held any more. */
  function Released(m: Mux): Mux
    requires m.preHeader != []
  {
    m.(first := MinPts(m.preHeader), firstSet := true, preHeader := [])
  }

  /** replayBufferedPackets. */
  function Replay(m: Mux, env: Env): (r: Mux)
    requires |m.pending| == |env.tracks|
    ensures |r.pending| == |m.pending|
  {
    if m.preHeader == [] then m else MuxAll(Released(m), m.preHeader, env)
  }

  /** writeDeferredHeader. */
  function WriteHeader(m: Mux, env: Env): Mux { m.(file := m.file + env.header, headerWritten := true) }

  predicate Accepted(env: Env, p: Pkt) { p.data != [] && FindStream(env.tracks, p.stream) >= 0 }

  function Held(m: Mux, p: Pkt): Mux { m.(seen := m.seen + {p.stream}, preHeader := m.preHeader + [p]) }

  function FirstTimed(m: Mux, p: Pkt): Mux { if m.firstSet then m else m.(first := p.pts, firstSet := true) }

  /** muxPacket. */
  function MuxPacket(m: Mux, p: Pkt, env: Env): (r: Mux)
    requires |m.pending| == |env.tracks|
    ensures |r.pending| == |m.pending|
  {
    if !Accepted(env, p) then m
    else if !m.headerWritten then
      if |Held(m, p).seen| >= |env.tracks| then Replay(WriteHeader(Held(m, p), env), env) else Held(m, p)
    else MuxInternal(FirstTimed(m, p), p, env)
  }

  /** Every track's frame, in the order of the tracks. */
  function FlushTracks(m: Mux, n: nat, env: Env): (r: Mux)
    requires n <= |m.pending| == |env.tracks|
    ensures |r.pending| == |m.pending|
  {
    if n == 0 then m else FlushTrack(FlushTracks(m, n - 1, env), n - 1, env)
  }

  /** doFlush. */
  function DoFlush(m: Mux, env: Env): (r: Mux)
    requires |m.pending| == |env.tracks|
    ensures |r.pending| == |m.pending|
  {
    CloseCluster(FlushTracks(m, |env.tracks|, env))
  }

  /** close, up to the point where the cues are written: a header still missing is written now. */
  function Finish(m: Mux, env: Env): (r: Mux)
    requires |m.pending| == |env.tracks|
    ensures |r.pending| == |m.pending|
  {
    DoFlush(if !m.headerWritten && env.tracks != [] then Replay(WriteHeader(m, env), env) else m, env)
  }

  function Start(env: Env): (m: Mux)
    ensures |m.pending| == |env.tracks|
  {
    Mux([], seq(|env.tracks|, _ => Pending([], 0, false, false)), [], 0, 0, false, 0, [], 0, false, 0, false, [], {})
  }

  // ------------------------------------------------------------------ what the steps leave alone

  lemma OpenKeepsCues(m: Mux, ms: int)
    ensures var c := OpenCluster(m, ms);
            && c.open && c.clusterMs == ms && c.lastMs == m.lastMs && c.cues == m.cues && c.first == m.first && c.firstSet == m.firstSet
            && c.pending == m.pending && c.headerWritten == m.headerWritten && c.preHeader == m.preHeader && c.seen == m.seen
  {}

  lemma PreparedKeeps(m: Mux, i: nat, t: Pending, env: Env)
    requires i < |env.tracks|
    ensures var c := Prepared(m, i, t, env);
            && c.first == m.first && c.firstSet == m.firstSet && c.pending == m.pending && c.lastMs == m.lastMs
            && c.headerWritten == m.headerWritten && c.preHeader == m.preHeader && c.seen == m.seen
  {
    hide OpenCluster;
    OpenKeepsCues(m, RelMs(m, t.pts));
  }

  lemma PutBlockKeeps(c: Mux, i: nat, t: Pending, ms: int, env: Env)
    requires i < |env.tracks|
    ensures var r := PutBlock(c, i, t, ms, env);
            && r.first == c.first && r.firstSet == c.firstSet && r.pending == c.pending && r.open == c.open && r.lastMs == c.lastMs
            && r.headerWritten == c.headerWritten && r.preHeader == c.preHeader && r.seen == c.seen
  {
    hide BlockOf, BlockBytes;
  }

  lemma CloseKeepsRest(m: Mux)
    ensures var c := CloseCluster(m);
            && c.cues == m.cues && c.first == m.first && c.firstSet == m.firstSet && c.pending == m.pending
            && c.headerWritten == m.headerWritten && c.preHeader == m.preHeader && c.seen == m.seen && (c.open ==> m.open)
  {}

  // ------------------------------------------------------------------ the muxer as an object

  class MatroskaMuxer {
    const env: Env
    var file: seq<Byte>
    var pending: seq<Pending>
    var clusterBuf: seq<Byte>
    var clusterMs: int
    var clusterStart: nat
    var clusterOpen: bool
    var clusterSize: nat
    var cues: seq<Cue>
    var first: int
    var firstSet: bool
    var lastMs: int
    var headerWritten: bool
    var preHeader: seq<Pkt>
    var seen: set<int>

    ghost function State(): Mux
      reads this
    {
      Mux(file, pending, clusterBuf, clusterMs, clusterStart, clusterOpen, clusterSize, cues, first, firstSet, lastMs,
          headerWritten, preHeader, seen)
    }

    ghost predicate Valid()
      reads this
    {
      |pending| == |env.tracks|
    }

    constructor (env: Env)
      ensures this.env == env && Valid() && State() == Start(env)
    {
      this.env := env;
      file, clusterBuf, cues, preHeader, seen := [], [], [], [], {};
      pending := seq(|env.tracks|, _ => Pending([], 0, false, false));
      clusterMs, clusterStart, clusterOpen, clusterSize := 0, 0, false, 0;
      first, firstSet, lastMs, headerWritten := 0, false, 0, false;
    }

    /** flushCluster. */
    method FlushCluster()
      modifies this
      ensures State() == CloseCluster(old(State()))
    {
      hide Element;
      if !clusterOpen || clusterBuf == [] {
        return;
      }
      file := file + Element(ID_CLUSTER, clusterBuf);
      clusterBuf, clusterOpen, clusterSize := [], false, 0;
    }

    /** startCluster. */
    method StartCluster(ms: int)
      modifies this
      ensures State() == OpenCluster(old(State()), ms)
    {
      hide TimeElement, CloseCluster;
      if clusterOpen {
        FlushCluster();
      }
      clusterMs := ms;
      clusterOpen := true;
      clusterStart := |file|;
      clusterBuf := TimeElement(ms);
      clusterSize := |clusterBuf|;
    }

    /** The decision on a new cluster in flushPendingFrame. */
    method MakeRoom(i: nat, ms: int)
      requires Valid() && i < |pending| && ms == RelMs(State(), pending[i].pts)
      modifies this
      ensures State() == Prepared(old(State()), i, old(pending[i]), env)
    {
      hide OpenCluster, RelMs;
      var t := pending[i];
      if !clusterOpen || ms - clusterMs >= CLUSTER_MAX_DURATION_MS || clusterSize >= CLUSTER_MAX_SIZE
         || (env.tracks[i].video && t.key && clusterOpen && ms - clusterMs >= KEY_FRAME_REACH_MS)
      {
        StartCluster(ms);
      }
    }

    /** The cue and the block. */
    method WriteSimpleBlock(i: nat, t: Pending, ms: int)
      requires i < |env.tracks|
      modifies this
      ensures State() == PutBlock(old(State()), i, t, ms, env)
    {
      hide BlockBytes, Int16, Payload;
      if env.tracks[i].video && t.key {
        cues := cues + [Cue(ms, env.tracks[i].number, clusterStart)];
      }
      var frame := Payload(env, env.tracks[i].stream, t.data);
      var block := BlockBytes(Block(env.tracks[i].number, Int16(ms - clusterMs), t.key, frame));
      clusterBuf := clusterBuf + block;
      clusterSize := clusterSize + |block|;
    }

    /** flushPendingFrame. */
    method FlushPendingFrame(i: nat)
      requires Valid() && i < |pending|
      modifies this
      ensures Valid() && State() == FlushTrack(old(State()), i, env)
    {
      hide PutBlock, Prepared, TruncDiv;
      var t := pending[i];
      if t.has && t.data != [] {
        var ms := TruncDiv(t.pts - first, PTS_PER_MS);
        PreparedKeeps(State(), i, t, env);
        MakeRoom(i, ms);
        PutBlockKeeps(State(), i, t, ms, env);
        WriteSimpleBlock(i, t, ms);
        if ms > lastMs {
          lastMs := ms;
        }
      }
      pending := pending[i := Cleared(t)];
    }

    /** muxPacketInternal. */
    method MuxPacketInternal(p: Pkt)
      requires Valid()
      modifies this
      ensures Valid() && State() == MuxInternal(old(State()), p, env)
    {
      hide FlushTrack;
      var i := FindStream(env.tracks, p.stream);
      if i < 0 {
        return;
      }
      if pending[i].has && p.pts != pending[i].pts {
        FlushPendingFrame(i);
      }
      var t := pending[i];
      if !t.has {
        t := t.(pts := p.pts, key := p.key, has := true);
      } else {
        t := t.(key := t.key || p.key);
      }
      pending := pending[i := t.(data := t.data + p.data)];
    }

    /** replayBufferedPackets. */
    method ReplayBufferedPackets()
      requires Valid()
      modifies this
      ensures Valid() && State() == Replay(old(State()), env)
    {
      hide MuxInternal, MinPts;
      if preHeader == [] {
        return;
      }
      var held := preHeader;
      first := LeastPts(held);
      firstSet := true;
      preHeader := [];
      var n := 0;
      assert held[..0] == [];
      ghost var m := State();
      while n < |held|
        invariant 0 <= n <= |held| && Valid() && State() == MuxAll(m, held[..n], env)
      {
        assert held[..n + 1][..n] == held[..n];
        MuxPacketInternal(held[n]);
        n := n + 1;
      }
      assert held[..n] == held;
    }

    /** The loop that finds the least time among the held packets. */
    method LeastPts(ps: seq<Pkt>) returns (least: int)
      requires ps != []
      ensures least == MinPts(ps)
    {
      least := ps[0].pts;
      var n := 1;
      assert ps[..1] == [ps[0]];
      while n < |ps|
        invariant 1 <= n <= |ps| && least == MinPts(ps[..n])
      {
        assert ps[..n + 1][..n] == ps[..n];
        if ps[n].pts < least {
          least := ps[n].pts;
        }
        n := n + 1;
      }
      assert ps[..n] == ps;
    }

    /** writeDeferredHeader. */
    method WriteDeferredHeader()
      modifies this
      ensures State() == WriteHeader(old(State()), env)
    {
      file := file + env.header;
      headerWritten := true;
    }

    /** muxPacket. */
    method MuxOne(p: Pkt)
      requires Valid()
      modifies this
      ensures Valid() && State() == MuxPacket(old(State()), p, env)
    {
      hide MuxInternal, Replay;
      if p.data == [] {
        return;
      }
      if FindStream(env.tracks, p.stream) < 0 {
        return;
      }
      if !headerWritten {
        seen := seen + {p.stream};
        preHeader := preHeader + [p];
        if |seen| >= |env.tracks| {
          WriteDeferredHeader();
          ReplayBufferedPackets();
        }
        return;
      }
      if !firstSet {
        first := p.pts;
        firstSet := true;
      }
      MuxPacketInternal(p);
    }

    /** doFlush, and the end of close. */
    method FlushEverything()
      requires Valid()
      modifies this
      ensures Valid() && State() == DoFlush(old(State()), env)
    {
      hide FlushTrack, CloseCluster;
      ghost var m := State();
      var i := 0;
      while i < |pending|
        invariant 0 <= i <= |env.tracks| && Valid() && State() == FlushTracks(m, i, env)
      {
        FlushPendingFrame(i);
        i := i + 1;
      }
      FlushCluster();
      CloseKeepsRest(FlushTracks(m, i, env));
    }

    /** close, up to the cues. */
    method CloseFile()
      requires Valid()
      modifies this
      ensures Valid() && State() == Finish(old(State()), env)
    {
      hide DoFlush, Replay;
      if !headerWritten && env.tracks != [] {
        WriteDeferredHeader();
        ReplayBufferedPackets();
      }
      FlushEverything();
    }
  }
}
