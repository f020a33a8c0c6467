/**
  Runs of the Matroska muxer: what its file, its cues and its tracks hold after any sequence of
  packets and flushes (tsMuxer/matroskaMuxer.cpp).
  */
module MuxerRun {
  import opened Bits
  import opened EbmlNumbers
  import opened Cluster
  import opened Muxer

  // ------------------------------------------------------------------ the history of a run

  /** A gathered frame. */
  datatype Frame = Frame(stream: int, pts: int, key: bool, raw: seq<Byte>)

  /** A block put into a cluster, with its time in milliseconds and the frame it comes from. */
  datatype Put = Put(block: Block, ms: int, video: bool, source: Frame)

  /** A cluster started at an offset of the segment. */
  datatype Started = Started(start: nat, time: int, puts: seq<Put>)

  /** What the tracks were given: a packet, or the order to let go of their frames. */
  datatype Input = Data(p: Pkt) | Mark

  datatype Log = Log(head: seq<Byte>, clusters: seq<Started>, inputs: seq<Input>)

  function LogOpen(m: Mux, log: Log, ms: int): Log {
    log.(clusters := log.clusters + [Started(|(if m.open then CloseCluster(m) else m).file|, ms, [])])
  }

  function LogPut(log: Log, put: Put): Log
    requires log.clusters != []
  {
    var n := |log.clusters| - 1;
    log.(clusters := log.clusters[n := log.clusters[n].(puts := log.clusters[n].puts + [put])])
  }

  function PutOf(env: Env, clusterMs: int, i: nat, t: Pending, ms: int): Put
    requires i < |env.tracks|
  {
    Put(BlockOf(env, clusterMs, i, t, ms), ms, env.tracks[i].video, Frame(env.tracks[i].stream, t.pts, t.key, t.data))
  }

  function PreparedLog(m: Mux, log: Log, i: nat, t: Pending, env: Env): Log
    requires i < |env.tracks|
  {
    var ms := RelMs(m, t.pts);
    if NeedsCluster(m, env.tracks[i].video, t.key, ms) then LogOpen(m, log, ms) else log
  }

  function FlushLog(m: Mux, log: Log, i: nat, env: Env): Log
    requires i < |m.pending| == |env.tracks|
  {
    var t := m.pending[i];
    var l := PreparedLog(m, log, i, t, env);
    if !t.has || t.data == [] || l.clusters == [] then log
    else LogPut(l, PutOf(env, Prepared(m, i, t, env).clusterMs, i, t, RelMs(m, t.pts)))
  }

  function InternalLog(m: Mux, log: Log, p: Pkt, env: Env): Log
    requires |m.pending| == |env.tracks|
  {
    var i := FindStream(env.tracks, p.stream);
    if i < 0 then log
    else
      var t := m.pending[i];
      var l := if t.has && p.pts != t.pts then FlushLog(m, log, i, env) else log;
      l.(inputs := l.inputs + [Data(p)])
  }

  function AllLog(m: Mux, log: Log, ps: seq<Pkt>, env: Env): Log
    requires |m.pending| == |env.tracks|
  {
    if ps == [] then log
    else
      var before := ps[..|ps| - 1];
      InternalLog(MuxAll(m, before, env), AllLog(m, log, before, env), ps[|ps| - 1], env)
  }

  function ReplayLog(m: Mux, log: Log, env: Env): Log
    requires |m.pending| == |env.tracks|
  {
    if m.preHeader == [] then log else AllLog(Released(m), log, m.preHeader, env)
  }

  function HeaderLog(log: Log, env: Env): Log { log.(head := log.head + env.header) }

  function MuxPacketLog(m: Mux, log: Log, p: Pkt, env: Env): Log
    requires |m.pending| == |env.tracks|
  {
    if !Accepted(env, p) then log
    else if !m.headerWritten then
      if |Held(m, p).seen| >= |env.tracks| then ReplayLog(WriteHeader(Held(m, p), env), HeaderLog(log, env), env) else log
    else InternalLog(FirstTimed(m, p), log, p, env)
  }

  function FlushTracksLog(m: Mux, log: Log, n: nat, env: Env): Log
    requires n <= |m.pending| == |env.tracks|
  {
    if n == 0 then log else FlushLog(FlushTracks(m, n - 1, env), FlushTracksLog(m, log, n - 1, env), n - 1, env)
  }

  function DoFlushLog(m: Mux, log: Log, env: Env): Log
    requires |m.pending| == |env.tracks|
  {
    var l := FlushTracksLog(m, log, |env.tracks|, env);
    l.(inputs := l.inputs + [Mark])
  }

  function FinishLog(m: Mux, log: Log, env: Env): Log
    requires |m.pending| == |env.tracks|
  {
    if !m.headerWritten && env.tracks != [] then
      DoFlushLog(Replay(WriteHeader(m, env), env), ReplayLog(WriteHeader(m, env), HeaderLog(log, env), env), env)
    else DoFlushLog(m, log, env)
  }

  // ------------------------------------------------------------------ what the file looks like

  function Blocks(puts: seq<Put>): (bs: seq<Block>)
    ensures |bs| == |puts|
  {
    seq(|puts|, i requires 0 <= i < |puts| => puts[i].block)
  }

  function BodyOf(s: Started): seq<Byte> { TimeElement(s.time) + BlocksBytes(Blocks(s.puts)) }

  function AllBytes(ss: seq<Started>): seq<Byte> {
    if ss == [] then [] else AllBytes(ss[..|ss| - 1]) + Element(ID_CLUSTER, BodyOf(ss[|ss| - 1]))
  }

  /** Every cluster starts where its element was, or will be, written. */
  predicate StartsRight(log: Log) {
    forall k :: 0 <= k < |log.clusters| ==> log.clusters[k].start == |log.head| + |AllBytes(log.clusters[..k])|
  }

  /** The file is the clusters closed so far; the open one is in the buffer. */
  predicate Layout(m: Mux, log: Log) {
    && StartsRight(log)
    && if m.open then
         && log.clusters != []
         && var n := |log.clusters| - 1;
            && m.file == log.head + AllBytes(log.clusters[..n])
            && m.clusterStart == |m.file| && m.clusterMs == log.clusters[n].time && m.buf == BodyOf(log.clusters[n])
       else m.file == log.head + AllBytes(log.clusters)
  }

  lemma {:induction false} BlocksBytesAppend(bs: seq<Block>, b: Block)
    ensures BlocksBytes(bs + [b]) == BlocksBytes(bs) + BlockBytes(b)
  {
    hide BlockBytes;
    if bs == [] {
      assert [b][1..] == [] && BlocksBytes([]) == [];
      assert bs + [b] == [b];
    } else {
      BlocksBytesAppend(bs[1..], b);
      assert (bs + [b])[1..] == bs[1..] + [b];
    }
  }

  lemma CloseKeepsLayout(m: Mux, log: Log)
    requires Layout(m, log)
    ensures Layout(CloseCluster(m), log) && !CloseCluster(m).open
  {
    hide Element, BlocksBytes;
    if m.open {
      assert m.buf != [] by { ContentNotEmpty(log.clusters[|log.clusters| - 1]); }
    }
  }

  lemma ContentNotEmpty(s: Started)
    ensures BodyOf(s) != []
  {
    hide UintContent, BlocksBytes, SizeBytes;
    assert |IdBytes(ID_TIMECODE)| == 1;
  }

  lemma OpenKeepsLayout(m: Mux, log: Log, ms: int)
    requires Layout(m, log)
    ensures Layout(OpenCluster(m, ms), LogOpen(m, log, ms))
  {
    hide BodyOf, AllBytes, TimeElement, CloseCluster;
    CloseKeepsLayout(m, log);
    var c := if m.open then CloseCluster(m) else m;
    var l := LogOpen(m, log, ms);
    var n := |log.clusters|;
    assert l.clusters[..n] == log.clusters;
    forall k | 0 <= k <= n
      ensures l.clusters[..k] == log.clusters[..k]
    {}
    NothingPut(l.clusters[n]);
  }

  lemma NothingPut(s: Started)
    requires s.puts == []
    ensures BodyOf(s) == TimeElement(s.time)
  {
    hide TimeElement;
    assert Blocks([]) == [] && BlocksBytes([]) == [];
  }

  lemma PutKeepsLayout(m: Mux, log: Log, i: nat, t: Pending, ms: int, env: Env)
    requires Layout(m, log) && m.open && i < |env.tracks|
    ensures Layout(PutBlock(m, i, t, ms, env), LogPut(log, PutOf(env, m.clusterMs, i, t, ms)))
  {
    hide Element, BlocksBytes, TimeElement, BlockBytes, BlockOf;
    var put := PutOf(env, m.clusterMs, i, t, ms);
    var l := LogPut(log, put);
    var n := |log.clusters| - 1;
    assert forall k :: 0 <= k <= n ==> l.clusters[..k] == log.clusters[..k];
    var puts := log.clusters[n].puts;
    assert Blocks(puts + [put]) == Blocks(puts) + [put.block];
    BlocksBytesAppend(Blocks(puts), put.block);
  }

  // ------------------------------------------------------------------ blocks and cues

  /**
    A put is the frame it came from: track, key flag, the bytes that conversion gives, if it gives any, and a time
    less than five seconds into its cluster - less than one, if it is a video key frame.
    */
  predicate PutOk(put: Put, time: int, first: int, env: Env) {
    var i := FindStream(env.tracks, put.source.stream);
    var converted := env.convert(put.source.stream, put.source.raw);
    && i >= 0 && put.video == env.tracks[i].video
    && put.block == Block(env.tracks[i].number, Int16(put.ms - time), put.source.key,
                          if converted == [] then put.source.raw else converted)
    && put.source.raw != [] && put.ms == TruncDiv(put.source.pts - first, PTS_PER_MS)
    && put.ms - time < CLUSTER_MAX_DURATION_MS && (put.video && put.source.key ==> put.ms - time < KEY_FRAME_REACH_MS)
  }

  /** All puts are right, and the first of a cluster has the cluster's time. */
  predicate StartedOk(s: Started, first: int, env: Env) {
    && (forall j :: 0 <= j < |s.puts| ==> PutOk(s.puts[j], s.time, first, env))
    && (s.puts != [] ==> s.puts[0].ms == s.time)
  }

  predicate AllOk(ss: seq<Started>, first: int, env: Env) {
    forall k :: 0 <= k < |ss| ==> StartedOk(ss[k], first, env)
  }

  /** The cues a cluster asks for: one for each of its video key frames. */
  function CuesOf(puts: seq<Put>, start: nat): seq<Cue> {
    if puts == [] then []
    else
      var p := puts[|puts| - 1];
      CuesOf(puts[..|puts| - 1], start) + if p.video && p.block.key then [Cue(p.ms, p.block.track, start)] else []
  }

  function AllCues(ss: seq<Started>): seq<Cue> {
    if ss == [] then [] else AllCues(ss[..|ss| - 1]) + CuesOf(ss[|ss| - 1].puts, ss[|ss| - 1].start)
  }

  /** All puts in file order. */
  function AllPuts(ss: seq<Started>): seq<Put> {
    if ss == [] then [] else AllPuts(ss[..|ss| - 1]) + ss[|ss| - 1].puts
  }

  /** The frames of one stream, in the order they were put. */
  function FramesOf(puts: seq<Put>, stream: int): seq<Frame> {
    if puts == [] then []
    else
      var p := puts[|puts| - 1];
      FramesOf(puts[..|puts| - 1], stream) + if p.source.stream == stream then [p.source] else []
  }

  lemma LogPutParts(log: Log, put: Put)
    requires log.clusters != []
    ensures var l, n := LogPut(log, put).clusters, |log.clusters| - 1;
            && |l| == n + 1 && l[..n] == log.clusters[..n] && l[n].start == log.clusters[n].start && l[n].time == log.clusters[n].time
            && l[n].puts == log.clusters[n].puts + [put]
    ensures AllPuts(LogPut(log, put).clusters) == AllPuts(log.clusters) + [put]
    ensures AllCues(LogPut(log, put).clusters)
         == AllCues(log.clusters) + if put.video && put.block.key then [Cue(put.ms, put.block.track, log.clusters[|log.clusters| - 1].start)] else []
  {
    var l, n := LogPut(log, put).clusters, |log.clusters| - 1;
    var puts := log.clusters[n].puts;
    assert l[..n] == log.clusters[..n];
    assert (puts + [put])[..|puts|] == puts;
  }

  lemma LogOpenParts(m: Mux, log: Log, ms: int)
    ensures var l, n := LogOpen(m, log, ms).clusters, |log.clusters|;
            l[..n] == log.clusters && |l| == n + 1 && l[n].puts == [] && l[n].time == ms
    ensures AllPuts(LogOpen(m, log, ms).clusters) == AllPuts(log.clusters)
    ensures AllCues(LogOpen(m, log, ms).clusters) == AllCues(log.clusters)
  {
    hide CloseCluster;
    var l, n := LogOpen(m, log, ms).clusters, |log.clusters|;
    assert l[..n] == log.clusters;
    assert AllPuts(log.clusters) + [] == AllPuts(log.clusters);
    assert AllCues(log.clusters) + [] == AllCues(log.clusters);
  }

  // ------------------------------------------------------------------ gathering frames

  /** Neighbouring packets of a stream with the same time make one frame; the flag says it may still grow. */
  function Gathered(inputs: seq<Input>, stream: int): (r: (seq<Frame>, bool))
    ensures r.1 ==> r.0 != []
  {
    if inputs == [] then ([], false)
    else
      var before := Gathered(inputs[..|inputs| - 1], stream);
      match inputs[|inputs| - 1]
      case Mark => (before.0, false)
      case Data(p) =>
        if p.stream != stream then before
        else if before.1 && before.0[|before.0| - 1].pts == p.pts then
          var last := before.0[|before.0| - 1];
          (before.0[|before.0| - 1 := last.(key := last.key || p.key, raw := last.raw + p.data)], true)
        else (before.0 + [Frame(stream, p.pts, p.key, p.data)], true)
  }

  function Now(t: Pending, stream: int): seq<Frame> {
    if t.has then [Frame(stream, t.pts, t.key, t.data)] else []
  }

  /** The frames of track `j` are in the file or being gathered. */
  predicate TrackFrames(m: Mux, log: Log, env: Env, j: nat)
    requires j < |env.tracks| == |m.pending|
  {
    var stream := env.tracks[j].stream;
    Gathered(log.inputs, stream).0 == FramesOf(AllPuts(log.clusters), stream) + Now(m.pending[j], stream)
  }

  predicate TrackFlag(m: Mux, log: Log, env: Env, j: nat)
    requires j < |env.tracks| == |m.pending|
  {
    Gathered(log.inputs, env.tracks[j].stream).1 == m.pending[j].has
  }

  predicate PendingOk(m: Mux, j: nat)
    requires j < |m.pending|
  {
    (m.pending[j].has <==> m.pending[j].data != []) && (m.pending[j].has ==> m.firstSet)
  }

  /** Everything but the flags, which a flush leaves behind until the next input. */
  ghost predicate Core(m: Mux, log: Log, env: Env) {
    && ValidEnv(env) && |m.pending| == |env.tracks|
    && Layout(m, log) && AllOk(log.clusters, m.first, env) && m.cues == AllCues(log.clusters)
    && (forall j :: 0 <= j < |env.tracks| ==> TrackFrames(m, log, env, j) && PendingOk(m, j))
    && (!m.firstSet ==> log.clusters == [])
    && (m.open ==> log.clusters[|log.clusters| - 1].puts != [])
  }

  /** A frame that is put by itself: nothing else changes. */
  lemma PutAllOk(log: Log, put: Put, first: int, env: Env)
    requires log.clusters != [] && AllOk(log.clusters, first, env)
    requires var s := log.clusters[|log.clusters| - 1]; PutOk(put, s.time, first, env) && (s.puts == [] ==> put.ms == s.time)
    ensures AllOk(LogPut(log, put).clusters, first, env)
  {
    hide PutOk;
    LogPutParts(log, put);
    var l, n := LogPut(log, put).clusters, |log.clusters| - 1;
    forall k | 0 <= k <= n
      ensures StartedOk(l[k], first, env)
    {
      assert StartedOk(log.clusters[k], first, env);
      if k < n {
        assert l[k] == l[..n][k] == log.clusters[k];
      }
    }
  }

  lemma OpenAllOk(m: Mux, log: Log, ms: int, env: Env)
    requires AllOk(log.clusters, m.first, env)
    ensures AllOk(LogOpen(m, log, ms).clusters, m.first, env)
  {
    hide PutOk, CloseCluster;
  }

  lemma {:induction false} FindUnique(tracks: seq<TrackInfo>, i: nat)
    requires i < |tracks| && forall j :: 0 <= j < |tracks| && tracks[j].stream == tracks[i].stream ==> j == i
    ensures FindStream(tracks, tracks[i].stream) == i
  {
    if i > 0 {
      assert tracks[0].stream != tracks[i].stream;
      assert forall j :: 0 <= j < |tracks[1..]| ==> tracks[1..][j] == tracks[j + 1];
      FindUnique(tracks[1..], i - 1);
    }
  }

  /** A cluster is open that the frame may go into. */
  ghost predicate Ready(c: Mux, l: Log, i: nat, t: Pending, ms: int, env: Env) {
    && i < |env.tracks| && c.open && Layout(c, l) && AllOk(l.clusters, c.first, env) && l.clusters != [] && c.cues == AllCues(l.clusters)
    && var s := l.clusters[|l.clusters| - 1];
       && PutOk(PutOf(env, c.clusterMs, i, t, ms), s.time, c.first, env)
       && (s.puts == [] ==> ms == s.time) && s.start == c.clusterStart
  }

  lemma PutOfIsOk(m: Mux, i: nat, env: Env, clusterMs: int)
    requires ValidEnv(env) && i < |env.tracks| == |m.pending| && m.pending[i].data != []
    requires var ms := RelMs(m, m.pending[i].pts) - clusterMs;
             ms < CLUSTER_MAX_DURATION_MS && (env.tracks[i].video && m.pending[i].key ==> ms < KEY_FRAME_REACH_MS)
    ensures PutOk(PutOf(env, clusterMs, i, m.pending[i], RelMs(m, m.pending[i].pts)), clusterMs, m.first, env)
  {
    FindUnique(env.tracks, i);
  }

  lemma StartIsHere(m: Mux, log: Log)
    requires Layout(m, log) && m.open
    ensures var s := log.clusters[|log.clusters| - 1]; s.start == m.clusterStart && s.time == m.clusterMs
  {
    hide AllBytes, BodyOf;
  }

  lemma OpenIsReady(m: Mux, log: Log, i: nat, env: Env)
    requires Core(m, log, env) && i < |env.tracks| && m.pending[i].has
    ensures var t, ms := m.pending[i], RelMs(m, m.pending[i].pts);
            && Ready(OpenCluster(m, ms), LogOpen(m, log, ms), i, t, ms, env)
            && AllPuts(LogOpen(m, log, ms).clusters) == AllPuts(log.clusters)
  {
    hide BodyOf, AllBytes, AllPuts, AllCues, Gathered, CloseCluster, TimeElement, BlocksBytes, StartedOk, FramesOf, PutOk;
    var t, ms := m.pending[i], RelMs(m, m.pending[i].pts);
    OpenKeepsLayout(m, log, ms);
    OpenAllOk(m, log, ms, env);
    LogOpenParts(m, log, ms);
    StartIsHere(OpenCluster(m, ms), LogOpen(m, log, ms));
    assert PendingOk(m, i);
    PutOfIsOk(m, i, env, ms);
    OpenKeepsCues(m, ms);
  }

  /** What flushPendingFrame does before the block: the right cluster is open. */
  lemma PreparedIsReady(m: Mux, log: Log, i: nat, env: Env)
    requires Core(m, log, env) && i < |env.tracks| && m.pending[i].has
    ensures var t := m.pending[i];
            var c, l := Prepared(m, i, t, env), PreparedLog(m, log, i, t, env);
            && Ready(c, l, i, t, RelMs(m, t.pts), env) && AllPuts(l.clusters) == AllPuts(log.clusters)
            && l.inputs == log.inputs && l.head == log.head
  {
    hide BodyOf, AllBytes, AllPuts, AllCues, Gathered, CloseCluster, OpenCluster, StartedOk, FramesOf, PutOk, PutOf;
    var t, ms := m.pending[i], RelMs(m, m.pending[i].pts);
    if NeedsCluster(m, env.tracks[i].video, t.key, ms) {
      OpenIsReady(m, log, i, env);
    } else {
      assert PendingOk(m, i);
      PutOfIsOk(m, i, env, m.clusterMs);
      StartIsHere(m, log);
    }
  }

  /** The block and its cue: the file, the history and the cues stay in step. */
  lemma {:induction false} PutKeeps(c: Mux, l: Log, i: nat, t: Pending, ms: int, env: Env)
    requires Ready(c, l, i, t, ms, env)
    ensures var put := PutOf(env, c.clusterMs, i, t, ms);
            var r, l' := PutBlock(c, i, t, ms, env), LogPut(l, put);
            && Layout(r, l') && AllOk(l'.clusters, c.first, env) && r.cues == AllCues(l'.clusters)
            && AllPuts(l'.clusters) == AllPuts(l.clusters) + [put]
            && l'.clusters[|l'.clusters| - 1].puts != [] && l'.inputs == l.inputs && l'.head == l.head
  {
    hide Layout, AllOk, AllCues, AllPuts, PutOk, BlockOf, BlockBytes;
    var put := PutOf(env, c.clusterMs, i, t, ms);
    PutKeepsLayout(c, l, i, t, ms, env);
    PutAllOk(l, put, c.first, env);
    LogPutParts(l, put);
    assert put.video == env.tracks[i].video;
    BlockOfIs(env, c.clusterMs, i, t, ms);
  }

  lemma BlockOfIs(env: Env, clusterMs: int, i: nat, t: Pending, ms: int)
    requires i < |env.tracks|
    ensures BlockOf(env, clusterMs, i, t, ms).key == t.key && BlockOf(env, clusterMs, i, t, ms).track == env.tracks[i].number
  {}

  /** A frame let go of moves from the track to the file; the other tracks do not notice. */
  lemma FlushKeepsFrames(m: Mux, log: Log, i: nat, env: Env, l: Log, put: Put, j: nat)
    requires ValidEnv(env) && i < |env.tracks| == |m.pending| && j < |env.tracks| && TrackFrames(m, log, env, j)
    requires m.pending[i].has && put.source == Frame(env.tracks[i].stream, m.pending[i].pts, m.pending[i].key, m.pending[i].data)
    requires l.inputs == log.inputs && AllPuts(l.clusters) == AllPuts(log.clusters) + [put]
    ensures var r := m.(pending := m.pending[i := Cleared(m.pending[i])]); TrackFrames(r, l, env, j)
  {
    hide Gathered, AllPuts;
  }

  /** flushPendingFrame keeps the core of the invariant, and the flags of the other tracks. */
  lemma FlushKeeps(m: Mux, log: Log, i: nat, env: Env)
    requires Core(m, log, env) && i < |env.tracks|
    ensures var r, l := FlushTrack(m, i, env), FlushLog(m, log, i, env);
            && Core(r, l, env) && !r.pending[i].has && l.inputs == log.inputs && l.head == log.head
            && r.first == m.first && r.firstSet == m.firstSet && r.headerWritten == m.headerWritten && r.preHeader == m.preHeader
            && r.seen == m.seen && (forall j :: 0 <= j < |env.tracks| && j != i ==> r.pending[j] == m.pending[j])
  {
    hide Layout, AllOk, AllCues, AllPuts, TrackFrames, PutBlock, Prepared, PreparedLog, LogPut, PutOk, Ready, PutOf;
    var r, l := FlushTrack(m, i, env), FlushLog(m, log, i, env);
    var t := m.pending[i];
    assert PendingOk(m, i);
    if t.has {
      var c, pl, ms := Prepared(m, i, t, env), PreparedLog(m, log, i, t, env), RelMs(m, t.pts);
      var put := PutOf(env, c.clusterMs, i, t, ms);
      PreparedIsReady(m, log, i, env);
      PreparedKeeps(m, i, t, env);
      ReadyHasCluster(c, pl, i, t, ms, env);
      PutKeeps(c, pl, i, t, ms, env);
      PutBlockKeeps(c, i, t, ms, env);
      forall j | 0 <= j < |env.tracks|
        ensures TrackFrames(r, l, env, j) && PendingOk(r, j)
      {
        assert TrackFrames(m, log, env, j) && PendingOk(m, j);
        PutSource(env, c.clusterMs, i, t, ms);
        FlushKeepsFrames(m, log, i, env, l, put, j);
        SameTrackFrames(m.(pending := m.pending[i := Cleared(t)]), r, l, env, j);
      }
      LayoutPendingFree(PutBlock(c, i, t, ms, env), r, l, l);
    } else {
      NothingToFlush(m, log, i, env);
    }
  }

  lemma ReadyHasCluster(c: Mux, l: Log, i: nat, t: Pending, ms: int, env: Env)
    requires Ready(c, l, i, t, ms, env)
    ensures l.clusters != []
  {
    hide Layout, AllOk, AllCues, PutOk;
  }

  lemma PutSource(env: Env, clusterMs: int, i: nat, t: Pending, ms: int)
    requires i < |env.tracks|
    ensures PutOf(env, clusterMs, i, t, ms).source == Frame(env.tracks[i].stream, t.pts, t.key, t.data)
  {}

  lemma SameTrackFrames(m: Mux, m': Mux, log: Log, env: Env, j: nat)
    requires j < |env.tracks| == |m.pending| == |m'.pending| && m.pending[j] == m'.pending[j] && TrackFrames(m, log, env, j)
    ensures TrackFrames(m', log, env, j)
  {
    hide Gathered, FramesOf, AllPuts;
  }

  lemma LayoutPendingFree(m: Mux, m': Mux, log: Log, log': Log)
    requires Layout(m, log) && log' == log.(inputs := log'.inputs)
    requires m' == m.(pending := m'.pending, lastMs := m'.lastMs, first := m'.first, firstSet := m'.firstSet, preHeader := m'.preHeader,
                      seen := m'.seen)
    ensures Layout(m', log')
  {
    hide BodyOf, AllBytes;
  }

  lemma NothingToFlush(m: Mux, log: Log, i: nat, env: Env)
    requires Core(m, log, env) && i < |env.tracks| && !m.pending[i].has
    ensures Core(m.(pending := m.pending[i := Cleared(m.pending[i])]), log, env)
  {
    hide BodyOf, AllBytes, AllOk, AllCues, AllPuts, TrackFrames;
    var r := m.(pending := m.pending[i := Cleared(m.pending[i])]);
    assert PendingOk(m, i);
    forall j | 0 <= j < |env.tracks|
      ensures TrackFrames(r, log, env, j) && PendingOk(r, j)
    {
      assert TrackFrames(m, log, env, j) && PendingOk(m, j);
      assert Cleared(m.pending[i]) == m.pending[i];
      SameTrackFrames(m, r, log, env, j);
    }
  }

  // ------------------------------------------------------------------ whole runs

  /** What holds between calls. */
  ghost predicate Inv(m: Mux, log: Log, env: Env) {
    && Core(m, log, env)
    && (forall j :: 0 <= j < |env.tracks| ==> TrackFlag(m, log, env, j))
    && log.head == (if m.headerWritten then env.header else [])
    && (m.headerWritten ==> m.preHeader == []) && (!m.headerWritten ==> !m.firstSet && !m.open)
    && forall k :: 0 <= k < |m.preHeader| ==> Accepted(env, m.preHeader[k])
  }

  /** The packets taken in so far, those still held back included. */
  function Taken(m: Mux, log: Log): seq<Pkt> { DataOf(log.inputs) + m.preHeader }

  function DataOf(inputs: seq<Input>): seq<Pkt> {
    if inputs == [] then []
    else DataOf(inputs[..|inputs| - 1]) + if inputs[|inputs| - 1].Data? then [inputs[|inputs| - 1].p] else []
  }

  lemma DataOfOneMore(inputs: seq<Input>, x: Input)
    ensures DataOf(inputs + [x]) == DataOf(inputs) + if x.Data? then [x.p] else []
  {
    assert (inputs + [x])[..|inputs|] == inputs;
  }

  lemma GroupOneMore(inputs: seq<Input>, x: Input, stream: int)
    ensures var before, after := Gathered(inputs, stream), Gathered(inputs + [x], stream);
            after == match x
                     case Mark => (before.0, false)
                     case Data(p) =>
                       if p.stream != stream then before
                       else if before.1 && before.0[|before.0| - 1].pts == p.pts then
                         var last := before.0[|before.0| - 1];
                         (before.0[|before.0| - 1 := last.(key := last.key || p.key, raw := last.raw + p.data)], true)
                       else (before.0 + [Frame(stream, p.pts, p.key, p.data)], true)
  {
    assert (inputs + [x])[..|inputs|] == inputs;
  }

  /** Gathering one packet is one step of the grouping. */
  lemma GatherKeeps(m: Mux, log: Log, i: nat, p: Pkt, env: Env)
    requires ValidEnv(env) && i < |env.tracks| == |m.pending| && env.tracks[i].stream == p.stream && p.data != []
    requires forall j :: 0 <= j < |env.tracks| ==> TrackFrames(m, log, env, j) && PendingOk(m, j)
    requires forall j :: 0 <= j < |env.tracks| && j != i ==> TrackFlag(m, log, env, j)
    requires m.firstSet && (m.pending[i].has ==> TrackFlag(m, log, env, i) && m.pending[i].pts == p.pts)
    requires var g := Gathered(log.inputs, p.stream); !m.pending[i].has && g.1 ==> g.0[|g.0| - 1].pts != p.pts
    ensures var r := m.(pending := m.pending[i := Gather(m.pending[i], p)]);
            var l := log.(inputs := log.inputs + [Data(p)]);
            forall j :: 0 <= j < |env.tracks| ==> TrackFrames(r, l, env, j) && TrackFlag(r, l, env, j) && PendingOk(r, j)
  {
    hide Gathered, FramesOf, AllPuts;
    var r := m.(pending := m.pending[i := Gather(m.pending[i], p)]);
    var l := log.(inputs := log.inputs + [Data(p)]);
    forall j | 0 <= j < |env.tracks|
      ensures TrackFrames(r, l, env, j) && TrackFlag(r, l, env, j) && PendingOk(r, j)
    {
      assert TrackFrames(m, log, env, j) && PendingOk(m, j);
      GroupOneMore(log.inputs, Data(p), env.tracks[j].stream);
      if j != i {
        assert env.tracks[j].stream != p.stream;
        assert TrackFlag(m, log, env, j);
      } else if m.pending[i].has {
      } else {
        assert m.pending[i].data + p.data == p.data;
        assert FramesOf(AllPuts(log.clusters), p.stream) + [] == FramesOf(AllPuts(log.clusters), p.stream);
      }
    }
  }

  /** muxPacketInternal keeps the invariant, once the reference time is known. */
  lemma InternalKeeps(m: Mux, log: Log, p: Pkt, env: Env)
    requires Inv(m, log, env) && m.firstSet && Accepted(env, p)
    ensures var r, l := MuxInternal(m, p, env), InternalLog(m, log, p, env);
            && Inv(r, l, env) && DataOf(l.inputs) == DataOf(log.inputs) + [p] && l.head == log.head
            && r.firstSet && r.headerWritten == m.headerWritten && r.preHeader == m.preHeader && r.first == m.first
  {
    hide Layout, AllOk, AllCues, AllPuts, Gathered, FramesOf, FlushTrack, FlushLog, DataOf;
    var i := FindStream(env.tracks, p.stream);
    var t := m.pending[i];
    assert TrackFrames(m, log, env, i) && TrackFlag(m, log, env, i) && PendingOk(m, i);
    var f, l := m, log;
    if t.has && p.pts != t.pts {
      FlushKeeps(m, log, i, env);
      f, l := FlushTrack(m, i, env), FlushLog(m, log, i, env);
      forall j | 0 <= j < |env.tracks| && j != i
        ensures TrackFlag(f, l, env, j)
      {
        assert TrackFlag(m, log, env, j);
      }
    }
    GatherKeeps(f, l, i, p, env);
    DataOfOneMore(l.inputs, Data(p));
    var r := f.(pending := f.pending[i := Gather(f.pending[i], p)]);
    LayoutPendingFree(f, r, l, l.(inputs := l.inputs + [Data(p)]));
  }

  lemma {:induction false} MuxAllKeeps(m: Mux, log: Log, ps: seq<Pkt>, env: Env)
    requires |m.pending| == |env.tracks|
    requires Inv(m, log, env) && m.firstSet && forall k :: 0 <= k < |ps| ==> Accepted(env, ps[k])
    ensures var r, l := MuxAll(m, ps, env), AllLog(m, log, ps, env);
            && Inv(r, l, env) && DataOf(l.inputs) == DataOf(log.inputs) + ps && r.firstSet && r.headerWritten == m.headerWritten
            && r.preHeader == m.preHeader && l.head == log.head && r.first == m.first
  {
    hide *;
    MuxAllStep(m, log, ps, env);
    if ps == [] {
      assert DataOf(log.inputs) + ps == DataOf(log.inputs);
    } else {
      var n := |ps| - 1;
      var before, p := ps[..n], ps[n];
      MuxAllKeeps(m, log, before, env);
      InternalKeeps(MuxAll(m, before, env), AllLog(m, log, before, env), p, env);
      assert DataOf(log.inputs) + ps == DataOf(log.inputs) + before + [p];
    }
  }

  lemma MuxAllStep(m: Mux, log: Log, ps: seq<Pkt>, env: Env)
    requires |m.pending| == |env.tracks|
    ensures ps == [] ==> MuxAll(m, ps, env) == m && AllLog(m, log, ps, env) == log
    ensures ps != [] ==>
              var before, p := ps[..|ps| - 1], ps[|ps| - 1];
              && MuxAll(m, ps, env) == MuxInternal(MuxAll(m, before, env), p, env)
              && AllLog(m, log, ps, env) == InternalLog(MuxAll(m, before, env), AllLog(m, log, before, env), p, env)
  {
    hide MuxInternal, InternalLog;
  }

  /** The held packets are released, in order, behind the header. */
  lemma {:induction false} ReplayKeeps(m: Mux, log: Log, env: Env)
    requires Inv(m, log, env) && !m.headerWritten
    ensures var w := WriteHeader(m, env);
            var r, l := Replay(w, env), ReplayLog(w, HeaderLog(log, env), env);
            && Inv(r, l, env) && Taken(r, l) == Taken(m, log) && r.headerWritten
            && (m.preHeader != [] ==> r.first == MinPts(m.preHeader))
  {
    hide MuxAll, AllLog, Gathered, FramesOf, DataOf, Accepted, MinPts, AllPuts;
    var w, h := WriteHeader(m, env), HeaderLog(log, env);
    if m.preHeader != [] {
      var rel := Released(w);
      HeldFree(m, log, rel, h, env);
      MuxAllKeeps(rel, h, m.preHeader, env);
    } else {
      HeldFree(m, log, w, h, env);
    }
  }

  /** Before the first cluster, the header and the reference time may be set. */
  lemma HeldFree(m: Mux, log: Log, w: Mux, h: Log, env: Env)
    requires Inv(m, log, env) && !m.headerWritten && log.clusters == [] && m.file == []
    requires w == m.(file := env.header, headerWritten := true, first := w.first, firstSet := w.firstSet, preHeader := [])
    requires h == log.(head := env.header)
    ensures Inv(w, h, env)
  {
    hide Gathered, FramesOf, Accepted;
    forall j | 0 <= j < |env.tracks|
      ensures TrackFrames(w, h, env, j) && PendingOk(w, j) && TrackFlag(w, h, env, j)
    {
      assert TrackFrames(m, log, env, j) && PendingOk(m, j) && TrackFlag(m, log, env, j);
    }
  }

  /** muxPacket: every accepted packet is taken in, at the end of those before it. */
  lemma {:induction false} MuxPacketKeeps(m: Mux, log: Log, p: Pkt, env: Env)
    requires Inv(m, log, env)
    ensures var r, l := MuxPacket(m, p, env), MuxPacketLog(m, log, p, env);
            Inv(r, l, env) && Taken(r, l) == Taken(m, log) + if Accepted(env, p) then [p] else []
  {
    hide Replay, ReplayLog, MuxInternal, InternalLog, Gathered, FramesOf, DataOf, AllPuts, AllOk, AllCues, Layout, Accepted;
    if Accepted(env, p) {
      if !m.headerWritten {
        var held := Held(m, p);
        HeldKeeps(m, log, p, env);
        if |held.seen| >= |env.tracks| {
          ReplayKeeps(held, log, env);
        }
      } else {
        FirstTimedKeeps(m, log, p, env);
        InternalKeeps(FirstTimed(m, p), log, p, env);
        assert DataOf(log.inputs) + [p] + [] == DataOf(log.inputs) + [] + [p];
      }
    }
  }

  lemma HeldKeeps(m: Mux, log: Log, p: Pkt, env: Env)
    requires Inv(m, log, env) && !m.headerWritten && Accepted(env, p)
    ensures Inv(Held(m, p), log, env) && Taken(Held(m, p), log) == Taken(m, log) + [p]
  {
    hide Gathered, FramesOf, DataOf, AllPuts, AllOk, AllCues, Layout, Accepted;
    var h := Held(m, p);
    LayoutPendingFree(m, h, log, log);
    forall j | 0 <= j < |env.tracks|
      ensures TrackFrames(h, log, env, j) && PendingOk(h, j) && TrackFlag(h, log, env, j)
    {
      assert TrackFrames(m, log, env, j) && PendingOk(m, j) && TrackFlag(m, log, env, j);
    }
  }

  lemma FirstTimedKeeps(m: Mux, log: Log, p: Pkt, env: Env)
    requires Inv(m, log, env) && m.headerWritten
    ensures Inv(FirstTimed(m, p), log, env)
  {
    hide Gathered, FramesOf, AllPuts, AllCues, Layout, Accepted;
    var f := FirstTimed(m, p);
    if !m.firstSet {
      LayoutPendingFree(m, f, log, log);
      forall j | 0 <= j < |env.tracks|
        ensures TrackFrames(f, log, env, j) && PendingOk(f, j) && TrackFlag(f, log, env, j)
      {
        assert TrackFrames(m, log, env, j) && PendingOk(m, j) && TrackFlag(m, log, env, j);
      }
    }
  }

  lemma {:induction false} FlushTracksKeeps(m: Mux, log: Log, n: nat, env: Env)
    requires n <= |m.pending| == |env.tracks| && Core(m, log, env)
    ensures var r, l := FlushTracks(m, n, env), FlushTracksLog(m, log, n, env);
            && Core(r, l, env) && l.inputs == log.inputs && l.head == log.head
            && r.first == m.first && r.firstSet == m.firstSet && r.headerWritten == m.headerWritten && r.preHeader == m.preHeader
            && r.seen == m.seen && forall j :: 0 <= j < n ==> !r.pending[j].has
  {
    hide *;
    if n == 0 {
      FlushNone(m, log, env);
    } else {
      var f, l := FlushTracks(m, n - 1, env), FlushTracksLog(m, log, n - 1, env);
      FlushTracksKeeps(m, log, n - 1, env);
      FlushTracksStep(m, log, n, env);
      FlushKeeps(f, l, n - 1, env);
    }
  }

  lemma FlushNone(m: Mux, log: Log, env: Env)
    requires |m.pending| == |env.tracks|
    ensures FlushTracks(m, 0, env) == m && FlushTracksLog(m, log, 0, env) == log
  {}

  lemma FlushTracksStep(m: Mux, log: Log, n: nat, env: Env)
    requires 0 < n <= |m.pending| == |env.tracks|
    ensures var f, l := FlushTracks(m, n - 1, env), FlushTracksLog(m, log, n - 1, env);
            FlushTracks(m, n, env) == FlushTrack(f, n - 1, env) && FlushTracksLog(m, log, n, env) == FlushLog(f, l, n - 1, env)
  {
    hide FlushTrack, FlushLog;
  }

  lemma CoreShape(m: Mux, log: Log, env: Env)
    requires Core(m, log, env)
    ensures |m.pending| == |env.tracks|
  {
    hide Layout, AllOk, AllCues, TrackFrames, PendingOk, ValidEnv;
  }

  /** doFlush: every frame gathered so far goes to the file, and the last cluster is closed. */
  lemma {:induction false} DoFlushKeeps(m: Mux, log: Log, env: Env)
    requires Inv(m, log, env)
    ensures var r, l := DoFlush(m, env), DoFlushLog(m, log, env);
            && Inv(r, l, env) && Taken(r, l) == Taken(m, log) && !r.open && r.preHeader == m.preHeader
            && r.headerWritten == m.headerWritten
            && forall j :: 0 <= j < |env.tracks| ==>
                 FramesOf(AllPuts(l.clusters), env.tracks[j].stream) == Gathered(l.inputs, env.tracks[j].stream).0
  {
    hide Gathered, FramesOf, AllPuts, AllOk, AllCues, Layout, Accepted, FlushTracks, FlushTracksLog, DataOf;
    var n := |env.tracks|;
    FlushTracksKeeps(m, log, n, env);
    var f, fl := FlushTracks(m, n, env), FlushTracksLog(m, log, n, env);
    CloseKeepsLayout(f, fl);
    CloseKeepsRest(f);
    var r, l := DoFlush(m, env), DoFlushLog(m, log, env);
    LayoutPendingFree(CloseCluster(f), r, fl, l);
    DataOfOneMore(fl.inputs, Mark);
    forall j | 0 <= j < n
      ensures TrackFrames(r, l, env, j) && PendingOk(r, j) && TrackFlag(r, l, env, j)
      ensures FramesOf(AllPuts(l.clusters), env.tracks[j].stream) == Gathered(l.inputs, env.tracks[j].stream).0
    {
      assert TrackFrames(f, fl, env, j) && PendingOk(f, j);
      GroupOneMore(fl.inputs, Mark, env.tracks[j].stream);
      assert FramesOf(AllPuts(l.clusters), env.tracks[j].stream) + [] == FramesOf(AllPuts(l.clusters), env.tracks[j].stream);
    }
  }

  lemma {:induction false} FinishKeeps(m: Mux, log: Log, env: Env)
    requires Inv(m, log, env) && env.tracks != []
    ensures var r, l := Finish(m, env), FinishLog(m, log, env);
            && Inv(r, l, env) && Taken(r, l) == Taken(m, log) && !r.open && r.headerWritten && r.preHeader == []
            && forall j :: 0 <= j < |env.tracks| ==>
                 FramesOf(AllPuts(l.clusters), env.tracks[j].stream) == Gathered(l.inputs, env.tracks[j].stream).0
  {
    hide Gathered, FramesOf, AllPuts, DoFlush, DoFlushLog, Replay, ReplayLog, Core, Taken, Accepted;
    CoreShape(m, log, env);
    if !m.headerWritten {
      ReplayKeeps(m, log, env);
      var w := WriteHeader(m, env);
      DoFlushKeeps(Replay(w, env), ReplayLog(w, HeaderLog(log, env), env), env);
    } else {
      DoFlushKeeps(m, log, env);
    }
  }

  // ------------------------------------------------------------------ runs

  datatype Op = Packet(p: Pkt) | FlushAll

  /** Any number of packets, with orders to flush in between. */
  function Run(ops: seq<Op>, env: Env): (m: Mux)
    ensures |m.pending| == |env.tracks|
  {
    if ops == [] then Start(env)
    else
      var before := Run(ops[..|ops| - 1], env);
      match ops[|ops| - 1]
      case Packet(p) => MuxPacket(before, p, env)
      case FlushAll => DoFlush(before, env)
  }

  function RunLog(ops: seq<Op>, env: Env): Log {
    if ops == [] then Log([], [], [])
    else
      var before, log := Run(ops[..|ops| - 1], env), RunLog(ops[..|ops| - 1], env);
      match ops[|ops| - 1]
      case Packet(p) => MuxPacketLog(before, log, p, env)
      case FlushAll => DoFlushLog(before, log, env)
  }

  /** The packets that have data and a known stream. */
  function AcceptedOf(ops: seq<Op>, env: Env): seq<Pkt> {
    if ops == [] then []
    else
      var op := ops[|ops| - 1];
      AcceptedOf(ops[..|ops| - 1], env) + if op.Packet? && Accepted(env, op.p) then [op.p] else []
  }

  lemma StartInv(env: Env)
    requires ValidEnv(env)
    ensures Inv(Start(env), Log([], [], []), env)
  {}

  /** The invariant holds after every run, and nothing accepted is forgotten or moved. */
  lemma {:induction false} RunKeepsInv(ops: seq<Op>, env: Env)
    requires ValidEnv(env)
    ensures Inv(Run(ops, env), RunLog(ops, env), env)
    ensures Taken(Run(ops, env), RunLog(ops, env)) == AcceptedOf(ops, env)
  {
    hide Inv, Taken, MuxPacket, MuxPacketLog, DoFlush, DoFlushLog, Accepted;
    if ops == [] {
      StartInv(env);
      NothingTaken(env);
    } else {
      var before := ops[..|ops| - 1];
      RunKeepsInv(before, env);
      match ops[|ops| - 1]
      case Packet(p) => MuxPacketKeeps(Run(before, env), RunLog(before, env), p, env);
      case FlushAll =>
        DoFlushKeeps(Run(before, env), RunLog(before, env), env);
        assert AcceptedOf(before, env) + [] == AcceptedOf(before, env);
    }
  }

  lemma NothingTaken(env: Env)
    ensures Taken(Start(env), Log([], [], [])) == []
  {}

  /** The muxer after a run and its closing, and the history that goes with it. */
  function Final(ops: seq<Op>, env: Env): Mux { Finish(Run(ops, env), env) }

  function FinalLog(ops: seq<Op>, env: Env): Log { FinishLog(Run(ops, env), RunLog(ops, env), env) }

  /**
    What a finished file holds: the header and the clusters; in each of them blocks less than five
    seconds from its time; and of every track exactly the frames its packets make, in order.
    */
  lemma FinishedFile(ops: seq<Op>, env: Env)
    requires ValidEnv(env) && env.tracks != []
    ensures var m, log := Final(ops, env), FinalLog(ops, env);
            && m.file == env.header + AllBytes(log.clusters)
            && AllOk(log.clusters, m.first, env)
            && DataOf(log.inputs) == AcceptedOf(ops, env)
            && forall j :: 0 <= j < |env.tracks| ==>
                 FramesOf(AllPuts(log.clusters), env.tracks[j].stream) == Gathered(log.inputs, env.tracks[j].stream).0
  {
    hide Gathered, FramesOf, AllPuts, AllCues, AllOk, Run, RunLog, Finish, FinishLog, DataOf, AcceptedOf, AllBytes, TrackFrames, PendingOk, Accepted;
    RunKeepsInv(ops, env);
    FinishKeeps(Run(ops, env), RunLog(ops, env), env);
    var log := FinalLog(ops, env);
    assert DataOf(log.inputs) + [] == DataOf(log.inputs);
  }

  /** Frames are made of nothing but their stream's packets, in order. */
  function RawOf(frames: seq<Frame>): seq<Byte> {
    if frames == [] then [] else RawOf(frames[..|frames| - 1]) + frames[|frames| - 1].raw
  }

  function BytesOf(ps: seq<Pkt>, stream: int): seq<Byte> {
    if ps == [] then []
    else BytesOf(ps[..|ps| - 1], stream) + if ps[|ps| - 1].stream == stream then ps[|ps| - 1].data else []
  }

  lemma RawOfLast(frames: seq<Frame>, f: Frame)
    ensures RawOf(frames + [f]) == RawOf(frames) + f.raw
  {
    assert (frames + [f])[..|frames|] == frames;
  }

  lemma BytesOfLast(ps: seq<Pkt>, p: Pkt, stream: int)
    ensures BytesOf(ps + [p], stream) == BytesOf(ps, stream) + if p.stream == stream then p.data else []
  {
    assert (ps + [p])[..|ps|] == ps;
  }

  lemma {:induction false} GroupKeepsBytes(inputs: seq<Input>, stream: int)
    ensures RawOf(Gathered(inputs, stream).0) == BytesOf(DataOf(inputs), stream)
  {
    hide RawOf, BytesOf, Gathered, DataOf;
    if inputs == [] {
      NothingGrouped(stream);
    } else {
      var rest, x := inputs[..|inputs| - 1], inputs[|inputs| - 1];
      assert rest + [x] == inputs;
      GroupKeepsBytes(rest, stream);
      GroupOneMore(rest, x, stream);
      DataOfOneMore(rest, x);
      if x.Data? {
        BytesOfLast(DataOf(rest), x.p, stream);
        RawGrows(Gathered(rest, stream), x.p, stream);
      } else {
        assert DataOf(rest) + [] == DataOf(rest);
      }
    }
  }

  lemma NothingGrouped(stream: int)
    ensures RawOf(Gathered([], stream).0) == BytesOf(DataOf([]), stream)
  {}

  /** One packet adds its bytes, whether it grows the last frame or starts another. */
  lemma RawGrows(g: (seq<Frame>, bool), p: Pkt, stream: int)
    requires g.1 ==> g.0 != []
    ensures RawOf(g.0 + [Frame(stream, p.pts, p.key, p.data)]) == RawOf(g.0) + p.data
    ensures g.1 ==> var n, last := |g.0| - 1, g.0[|g.0| - 1];
                    RawOf(g.0[n := last.(key := last.key || p.key, raw := last.raw + p.data)]) == RawOf(g.0) + p.data
  {
    hide RawOf;
    RawOfLast(g.0, Frame(stream, p.pts, p.key, p.data));
    if g.1 {
      var n, last := |g.0| - 1, g.0[|g.0| - 1];
      var grown := last.(key := last.key || p.key, raw := last.raw + p.data);
      assert g.0 == g.0[..n] + [last] && g.0[n := grown] == g.0[..n] + [grown];
      RawOfLast(g.0[..n], last);
      RawOfLast(g.0[..n], grown);
      assert RawOf(g.0[..n]) + (last.raw + p.data) == RawOf(g.0[..n]) + last.raw + p.data;
    }
  }

  // ------------------------------------------------------------------ cues

  /** The cue of a block. */
  predicate CueFor(c: Cue, s: Started, put: Put) {
    put.video && put.block.key && c == Cue(put.ms, put.block.track, s.start)
  }

  lemma {:induction false} CuesOfPoint(puts: seq<Put>, s: Started, c: Cue)
    ensures c in CuesOf(puts, s.start) <==> exists j :: 0 <= j < |puts| && CueFor(c, s, puts[j])
  {
    if puts != [] {
      var rest, n := puts[..|puts| - 1], |puts| - 1;
      CuesOfPoint(rest, s, c);
      assert forall j :: 0 <= j < n ==> rest[j] == puts[j];
      assert c in CuesOf(puts, s.start) <==> c in CuesOf(rest, s.start) || CueFor(c, s, puts[n]);
    }
  }

  predicate CueIn(c: Cue, s: Started) { exists j :: 0 <= j < |s.puts| && CueFor(c, s, s.puts[j]) }

  predicate CueAmong(c: Cue, ss: seq<Started>) { exists k :: 0 <= k < |ss| && CueIn(c, ss[k]) }

  lemma {:induction false} AllCuesPoint(ss: seq<Started>, c: Cue)
    ensures c in AllCues(ss) <==> CueAmong(c, ss)
  {
    hide CuesOf, CueIn;
    if ss != [] {
      hide CueAmong;
      var n := |ss| - 1;
      AllCuesPoint(ss[..n], c);
      CueInIs(c, ss[n]);
    }
  }

  lemma CueInIs(c: Cue, s: Started)
    ensures CueIn(c, s) <==> c in CuesOf(s.puts, s.start)
  {
    hide CuesOf, CueFor;
    CuesOfPoint(s.puts, s, c);
  }

  lemma {:induction false} ClusterIsAt(ss: seq<Started>, k: nat)
    requires k < |ss|
    ensures var all, p, e := AllBytes(ss), |AllBytes(ss[..k])|, Element(ID_CLUSTER, BodyOf(ss[k]));
            p + |e| <= |all| && all[p..p + |e|] == e
  {
    hide Element, BodyOf;
    var n := |ss| - 1;
    if k == n {
      assert ss[..k] == ss[..n];
    } else {
      ClusterIsAt(ss[..n], k);
      assert ss[..n][..k] == ss[..k];
      var all := AllBytes(ss);
      assert AllBytes(ss[..n]) == all[..|AllBytes(ss[..n])|];
    }
  }

  /**
    Cues and key frames of a finished run match: a cue is there exactly if some cluster holds a video
    key frame with its time and track, and at the cue's offset the file has that Cluster element.
    */
  lemma CuesPointAtClusters(ops: seq<Op>, env: Env, c: Cue)
    requires ValidEnv(env) && env.tracks != []
    ensures var m, log := Final(ops, env), FinalLog(ops, env);
            c in m.cues <==> CueAmong(c, log.clusters)
    ensures var m, log := Final(ops, env), FinalLog(ops, env);
            forall k :: 0 <= k < |log.clusters| ==>
              var p, e := log.clusters[k].start, Element(ID_CLUSTER, BodyOf(log.clusters[k]));
              p + |e| <= |m.file| && m.file[p..p + |e|] == e
  {
    hide Gathered, FramesOf, AllPuts, AllCues, AllOk, Run, RunLog, Finish, FinishLog, Taken, AllBytes, TrackFrames, PendingOk, Element, BodyOf, CueAmong, Accepted;
    RunKeepsInv(ops, env);
    FinishKeeps(Run(ops, env), RunLog(ops, env), env);
    var m, log := Final(ops, env), FinalLog(ops, env);
    AllCuesPoint(log.clusters, c);
    forall k | 0 <= k < |log.clusters|
      ensures var p, e := log.clusters[k].start, Element(ID_CLUSTER, BodyOf(log.clusters[k]));
              p + |e| <= |m.file| && m.file[p..p + |e|] == e
    {
      ClusterIsAt(log.clusters, k);
    }
  }
}
