/**
  Which runs of the Matroska muxer keep every frame in reach of its cluster's 16-bit offset, told from
  the packets alone (tsMuxer/matroskaMuxer.cpp).
  */
module MuxerReach {
  import opened Cluster
  import opened Muxer
  import opened MuxerRun

  /** The frame is not more than 32768 ms before its cluster. */
  predicate PutInReach(put: Put, time: int) { put.ms - time >= -0x8000 }

  predicate InReach(s: Started) {
    forall j :: 0 <= j < |s.puts| ==> PutInReach(s.puts[j], s.time)
  }

  predicate AllInReach(ss: seq<Started>) {
    forall k :: 0 <= k < |ss| ==> InReach(ss[k])
  }

  /** Where the last packet of a stream is. */
  function Latest(ps: seq<Pkt>, stream: int): (i: int)
    ensures -1 <= i < |ps|
    ensures i >= 0 ==> ps[i].stream == stream
  {
    if ps == [] then -1
    else if ps[|ps| - 1].stream == stream then |ps| - 1
    else Latest(ps[..|ps| - 1], stream)
  }

  /** At no time is the last packet of a stream more than 32768 ms before a packet that has arrived. */
  ghost predicate Punctual(ps: seq<Pkt>) {
    forall n, j, stream :: 0 <= j < n <= |ps| && Latest(ps[..n], stream) >= 0 ==>
      ps[j].pts - ps[Latest(ps[..n], stream)].pts <= 0x8000 * PTS_PER_MS
  }

  lemma PunctualPrefix(ps: seq<Pkt>, qs: seq<Pkt>)
    requires Punctual(ps) && qs <= ps
    ensures Punctual(qs)
  {
    hide Latest;
    forall n, j, stream | 0 <= j < n <= |qs| && Latest(qs[..n], stream) >= 0
      ensures qs[j].pts - qs[Latest(qs[..n], stream)].pts <= 0x8000 * PTS_PER_MS
    {
      assert qs[..n] == ps[..n];
    }
  }

  lemma PunctualNow(ps: seq<Pkt>, j: nat, stream: int)
    requires Punctual(ps) && j < |ps| && Latest(ps, stream) >= 0
    ensures ps[j].pts - ps[Latest(ps, stream)].pts <= 0x8000 * PTS_PER_MS
  {
    hide Latest;
    assert ps[..|ps|] == ps;
  }

  lemma LatestOneMore(ps: seq<Pkt>, p: Pkt, stream: int)
    ensures Latest(ps + [p], stream) == if p.stream == stream then |ps| else Latest(ps, stream)
  {
    assert (ps + [p])[..|ps|] == ps;
  }

  /** Rounding keeps the distance. */
  lemma DistanceInMs(a: int, b: int)
    requires a - b <= 0x8000 * PTS_PER_MS
    ensures TruncDiv(b, PTS_PER_MS) - TruncDiv(a, PTS_PER_MS) >= -0x8000
  {}

  // ------------------------------------------------------------------ the invariant

  /** The time is that of a packet. */
  ghost predicate Seen(ps: seq<Pkt>, first: int, ms: int) {
    exists i :: 0 <= i < |ps| && TruncDiv(ps[i].pts - first, PTS_PER_MS) == ms
  }

  /** The frame a track is gathering has the time of its stream's last packet. */
  predicate HoldsLatest(m: Mux, ps: seq<Pkt>, env: Env, j: nat)
    requires j < |env.tracks| == |m.pending|
  {
    m.pending[j].has ==> var i := Latest(ps, env.tracks[j].stream); i >= 0 && ps[i].pts == m.pending[j].pts
  }

  /** All puts are in reach, and the open cluster has the time of a packet taken in before. */
  ghost predicate Timely(m: Mux, log: Log, env: Env) {
    && |m.pending| == |env.tracks|
    && AllInReach(log.clusters)
    && (m.open ==> Seen(DataOf(log.inputs), m.first, m.clusterMs))
    && forall j :: 0 <= j < |env.tracks| ==> HoldsLatest(m, DataOf(log.inputs), env, j)
  }

  /** Before the first cluster there is nothing to be late. */
  lemma NothingIsLate(m: Mux, log: Log, env: Env)
    requires Inv(m, log, env) && !m.firstSet
    ensures Timely(m, log, env)
  {
    hide AllOk, AllCues, StartsRight, TrackFrames, TrackFlag, Latest, DataOf, AllBytes, BodyOf;
    forall j | 0 <= j < |env.tracks|
      ensures HoldsLatest(m, DataOf(log.inputs), env, j)
    {
      assert PendingOk(m, j);
    }
  }

  lemma TimelyStays(m: Mux, log: Log, m': Mux, log': Log, env: Env)
    requires Timely(m, log, env) && m'.pending == m.pending && (m'.open ==> m.open && m'.clusterMs == m.clusterMs) && m'.first == m.first
    requires log'.clusters == log.clusters && DataOf(log'.inputs) == DataOf(log.inputs)
    ensures Timely(m', log', env)
  {
    hide DataOf, Latest, AllInReach, Seen;
    forall j | 0 <= j < |env.tracks|
      ensures HoldsLatest(m', DataOf(log'.inputs), env, j)
    {
      assert HoldsLatest(m, DataOf(log.inputs), env, j);
    }
  }

  // ------------------------------------------------------------------ the steps keep it

  /** The cluster a frame goes into is its own or that of a packet already taken in. */
  lemma PreparedInReach(m: Mux, log: Log, i: nat, env: Env)
    requires Timely(m, log, env) && i < |env.tracks| && m.pending[i].has && Punctual(DataOf(log.inputs))
    ensures var t := m.pending[i];
            var c, l := Prepared(m, i, t, env), PreparedLog(m, log, i, t, env);
            && RelMs(m, t.pts) - c.clusterMs >= -0x8000 && Seen(DataOf(log.inputs), m.first, c.clusterMs) && AllInReach(l.clusters)
  {
    hide CloseCluster, DataOf, Latest, TimeElement, Punctual;
    var t, ps := m.pending[i], DataOf(log.inputs);
    assert HoldsLatest(m, ps, env, i);
    if !NeedsCluster(m, env.tracks[i].video, t.key, RelMs(m, t.pts)) {
      var k :| 0 <= k < |ps| && TruncDiv(ps[k].pts - m.first, PTS_PER_MS) == m.clusterMs;
      PunctualNow(ps, k, env.tracks[i].stream);
      DistanceInMs(ps[k].pts - m.first, t.pts - m.first);
    }
  }

  lemma PutStaysInReach(log: Log, put: Put)
    requires log.clusters != [] && AllInReach(log.clusters) && PutInReach(put, log.clusters[|log.clusters| - 1].time)
    ensures AllInReach(LogPut(log, put).clusters)
  {
    hide PutInReach;
    var n := |log.clusters| - 1;
    assert InReach(log.clusters[n]);
  }

  lemma {:induction false} FlushTimely(m: Mux, log: Log, i: nat, env: Env)
    requires Core(m, log, env) && Timely(m, log, env) && i < |env.tracks| && Punctual(DataOf(log.inputs))
    ensures Timely(FlushTrack(m, i, env), FlushLog(m, log, i, env), env)
  {
    hide Layout, AllOk, AllCues, AllPuts, AllInReach, Latest, TrackFrames, PutBlock, Prepared, PreparedLog, LogPut, PutOk, PutOf, DataOf, Punctual,
      Seen;
    var r, l := FlushTrack(m, i, env), FlushLog(m, log, i, env);
    var t := m.pending[i];
    assert PendingOk(m, i);
    FlushKeeps(m, log, i, env);
    if t.has {
      FlushInReach(m, log, i, env);
    }
    forall j | 0 <= j < |env.tracks|
      ensures HoldsLatest(r, DataOf(l.inputs), env, j)
    {
      assert HoldsLatest(m, DataOf(log.inputs), env, j);
    }
  }

  lemma {:induction false} FlushInReach(m: Mux, log: Log, i: nat, env: Env)
    requires Core(m, log, env) && Timely(m, log, env) && i < |env.tracks| && Punctual(DataOf(log.inputs)) && m.pending[i].has
    ensures AllInReach(FlushLog(m, log, i, env).clusters)
    ensures Seen(DataOf(log.inputs), m.first, FlushTrack(m, i, env).clusterMs)
  {
    hide Layout, AllOk, AllCues, AllPuts, AllInReach, Latest, TrackFrames, Prepared, PreparedLog, LogPut, PutOk, DataOf, Punctual, Seen, BlockOf,
      BlockBytes;
    var t := m.pending[i];
    var c, pl, ms := Prepared(m, i, t, env), PreparedLog(m, log, i, t, env), RelMs(m, t.pts);
    assert PendingOk(m, i);
    PreparedIsReady(m, log, i, env);
    PreparedInReach(m, log, i, env);
    StartIsHere(c, pl);
    PutStaysInReach(pl, PutOf(env, c.clusterMs, i, t, ms));
  }

  lemma {:induction false} GatherTimely(m: Mux, log: Log, i: nat, p: Pkt, env: Env)
    requires Timely(m, log, env) && ValidEnv(env) && i < |env.tracks| && env.tracks[i].stream == p.stream
    requires m.pending[i].has ==> m.pending[i].pts == p.pts
    ensures Timely(m.(pending := m.pending[i := Gather(m.pending[i], p)]), log.(inputs := log.inputs + [Data(p)]), env)
  {
    hide AllInReach, DataOf, Latest;
    var r, l := m.(pending := m.pending[i := Gather(m.pending[i], p)]), log.(inputs := log.inputs + [Data(p)]);
    var ps := DataOf(log.inputs);
    DataOfOneMore(log.inputs, Data(p));
    assert DataOf(l.inputs) == ps + [p];
    forall j | 0 <= j < |env.tracks|
      ensures HoldsLatest(r, ps + [p], env, j)
    {
      assert HoldsLatest(m, ps, env, j);
      LatestOneMore(ps, p, env.tracks[j].stream);
      if j != i {
        assert env.tracks[j].stream != p.stream;
      }
    }
    if m.open {
      var k :| 0 <= k < |ps| && TruncDiv(ps[k].pts - m.first, PTS_PER_MS) == m.clusterMs;
      assert (ps + [p])[k] == ps[k];
    }
  }

  lemma {:induction false} InternalTimely(m: Mux, log: Log, p: Pkt, env: Env)
    requires Inv(m, log, env) && Accepted(env, p) && Timely(m, log, env) && Punctual(DataOf(log.inputs))
    ensures Timely(MuxInternal(m, p, env), InternalLog(m, log, p, env), env)
  {
    hide Core, Timely, FlushTrack, FlushLog, DataOf, Punctual, TrackFlag;
    CoreShape(m, log, env);
    CoreIsValid(m, log, env);
    var i := FindStream(env.tracks, p.stream);
    var t := m.pending[i];
    if t.has && p.pts != t.pts {
      FlushTimely(m, log, i, env);
      FlushKeeps(m, log, i, env);
      GatherTimely(FlushTrack(m, i, env), FlushLog(m, log, i, env), i, p, env);
    } else {
      GatherTimely(m, log, i, p, env);
    }
  }

  lemma CoreIsValid(m: Mux, log: Log, env: Env)
    requires Core(m, log, env)
    ensures ValidEnv(env)
  {
    hide Layout, AllOk, AllCues, TrackFrames, PendingOk, ValidEnv;
  }

  lemma {:induction false} MuxAllTimely(m: Mux, log: Log, ps: seq<Pkt>, env: Env)
    requires |m.pending| == |env.tracks|
    requires Inv(m, log, env) && m.firstSet && forall k :: 0 <= k < |ps| ==> Accepted(env, ps[k])
    requires Timely(m, log, env) && Punctual(DataOf(log.inputs) + ps)
    ensures Timely(MuxAll(m, ps, env), AllLog(m, log, ps, env), env)
  {
    hide *;
    MuxAllStep(m, log, ps, env);
    if ps != [] {
      var n := |ps| - 1;
      var before, p := ps[..n], ps[n];
      assert DataOf(log.inputs) + before <= DataOf(log.inputs) + ps;
      PunctualPrefix(DataOf(log.inputs) + ps, DataOf(log.inputs) + before);
      MuxAllTimely(m, log, before, env);
      MuxAllKeeps(m, log, before, env);
      InternalTimely(MuxAll(m, before, env), AllLog(m, log, before, env), p, env);
    }
  }

  lemma {:induction false} ReplayTimely(m: Mux, log: Log, env: Env)
    requires Inv(m, log, env) && !m.headerWritten && Punctual(Taken(m, log))
    ensures var w := WriteHeader(m, env); Timely(Replay(w, env), ReplayLog(w, HeaderLog(log, env), env), env)
  {
    hide MuxAll, AllLog, Gathered, FramesOf, DataOf, Accepted, MinPts, AllPuts, Timely, Punctual, HoldsLatest, TrackFrames, TrackFlag, PendingOk;
    var w, h := WriteHeader(m, env), HeaderLog(log, env);
    NothingIsLate(m, log, env);
    if m.preHeader != [] {
      var rel := Released(w);
      HeldFree(m, log, rel, h, env);
      NothingHeld(m, log, rel, h, env);
      MuxAllTimely(rel, h, m.preHeader, env);
    } else {
      HeldFree(m, log, w, h, env);
      NothingHeld(m, log, w, h, env);
    }
  }

  lemma NothingHeld(m: Mux, log: Log, w: Mux, h: Log, env: Env)
    requires Inv(m, log, env) && !m.firstSet && !m.open
    requires w.pending == m.pending && w.open == m.open && h.clusters == log.clusters && h.inputs == log.inputs
    ensures Timely(w, h, env)
  {
    hide AllOk, AllCues, Layout, TrackFrames, TrackFlag, Latest, DataOf;
    forall j | 0 <= j < |env.tracks|
      ensures HoldsLatest(w, DataOf(h.inputs), env, j)
    {
      assert PendingOk(m, j);
    }
  }

  lemma {:induction false} MuxPacketTimely(m: Mux, log: Log, p: Pkt, env: Env)
    requires Inv(m, log, env) && Timely(m, log, env)
    requires Punctual(Taken(m, log) + if Accepted(env, p) then [p] else [])
    ensures Timely(MuxPacket(m, p, env), MuxPacketLog(m, log, p, env), env)
  {
    hide Replay, ReplayLog, MuxInternal, InternalLog, Core, DataOf, Accepted, Timely, Punctual, TrackFlag;
    CoreShape(m, log, env);
    if Accepted(env, p) {
      if !m.headerWritten {
        var held := Held(m, p);
        HeldKeeps(m, log, p, env);
        if |held.seen| >= |env.tracks| {
          ReplayTimely(held, log, env);
        } else {
          NothingIsLate(held, log, env);
        }
      } else {
        var f := FirstTimed(m, p);
        FirstTimedKeeps(m, log, p, env);
        assert Taken(m, log) == DataOf(log.inputs);
        PunctualPrefix(Taken(m, log) + [p], DataOf(log.inputs));
        FirstTimedTimely(m, log, p, env);
        InternalTimely(f, log, p, env);
      }
    }
  }

  lemma FirstTimedTimely(m: Mux, log: Log, p: Pkt, env: Env)
    requires Inv(m, log, env) && Timely(m, log, env)
    ensures Timely(FirstTimed(m, p), log, env)
  {
    hide DataOf, Timely, AllOk, AllCues, TrackFrames, TrackFlag, AllBytes, BodyOf, StartsRight;
    if !m.firstSet {
      NothingHeld(m, log, FirstTimed(m, p), log, env);
    }
  }

  lemma {:induction false} FlushTracksTimely(m: Mux, log: Log, n: nat, env: Env)
    requires n <= |m.pending| == |env.tracks| && Core(m, log, env) && Timely(m, log, env) && Punctual(DataOf(log.inputs))
    ensures Timely(FlushTracks(m, n, env), FlushTracksLog(m, log, n, env), env)
  {
    hide *;
    if n == 0 {
      FlushNone(m, log, env);
    } else {
      FlushTracksTimely(m, log, n - 1, env);
      FlushTracksKeeps(m, log, n - 1, env);
      FlushTracksStep(m, log, n, env);
      FlushTimely(FlushTracks(m, n - 1, env), FlushTracksLog(m, log, n - 1, env), n - 1, env);
    }
  }

  lemma {:induction false} DoFlushTimely(m: Mux, log: Log, env: Env)
    requires Inv(m, log, env) && Timely(m, log, env) && Punctual(DataOf(log.inputs))
    ensures Timely(DoFlush(m, env), DoFlushLog(m, log, env), env)
  {
    hide Core, FlushTracks, FlushTracksLog, DataOf, Timely, Punctual, CloseCluster, TrackFlag;
    CoreShape(m, log, env);
    var n := |env.tracks|;
    FlushTracksTimely(m, log, n, env);
    var f, l := FlushTracks(m, n, env), FlushTracksLog(m, log, n, env);
    CloseKeepsRest(f);
    CloseKeepsTime(f);
    DataOfOneMore(l.inputs, Mark);
    assert DataOf(l.inputs) + [] == DataOf(l.inputs);
    TimelyStays(f, l, DoFlush(m, env), DoFlushLog(m, log, env), env);
  }

  lemma CloseKeepsTime(m: Mux)
    ensures CloseCluster(m).clusterMs == m.clusterMs
  {}

  lemma {:induction false} RunTimely(ops: seq<Op>, env: Env)
    requires ValidEnv(env) && Punctual(AcceptedOf(ops, env))
    ensures Timely(Run(ops, env), RunLog(ops, env), env)
  {
    hide Inv, MuxPacket, MuxPacketLog, DoFlush, DoFlushLog, Accepted, Punctual, Timely, DataOf;
    RunKeepsInv(ops, env);
    if ops == [] {
      StartTimely(env);
    } else {
      var before := ops[..|ops| - 1];
      var m, log := Run(before, env), RunLog(before, env);
      RunKeepsInv(before, env);
      PunctualPrefix(AcceptedOf(ops, env), AcceptedOf(before, env));
      RunTimely(before, env);
      match ops[|ops| - 1]
      case Packet(p) => MuxPacketTimely(m, log, p, env);
      case FlushAll =>
        PunctualPrefix(Taken(m, log), DataOf(log.inputs));
        DoFlushTimely(m, log, env);
    }
  }

  lemma StartTimely(env: Env)
    ensures Timely(Start(env), Log([], [], []), env)
  {}

  /**
    If no stream ever falls more than 32768 ms behind the packets that have arrived, then every frame
    of the finished file is in reach of its cluster.
    */
  lemma {:induction false} PunctualRun(ops: seq<Op>, env: Env)
    requires ValidEnv(env) && env.tracks != [] && Punctual(AcceptedOf(ops, env))
    ensures AllInReach(FinalLog(ops, env).clusters)
  {
    hide Inv, Timely, Run, RunLog, Replay, ReplayLog, DoFlush, DoFlushLog, AcceptedOf, Punctual, DataOf;
    var m, log := Run(ops, env), RunLog(ops, env);
    RunKeepsInv(ops, env);
    RunTimely(ops, env);
    if !m.headerWritten {
      var w, h := WriteHeader(m, env), HeaderLog(log, env);
      var r, l := Replay(w, env), ReplayLog(w, h, env);
      ReplayTimely(m, log, env);
      ReplayKeeps(m, log, env);
      PunctualPrefix(Taken(r, l), DataOf(l.inputs));
      DoFlushTimely(r, l, env);
    } else {
      PunctualPrefix(Taken(m, log), DataOf(log.inputs));
      DoFlushTimely(m, log, env);
    }
    TimelyInReach(Final(ops, env), FinalLog(ops, env), env);
  }

  lemma TimelyInReach(m: Mux, log: Log, env: Env)
    requires Timely(m, log, env)
    ensures AllInReach(log.clusters)
  {
    hide AllInReach, Seen, HoldsLatest, DataOf;
  }
}
