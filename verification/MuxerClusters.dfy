/**
  Where the Matroska muxer ends its clusters (tsMuxer/matroskaMuxer.cpp): how large they get, and why the
  next one is begun.
  */
module MuxerClusters {
  import opened EbmlNumbers
  import opened Cluster
  import opened Muxer
  import opened MuxerRun

  // ------------------------------------------------------------------ what is to be shown

  /** A cluster without its last block. */
  function ButLast(s: Started): Started
    requires s.puts != []
  {
    s.(puts := s.puts[..|s.puts| - 1])
  }

  /** Only the last block of a cluster makes it reach 5 MiB. */
  predicate Limited(s: Started) { s.puts != [] && |BodyOf(ButLast(s))| < 5 * 1024 * 1024 }

  /** Why cluster `k` was begun behind another one: that one was large enough, or its first frame lies five seconds
      behind, or is a video key frame a second behind, or there was an order to flush in between. */
  predicate Begun(ss: seq<Started>, k: nat, flushed: set<nat>)
    requires 0 < k < |ss|
  {
    || |BodyOf(ss[k - 1])| >= 5 * 1024 * 1024
    || (ss[k].puts != [] && ss[k].puts[0].ms - ss[k - 1].time >= 5000)
    || (ss[k].puts != [] && ss[k].puts[0].video && ss[k].puts[0].source.key && ss[k].puts[0].ms - ss[k - 1].time >= 1000)
    || k in flushed
  }

  /** How many clusters there were after each order to flush. */
  function FlushedAt(ops: seq<Op>, env: Env): set<nat> {
    if ops == [] then {}
    else FlushedAt(ops[..|ops| - 1], env) + if ops[|ops| - 1].FlushAll? then {|RunLog(ops, env).clusters|} else {}
  }

  // ------------------------------------------------------------------ the invariant

  /** All that holds of the clusters but the last; and of the last one, which may still wait for its first block. */
  ghost predicate Ended(ss: seq<Started>, flushed: set<nat>) {
    && (forall k :: 0 <= k < |ss| ==> Limited(ss[k]))
    && (forall k :: 0 < k < |ss| ==> Begun(ss, k, flushed))
  }

  /** The latest time in milliseconds, or zero. */
  function LatestMs(puts: seq<Put>): (ms: int)
    ensures ms >= 0 && (forall i :: 0 <= i < |puts| ==> puts[i].ms <= ms)
    ensures ms == 0 || exists i :: 0 <= i < |puts| && puts[i].ms == ms
  {
    if puts == [] then 0
    else
      var ms, last := LatestMs(puts[..|puts| - 1]), puts[|puts| - 1].ms;
      if last > ms then last else ms
  }

  ghost predicate Sized(m: Mux, log: Log, flushed: set<nat>) {
    && Ended(log.clusters, flushed) && m.lastMs == LatestMs(AllPuts(log.clusters))
    && (m.open ==> m.size == |m.buf|)
    && (!m.open && log.clusters != [] ==> |log.clusters| in flushed)
  }

  lemma SizedStays(m: Mux, log: Log, m': Mux, log': Log, flushed: set<nat>)
    requires Sized(m, log, flushed) && m'.open == m.open && m'.size == m.size && m'.buf == m.buf && m'.lastMs == m.lastMs && log'.clusters == log.clusters
    ensures Sized(m', log', flushed)
  {
    hide Ended;
  }

  lemma MoreFlushed(ss: seq<Started>, flushed: set<nat>, more: set<nat>)
    requires Ended(ss, flushed) && flushed <= more
    ensures Ended(ss, more)
  {
    hide Limited, BodyOf;
    forall k | 0 < k < |ss|
      ensures Begun(ss, k, more)
    {
      assert Begun(ss, k, flushed);
    }
  }

  // ------------------------------------------------------------------ one block more

  lemma TimeElementIsSmall(s: Started)
    requires |s.puts| == 1
    ensures Limited(s)
  {
    NothingPut(ButLast(s));
    UintRoundTrip(Uint64(s.time));
  }

  lemma AddCluster(ss: seq<Started>, s: Started, flushed: set<nat>)
    requires Ended(ss, flushed) && Limited(s) && (ss != [] ==> Begun(ss + [s], |ss|, flushed))
    ensures Ended(ss + [s], flushed)
  {
    hide Limited, BodyOf;
    forall k | 0 < k < |ss|
      ensures Begun(ss + [s], k, flushed)
    {
      assert Begun(ss, k, flushed);
    }
  }

  lemma AddPut(ss: seq<Started>, put: Put, flushed: set<nat>)
    requires Ended(ss, flushed) && ss != [] && |BodyOf(ss[|ss| - 1])| < 5 * 1024 * 1024
    ensures var n := |ss| - 1; Ended(ss[n := ss[n].(puts := ss[n].puts + [put])], flushed)
  {
    hide BodyOf;
    var n := |ss| - 1;
    var s := ss[n].(puts := ss[n].puts + [put]);
    var ss' := ss[n := s];
    assert Limited(ss[n]) && ButLast(s) == ss[n];
    forall k | 0 < k <= n
      ensures Begun(ss', k, flushed)
    {
      assert Begun(ss, k, flushed) && Limited(ss[k]);
    }
  }

  /** What the open cluster's buffer says about the cluster. */
  lemma BufferIsBody(m: Mux, log: Log)
    requires Layout(m, log) && m.open
    ensures log.clusters != [] && var s := log.clusters[|log.clusters| - 1]; m.buf == BodyOf(s) && m.clusterMs == s.time
  {
    hide BodyOf, AllBytes;
  }

  /** A frame that starts a cluster has a reason to. */
  lemma StartsForAReason(m: Mux, log: Log, i: nat, env: Env, flushed: set<nat>, s: Started, put: Put)
    requires Layout(m, log) && Sized(m, log, flushed) && i < |env.tracks|
    requires NeedsCluster(m, put.video, put.source.key, put.ms) && s.puts == [put] && log.clusters != []
    ensures Begun(log.clusters + [s], |log.clusters|, flushed)
  {
    hide BodyOf, Layout, Ended;
    if m.open {
      BufferIsBody(m, log);
    }
  }

  lemma OpenPutLog(m: Mux, log: Log, ms: int, put: Put)
    ensures LogPut(LogOpen(m, log, ms), put).clusters
         == log.clusters + [Started(|(if m.open then CloseCluster(m) else m).file|, ms, [put])]
  {
    hide CloseCluster;
    assert [] + [put] == [put];
  }

  lemma {:induction false} FlushOpens(m: Mux, log: Log, i: nat, env: Env, flushed: set<nat>)
    requires Core(m, log, env) && Sized(m, log, flushed) && i < |env.tracks| && m.pending[i].has && m.pending[i].data != []
    requires NeedsCluster(m, env.tracks[i].video, m.pending[i].key, RelMs(m, m.pending[i].pts))
    ensures Ended(FlushLog(m, log, i, env).clusters, flushed)
  {
    hide Layout, AllOk, AllCues, TrackFrames, PendingOk, Ended, NeedsCluster, CloseCluster, BlockOf, Begun, Limited, LogPut;
    var t, ms := m.pending[i], RelMs(m, m.pending[i].pts);
    var put := PutOf(env, ms, i, t, ms);
    var s := Started(|(if m.open then CloseCluster(m) else m).file|, ms, [put]);
    OpenPutLog(m, log, ms, put);
    assert FlushLog(m, log, i, env).clusters == log.clusters + [s];
    TimeElementIsSmall(s);
    if log.clusters != [] {
      StartsForAReason(m, log, i, env, flushed, s, put);
    }
    AddCluster(log.clusters, s, flushed);
  }

  lemma {:induction false} FlushAdds(m: Mux, log: Log, i: nat, env: Env, flushed: set<nat>)
    requires Core(m, log, env) && Sized(m, log, flushed) && i < |env.tracks| && m.pending[i].has && m.pending[i].data != []
    requires !NeedsCluster(m, env.tracks[i].video, m.pending[i].key, RelMs(m, m.pending[i].pts))
    ensures Ended(FlushLog(m, log, i, env).clusters, flushed)
  {
    hide Layout, AllOk, AllCues, TrackFrames, PendingOk, Ended, BlockOf, BodyOf;
    var t, ms := m.pending[i], RelMs(m, m.pending[i].pts);
    BufferIsBody(m, log);
    AddPut(log.clusters, PutOf(env, m.clusterMs, i, t, ms), flushed);
  }

  /** The time remembered for the Duration element. */
  lemma {:induction false} FlushLatest(m: Mux, log: Log, i: nat, env: Env)
    requires Core(m, log, env) && m.lastMs == LatestMs(AllPuts(log.clusters)) && i < |env.tracks|
    ensures FlushTrack(m, i, env).lastMs == LatestMs(AllPuts(FlushLog(m, log, i, env).clusters))
  {
    hide Layout, AllOk, AllCues, TrackFrames, AllPuts, PutBlock, Prepared, PreparedLog, LogPut, PutOk, BlockOf;
    var t, ms := m.pending[i], RelMs(m, m.pending[i].pts);
    assert PendingOk(m, i);
    if t.has {
      var c, l := Prepared(m, i, t, env), PreparedLog(m, log, i, t, env);
      PreparedIsReady(m, log, i, env);
      ReadyHasCluster(c, l, i, t, ms, env);
      var put := PutOf(env, c.clusterMs, i, t, ms);
      LogPutParts(l, put);
      assert (AllPuts(log.clusters) + [put])[..|AllPuts(log.clusters)|] == AllPuts(log.clusters);
    }
  }

  lemma FlushedSize(m: Mux, i: nat, env: Env)
    requires i < |m.pending| == |env.tracks| && (m.open ==> m.size == |m.buf|)
    ensures var r := FlushTrack(m, i, env);
            && (r.open ==> r.size == |r.buf|)
            && (m.pending[i].has && m.pending[i].data != [] ==> r.open)
            && (!(m.pending[i].has && m.pending[i].data != []) ==> r.open == m.open && r.size == m.size && r.buf == m.buf)
  {
    hide CloseCluster, TimeElement, BlockBytes, BlockOf;
  }

  lemma {:induction false} FlushSized(m: Mux, log: Log, i: nat, env: Env, flushed: set<nat>)
    requires Core(m, log, env) && Sized(m, log, flushed) && i < |env.tracks|
    ensures Sized(FlushTrack(m, i, env), FlushLog(m, log, i, env), flushed)
  {
    hide Layout, AllOk, AllCues, TrackFrames, PendingOk, Ended, NeedsCluster, LogPut, PreparedLog, FlushTrack;
    var t := m.pending[i];
    FlushedSize(m, i, env);
    FlushLatest(m, log, i, env);
    if t.has && t.data != [] {
      if NeedsCluster(m, env.tracks[i].video, t.key, RelMs(m, t.pts)) {
        FlushOpens(m, log, i, env, flushed);
      } else {
        FlushAdds(m, log, i, env, flushed);
      }
    }
  }

  // ------------------------------------------------------------------ whole runs

  lemma {:induction false} InternalSized(m: Mux, log: Log, p: Pkt, env: Env, flushed: set<nat>)
    requires Inv(m, log, env) && Accepted(env, p) && Sized(m, log, flushed)
    ensures Sized(MuxInternal(m, p, env), InternalLog(m, log, p, env), flushed)
  {
    hide Core, Sized, FlushTrack, FlushLog, TrackFlag;
    CoreShape(m, log, env);
    var i := FindStream(env.tracks, p.stream);
    var t := m.pending[i];
    var f, l := m, log;
    if t.has && p.pts != t.pts {
      FlushSized(m, log, i, env, flushed);
      f, l := FlushTrack(m, i, env), FlushLog(m, log, i, env);
    }
    SizedStays(f, l, MuxInternal(m, p, env), InternalLog(m, log, p, env), flushed);
  }

  lemma {:induction false} MuxAllSized(m: Mux, log: Log, ps: seq<Pkt>, env: Env, flushed: set<nat>)
    requires |m.pending| == |env.tracks|
    requires Inv(m, log, env) && m.firstSet && forall k :: 0 <= k < |ps| ==> Accepted(env, ps[k])
    requires Sized(m, log, flushed)
    ensures Sized(MuxAll(m, ps, env), AllLog(m, log, ps, env), flushed)
  {
    hide *;
    MuxAllStep(m, log, ps, env);
    if ps != [] {
      var n := |ps| - 1;
      var before, p := ps[..n], ps[n];
      MuxAllSized(m, log, before, env, flushed);
      MuxAllKeeps(m, log, before, env);
      InternalSized(MuxAll(m, before, env), AllLog(m, log, before, env), p, env, flushed);
    }
  }

  lemma {:induction false} ReplaySized(m: Mux, log: Log, env: Env, flushed: set<nat>)
    requires Inv(m, log, env) && !m.headerWritten && Sized(m, log, flushed)
    ensures var w := WriteHeader(m, env); Sized(Replay(w, env), ReplayLog(w, HeaderLog(log, env), env), flushed)
  {
    hide MuxAll, AllLog, Gathered, FramesOf, DataOf, Accepted, MinPts, AllPuts, Sized, TrackFrames, TrackFlag, PendingOk;
    var w, h := WriteHeader(m, env), HeaderLog(log, env);
    if m.preHeader != [] {
      var rel := Released(w);
      HeldFree(m, log, rel, h, env);
      SizedStays(m, log, rel, h, flushed);
      MuxAllSized(rel, h, m.preHeader, env, flushed);
    } else {
      SizedStays(m, log, w, h, flushed);
    }
  }

  lemma {:induction false} MuxPacketSized(m: Mux, log: Log, p: Pkt, env: Env, flushed: set<nat>)
    requires Inv(m, log, env) && Sized(m, log, flushed)
    ensures Sized(MuxPacket(m, p, env), MuxPacketLog(m, log, p, env), flushed)
  {
    hide Replay, ReplayLog, MuxInternal, InternalLog, Core, DataOf, Accepted, Sized, TrackFlag;
    CoreShape(m, log, env);
    if Accepted(env, p) {
      if !m.headerWritten {
        var held := Held(m, p);
        HeldKeeps(m, log, p, env);
        SizedStays(m, log, held, log, flushed);
        if |held.seen| >= |env.tracks| {
          ReplaySized(held, log, env, flushed);
        }
      } else {
        var f := FirstTimed(m, p);
        FirstTimedKeeps(m, log, p, env);
        SizedStays(m, log, f, log, flushed);
        InternalSized(f, log, p, env, flushed);
      }
    }
  }

  lemma {:induction false} FlushTracksSized(m: Mux, log: Log, n: nat, env: Env, flushed: set<nat>)
    requires n <= |m.pending| == |env.tracks| && Core(m, log, env) && Sized(m, log, flushed)
    ensures Sized(FlushTracks(m, n, env), FlushTracksLog(m, log, n, env), flushed)
  {
    hide *;
    if n == 0 {
      FlushNone(m, log, env);
    } else {
      FlushTracksSized(m, log, n - 1, env, flushed);
      FlushTracksKeeps(m, log, n - 1, env);
      FlushTracksStep(m, log, n, env);
      FlushSized(FlushTracks(m, n - 1, env), FlushTracksLog(m, log, n - 1, env), n - 1, env, flushed);
    }
  }

  /** An order to flush may begin clusters of its own, and is remembered once they are closed. */
  lemma {:induction false} DoFlushSized(m: Mux, log: Log, env: Env, flushed: set<nat>)
    requires Inv(m, log, env) && Sized(m, log, flushed)
    ensures var l := DoFlushLog(m, log, env);
            Ended(l.clusters, flushed) && Sized(DoFlush(m, env), l, flushed + {|l.clusters|})
  {
    hide Core, FlushTracks, FlushTracksLog, Ended, TrackFlag, Element;
    CoreShape(m, log, env);
    FlushTracksSized(m, log, |env.tracks|, env, flushed);
    var l := DoFlushLog(m, log, env);
    MoreFlushed(l.clusters, flushed, flushed + {|l.clusters|});
  }

  lemma {:induction false} RunSized(ops: seq<Op>, env: Env)
    requires ValidEnv(env)
    ensures Sized(Run(ops, env), RunLog(ops, env), FlushedAt(ops, env))
  {
    hide Inv, MuxPacket, MuxPacketLog, DoFlush, DoFlushLog, Sized;
    if ops == [] {
      StartSized(env);
    } else {
      var before := ops[..|ops| - 1];
      var m, log, flushed := Run(before, env), RunLog(before, env), FlushedAt(before, env);
      RunKeepsInv(before, env);
      RunSized(before, env);
      match ops[|ops| - 1]
      case Packet(p) =>
        MuxPacketSized(m, log, p, env, flushed);
        assert flushed + {} == flushed;
      case FlushAll => DoFlushSized(m, log, env, flushed);
    }
  }

  lemma StartSized(env: Env)
    ensures Sized(Start(env), Log([], [], []), {})
  {}

  lemma SizedLatest(m: Mux, log: Log, flushed: set<nat>)
    requires Sized(m, log, flushed)
    ensures m.lastMs == LatestMs(AllPuts(log.clusters))
  {
    hide Ended, AllPuts, LatestMs;
  }

  /**
    In every finished file no cluster had reached 5 MiB before its last block, and each cluster behind another one
    was begun for one of the four reasons; and the time remembered for the file's duration is the latest of all.
    */
  lemma {:induction false} ClustersEnd(ops: seq<Op>, env: Env)
    requires ValidEnv(env) && env.tracks != []
    ensures Ended(FinalLog(ops, env).clusters, FlushedAt(ops, env))
    ensures Final(ops, env).lastMs == LatestMs(AllPuts(FinalLog(ops, env).clusters))
  {
    hide Inv, Sized, Ended, Run, RunLog, Replay, ReplayLog, DoFlush, DoFlushLog, FlushedAt;
    var m, log, flushed := Run(ops, env), RunLog(ops, env), FlushedAt(ops, env);
    RunKeepsInv(ops, env);
    RunSized(ops, env);
    if !m.headerWritten {
      var w, h := WriteHeader(m, env), HeaderLog(log, env);
      ReplaySized(m, log, env, flushed);
      ReplayKeeps(m, log, env);
      DoFlushSized(Replay(w, env), ReplayLog(w, h, env), env, flushed);
    } else {
      DoFlushSized(m, log, env, flushed);
    }
    SizedLatest(Final(ops, env), FinalLog(ops, env), flushed + {|FinalLog(ops, env).clusters|});
  }
}
