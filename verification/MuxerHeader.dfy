/**
  When the Matroska muxer writes its header, and which time becomes its time zero
  (tsMuxer/matroskaMuxer.cpp).
  */
module MuxerHeader {
  import opened Muxer
  import opened MuxerRun

  predicate Sends(ps: seq<Pkt>, stream: int) { exists i :: 0 <= i < |ps| && ps[i].stream == stream }

  /** Every track has had a packet. */
  predicate AllSeen(ps: seq<Pkt>, env: Env) {
    forall j :: 0 <= j < |env.tracks| ==> Sends(ps, env.tracks[j].stream)
  }

  /** The packets up to the first moment at which every track has had one; all of them, if that never comes. */
  predicate HeldBack(ps: seq<Pkt>, k: nat, env: Env) {
    && k <= |ps| && (forall n :: 0 <= n < k ==> !AllSeen(ps[..n], env))
    && (AllSeen(ps[..k], env) || k == |ps|)
  }

  /** The least time of some packets. */
  predicate Least(ps: seq<Pkt>, pts: int) {
    (forall i :: 0 <= i < |ps| ==> pts <= ps[i].pts) && exists i :: 0 <= i < |ps| && ps[i].pts == pts
  }

  lemma {:induction false} MinPtsIsLeast(ps: seq<Pkt>)
    requires ps != []
    ensures Least(ps, MinPts(ps))
  {
    if |ps| > 1 {
      var rest := ps[..|ps| - 1];
      MinPtsIsLeast(rest);
      var i :| 0 <= i < |rest| && rest[i].pts == MinPts(rest);
      assert ps[i] == rest[i];
      forall j | 0 <= j < |rest|
        ensures MinPts(rest) <= ps[j].pts
      {
        assert rest[j] == ps[j];
      }
    }
  }

  // ------------------------------------------------------------------ counting the streams

  function Streams(ps: seq<Pkt>): set<int> {
    if ps == [] then {} else Streams(ps[..|ps| - 1]) + {ps[|ps| - 1].stream}
  }

  lemma StreamsOneMore(ps: seq<Pkt>, p: Pkt)
    ensures Streams(ps + [p]) == Streams(ps) + {p.stream}
  {
    assert (ps + [p])[..|ps|] == ps;
  }

  lemma {:induction false} StreamsHold(ps: seq<Pkt>, x: int)
    ensures x in Streams(ps) <==> Sends(ps, x)
  {
    if ps != [] {
      var rest := ps[..|ps| - 1];
      StreamsHold(rest, x);
      if x in Streams(rest) {
        var i :| 0 <= i < |rest| && rest[i].stream == x;
        assert ps[i].stream == x;
      }
      if i :| 0 <= i < |ps| && ps[i].stream == x {
        assert i < |rest| ==> rest[i].stream == x;
      }
    }
  }

  function TrackStreams(tracks: seq<TrackInfo>): set<int> { set j | 0 <= j < |tracks| :: tracks[j].stream }

  lemma {:induction false} TracksCounted(env: Env, n: nat)
    requires ValidEnv(env) && n <= |env.tracks|
    ensures |TrackStreams(env.tracks[..n])| == n
  {
    if n > 0 {
      TracksCounted(env, n - 1);
      var last, before := env.tracks[n - 1].stream, env.tracks[..n - 1];
      forall j | 0 <= j < |before|
        ensures before[j].stream != last
      {
        assert before[j] == env.tracks[j];
      }
      assert TrackStreams(env.tracks[..n]) == TrackStreams(env.tracks[..n - 1]) + {last};
    }
  }

  lemma SubsetSize(a: set<int>, b: set<int>)
    requires a <= b
    ensures |a| >= |b| <==> a == b
  {
    assert b == a + (b - a);
  }

  predicate AllAccepted(ps: seq<Pkt>, env: Env) { forall i :: 0 <= i < |ps| ==> Accepted(env, ps[i]) }

  /** The muxer counts; that is as good as looking for each track. */
  lemma {:induction false} CountingIsEnough(ps: seq<Pkt>, env: Env)
    requires ValidEnv(env) && AllAccepted(ps, env)
    ensures |Streams(ps)| >= |env.tracks| <==> AllSeen(ps, env)
  {
    var mine, all := Streams(ps), TrackStreams(env.tracks);
    assert env.tracks[..|env.tracks|] == env.tracks;
    TracksCounted(env, |env.tracks|);
    forall x | x in mine
      ensures x in all
    {
      StreamsHold(ps, x);
      var i :| 0 <= i < |ps| && ps[i].stream == x;
      assert env.tracks[FindStream(env.tracks, x)].stream == x;
    }
    SubsetSize(mine, all);
    forall j | 0 <= j < |env.tracks|
      ensures env.tracks[j].stream in mine <==> Sends(ps, env.tracks[j].stream)
    {
      StreamsHold(ps, env.tracks[j].stream);
    }
  }

  // ------------------------------------------------------------------ runs

  /** Before the header every packet is held; after it, the time zero is the least of those that were. */
  ghost predicate Begun(m: Mux, ps: seq<Pkt>, env: Env) {
    if !m.headerWritten then
      && m.preHeader == ps && m.seen == Streams(ps) && forall n :: 0 <= n <= |ps| ==> !AllSeen(ps[..n], env)
    else
      m.firstSet && exists k: nat :: HeldBack(ps, k, env) && AllSeen(ps[..k], env) && Least(ps[..k], m.first)
  }

  lemma HeldBackStays(ps: seq<Pkt>, k: nat, p: Pkt, env: Env)
    requires HeldBack(ps, k, env) && AllSeen(ps[..k], env)
    ensures HeldBack(ps + [p], k, env) && (ps + [p])[..k] == ps[..k]
  {
    hide AllSeen;
    forall n | 0 <= n <= k
      ensures (ps + [p])[..n] == ps[..n]
    {}
  }

  /** The packet that completes the tracks. */
  lemma HeldBackEnds(ps: seq<Pkt>, p: Pkt, env: Env)
    requires (forall n :: 0 <= n <= |ps| ==> !AllSeen(ps[..n], env))
    ensures var all := ps + [p];
            if AllSeen(all, env) then HeldBack(all, |all|, env) && all[..|all|] == all
            else forall n :: 0 <= n <= |all| ==> !AllSeen(all[..n], env)
  {
    hide AllSeen;
    var all := ps + [p];
    assert all[..|all|] == all;
    forall n | 0 <= n <= |ps|
      ensures all[..n] == ps[..n]
    {}
  }

  lemma {:induction false} MuxPacketBegins(m: Mux, log: Log, ps: seq<Pkt>, p: Pkt, env: Env)
    requires Inv(m, log, env) && Begun(m, ps, env) && AllAccepted(ps, env) && Accepted(env, p)
    ensures Begun(MuxPacket(m, p, env), ps + [p], env)
  {
    hide Replay, ReplayLog, MuxInternal, InternalLog, Core, DataOf, Accepted, AllSeen, Least, MinPts, Streams, TrackFlag;
    InvIsValid(m, log, env);
    var all := ps + [p];
    if !m.headerWritten {
      var held := Held(m, p);
      StreamsOneMore(ps, p);
      CountingIsEnough(all, env);
      HeldBackEnds(ps, p, env);
      if |held.seen| >= |env.tracks| {
        HeldKeeps(m, log, p, env);
        ReplayKeeps(held, log, env);
        ReplayIsSet(WriteHeader(held, env), env);
        MinPtsIsLeast(all);
        assert all[..|all|] == all;
      }
    } else {
      var k: nat :| HeldBack(ps, k, env) && AllSeen(ps[..k], env) && Least(ps[..k], m.first);
      HeldBackStays(ps, k, p, env);
      assert FirstTimed(m, p) == m;
      InternalKeeps(m, log, p, env);
    }
  }

  lemma InvIsValid(m: Mux, log: Log, env: Env)
    requires Inv(m, log, env)
    ensures ValidEnv(env) && |m.pending| == |env.tracks|
  {
    hide Layout, AllOk, AllCues, TrackFrames, TrackFlag, PendingOk, ValidEnv;
  }

  lemma {:induction false} FlushKeepsFirst(m: Mux, i: nat, env: Env)
    requires i < |m.pending| == |env.tracks|
    ensures var r := FlushTrack(m, i, env);
            r.first == m.first && r.firstSet == m.firstSet && r.headerWritten == m.headerWritten && r.preHeader == m.preHeader && r.seen == m.seen
  {
    hide Prepared, PutBlock;
    var t := m.pending[i];
    PreparedKeeps(m, i, t, env);
    PutBlockKeeps(Prepared(m, i, t, env), i, t, RelMs(m, t.pts), env);
  }

  lemma {:induction false} FlushTracksKeepFirst(m: Mux, n: nat, env: Env)
    requires n <= |m.pending| == |env.tracks|
    ensures var r := FlushTracks(m, n, env);
            r.first == m.first && r.firstSet == m.firstSet && r.headerWritten == m.headerWritten && r.preHeader == m.preHeader && r.seen == m.seen
  {
    hide FlushTrack;
    if n > 0 {
      FlushTracksKeepFirst(m, n - 1, env);
      FlushKeepsFirst(FlushTracks(m, n - 1, env), n - 1, env);
    }
  }

  lemma DoFlushKeepsFirst(m: Mux, env: Env)
    requires |m.pending| == |env.tracks|
    ensures var r := DoFlush(m, env);
            r.first == m.first && r.firstSet == m.firstSet && r.headerWritten == m.headerWritten && r.preHeader == m.preHeader && r.seen == m.seen
  {
    hide FlushTracks, CloseCluster;
    FlushTracksKeepFirst(m, |env.tracks|, env);
    CloseKeepsSeen(FlushTracks(m, |env.tracks|, env));
  }

  lemma CloseKeepsSeen(m: Mux)
    ensures var r := CloseCluster(m);
            r.first == m.first && r.firstSet == m.firstSet && r.headerWritten == m.headerWritten && r.preHeader == m.preHeader && r.seen == m.seen
  {}

  lemma {:induction false} MuxInternalKeepsFirst(m: Mux, p: Pkt, env: Env)
    requires |m.pending| == |env.tracks|
    ensures MuxInternal(m, p, env).firstSet == m.firstSet && MuxInternal(m, p, env).first == m.first
  {
    hide FlushTrack;
    var i := FindStream(env.tracks, p.stream);
    if i >= 0 {
      FlushKeepsFirst(m, i, env);
    }
  }

  lemma {:induction false} MuxAllKeepsFirst(m: Mux, ps: seq<Pkt>, env: Env)
    requires |m.pending| == |env.tracks|
    ensures MuxAll(m, ps, env).firstSet == m.firstSet && MuxAll(m, ps, env).first == m.first
  {
    hide MuxInternal;
    if ps != [] {
      MuxAllKeepsFirst(m, ps[..|ps| - 1], env);
      MuxInternalKeepsFirst(MuxAll(m, ps[..|ps| - 1], env), ps[|ps| - 1], env);
    }
  }

  lemma ReplayIsSet(w: Mux, env: Env)
    requires |w.pending| == |env.tracks| && w.preHeader != []
    ensures Replay(w, env).firstSet && Replay(w, env).first == MinPts(w.preHeader)
  {
    hide MuxAll, MinPts;
    MuxAllKeepsFirst(Released(w), w.preHeader, env);
  }

  lemma {:induction false} AcceptedAreAccepted(ops: seq<Op>, env: Env)
    ensures AllAccepted(AcceptedOf(ops, env), env)
  {
    hide Accepted;
    if ops != [] {
      AcceptedAreAccepted(ops[..|ops| - 1], env);
    }
  }

  lemma {:induction false} RunBegins(ops: seq<Op>, env: Env)
    requires ValidEnv(env) && env.tracks != []
    ensures Begun(Run(ops, env), AcceptedOf(ops, env), env)
  {
    hide Inv, MuxPacket, DoFlush, Accepted, Begun, MuxPacketLog, DoFlushLog;
    if ops == [] {
      StartBegins(env);
    } else {
      var before := ops[..|ops| - 1];
      var m, ps := Run(before, env), AcceptedOf(before, env);
      RunBegins(before, env);
      RunKeepsInv(before, env);
      AcceptedAreAccepted(before, env);
      match ops[|ops| - 1]
      case Packet(p) =>
        if Accepted(env, p) {
          MuxPacketBegins(m, RunLog(before, env), ps, p, env);
        } else {
          NotAccepted(m, p, env);
          assert ps + [] == ps;
        }
      case FlushAll =>
        DoFlushKeepsFirst(m, env);
        BegunStays(m, DoFlush(m, env), ps, env);
        assert ps + [] == ps;
    }
  }

  lemma StartBegins(env: Env)
    requires env.tracks != []
    ensures Begun(Start(env), [], env)
  {
    assert !Sends([], env.tracks[0].stream);
  }

  lemma NotAccepted(m: Mux, p: Pkt, env: Env)
    requires |m.pending| == |env.tracks| && !Accepted(env, p)
    ensures MuxPacket(m, p, env) == m
  {}

  lemma BegunStays(m: Mux, r: Mux, ps: seq<Pkt>, env: Env)
    requires Begun(m, ps, env)
    requires r.first == m.first && r.firstSet == m.firstSet && r.headerWritten == m.headerWritten && r.preHeader == m.preHeader && r.seen == m.seen
    ensures Begun(r, ps, env)
  {
    hide HeldBack, AllSeen, Least;
  }

  /** The header is written exactly when every track has had a packet ... */
  lemma HeaderComesWithLastTrack(ops: seq<Op>, env: Env)
    requires ValidEnv(env) && env.tracks != []
    ensures Run(ops, env).headerWritten <==> AllSeen(AcceptedOf(ops, env), env)
  {
    hide Run, AcceptedOf;
    var ps := AcceptedOf(ops, env);
    RunBegins(ops, env);
    assert ps[..|ps|] == ps;
    if Run(ops, env).headerWritten {
      var k: nat :| HeldBack(ps, k, env) && AllSeen(ps[..k], env) && Least(ps[..k], Run(ops, env).first);
      SeenStays(ps, k, env);
    }
  }

  lemma SeenStays(ps: seq<Pkt>, k: nat, env: Env)
    requires k <= |ps| && AllSeen(ps[..k], env)
    ensures AllSeen(ps, env)
  {
    forall j | 0 <= j < |env.tracks|
      ensures Sends(ps, env.tracks[j].stream)
    {
      assert Sends(ps[..k], env.tracks[j].stream);
      var i :| 0 <= i < k && ps[..k][i].stream == env.tracks[j].stream;
      assert ps[i].stream == env.tracks[j].stream;
    }
  }

  /** ... and time zero, for good, is the least time of the packets that came up to then, or of all there were. */
  lemma {:induction false} TimeZero(ops: seq<Op>, env: Env) returns (k: nat)
    requires ValidEnv(env) && env.tracks != [] && AcceptedOf(ops, env) != []
    ensures var ps := AcceptedOf(ops, env); HeldBack(ps, k, env) && Least(ps[..k], Final(ops, env).first)
  {
    hide Run, AcceptedOf, DoFlush, Replay, AllSeen, Least, MinPts, Streams, Inv;
    var m, ps := Run(ops, env), AcceptedOf(ops, env);
    RunBegins(ops, env);
    if m.headerWritten {
      var n: nat :| HeldBack(ps, n, env) && AllSeen(ps[..n], env) && Least(ps[..n], m.first);
      k := n;
      DoFlushKeepsFirst(m, env);
    } else {
      k := |ps|;
      assert ps[..|ps|] == ps;
      var w := WriteHeader(m, env);
      ReplayIsSet(w, env);
      DoFlushKeepsFirst(Replay(w, env), env);
      MinPtsIsLeast(ps);
    }
  }
}
