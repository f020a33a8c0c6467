/**
  From the muxer to the demuxer: the clusters of a finished run are read back frame by frame
  (tsMuxer/matroskaMuxer.cpp, tsMuxer/matroskaDemuxer.cpp).
  */
module MuxerReadBack {
  import opened Bits
  import opened EbmlNumbers
  import opened EbmlReader
  import opened EbmlLevels
  import opened Cluster
  import opened MatroskaFile
  import opened Muxer
  import opened MuxerRun
  import opened MuxerReach

  // ------------------------------------------------------------------ read back

  /** The cluster as the reader's side describes it. */
  function CluOf(s: Started): Clu { Clu(Uint64(s.time), Blocks(s.puts)) }

  function Clus(ss: seq<Started>): (cs: seq<Clu>)
    ensures |cs| == |ss|
  {
    seq(|ss|, k requires 0 <= k < |ss| => CluOf(ss[k]))
  }

  /** No later time in milliseconds comes of a 64-bit clock. */
  const MAX_MS := 0x7FFF_FFFF_FFFF_FFFF / PTS_PER_MS

  /** A frame that does not lie before time zero, of a track the reader knows, and of a size it takes. */
  predicate PutKnown(put: Put, tracks: seq<Track>) {
    && put.ms >= 0 && put.block.track < Pow2(56) - 1 && |BlockContent(put.block)| <= INT_MAX
    && FindTrack(tracks, put.block.track) >= 0 && tracks[FindTrack(tracks, put.block.track)].streamIndex >= 0
  }

  predicate Known(s: Started, tracks: seq<Track>) {
    && 0 <= s.time <= MAX_MS && |BodyOf(s)| < Pow2(56)
    && forall j :: 0 <= j < |s.puts| ==> PutKnown(s.puts[j], tracks)
  }

  predicate AllKnown(ss: seq<Started>, tracks: seq<Track>) {
    forall k :: 0 <= k < |ss| ==> Known(ss[k], tracks)
  }

  /** A packet without its file position. */
  datatype Delivered = Delivered(stream: int, pts: int, key: bool, data: seq<Byte>)

  function Strip(ps: seq<Packet>): (r: seq<Delivered>)
    ensures |r| == |ps|
  {
    seq(|ps|, i requires 0 <= i < |ps| => Delivered(ps[i].stream, ps[i].pts, ps[i].key, ps[i].data))
  }

  /** What a frame put into a cluster ought to come back as. */
  function Expected(puts: seq<Put>, tracks: seq<Track>, env: Env): (r: seq<Delivered>)
    ensures |r| == |puts|
  {
    seq(|puts|, j requires 0 <= j < |puts| => ExpectedOf(puts[j], tracks, env))
  }

  function ExpectedOf(put: Put, tracks: seq<Track>, env: Env): Delivered {
    Delivered(FindTrack(tracks, put.block.track) + 1, Pts(put.ms), put.source.key,
              Payload(env, put.source.stream, put.source.raw))
  }

  /** What it does come back as: the same but for the time, which is the cluster's and the offset that was written. */
  function GotOf(put: Put, time: int, tracks: seq<Track>, env: Env): Delivered {
    ExpectedOf(put, tracks, env).(pts := Pts(time + put.block.offset))
  }

  function Got(puts: seq<Put>, time: int, tracks: seq<Track>, env: Env): (r: seq<Delivered>)
    ensures |r| == |puts|
  {
    seq(|puts|, j requires 0 <= j < |puts| => GotOf(puts[j], time, tracks, env))
  }

  function AllGot(ss: seq<Started>, tracks: seq<Track>, env: Env): seq<Delivered> {
    if ss == [] then [] else Got(ss[0].puts, ss[0].time, tracks, env) + AllGot(ss[1..], tracks, env)
  }

  lemma StripConcat(a: seq<Packet>, b: seq<Packet>)
    ensures Strip(a + b) == Strip(a) + Strip(b)
  {}

  lemma ExpectedConcat(a: seq<Put>, b: seq<Put>, tracks: seq<Track>, env: Env)
    ensures Expected(a + b, tracks, env) == Expected(a, tracks, env) + Expected(b, tracks, env)
  {
    hide ExpectedOf;
  }

  // ------------------------------------------------------------------ the time of a late frame

  /** 65536 ms are 2^24 times an odd number of clock ticks: 64 bits lose only multiples of 2^56 ms. */
  lemma TicksLost(k: int, w: int)
    requires k * 20_671_875 == w * 0x100_0000_0000
    ensures k % 0x100_0000_0000 == 0
  {
    // 20_671_875 * 11_915_561_259 == 224_024 * 2^40 + 1
    assert k == 0x100_0000_0000 * (w * 11_915_561_259 - k * 224_024);
  }

  lemma Int64Wraps(v: int) returns (u: int)
    ensures Int64(v) == v - u * 0x1_0000_0000_0000_0000
  {
    u := v / 0x1_0000_0000_0000_0000 + if v % 0x1_0000_0000_0000_0000 < 0x8000_0000_0000_0000 then 0 else 1;
  }

  lemma TruncDivApart(a: int, b: int)
    requires a - b >= 2000 || b - a >= 2000
    ensures TruncDiv(a, 1000) != TruncDiv(b, 1000)
  {}

  /** An offset that wrapped around moves the frame. */
  lemma {:induction false} LaterPts(ms: int, k: int)
    requires 0 < k < 0x100_0000_0000
    ensures Pts(ms + 0x1_0000 * k) != Pts(ms)
  {
    hide Int64, TruncDiv;
    var a, b := ms * PTS_FREQ, (ms + 0x1_0000 * k) * PTS_FREQ;
    var u := Int64Wraps(a);
    var v := Int64Wraps(b);
    if k * 20_671_875 == (v - u) * 0x100_0000_0000 {
      TicksLost(k, v - u);
      assert false;
    }
    assert Int64(b) - Int64(a) == 0x100_0000 * (k * 20_671_875 - (v - u) * 0x100_0000_0000);
    TruncDivApart(Int64(a), Int64(b));
  }

  /** The time a block is read with is the frame's, or lies a multiple of 65536 ms behind it. */
  lemma OffsetWraps(ms: int, time: int) returns (k: int)
    requires ms - time < CLUSTER_MAX_DURATION_MS
    ensures time + Int16(ms - time) == ms + 0x1_0000 * k
    ensures k >= 0 && 0x1_0000 * k < time - ms + 0x8000 && (k == 0 <==> ms - time >= -0x8000)
  {
    var m := (ms - time) % 0x1_0000;
    k := (if m < 0x8000 then 0 else -1) - (ms - time) / 0x1_0000;
  }

  lemma {:induction false} PutReads(put: Put, time: int, first: int, env: Env, tracks: seq<Track>)
    requires 0 <= time <= MAX_MS && PutOk(put, time, first, env) && PutKnown(put, tracks)
    ensures Readable(put.block, tracks, time)
    ensures GotOf(put, time, tracks, env) == ExpectedOf(put, tracks, env) <==> PutInReach(put, time)
  {
    hide Pow2, FindTrack, Pts, BlockContent, FindStream;
    var k := OffsetWraps(put.ms, time);
    if k > 0 {
      LaterPts(put.ms, k);
    }
  }

  lemma {:induction false} PutPacket(put: Put, time: int, first: int, env: Env, tracks: seq<Track>, pos: nat)
    requires PutOk(put, time, first, env) && FindTrack(tracks, put.block.track) >= 0
    ensures Strip([PacketOf(put.block, tracks, time, pos)]) == Got([put], time, tracks, env)
  {
    hide Pow2, FindTrack, Pts, FindStream;
  }

  lemma {:induction false} StartedReads(s: Started, first: int, env: Env, tracks: seq<Track>)
    requires StartedOk(s, first, env) && Known(s, tracks)
    ensures CluReadable(CluOf(s), tracks) && CluBytes(CluOf(s)) == Element(ID_CLUSTER, BodyOf(s))
    ensures CluOf(s) == Clu(s.time, Blocks(s.puts))
  {
    hide PutOk, PutKnown, Readable, Pow2, BlocksBytes, UintContent, SizeBytes;
    forall j | 0 <= j < |s.puts|
      ensures Readable(Blocks(s.puts)[j], tracks, s.time)
    {
      PutReads(s.puts[j], s.time, first, env, tracks);
    }
    DivModUnique(s.time, 0x1_0000_0000_0000_0000, 0, s.time);
  }

  predicate PutsKnown(puts: seq<Put>, time: int, first: int, env: Env, tracks: seq<Track>) {
    forall j :: 0 <= j < |puts| ==> PutOk(puts[j], time, first, env) && PutKnown(puts[j], tracks)
  }

  lemma {:induction false} PacketsStrip(puts: seq<Put>, time: int, first: int, env: Env, tracks: seq<Track>, pos: nat)
    requires time >= 0 && PutsKnown(puts, time, first, env, tracks)
    ensures Strip(PacketsOf(Blocks(puts), tracks, time, pos)) == Got(puts, time, tracks, env)
    decreases |puts|
  {
    hide PutOk, PacketOf, GotOf, BlockBytes, BlockContent, FindTrack, Pow2, Strip;
    if puts == [] {
    } else {
      var rest, b := puts[1..], puts[0].block;
      var next := pos + |BlockBytes(b)|;
      assert Blocks(puts)[1..] == Blocks(rest);
      PacketsStrip(rest, time, first, env, tracks, next);
      StripConcat([PacketOf(b, tracks, time, pos + 1)], PacketsOf(Blocks(rest), tracks, time, next));
      PutPacket(puts[0], time, first, env, tracks, pos + 1);
      assert Got(puts, time, tracks, env) == Got([puts[0]], time, tracks, env) + Got(rest, time, tracks, env);
    }
  }

  /** A cluster's frames come back with their own times exactly if none is out of reach ... */
  lemma {:induction false} GotIsExpected(s: Started, first: int, env: Env, tracks: seq<Track>)
    requires StartedOk(s, first, env) && Known(s, tracks)
    ensures Got(s.puts, s.time, tracks, env) == Expected(s.puts, tracks, env) <==> InReach(s)
  {
    hide PutOk, PutKnown, PutInReach, GotOf, ExpectedOf, Pow2, BodyOf;
    var got, expected := Got(s.puts, s.time, tracks, env), Expected(s.puts, tracks, env);
    forall j | 0 <= j < |s.puts|
      ensures got[j] == expected[j] <==> PutInReach(s.puts[j], s.time)
    {
      PutReads(s.puts[j], s.time, first, env, tracks);
    }
    if got != expected {
      assert exists j :: 0 <= j < |s.puts| && got[j] != expected[j];
    }
  }

  lemma AllStep(ss: seq<Started>, n: nat)
    requires |ss| == n + 1
    ensures AllPuts(ss) == AllPuts(ss[..n]) + ss[n].puts
    ensures AllBytes(ss) == AllBytes(ss[..n]) + Element(ID_CLUSTER, BodyOf(ss[n]))
  {}

  lemma AllOne(s: Started)
    ensures AllPuts([s]) == s.puts + AllPuts([])
    ensures AllBytes([s]) == Element(ID_CLUSTER, BodyOf(s)) + AllBytes([])
  {
    AllStep([s], 0);
    assert [s][..0] == [];
  }

  lemma {:induction false} AllFront(ss: seq<Started>)
    requires ss != []
    ensures AllPuts(ss) == ss[0].puts + AllPuts(ss[1..])
    ensures AllBytes(ss) == Element(ID_CLUSTER, BodyOf(ss[0])) + AllBytes(ss[1..])
    decreases |ss|
  {
    hide *;
    var n := |ss| - 1;
    if n == 0 {
      assert ss == [ss[0]] && ss[1..] == [];
      AllOne(ss[0]);
    } else {
      var init, tail := ss[..n], ss[1..];
      AllStep(ss, n);
      AllFront(init);
      AllStep(tail, n - 1);
      assert init[1..] == tail[..n - 1] && init[0] == ss[0] && tail[n - 1] == ss[n];
      var mid := tail[..n - 1];
      assert ss[0].puts + AllPuts(mid) + ss[n].puts == ss[0].puts + (AllPuts(mid) + ss[n].puts);
    }
  }

  /** The muxer's clusters are the reader's clusters ... */
  lemma {:induction false} BytesAgree(ss: seq<Started>, first: int, env: Env, tracks: seq<Track>)
    requires AllOk(ss, first, env) && AllKnown(ss, tracks)
    ensures AllBytes(ss) == SegmentBytes(Clus(ss))
    ensures forall k :: 0 <= k < |ss| ==> CluReadable(Clus(ss)[k], tracks)
    decreases |ss|
  {
    hide StartedOk, Known, CluBytes, CluReadable, BodyOf, Element;
    forall k | 0 <= k < |ss|
      ensures CluReadable(Clus(ss)[k], tracks)
    {
      StartedReads(ss[k], first, env, tracks);
    }
    if ss != [] {
      StartedReads(ss[0], first, env, tracks);
      BytesAgree(ss[1..], first, env, tracks);
      AllFront(ss);
      assert Clus(ss)[1..] == Clus(ss[1..]);
    }
  }

  lemma SegmentStep(ss: seq<Started>, tracks: seq<Track>, pos: nat)
    requires ss != []
    ensures var c := CluOf(ss[0]);
            SegmentPackets(Clus(ss), tracks, pos)
            == PacketsOf(c.blocks, tracks, c.time, pos + FirstBlockAt(c)) + SegmentPackets(Clus(ss[1..]), tracks, pos + |CluBytes(c)|)
  {
    hide PacketsOf, FirstBlockAt, CluBytes, CluOf;
    assert Clus(ss)[0] == CluOf(ss[0]) && Clus(ss)[1..] == Clus(ss[1..]);
  }

  lemma FirstAndRest(ss: seq<Started>, first: int, env: Env, tracks: seq<Track>)
    requires ss != [] && AllOk(ss, first, env) && AllKnown(ss, tracks)
    ensures AllOk(ss[1..], first, env) && AllKnown(ss[1..], tracks) && StartedOk(ss[0], first, env) && Known(ss[0], tracks)
    ensures PutsKnown(ss[0].puts, ss[0].time, first, env, tracks) && ss[0].time >= 0
    ensures AllInReach(ss) <==> InReach(ss[0]) && AllInReach(ss[1..])
  {
    hide PutOk, PutKnown, InReach;
  }

  lemma GotStep(ss: seq<Started>, tracks: seq<Track>, env: Env)
    requires ss != []
    ensures AllGot(ss, tracks, env) == Got(ss[0].puts, ss[0].time, tracks, env) + AllGot(ss[1..], tracks, env)
  {
    hide Got;
  }

  /** ... and hold the frames, in the order they were put. */
  lemma {:induction false} PacketsAgree(ss: seq<Started>, first: int, env: Env, tracks: seq<Track>, pos: nat)
    requires AllOk(ss, first, env) && AllKnown(ss, tracks)
    ensures Strip(SegmentPackets(Clus(ss), tracks, pos)) == AllGot(ss, tracks, env)
    decreases |ss|
  {
    hide *;
    if ss == [] {
      NoPuts(tracks, env, pos);
    } else {
      var s, rest := ss[0], ss[1..];
      FirstAndRest(ss, first, env, tracks);
      StartedReads(s, first, env, tracks);
      var c := CluOf(s);
      var here, next := pos + FirstBlockAt(c), pos + |CluBytes(c)|;
      PacketsAgree(rest, first, env, tracks, next);
      SegmentStep(ss, tracks, pos);
      PacketsStrip(s.puts, c.time, first, env, tracks, here);
      StripConcat(PacketsOf(c.blocks, tracks, c.time, here), SegmentPackets(Clus(rest), tracks, next));
      GotStep(ss, tracks, env);
    }
  }

  lemma NoPuts(tracks: seq<Track>, env: Env, pos: nat)
    ensures Strip(SegmentPackets(Clus([]), tracks, pos)) == AllGot([], tracks, env) == Expected(AllPuts([]), tracks, env) == []
  {
    assert Clus([]) == [] && AllPuts([]) == [];
  }

  lemma NoneOutOfReach()
    ensures AllInReach([])
  {}

  /** Which frames come back with their own times: all of them exactly if none is out of its cluster's reach. */
  lemma {:induction false} TimesAgree(ss: seq<Started>, first: int, env: Env, tracks: seq<Track>)
    requires AllOk(ss, first, env) && AllKnown(ss, tracks)
    ensures |AllGot(ss, tracks, env)| == |AllPuts(ss)|
    ensures AllGot(ss, tracks, env) == Expected(AllPuts(ss), tracks, env) <==> AllInReach(ss)
    decreases |ss|
  {
    hide *;
    if ss == [] {
      NoPuts(tracks, env, 0);
      NoneOutOfReach();
    } else {
      var s, rest := ss[0], ss[1..];
      FirstAndRest(ss, first, env, tracks);
      TimesAgree(rest, first, env, tracks);
      GotIsExpected(s, first, env, tracks);
      AllFront(ss);
      GotStep(ss, tracks, env);
      ExpectedConcat(s.puts, AllPuts(rest), tracks, env);
      SplitEqual(Got(s.puts, s.time, tracks, env), AllGot(rest, tracks, env), Expected(s.puts, tracks, env), Expected(AllPuts(rest), tracks, env));
    }
  }

  lemma SplitEqual<T>(a: seq<T>, b: seq<T>, c: seq<T>, d: seq<T>)
    requires |a| == |c|
    ensures a + b == c + d <==> a == c && b == d
  {
    if a + b == c + d {
      assert a == (a + b)[..|a|] && b == (a + b)[|a|..] && c == (c + d)[..|a|] && d == (c + d)[|a|..];
    }
  }

  /**
    A whole run, read back: the demuxer delivers the muxer's frames, in the order they were put into
    the file, with their tracks, key flags and bytes - and with their times exactly if none of them was more than
    32768 ms before its cluster.
    */
  lemma {:induction false} RunReadBack(ops: seq<Op>, env: Env, tracks: seq<Track>, v: View, p: nat, tail: seq<Byte>, nextId: nat, more: seq<Byte>)
    requires ValidEnv(env) && env.tracks != []
    requires AllKnown(FinalLog(ops, env).clusters, tracks)
    requires var bytes := AllBytes(FinalLog(ops, env).clusters);
             && At(v, bytes + tail, p) && v.up == 0 && (v.peek != 0 ==> bytes != [] || tail != [])
             && Holds(v.levels, p + |bytes|, tail, nextId, more) && (v.levels != [] ==> v.levels[|v.levels| - 1].start <= p)
    ensures Final(ops, env).file == env.header + AllBytes(FinalLog(ops, env).clusters)
    ensures var ss, got := FinalLog(ops, env).clusters, Strip(ReadAll(v, tracks).packets);
            && AllGot(ss, tracks, env) <= got && (tail == [] ==> got == AllGot(ss, tracks, env))
            && (Expected(AllPuts(ss), tracks, env) <= got <==> AllInReach(ss))
  {
    hide Final, FinalLog, AllBytes, AllPuts, AllGot, AllKnown, AllInReach, AllOk, Expected, ReadAll, SegmentPackets, SegmentBytes, Holds, Gathered,
      FramesOf, DataOf, AcceptedOf;
    FinishedFile(ops, env);
    var ss := FinalLog(ops, env).clusters;
    var first := Final(ops, env).first;
    BytesAgree(ss, first, env, tracks);
    PacketsAgree(ss, first, env, tracks, p);
    TimesAgree(ss, first, env, tracks);
    if SegmentBytes(Clus(ss)) != [] {
      SomeClusters(Clus(ss));
    }
    SegmentRoundTrip(v, p, Clus(ss), tracks, tail, nextId, more);
    var all, mine := ReadAll(v, tracks).packets, SegmentPackets(Clus(ss), tracks, p);
  }

  /**
    The same for a whole file: whatever elements close writes behind the clusters - cues, if there are any, and
    the seek head - exactly the muxer's frames are delivered, and with their own times exactly if all were in reach,
    as they are when no stream falls more than 32768 ms behind.
    */
  lemma {:induction false} FileReadBack(ops: seq<Op>, env: Env, tracks: seq<Track>, v: View, p: nat, ts: seq<Tree>)
    requires ValidEnv(env) && env.tracks != []
    requires AllKnown(FinalLog(ops, env).clusters, tracks) && TailTrees(ts)
    requires var bytes := AllBytes(FinalLog(ops, env).clusters);
             && At(v, bytes + Document(ts), p) && v.up == 0 && (v.peek != 0 ==> bytes != [] || ts != [])
             && Nested(v.levels) && |v.levels| < EBML_MAX_DEPTH && HoldAll(v.levels, p + |bytes| + |Document(ts)|)
             && (v.levels != [] ==> v.levels[|v.levels| - 1].start <= p)
    ensures Strip(ReadAll(v, tracks).packets) == AllGot(FinalLog(ops, env).clusters, tracks, env)
    ensures Strip(ReadAll(v, tracks).packets) == Expected(AllPuts(FinalLog(ops, env).clusters), tracks, env)
            <==> AllInReach(FinalLog(ops, env).clusters)
    ensures Punctual(AcceptedOf(ops, env)) ==>
              Strip(ReadAll(v, tracks).packets) == Expected(AllPuts(FinalLog(ops, env).clusters), tracks, env)
    ensures ReadAll(v, tracks).result == AtEnd
  {
    hide Final, FinalLog, AllBytes, AllPuts, AllGot, AllKnown, AllInReach, AllOk, Expected, ReadAll, SegmentPackets, SegmentBytes, Gathered, FramesOf,
      DataOf, AcceptedOf, TailTrees, Document, HoldAll, Nested, Punctual;
    FinishedFile(ops, env);
    var ss := FinalLog(ops, env).clusters;
    var first := Final(ops, env).first;
    BytesAgree(ss, first, env, tracks);
    PacketsAgree(ss, first, env, tracks, p);
    TimesAgree(ss, first, env, tracks);
    if Punctual(AcceptedOf(ops, env)) {
      PunctualRun(ops, env);
    }
    if SegmentBytes(Clus(ss)) != [] {
      SomeClusters(Clus(ss));
    }
    SegmentThenTail(v, p, Clus(ss), tracks, ts);
  }

  lemma SomeClusters(cs: seq<Clu>)
    requires SegmentBytes(cs) != []
    ensures cs != []
  {}

  /** The 16-bit offset of a block is right exactly when it reaches back to the frame's time. */
  lemma OffsetKept(put: Put, time: int, first: int, env: Env)
    requires PutOk(put, time, first, env)
    ensures put.block.offset == put.ms - time <==> put.ms - time >= -0x8000
  {
    hide Payload, FindStream;
  }

  /** The first packet is held back. */
  lemma {:induction false} OneHeld(env: Env, a: Pkt)
    requires |env.tracks| == 2 && a.stream == env.tracks[0].stream && a.data != []
    ensures var ops := [Op.Packet(a)]; Run(ops, env) == Held(Start(env), a) && RunLog(ops, env) == Log([], [], [])
  {
    hide FlushTrack, FlushLog, CloseCluster, MuxInternal, InternalLog, Replay, ReplayLog;
    var none: seq<Op> := [];
    assert [Op.Packet(a)][..0] == none;
  }

  /** The second one releases both: they are gathered one after the other. */
  lemma {:induction false} BothReleased(env: Env, w: Mux, a: Pkt, b: Pkt)
    requires |env.tracks| == 2 && a.stream == env.tracks[0].stream != env.tracks[1].stream == b.stream && b.pts <= a.pts
    requires w.pending == Start(env).pending && w.preHeader == [a, b]
    ensures Replay(w, env) == w.(first := b.pts, firstSet := true, preHeader := [],
                                 pending := [Pending(a.data, a.pts, a.key, true), Pending(b.data, b.pts, b.key, true)])
    ensures ReplayLog(w, Log(env.header, [], []), env) == Log(env.header, [], [Data(a), Data(b)])
  {
    hide MuxInternal, InternalLog;
    var none := Log(env.header, [], []);
    var r := Released(w);
    assert [a, b][..1] == [a] && [a][..0] == [];
    assert MinPts([a]) == a.pts && r.first == b.pts;
    assert FindStream(env.tracks[1..], b.stream) == 0;
    GatherFirst(r, none, a, env, 0);
    var ra := MuxInternal(r, a, env);
    GatherFirst(ra, none.(inputs := [Data(a)]), b, env, 1);
    assert MuxAll(r, [a], env) == ra && AllLog(r, none, [a], env) == none.(inputs := [Data(a)]);
    assert MuxAll(r, [a, b], env) == MuxInternal(ra, b, env);
  }

  /** The muxer after the two packets, and the history: both frames are being gathered, the header is written. */
  lemma {:induction false} TwoHeld(env: Env, a: Pkt, b: Pkt)
    requires |env.tracks| == 2 && a.stream == env.tracks[0].stream != env.tracks[1].stream == b.stream
    requires a.data != [] && b.data != [] && b.pts <= a.pts
    ensures var ops := [Op.Packet(a), Op.Packet(b)];
            && Run(ops, env) == Start(env).(file := env.header, headerWritten := true, first := b.pts, firstSet := true,
                                            seen := {a.stream, b.stream},
                                            pending := [Pending(a.data, a.pts, a.key, true), Pending(b.data, b.pts, b.key, true)])
            && RunLog(ops, env) == Log(env.header, [], [Data(a), Data(b)])
  {
    hide MuxInternal, InternalLog, Replay, ReplayLog;
    assert [Op.Packet(a), Op.Packet(b)][..1] == [Op.Packet(a)];
    OneHeld(env, a);
    var h := Held(Held(Start(env), a), b);
    assert h.preHeader == [a, b] && h.seen == {a.stream, b.stream} && |h.seen| == 2;
    assert FindStream(env.tracks[1..], b.stream) == 0;
    assert [] + env.header == env.header;
    BothReleased(env, WriteHeader(h, env), a, b);
  }

  lemma GatherFirst(m: Mux, log: Log, p: Pkt, env: Env, i: nat)
    requires i < |env.tracks| == |m.pending| && FindStream(env.tracks, p.stream) == i && m.pending[i] == Pending([], 0, false, false)
    ensures MuxInternal(m, p, env) == m.(pending := m.pending[i := Pending(p.data, p.pts, p.key, true)])
    ensures InternalLog(m, log, p, env) == log.(inputs := log.inputs + [Data(p)])
  {
    assert [] + p.data == p.data;
  }

  /**
    Two packets are enough for a frame that its cluster is out of reach of: the first track's frame opens a
    cluster at 40 seconds, the second track's, of time zero, goes into it and is written 25.536 seconds behind it.
    */
  lemma {:induction false} LateFrame(env: Env, a: Pkt, b: Pkt)
    requires |env.tracks| == 2 && a.stream == env.tracks[0].stream != env.tracks[1].stream == b.stream
    requires a.data != [] && b.data != [] && b.pts == 0 && a.pts == 40_000 * PTS_PER_MS
    requires |Payload(env, a.stream, a.data)| <= 5_000_000
    ensures var ss := FinalLog([Op.Packet(a), Op.Packet(b)], env).clusters;
            && |ss| == 1 && ss[0].time == 40_000 && |ss[0].puts| == 2
            && ss[0].puts[1].ms == 0 && ss[0].puts[1].block.offset == 25_536
  {
    hide CloseCluster, PutBlock, BlockBytes, Element, TimeElement, FlushTrack, FlushLog, BlockOf, Payload;
    TwoHeld(env, a, b);
    var m, log := Run([Op.Packet(a), Op.Packet(b)], env), RunLog([Op.Packet(a), Op.Packet(b)], env);
    assert RelMs(m, a.pts) == 40_000 && RelMs(m, b.pts) == 0;
    var f, l := FlushTrack(m, 0, env), FlushLog(m, log, 0, env);
    FirstFlushed(m, log, env, 40_000);
    SmallCluster(env, 40_000, 0, m.pending[0], 40_000);
    SecondFlushed(f, l, env);
    var r, l2 := FlushTracks(m, 2, env), FlushTracksLog(m, log, 2, env);
    assert FlushTracks(m, 0, env) == m && FlushTracks(m, 1, env) == f && FlushTracksLog(m, log, 1, env) == l;
    assert l2 == FlushLog(f, l, 1, env);
  }

  lemma {:induction false} FirstFlushed(m: Mux, log: Log, env: Env, ms: int)
    requires |env.tracks| == 2 == |m.pending| && !m.open && m.pending[0].has && m.pending[0].data != [] && log.clusters == []
    requires RelMs(m, m.pending[0].pts) == ms
    ensures var f, l := FlushTrack(m, 0, env), FlushLog(m, log, 0, env);
            && f.open && f.clusterMs == ms && f.first == m.first && f.pending[1] == m.pending[1]
            && f.size == |TimeElement(ms)| + |BlockBytes(BlockOf(env, ms, 0, m.pending[0], ms))|
            && |l.clusters| == 1 && l.clusters[0].time == ms && |l.clusters[0].puts| == 1
  {
    hide CloseCluster, BlockBytes, Element, TimeElement, BlockOf;
  }

  lemma SmallCluster(env: Env, clusterMs: int, i: nat, t: Pending, ms: int)
    requires i < |env.tracks|
    ensures |TimeElement(ms)| + |BlockBytes(BlockOf(env, clusterMs, i, t, ms))| <= |Payload(env, env.tracks[i].stream, t.data)| + 40
  {
    hide Payload, SizeFixed, UintContent, IdBytes, Pow2;
    var n := ms % 0x1_0000_0000_0000_0000;
    UintRoundTrip(n);
  }

  lemma {:induction false} SecondFlushed(f: Mux, l: Log, env: Env)
    requires |env.tracks| == 2 == |f.pending| && f.open && f.clusterMs == 40_000 && f.pending[1].has && f.pending[1].data != []
    requires RelMs(f, f.pending[1].pts) == 0 && f.size < CLUSTER_MAX_SIZE
    requires |l.clusters| == 1 && l.clusters[0].time == 40_000 && |l.clusters[0].puts| == 1
    ensures var ss := FlushLog(f, l, 1, env).clusters;
            && |ss| == 1 && ss[0].time == 40_000 && |ss[0].puts| == 2 && ss[0].puts[1].ms == 0 && ss[0].puts[1].block.offset == 25_536
  {
    hide CloseCluster, BlockBytes, Element, TimeElement, Payload;
    assert Int16(-40_000) == 25_536;
  }

  /** Frames that were held back for the header never lie before time zero. */
  lemma {:induction false} HeldFramesAreNotEarly(ps: seq<Pkt>, k: nat)
    requires k < |ps|
    ensures MinPts(ps) <= ps[k].pts && TruncDiv(ps[k].pts - MinPts(ps), PTS_PER_MS) >= 0
  {
    if |ps| > 1 {
      if k < |ps| - 1 {
        HeldFramesAreNotEarly(ps[..|ps| - 1], k);
      } else {
        HeldFramesAreNotEarly(ps[..|ps| - 1], 0);
      }
    }
  }
}
