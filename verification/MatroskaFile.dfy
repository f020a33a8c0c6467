/**
  The packet loop over a whole segment: readPacket of tsMuxer/matroskaDemuxer.cpp, and what it
  delivers for the clusters that tsMuxer/matroskaMuxer.cpp writes one after the other.
  */
module MatroskaFile {
  import opened Bits
  import opened BigEndian
  import opened EbmlNumbers
  import opened BlockStream
  import opened EbmlReader
  import opened EbmlLevels
  import opened Cluster

  const ID_HEADER := 0x1A45_DFA3

  /** One element at the top: clusters give packets, everything else is skipped. */
  function TopElement(v: View, id: nat, tracks: seq<Track>): (r: Demuxed)
    ensures |r.view.rest| <= |v.rest|
    ensures r.result == Done ==> |r.view.rest| < |v.rest|
  {
    if id == ID_CLUSTER then
      var m := Master(v);
      if m.status != Ok then Demuxed(m.view, ResultOf(m.status), []) else ParseCluster(m.view, tracks, 0)
    else if id == ID_HEADER then Demuxed(v, OutOfModel, [])
    else
      var s := Skip(v);
      Demuxed(s.view, ResultOf(s.status), [])
  }

  /** All the packets that repeated calls of readPacket would deliver. */
  function ReadAll(v: View, tracks: seq<Track>): (r: Demuxed)
    ensures |r.view.rest| <= |v.rest|
    decreases |v.rest|
  {
    var i := ElementId(v, true);
    if i.status != Ok then Demuxed(i.view, ResultOf(i.status), [])
    else if i.view.up > 0 then ReadAll(Lower(i.view), tracks)
    else
      var e := TopElement(i.view, i.value, tracks);
      if e.result != Done then e.(view := Lower(e.view))
      else
        var more := ReadAll(Lower(e.view), tracks);
        more.(packets := e.packets + more.packets)
  }

  /** A cluster as it was written. */
  datatype Clu = Clu(time: nat, blocks: seq<Block>)

  function CluBytes(c: Clu): seq<Byte> { Element(ID_CLUSTER, ClusterContent(c.time, c.blocks)) }

  function SegmentBytes(cs: seq<Clu>): seq<Byte> {
    if cs == [] then [] else CluBytes(cs[0]) + SegmentBytes(cs[1..])
  }

  predicate CluReadable(c: Clu, tracks: seq<Track>) {
    && c.time < 0x8000_0000_0000_0000 && AllReadable(c.blocks, tracks, c.time)
    && |ClusterContent(c.time, c.blocks)| < Pow2(56)
  }

  /** Where the first block of a cluster starts, counted from the cluster. */
  function FirstBlockAt(c: Clu): nat {
    |IdBytes(ID_CLUSTER)| + |SizeBytes(|ClusterContent(c.time, c.blocks)|)| + |Element(ID_TIMECODE, UintContent(c.time))|
  }

  function SegmentPackets(cs: seq<Clu>, tracks: seq<Track>, pos: nat): seq<Packet> {
    if cs == [] then []
    else PacketsOf(cs[0].blocks, tracks, cs[0].time, pos + FirstBlockAt(cs[0]))
         + SegmentPackets(cs[1..], tracks, pos + |CluBytes(cs[0])|)
  }

  // ------------------------------------------------------------------ the round trip over all clusters

  lemma TopTurn(v: View, w: View, id: nat, tracks: seq<Track>)
    requires ElementId(v, true) == Read(w, Ok, id) && w.up == 0
    ensures var e := TopElement(w, id, tracks);
            if e.result != Done then ReadAll(v, tracks) == e.(view := Lower(e.view))
            else var more := ReadAll(Lower(e.view), tracks);
                 ReadAll(v, tracks) == more.(packets := e.packets + more.packets)
  {
    hide ElementId, TopElement;
  }

  /** The open masters hold everything up to `end`, and what follows there is not cut in two. */
  ghost predicate Holds(levels: seq<Level>, end: nat, tail: seq<Byte>, nextId: nat, more: seq<Byte>) {
    && Nested(levels) && |levels| < EBML_MAX_DEPTH
    && (forall i :: 0 <= i < |levels| ==> end <= levels[i].End())
    && (tail != [] ==> ValidId(nextId) && tail == IdBytes(nextId) + more
                       && forall i :: 0 <= i < |levels| ==> end + IdSize(nextId) < levels[i].End())
  }

  /** Behind a cluster's header: its level is pushed. */
  function Entered(w: View, content: seq<Byte>, tail: seq<Byte>): View {
    var start := w.pos + SizeSize(|content|);
    w.(rest := content + tail, pos := start, peek := 0, levels := w.levels + [Level(start, |content|)])
  }

  lemma {:induction false} MasterEnters(w: View, content: seq<Byte>, tail: seq<Byte>)
    requires w.peek != 0 && w.rest == SizeBytes(|content|) + (content + tail)
    requires |content| < Pow2(56) && |w.levels| < EBML_MAX_DEPTH
    ensures Master(w) == Read(Entered(w, content, tail), Ok, |content|)
  {
    hide Header, SizeFixed, SizeBytes, Pow2, SizeSize;
    SizeFits(|content|);
    SizeBytesIs(|content|);
    HeaderReads(w, |content|, SizeSize(|content|), content + tail);
  }

  /** One cluster, peeked at already: its packets, and the reader stands behind the next identifier. */
  lemma {:induction false} OneCluster(w: View, c: Clu, tracks: seq<Track>, tail: seq<Byte>, nextId: nat, more: seq<Byte>)
    requires CluReadable(c, tracks) && w.peek == ID_CLUSTER && w.up == 0
    requires var content := ClusterContent(c.time, c.blocks); w.rest == SizeBytes(|content|) + (content + tail)
    requires var end := w.pos + |CluBytes(c)| - 4;
             && Holds(w.levels, end, tail, nextId, more)
             && (w.levels != [] ==> w.levels[|w.levels| - 1].start <= w.pos)
    ensures var r := TopElement(w, ID_CLUSTER, tracks);
            && r.packets == PacketsOf(c.blocks, tracks, c.time, w.pos - 4 + FirstBlockAt(c))
            && if tail == [] then r.result == AtEnd else
               r.result == Done &&
               r.view == w.(rest := more, pos := w.pos + |CluBytes(c)| - 4 + IdSize(nextId), peek := nextId)
  {
    hide ParseCluster, ClusterContent, CluBytes, FirstBlockAt, PacketsOf, SizeBytes, SizeSize, Element, IdSize, IdBytes, ValidId,
      UintContent, Nested, Pow2, AllReadable, Master, PopLevels, NoneEndsWithin;
    var content := ClusterContent(c.time, c.blocks);
    CluLength(c);
    MasterEnters(w, content, tail);
    var m := Entered(w, content, tail);
    var l := m.levels[|w.levels|];
    PushKeepsNested(w.levels, l);
    if tail != [] {
      IdParts(nextId);
      StaysOpenAfter(w.levels, l, l.End(), IdSize(nextId));
    }
    ClusterRoundTrip(m, c.time, c.blocks, tracks, tail, nextId, more);
  }

  lemma SizeBytesIs(size: nat)
    ensures SizeBytes(size) == SizeFixed(size, SizeSize(size)) && |SizeBytes(size)| == SizeSize(size)
  {}

  lemma CluLength(c: Clu)
    ensures var content := ClusterContent(c.time, c.blocks);
            && |CluBytes(c)| == 4 + SizeSize(|content|) + |content|
            && FirstBlockAt(c) == 4 + SizeSize(|content|) + |Element(ID_TIMECODE, UintContent(c.time))|
  {
    hide ClusterContent, SizeFixed, BE;
  }

  /** Only the master just pushed ends at its end. */
  lemma StaysOpenAfter(levels: seq<Level>, l: Level, end: nat, n: nat)
    requires l.End() == end
    requires n > 0 ==> forall i :: 0 <= i < |levels| ==> end + n < levels[i].End()
    ensures n > 0 ==> PopLevels(levels + [l], end) == levels && NoneEndsWithin(levels + [l], end, n)
  {
    assert (levels + [l])[..|levels|] == levels;
  }

  /** The reader behind the first cluster, at the identifier that follows it. */
  function Behind(v: View, p: nat, cs: seq<Clu>, tail: seq<Byte>, nextId: nat, more: seq<Byte>): View
    requires cs != []
  {
    var nid, rest := if |cs| == 1 then nextId else ID_CLUSTER, if |cs| == 1 then more else AfterCluId(cs[1..], tail);
    v.(rest := rest, pos := p + |CluBytes(cs[0])| + IdSize(nid), peek := nid)
  }

  /** The loop meets the first cluster. */
  lemma {:induction false} ClusterMet(v: View, p: nat, cs: seq<Clu>, tail: seq<Byte>, nextId: nat, more: seq<Byte>)
    requires cs != [] && At(v, SegmentBytes(cs) + tail, p) && v.up == 0
    requires Holds(v.levels, p + |SegmentBytes(cs)|, tail, nextId, more)
    ensures ElementId(v, true) == Read(v.(rest := AfterCluId(cs, tail), pos := p + 4, peek := ID_CLUSTER), Ok, ID_CLUSTER)
  {
    hide IdSize, IdBytes, ValidId, Holds, NoneEndsWithin, AfterCluId, SegmentBytes, ElementId;
    ClusterIdKnown();
    AfterCluIdIs(cs, tail);
    HoldsHere(v.levels, p, cs, tail, nextId, more);
    EnterElement(v, ID_CLUSTER, AfterCluId(cs, tail), p);
  }

  /** The first cluster in the loop. */
  lemma {:induction false} FirstCluster(v: View, p: nat, cs: seq<Clu>, tracks: seq<Track>, tail: seq<Byte>, nextId: nat, more: seq<Byte>)
    requires cs != [] && At(v, SegmentBytes(cs) + tail, p) && v.up == 0 && CluReadable(cs[0], tracks)
    requires Holds(v.levels, p + |SegmentBytes(cs)|, tail, nextId, more)
    requires v.levels != [] ==> v.levels[|v.levels| - 1].start <= p
    ensures var here := PacketsOf(cs[0].blocks, tracks, cs[0].time, p + FirstBlockAt(cs[0]));
            if SegmentBytes(cs[1..]) + tail == [] then
              ReadAll(v, tracks).packets == here && ReadAll(v, tracks).result == AtEnd
            else
              var r := ReadAll(Behind(v, p, cs, tail, nextId, more), tracks);
              ReadAll(v, tracks) == r.(packets := here + r.packets)
  {
    hide ReadAll, CluReadable, ClusterContent, PacketsOf, SizeBytes, IdSize, IdBytes, ValidId, FirstBlockAt, TopElement, Holds,
      NoneEndsWithin, CluBytes, AfterCluId, SegmentBytes, At, ElementId;
    var c, rest := cs[0], cs[1..];
    var after := SegmentBytes(rest) + tail;
    ClusterMet(v, p, cs, tail, nextId, more);
    HoldsHere(v.levels, p, cs, tail, nextId, more);
    var w := v.(rest := AfterCluId(cs, tail), pos := p + 4, peek := ID_CLUSTER);
    TopTurn(v, w, ID_CLUSTER, tracks);
    AfterCluIdUnfolds(cs, tail);
    var behind := Behind(v, p, cs, tail, nextId, more);
    OneCluster(w, c, tracks, after, behind.peek, behind.rest);
  }

  lemma AfterCluIdUnfolds(cs: seq<Clu>, tail: seq<Byte>)
    requires cs != []
    ensures var content := ClusterContent(cs[0].time, cs[0].blocks);
            AfterCluId(cs, tail) == SizeBytes(|content|) + (content + (SegmentBytes(cs[1..]) + tail))
  {}

  /**
    The clusters of a segment, read from its first identifier on, come back as their blocks, in
    order; then what follows them is read.
    */
  lemma {:induction false} SegmentRoundTrip(v: View, p: nat, cs: seq<Clu>, tracks: seq<Track>,
                                            tail: seq<Byte>, nextId: nat, more: seq<Byte>)
    requires At(v, SegmentBytes(cs) + tail, p) && v.up == 0 && (v.peek != 0 ==> cs != [] || tail != [])
    requires forall i :: 0 <= i < |cs| ==> CluReadable(cs[i], tracks)
    requires Holds(v.levels, p + |SegmentBytes(cs)|, tail, nextId, more)
    requires v.levels != [] ==> v.levels[|v.levels| - 1].start <= p
    ensures tail != [] ==> var r := ReadAll(AfterClusters(v, p, cs, nextId, more), tracks);
                           ReadAll(v, tracks) == r.(packets := SegmentPackets(cs, tracks, p) + r.packets)
    ensures tail == [] ==> ReadAll(v, tracks).packets == SegmentPackets(cs, tracks, p) && ReadAll(v, tracks).result == AtEnd
    decreases |cs|
  {
    hide ReadAll, CluReadable, PacketsOf, IdSize, IdBytes, ValidId, FirstBlockAt, Holds, CluBytes, AfterCluId, AfterClusters;
    if cs == [] {
      if tail == [] {
        NoMoreClusters(v, p, tracks);
      } else {
        var r := ReadAll(v, tracks);
        assert AfterClusters(v, p, cs, nextId, more) == v by { NoneToPass(v, p, nextId, more); }
        assert [] + r.packets == r.packets;
      }
    } else {
      var rest := cs[1..];
      FirstCluster(v, p, cs, tracks, tail, nextId, more);
      SegmentNotEmpty(rest);
      if rest != [] || tail != [] {
        HoldsTail(v.levels, p + |SegmentBytes(cs)|, tail, nextId, more);
        NextIsThere(rest, tail, nextId, more);
        var w := Behind(v, p, cs, tail, nextId, more);
        SegmentRoundTrip(w, p + |CluBytes(cs[0])|, rest, tracks, tail, nextId, more);
        if tail != [] {
          BehindAll(v, p, cs, tracks, tail, nextId, more, ReadAll(AfterClusters(v, p, cs, nextId, more), tracks).packets);
        }
      }
    }
  }

  lemma NoneToPass(v: View, p: nat, nextId: nat, more: seq<Byte>)
    ensures AfterClusters(v, p, [], nextId, more) == v
  {}

  lemma BehindAll(v: View, p: nat, cs: seq<Clu>, tracks: seq<Track>, tail: seq<Byte>, nextId: nat, more: seq<Byte>, ps: seq<Packet>)
    requires cs != []
    ensures var n := p + |CluBytes(cs[0])|;
            && AfterClusters(Behind(v, p, cs, tail, nextId, more), n, cs[1..], nextId, more) == AfterClusters(v, p, cs, nextId, more)
            && PacketsOf(cs[0].blocks, tracks, cs[0].time, p + FirstBlockAt(cs[0])) + (SegmentPackets(cs[1..], tracks, n) + ps)
               == SegmentPackets(cs, tracks, p) + ps
  {
    hide CluBytes, PacketsOf, FirstBlockAt, IdSize, AfterCluId;
    SegmentLength(cs);
    var here := PacketsOf(cs[0].blocks, tracks, cs[0].time, p + FirstBlockAt(cs[0]));
    var others := SegmentPackets(cs[1..], tracks, p + |CluBytes(cs[0])|);
    assert here + (others + ps) == here + others + ps;
  }

  /** The reader at the identifier that follows the clusters. */
  function AfterClusters(v: View, p: nat, cs: seq<Clu>, nextId: nat, more: seq<Byte>): View {
    if cs == [] then v else v.(rest := more, pos := p + |SegmentBytes(cs)| + IdSize(nextId), peek := nextId)
  }

  // ------------------------------------------------------------------ what follows the clusters

  /** Elements that are neither clusters nor headers, such as cues and a seek head; their bodies do not matter. */
  predicate TailTree(t: Tree) {
    t.Leaf? && ValidId(t.id) && t.id != ID_CLUSTER && t.id != ID_HEADER && |t.body| < Pow2(7 * t.width)
  }

  predicate TailTrees(ts: seq<Tree>) { forall i :: 0 <= i < |ts| ==> TailTree(ts[i]) }

  /** The open masters hold everything up to `end`. */
  predicate HoldAll(levels: seq<Level>, end: nat) { forall i :: 0 <= i < |levels| ==> end <= levels[i].End() }

  lemma {:induction false} SkipReads(v: View, body: seq<Byte>, width: SizeWidth, after: seq<Byte>)
    requires v.peek != 0 && v.rest == SizeFixed(|body|, width) + (body + after) && |body| < Pow2(7 * width)
    ensures Skip(v) == Read(v.(rest := after, pos := v.pos + width + |body|, peek := 0), Ok, |body|)
  {
    hide SizeFixed, Pow2, Header;
    HeaderReads(v, |body|, width, body + after);
    assert (body + after)[|body|..] == after;
  }

  /** Such an element is skipped. */
  lemma {:induction false} TailTurn(v: View, p: nat, ts: seq<Tree>, tracks: seq<Track>)
    requires ts != [] && At(v, Document(ts), p) && v.up == 0 && TailTree(ts[0]) && HoldAll(v.levels, p + |Document(ts)|)
    ensures |Document(ts)| == |Bytes(ts[0])| + |Document(ts[1..])|
    ensures var r := ReadAll(v.(rest := Document(ts[1..]), pos := p + |Bytes(ts[0])|, peek := 0), tracks);
            ReadAll(v, tracks) == r
  {
    hide ReadAll, IdBytes, SizeFixed, IdSize, ValidId, Pow2, ElementId, Skip;
    var t, after := ts[0], Document(ts[1..]);
    var rest := SizeFixed(|t.body|, t.width) + (t.body + after);
    assert Body(t) == t.body && Document(ts) == IdBytes(t.id) + rest;
    ValidIdIsNotZero(t.id);
    EnterElement(v, t.id, rest, p);
    var w := v.(rest := rest, pos := p + IdSize(t.id), peek := t.id);
    SkipReads(w, t.body, t.width, after);
    TopTurn(v, w, t.id, tracks);
    var r := ReadAll(v.(rest := after, pos := p + |Bytes(t)|, peek := 0), tracks);
    assert [] + r.packets == r.packets;
  }

  lemma {:induction false} TailIsSkipped(v: View, p: nat, ts: seq<Tree>, tracks: seq<Track>)
    requires At(v, Document(ts), p) && v.up == 0 && (v.peek != 0 ==> ts != [])
    requires TailTrees(ts) && HoldAll(v.levels, p + |Document(ts)|)
    ensures ReadAll(v, tracks).packets == [] && ReadAll(v, tracks).result == AtEnd
    decreases |ts|
  {
    hide ReadAll, IdBytes, Bytes, ValidId, TailTree;
    if ts == [] {
      NoMoreClusters(v, p, tracks);
    } else {
      assert TailTree(ts[0]);
      TailTurn(v, p, ts, tracks);
      TailIsSkipped(v.(rest := Document(ts[1..]), pos := p + |Bytes(ts[0])|, peek := 0), p + |Bytes(ts[0])|, ts[1..], tracks);
    }
  }

  /** A segment with cues, a seek head or anything else of that kind behind its clusters: exactly their blocks, in order. */
  lemma {:induction false} SegmentThenTail(v: View, p: nat, cs: seq<Clu>, tracks: seq<Track>, ts: seq<Tree>)
    requires At(v, SegmentBytes(cs) + Document(ts), p) && v.up == 0 && (v.peek != 0 ==> cs != [] || ts != [])
    requires (forall i :: 0 <= i < |cs| ==> CluReadable(cs[i], tracks)) && TailTrees(ts)
    requires Nested(v.levels) && |v.levels| < EBML_MAX_DEPTH && HoldAll(v.levels, p + |SegmentBytes(cs)| + |Document(ts)|)
    requires v.levels != [] ==> v.levels[|v.levels| - 1].start <= p
    ensures ReadAll(v, tracks).packets == SegmentPackets(cs, tracks, p) && ReadAll(v, tracks).result == AtEnd
  {
    hide ReadAll, CluReadable, IdBytes, IdSize, ValidId, SegmentBytes, SegmentPackets, Nested, TailTree, SizeFixed, Bytes;
    var tail := Document(ts);
    if ts == [] {
      SegmentRoundTrip(v, p, cs, tracks, tail, 0, []);
    } else {
      var t := ts[0];
      var more := SizeFixed(|Body(t)|, t.width) + (Body(t) + Document(ts[1..]));
      assert TailTree(t);
      TailStarts(ts);
      SegmentRoundTrip(v, p, cs, tracks, tail, t.id, more);
      var w := AfterClusters(v, p, cs, t.id, more);
      if cs == [] {
        NoClusters(tail);
      }
      TailIsSkipped(w, p + |SegmentBytes(cs)|, ts, tracks);
      var r := ReadAll(w, tracks);
      assert SegmentPackets(cs, tracks, p) + [] == SegmentPackets(cs, tracks, p);
    }
  }

  lemma NoClusters(tail: seq<Byte>)
    ensures SegmentBytes([]) == [] && SegmentBytes([]) + tail == tail
  {}

  lemma TailStarts(ts: seq<Tree>)
    requires ts != [] && TailTree(ts[0])
    ensures var t := ts[0];
            var more := SizeFixed(|Body(t)|, t.width) + (Body(t) + Document(ts[1..]));
            && t.id != 0 && ValidId(t.id) && Document(ts) == IdBytes(t.id) + more && Document(ts) != []
            && IdSize(t.id) < |Document(ts)|
  {
    hide IdBytes, SizeFixed, IdSize, ValidId, Pow2;
    ValidIdIsNotZero(ts[0].id);
  }

  lemma SegmentNotEmpty(cs: seq<Clu>)
    ensures SegmentBytes(cs) == [] <==> cs == []
  {
    if cs != [] {
      CluLength(cs[0]);
    }
  }

  lemma {:induction false} NextIsThere(cs: seq<Clu>, tail: seq<Byte>, nextId: nat, more: seq<Byte>)
    requires cs == [] ==> tail != []
    requires tail != [] ==> ValidId(nextId) && tail == IdBytes(nextId) + more
    ensures var nid, nmore := if cs == [] then nextId else ID_CLUSTER, if cs == [] then more else AfterCluId(cs, tail);
            nid != 0 && ValidId(nid) && SegmentBytes(cs) + tail == IdBytes(nid) + nmore
  {
    hide IdBytes, AfterCluId, CluBytes;
    if cs == [] {
      assert SegmentBytes(cs) + tail == tail;
    } else {
      AfterCluIdIs(cs, tail);
    }
  }

  lemma AfterCluIdIs(cs: seq<Clu>, tail: seq<Byte>)
    requires cs != []
    ensures SegmentBytes(cs) + tail == IdBytes(ID_CLUSTER) + AfterCluId(cs, tail)
  {
    hide CluBytes, IdBytes, ClusterContent, SizeBytes;
    CluStarts(cs[0], SegmentBytes(cs[1..]) + tail);
    assert SegmentBytes(cs) + tail == CluBytes(cs[0]) + (SegmentBytes(cs[1..]) + tail);
  }

  /** What follows the identifier of the first cluster. */
  function AfterCluId(cs: seq<Clu>, tail: seq<Byte>): seq<Byte>
    requires cs != []
  {
    var content := ClusterContent(cs[0].time, cs[0].blocks);
    SizeBytes(|content|) + (content + (SegmentBytes(cs[1..]) + tail))
  }

  lemma ClusterIdKnown()
    ensures ValidId(ID_CLUSTER) && IdSize(ID_CLUSTER) == 4 && |IdBytes(ID_CLUSTER)| == 4
  {}

  lemma CluStarts(c: Clu, after: seq<Byte>)
    ensures var content := ClusterContent(c.time, c.blocks);
            CluBytes(c) + after == IdBytes(ID_CLUSTER) + (SizeBytes(|content|) + (content + after))
  {
    hide ClusterContent, SizeBytes, IdBytes;
  }

  lemma NoMoreClusters(v: View, p: nat, tracks: seq<Track>)
    requires v.peek == 0 && v.rest == []
    ensures ReadAll(v, tracks).packets == [] && ReadAll(v, tracks).result == AtEnd
  {
    hide TopElement;
  }

  /** No open master ends at the start of a cluster or inside its identifier. */
  lemma {:induction false} HoldsHere(levels: seq<Level>, p: nat, cs: seq<Clu>, tail: seq<Byte>, nextId: nat, more: seq<Byte>)
    requires cs != [] && Holds(levels, p + |SegmentBytes(cs)|, tail, nextId, more)
    ensures NoneEndsWithin(levels, p, IdSize(ID_CLUSTER)) && (levels != [] ==> p < levels[|levels| - 1].End())
    ensures var c, rest := cs[0], cs[1..];
            var nid, nmore := if rest == [] then nextId else ID_CLUSTER, if rest == [] then more else AfterCluId(rest, tail);
            Holds(levels, p + |CluBytes(c)|, SegmentBytes(rest) + tail, nid, nmore)
  {
    hide *;
    ClusterIdKnown();
    SegmentLength(cs);
    HoldsNotCut(levels, p, p + |SegmentBytes(cs)|, tail, nextId, more);
    var rest := cs[1..];
    var p' := p + |CluBytes(cs[0])|;
    SegmentLength(rest);
    if rest == [] {
      assert SegmentBytes(rest) + tail == tail;
    } else {
      HoldsTail(levels, p + |SegmentBytes(cs)|, tail, nextId, more);
      NextIsThere(rest, tail, nextId, more);
      HoldsEarlier(levels, p', p' + |SegmentBytes(rest)|, tail, nextId, more, SegmentBytes(rest) + tail, AfterCluId(rest, tail));
    }
  }

  lemma SegmentLength(cs: seq<Clu>)
    ensures cs == [] ==> SegmentBytes(cs) == []
    ensures cs != [] ==> |SegmentBytes(cs)| == |CluBytes(cs[0])| + |SegmentBytes(cs[1..])| && |CluBytes(cs[0])| > 4
  {
    if cs != [] {
      hide CluBytes;
      CluLength(cs[0]);
    }
  }

  lemma HoldsTail(levels: seq<Level>, end: nat, tail: seq<Byte>, nextId: nat, more: seq<Byte>)
    requires Holds(levels, end, tail, nextId, more)
    ensures tail != [] ==> ValidId(nextId) && tail == IdBytes(nextId) + more
  {}

  lemma HoldsNotCut(levels: seq<Level>, p: nat, end: nat, tail: seq<Byte>, nextId: nat, more: seq<Byte>)
    requires Holds(levels, end, tail, nextId, more) && p + 4 < end
    ensures NoneEndsWithin(levels, p, 4) && (levels != [] ==> p < levels[|levels| - 1].End())
  {
    hide IdBytes, IdSize, ValidId, Nested;
  }

  /** What holds up to `end` also holds up to the cluster at `p`, well before it. */
  lemma HoldsEarlier(levels: seq<Level>, p: nat, end: nat, tail: seq<Byte>, nextId: nat, more: seq<Byte>,
                     here: seq<Byte>, hereMore: seq<Byte>)
    requires Holds(levels, end, tail, nextId, more) && p + 4 < end
    requires here == IdBytes(ID_CLUSTER) + hereMore
    ensures Holds(levels, p, here, ID_CLUSTER, hereMore)
  {
    hide IdBytes, Nested;
    ClusterIdKnown();
  }

  // ------------------------------------------------------------------ readPacket

  datatype Option<T> = None | Some(value: T)

  class PacketReader {
    const c: ClusterReader
    var done: bool

    constructor (c: ClusterReader)
      ensures this.c == c && !done
    {
      this.c, done := c, false;
    }

    ghost predicate Valid()
      reads this, c, c.d, c.d.io, c.d.levels
    {
      c.d.Valid()
    }

    /** Every packet still to be delivered: those queued, then those the rest of the file gives. */
    ghost function ToCome(): seq<Packet>
      reads this, c, c.d, c.d.io, c.d.levels
      requires Valid()
    {
      c.packets + if done then [] else ReadAll(c.d.Seen(), c.tracks).packets
    }

    /** readPacket: the first packet to come, parsing as far as needed. */
    method ReadPacket() returns (p: Option<Packet>)
      requires Valid()
      modifies this, c, c.d, c.d.io, c.d.levels
      ensures Valid()
      ensures if old(ToCome()) == [] then p == None else p == Some(old(ToCome())[0]) && ToCome() == old(ToCome())[1..]
    {
      hide ReadAll, c.d.Seen;
      ghost var toCome := ToCome();
      while c.packets == []
        invariant Valid() && ToCome() == toCome
        decreases if done then 0 else 1, |c.d.Seen().rest|
      {
        if done {
          return None;
        }
        ParseTop();
      }
      p := Some(c.packets[0]);
      c.packets := c.packets[1..];
    }

    /** One turn of the inner loop; `done` is set when nothing more will come. */
    method ParseTop()
      requires Valid() && !done
      modifies this, c, c.d, c.d.io, c.d.levels
      ensures Valid() && ToCome() == old(ToCome())
      ensures done || |c.d.Seen().rest| < |old(c.d.Seen()).rest|
    {
      hide TopElement, ElementId, Flatten;
      var status, id := c.d.ReadElementId(true);
      if status != Ok {
        done := true;
        return;
      }
      if c.d.levelUp > 0 {
        c.d.levelUp := c.d.levelUp - 1;
        return;
      }
      var res := RunTop(id);
      if c.d.levelUp > 0 {
        c.d.levelUp := c.d.levelUp - 1;
      }
      done := res != Done;
    }

    method RunTop(id: nat) returns (res: Result)
      requires Valid()
      modifies c, c.d, c.d.io, c.d.levels
      ensures Valid()
      ensures var r := TopElement(old(c.d.Seen()), id, c.tracks);
              c.d.Seen() == r.view && res == r.result && c.packets == old(c.packets) + r.packets
    {
      hide Master, ParseCluster, Skip, Flatten;
      if id == ID_CLUSTER {
        var status := c.d.ReadMaster();
        if status != Ok {
          return ResultOf(status);
        }
        res := c.Cluster(0);
      } else if id == ID_HEADER {
        return OutOfModel;
      } else {
        var status := c.d.ReadSkip();
        return ResultOf(status);
      }
    }
  }
}
