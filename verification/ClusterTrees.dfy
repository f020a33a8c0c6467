/**
  Clusters of any elements: time codes, simple blocks, block groups and elements that are skipped, however
  their sizes are written (matroska_parse_cluster and readPacket of tsMuxer/matroskaDemuxer.cpp).
  */
module ClusterTrees {
  import opened Bits
  import opened EbmlNumbers
  import opened EbmlReader
  import opened EbmlLevels
  import opened Cluster
  import opened MatroskaFile

  // ------------------------------------------------------------------ what a cluster says

  /** An element of a cluster; groups hold a block. */
  predicate ClusterTree(t: Tree) {
    && ValidId(t.id) && |Body(t)| < Pow2(7 * t.width) && t.id != ID_CLUSTER
    && match t
       case Leaf(id, _, body) => id != ID_BLOCKGROUP && |body| <= INT_MAX && (id == ID_TIMECODE ==> 1 <= |body| <= 8)
       case Node(id, _, kids) => id == ID_BLOCKGROUP && GroupTrees(kids) && Has(kids, ID_BLOCK)
  }

  predicate AllClusterTrees(ts: seq<Tree>) { forall i :: 0 <= i < |ts| ==> ClusterTree(ts[i]) }

  /** What the element at offset `p` gives. */
  function Says(t: Tree, p: nat, time: int, tracks: seq<Track>): (Result, seq<Packet>)
    requires ClusterTree(t)
  {
    match t
    case Leaf(id, _, body) => if id == ID_SIMPLEBLOCK then ParseBlock(tracks, body, p + 1, time, NO_PTS, FromFlags) else (Done, [])
    case Node(id, width, kids) =>
      var g := Told(kids, NOTHING_TOLD, p + 1 + width);
      ParseBlock(tracks, g.block, g.pos, time, g.duration, Given(g.key))
  }

  function TimeAfter(t: Tree, time: int): int { if t.Leaf? && t.id == ID_TIMECODE then UintOf(t.body) else time }

  /** All elements in order, up to one that ends the loop; a group that the file ends with does. */
  function SaysAll(ts: seq<Tree>, p: nat, time: int, tracks: seq<Track>, fileEnds: bool): (Result, seq<Packet>)
    requires AllClusterTrees(ts)
    decreases |ts|
  {
    if ts == [] then (Done, [])
    else
      assert ClusterTree(ts[0]);
      if fileEnds && ts[0].Node? && ts[1..] == [] then (AtEnd, [])
      else
        var r := Says(ts[0], p, time, tracks);
        if r.0 != Done then r
        else
          var more := SaysAll(ts[1..], p + |Bytes(ts[0])|, TimeAfter(ts[0], time), tracks, fileEnds);
          (more.0, r.1 + more.1)
  }

  // ------------------------------------------------------------------ one turn

  /** The loop stands before the elements, inside a cluster that ends with them. */
  ghost predicate InCluster(v: View, p: nat, ts: seq<Tree>, tail: seq<Byte>, nextId: nat, more: seq<Byte>) {
    && AllClusterTrees(ts) && At(v, Document(ts) + tail, p) && v.up == 0 && (v.peek != 0 ==> ts != [])
    && v.levels != [] && Nested(v.levels) && |v.levels| < EBML_MAX_DEPTH
    && v.levels[|v.levels| - 1].start <= p && v.levels[|v.levels| - 1].End() == p + |Document(ts)|
    && Follows(v.levels, p + |Document(ts)|, tail, nextId, more)
  }

  lemma ClusterStops(v: View, w: View, id: nat, tracks: seq<Track>, time: int)
    requires ElementId(v, true) == Read(w, Ok, id) && w.up == 0 && id != ID_CLUSTER
    requires var e := ClusterElement(w, id, tracks, time); e.0.result != Done || e.0.view.up > 0
    ensures var e := ClusterElement(w, id, tracks, time); ParseCluster(v, tracks, time) == e.0.(view := Lower(e.0.view))
  {
    hide ElementId, ClusterElement;
  }

  lemma DocumentStep(ts: seq<Tree>, tail: seq<Byte>)
    requires ts != []
    ensures var t, after := ts[0], Document(ts[1..]) + tail;
            && Document(ts) + tail == IdBytes(t.id) + (SizeFixed(|Body(t)|, t.width) + (Body(t) + after))
            && |Bytes(t)| == IdSize(t.id) + t.width + |Body(t)| && |Document(ts)| == |Bytes(t)| + |Document(ts[1..])|
  {
    hide *;
    var t, rest := ts[0], Document(ts[1..]);
    DocumentIs(ts);
    JoinFour(IdBytes(t.id), SizeFixed(|Body(t)|, t.width), Body(t), rest, tail);
  }

  lemma DocumentIs(ts: seq<Tree>)
    requires ts != []
    ensures var t := ts[0];
            Document(ts) == IdBytes(t.id) + (SizeFixed(|Body(t)|, t.width) + Body(t)) + Document(ts[1..])
            && |IdBytes(t.id)| == IdSize(t.id) && |SizeFixed(|Body(t)|, t.width)| == t.width
            && |Bytes(t)| == IdSize(t.id) + t.width + |Body(t)|
  {
    hide IdBytes, SizeFixed, IdSize, Body, Bytes;
  }

  lemma JoinFour(a: seq<Byte>, b: seq<Byte>, c: seq<Byte>, d: seq<Byte>, e: seq<Byte>)
    ensures a + (b + c) + d + e == a + (b + (c + (d + e)))
  {}

  /** Behind the identifier of the first element. */
  function AtFirst(v: View, p: nat, ts: seq<Tree>, tail: seq<Byte>): View
    requires ts != []
  {
    var t := ts[0];
    v.(rest := SizeFixed(|Body(t)|, t.width) + (Body(t) + (Document(ts[1..]) + tail)), pos := p + IdSize(t.id), peek := t.id)
  }

  lemma {:induction false} FirstMet(v: View, p: nat, ts: seq<Tree>, tail: seq<Byte>, nextId: nat, more: seq<Byte>)
    requires ts != [] && InCluster(v, p, ts, tail, nextId, more)
    ensures ElementId(v, true) == Read(AtFirst(v, p, ts, tail), Ok, ts[0].id) && ts[0].id != 0 && ClusterTree(ts[0])
  {
    hide IdBytes, SizeFixed, IdSize, ValidId, Pow2, ElementId, Body, Follows;
    DocumentStep(ts, tail);
    assert ClusterTree(ts[0]);
    ValidIdIsNotZero(ts[0].id);
    EnterElement(v, ts[0].id, AtFirst(v, p, ts, tail).rest, p);
  }

  /** A leaf: the loop goes on behind it, or ends with its block. */
  lemma {:induction false} LeafTurn(v: View, p: nat, ts: seq<Tree>, tracks: seq<Track>, time: int,
                                    tail: seq<Byte>, nextId: nat, more: seq<Byte>)
    requires ts != [] && InCluster(v, p, ts, tail, nextId, more) && ts[0].Leaf? && ClusterTree(ts[0])
    ensures var o, next := Says(ts[0], p, time, tracks), v.(rest := Document(ts[1..]) + tail, pos := p + |Bytes(ts[0])|, peek := 0);
            var r := ParseCluster(v, tracks, time);
            if o.0 == Done then
              var m := ParseCluster(next, tracks, TimeAfter(ts[0], time)); r == m.(packets := o.1 + m.packets)
            else r.packets == o.1 && r.result == o.0
  {
    hide ParseCluster, ElementId, InCluster, SizeFixed, IdBytes, IdSize, ValidId, Pow2, UintOf, ParseBlock, Binary, Uint, Skip;
    var t := ts[0];
    var w := AtFirst(v, p, ts, tail);
    FirstMet(v, p, ts, tail, nextId, more);
    NotUp(v, p, ts, tail, nextId, more);
    DocumentStep(ts, tail);
    BlockIdIsShort();
    LeafReaders(w, t.body, t.width, Document(ts[1..]) + tail);
    var e := ClusterElement(w, t.id, tracks, time);
    if e.0.result == Done {
      ClusterTurn(v, w, t.id, tracks, time);
    } else {
      ClusterStops(v, w, t.id, tracks, time);
    }
  }

  lemma BlockIdIsShort()
    ensures IdSize(ID_SIMPLEBLOCK) == 1 && IdSize(ID_BLOCKGROUP) == 1
  {}

  lemma NotUp(v: View, p: nat, ts: seq<Tree>, tail: seq<Byte>, nextId: nat, more: seq<Byte>)
    requires InCluster(v, p, ts, tail, nextId, more)
    ensures v.up == 0 && v.levels != [] && |v.levels| < EBML_MAX_DEPTH
  {}

  // ------------------------------------------------------------------ a group in its cluster

  /** The group's loop is entered. */
  function InGroup(v: View, p: nat, t: Tree, after: seq<Byte>): View {
    var start := p + 1 + t.width;
    v.(rest := Body(t) + after, pos := start, peek := 0, levels := v.levels + [Level(start, |Body(t)|)])
  }

  lemma {:induction false} GroupEntered(v: View, p: nat, ts: seq<Tree>, tail: seq<Byte>)
    requires ts != [] && ts[0].id == ID_BLOCKGROUP && |Body(ts[0])| < Pow2(7 * ts[0].width) && |v.levels| < EBML_MAX_DEPTH
    ensures Master(AtFirst(v, p, ts, tail)) == Read(InGroup(v, p, ts[0], Document(ts[1..]) + tail), Ok, |Body(ts[0])|)
  {
    hide Header, SizeFixed, Pow2, Body, IdBytes;
    BlockIdIsShort();
    HeaderReads(AtFirst(v, p, ts, tail), |Body(ts[0])|, ts[0].width, Body(ts[0]) + (Document(ts[1..]) + tail));
  }

  /** What comes behind the group: the next element of the cluster, or what follows the cluster. */
  function NextId(ts: seq<Tree>, nextId: nat): nat { if |ts| > 1 then ts[1].id else nextId }

  function NextMore(ts: seq<Tree>, tail: seq<Byte>, more: seq<Byte>): seq<Byte> {
    if |ts| > 1 then SizeFixed(|Body(ts[1])|, ts[1].width) + (Body(ts[1]) + (Document(ts[2..]) + tail)) else more
  }

  lemma {:induction false} GroupIsInside(v: View, p: nat, ts: seq<Tree>, tail: seq<Byte>, nextId: nat, more: seq<Byte>)
    requires ts != [] && InCluster(v, p, ts, tail, nextId, more) && ts[0].Node? && ClusterTree(ts[0])
    ensures var g, after := InGroup(v, p, ts[0], Document(ts[1..]) + tail), Document(ts[1..]) + tail;
            Inside(g, |Body(ts[0])|, after, NextId(ts, nextId), NextMore(ts, tail, more)) && g.rest == Document(ts[0].kids) + after
  {
    hide IdBytes, SizeFixed, IdSize, ValidId, Pow2, GroupTrees, Has, PopLevels, Document, Bytes, NextId, NextMore, NoneEndsWithin;
    var t := ts[0];
    DocumentStep(ts, tail);
    BlockIdIsShort();
    PushKeepsNested(v.levels, Level(p + 1 + t.width, |Body(t)|));
    GroupFollows(v, p, ts, tail, nextId, more);
  }

  lemma {:induction false} GroupFollows(v: View, p: nat, ts: seq<Tree>, tail: seq<Byte>, nextId: nat, more: seq<Byte>)
    requires ts != [] && InCluster(v, p, ts, tail, nextId, more) && ts[0].Node? && ClusterTree(ts[0])
    ensures var l, end := Level(p + 1 + ts[0].width, |Body(ts[0])|), p + |Bytes(ts[0])|;
            l.End() == end && Follows(v.levels + [l], end, Document(ts[1..]) + tail, NextId(ts, nextId), NextMore(ts, tail, more))
  {
    hide IdBytes, SizeFixed, IdSize, ValidId, Pow2, Body, GroupTrees, Has, PopLevels, Document, Bytes;
    var t, rest := ts[0], ts[1..];
    DocumentStep(ts, tail);
    BlockIdIsShort();
    if |ts| > 1 {
      assert rest[0] == ts[1] && rest[1..] == ts[2..] && ClusterTree(ts[1]);
      DocumentStep(rest, tail);
      assert forall i :: 0 <= i < |v.levels| ==> v.levels[i].End() >= p + |Document(ts)|;
    } else {
      NoDocument(tail);
      assert rest == [];
    }
  }

  lemma NoDocument(tail: seq<Byte>)
    ensures Document([]) + tail == tail && |Document([])| == 0
  {}

  /** Where the group ends, it is popped; with it the cluster, if that ends there too. */
  lemma {:induction false} GroupPops(v: View, p: nat, ts: seq<Tree>, tail: seq<Byte>, nextId: nat, more: seq<Byte>)
    requires ts != [] && InCluster(v, p, ts, tail, nextId, more) && ts[0].Node? && ClusterTree(ts[0])
    ensures var l, end := Level(p + 1 + ts[0].width, |Body(ts[0])|), p + |Bytes(ts[0])|;
            if |ts| > 1 then PopLevels(v.levels + [l], end) == v.levels
            else PopLevels(v.levels + [l], end) == PopLevels(v.levels, end) && |PopLevels(v.levels, end)| < |v.levels|
  {
    hide IdBytes, SizeFixed, IdSize, ValidId, Pow2, Body, GroupTrees, Has, Document, Bytes;
    var t, rest := ts[0], ts[1..];
    var l, end := Level(p + 1 + t.width, |Body(t)|), p + |Bytes(t)|;
    DocumentStep(ts, tail);
    BlockIdIsShort();
    PopOne(v.levels, l, end);
    if |ts| > 1 {
      DocumentStep(rest, tail);
    } else {
      NoDocument(tail);
      assert rest == [];
      TopCloses(v.levels, end);
    }
  }

  /** The group is read whole, and its block parsed - unless the file ends behind it. */
  lemma {:induction false} GroupSays(v: View, p: nat, ts: seq<Tree>, tracks: seq<Track>, time: int,
                                     tail: seq<Byte>, nextId: nat, more: seq<Byte>)
    requires ts != [] && InCluster(v, p, ts, tail, nextId, more) && ts[0].Node? && ClusterTree(ts[0])
    ensures var after, e := Document(ts[1..]) + tail, ClusterElement(AtFirst(v, p, ts, tail), ID_BLOCKGROUP, tracks, time);
            && e.1 == time
            && if after == [] then e.0.packets == [] && e.0.result == AtEnd
               else
                 var left := if |ts| > 1 then v.levels else PopLevels(v.levels, p + |Bytes(ts[0])|);
                 && (e.0.result, e.0.packets) == Says(ts[0], p, time, tracks)
                 && |left| <= |v.levels|
                 && e.0.view == v.(rest := NextMore(ts, tail, more), pos := p + |Bytes(ts[0])| + IdSize(NextId(ts, nextId)),
                                   peek := NextId(ts, nextId), levels := left, up := |v.levels| - |left|)
  {
    hide InCluster, ParseBlock, Told, Document, Inside, GroupTrees, Has, IdBytes, IdSize, SizeFixed, Pow2, GroupLoop, Master, PopLevels, Bytes,
      NextId, NextMore;
    var t, after := ts[0], Document(ts[1..]) + tail;
    var g := InGroup(v, p, t, after);
    NotUp(v, p, ts, tail, nextId, more);
    GroupEntered(v, p, ts, tail);
    GroupIsInside(v, p, ts, tail, nextId, more);
    GroupPops(v, p, ts, tail, nextId, more);
    LastGroupIsLost(g, t.kids, tracks, time, after, NextId(ts, nextId), NextMore(ts, tail, more));
    GroupReads(g, t.kids, NOTHING_TOLD, after, NextId(ts, nextId), NextMore(ts, tail, more));
    GroupLength(t);
  }

  lemma GroupLength(t: Tree)
    requires t.Node? && t.id == ID_BLOCKGROUP
    ensures |Bytes(t)| == 1 + t.width + |Body(t)| && Body(t) == Document(t.kids)
  {
    hide SizeFixed;
    BlockIdIsShort();
  }

  // ------------------------------------------------------------------ whole clusters

  /** Behind an element that is not the last, the loop stands inside the cluster again. */
  lemma {:induction false} StillInside(v: View, w: View, p: nat, ts: seq<Tree>, tail: seq<Byte>, nextId: nat, more: seq<Byte>)
    requires ts != [] && InCluster(v, p, ts, tail, nextId, more) && w.levels == v.levels && w.up == 0
    requires At(w, Document(ts[1..]) + tail, p + |Bytes(ts[0])|) && (w.peek != 0 ==> ts[1..] != [])
    ensures InCluster(w, p + |Bytes(ts[0])|, ts[1..], tail, nextId, more)
  {
    hide ClusterTree, Nested, Follows, At, Bytes, Document;
    DocumentStep(ts, tail);
  }

  /** A group that is not the last of its cluster: the loop goes on behind it, its next identifier peeked at. */
  lemma {:induction false} GroupTurn(v: View, p: nat, ts: seq<Tree>, tracks: seq<Track>, time: int,
                                     tail: seq<Byte>, nextId: nat, more: seq<Byte>)
    requires ts != [] && InCluster(v, p, ts, tail, nextId, more) && ts[0].Node? && ClusterTree(ts[0]) && |ts| > 1
    ensures var o, r := Says(ts[0], p, time, tracks), ParseCluster(v, tracks, time);
            var w := v.(rest := NextMore(ts, tail, more), pos := p + |Bytes(ts[0])| + IdSize(ts[1].id), peek := ts[1].id);
            if o.0 == Done then
              && InCluster(w, p + |Bytes(ts[0])|, ts[1..], tail, nextId, more)
              && var m := ParseCluster(w, tracks, time); r == m.(packets := o.1 + m.packets)
            else r.packets == o.1 && r.result == o.0
  {
    hide ParseCluster, ElementId, ClusterElement, Says, InCluster, Bytes, Document, IdBytes, SizeFixed, IdSize, ValidId, Body, NextMore;
    FirstMet(v, p, ts, tail, nextId, more);
    NotUp(v, p, ts, tail, nextId, more);
    GroupSays(v, p, ts, tracks, time, tail, nextId, more);
    RestIsThere(v, p, ts, tail, nextId, more);
    var w := v.(rest := NextMore(ts, tail, more), pos := p + |Bytes(ts[0])| + IdSize(ts[1].id), peek := ts[1].id);
    var at := AtFirst(v, p, ts, tail);
    if Says(ts[0], p, time, tracks).0 == Done {
      ClusterTurn(v, at, ID_BLOCKGROUP, tracks, time);
      StillInside(v, w, p, ts, tail, nextId, more);
    } else {
      ClusterStops(v, at, ID_BLOCKGROUP, tracks, time);
    }
  }

  lemma RestIsThere(v: View, p: nat, ts: seq<Tree>, tail: seq<Byte>, nextId: nat, more: seq<Byte>)
    requires |ts| > 1 && InCluster(v, p, ts, tail, nextId, more)
    ensures Document(ts[1..]) + tail == IdBytes(ts[1].id) + NextMore(ts, tail, more) && Document(ts[1..]) + tail != []
    ensures ts[1].id != 0 && ValidId(ts[1].id) && NextId(ts, nextId) == ts[1].id
  {
    hide IdBytes, SizeFixed, IdSize, ValidId, Body, Document;
    assert ts[1..][0] == ts[1] && ts[1..][1..] == ts[2..] && ClusterTree(ts[1]);
    DocumentStep(ts[1..], tail);
    ValidIdIsNotZero(ts[1].id);
  }

  /** A group at the very end of its cluster: both end at once. */
  lemma {:induction false} LastGroupTurn(v: View, p: nat, ts: seq<Tree>, tracks: seq<Track>, time: int,
                                         tail: seq<Byte>, nextId: nat, more: seq<Byte>)
    requires |ts| == 1 && InCluster(v, p, ts, tail, nextId, more) && ts[0].Node? && ClusterTree(ts[0])
    ensures var o, r := SaysAll(ts, p, time, tracks, tail == []), ParseCluster(v, tracks, time);
            && r.packets == o.1 && (o.0 != Done ==> r.result == o.0)
            && (o.0 == Done ==> ClusterEnds(r, v, p + |Document(ts)|, tail, nextId, more))
  {
    hide ParseCluster, ElementId, ClusterElement, Says, InCluster, Bytes, IdBytes, SizeFixed, IdSize, ValidId, Body, PopLevels;
    FirstMet(v, p, ts, tail, nextId, more);
    NotUp(v, p, ts, tail, nextId, more);
    GroupSays(v, p, ts, tracks, time, tail, nextId, more);
    GroupPops(v, p, ts, tail, nextId, more);
    DocumentStep(ts, tail);
    NoDocument(tail);
    assert ts[1..] == [];
    ClusterStops(v, AtFirst(v, p, ts, tail), ID_BLOCKGROUP, tracks, time);
    var o := Says(ts[0], p, time, tracks);
    assert o.1 + [] == o.1;
  }

  lemma SaysStep(ts: seq<Tree>, p: nat, time: int, tracks: seq<Track>, fileEnds: bool)
    requires ts != [] && AllClusterTrees(ts)
    ensures ClusterTree(ts[0]) && AllClusterTrees(ts[1..])
    ensures var o := Says(ts[0], p, time, tracks);
            !(fileEnds && ts[0].Node? && |ts| == 1) ==>
              SaysAll(ts, p, time, tracks, fileEnds)
              == if o.0 != Done then o
                 else
                   var m := SaysAll(ts[1..], p + |Bytes(ts[0])|, TimeAfter(ts[0], time), tracks, fileEnds);
                   (m.0, o.1 + m.1)
  {
    hide Says, Bytes;
    assert ClusterTree(ts[0]);
  }

  /**
    The loop over a cluster of any elements: the packets of its simple blocks and block groups in order, each with
    the time code that was read last - up to a block that is an error - and the end of the cluster, or of the file.
    */
  lemma {:induction false} ClusterReads(v: View, p: nat, ts: seq<Tree>, tracks: seq<Track>, time: int,
                                        tail: seq<Byte>, nextId: nat, more: seq<Byte>)
    requires InCluster(v, p, ts, tail, nextId, more)
    ensures AllClusterTrees(ts)
    ensures var o, r := SaysAll(ts, p, time, tracks, tail == []), ParseCluster(v, tracks, time);
            && r.packets == o.1 && (o.0 != Done ==> r.result == o.0)
            && (o.0 == Done ==> ClusterEnds(r, v, p + |Document(ts)|, tail, nextId, more))
    decreases |ts|
  {
    hide *;
    InClusterSays(v, p, ts, tail, nextId, more);
    if ts == [] {
      NothingSaid(p, time, tracks, tail == []);
      NoDocument(tail);
      ClusterOver(v, tracks, time, tail, nextId, more);
    } else {
      SaysStep(ts, p, time, tracks, tail == []);
      DocumentStep(ts, tail);
      var o, next := Says(ts[0], p, time, tracks), p + |Bytes(ts[0])|;
      if ts[0].Leaf? {
        var w := v.(rest := Document(ts[1..]) + tail, pos := next, peek := 0);
        LeafTurn(v, p, ts, tracks, time, tail, nextId, more);
        if o.0 == Done {
          StandsThere(w);
          StillInside(v, w, p, ts, tail, nextId, more);
          ClusterReads(w, next, ts[1..], tracks, TimeAfter(ts[0], time), tail, nextId, more);
          GoesOn(v, w, p, ts, tracks, time, TimeAfter(ts[0], time), tail, nextId, more, o.1);
        }
      } else if |ts| == 1 {
        LastGroupTurn(v, p, ts, tracks, time, tail, nextId, more);
      } else {
        GroupTurn(v, p, ts, tracks, time, tail, nextId, more);
        var w := v.(rest := NextMore(ts, tail, more), pos := next + IdSize(ts[1].id), peek := ts[1].id);
        GroupKeepsTime(ts[0], time);
        if o.0 == Done {
          ClusterReads(w, next, ts[1..], tracks, time, tail, nextId, more);
          GoesOn(v, w, p, ts, tracks, time, time, tail, nextId, more, o.1);
        }
      }
    }
  }

  lemma GoesOn(v: View, w: View, p: nat, ts: seq<Tree>, tracks: seq<Track>, time: int, time': int,
               tail: seq<Byte>, nextId: nat, more: seq<Byte>, here: seq<Packet>)
    requires w == v.(rest := w.rest, pos := w.pos, peek := w.peek)
    requires var m := ParseCluster(w, tracks, time'); ParseCluster(v, tracks, time) == m.(packets := here + m.packets)
    ensures ParseCluster(v, tracks, time).result == ParseCluster(w, tracks, time').result
    ensures ParseCluster(v, tracks, time).packets == here + ParseCluster(w, tracks, time').packets
    ensures forall end: nat :: ClusterEnds(ParseCluster(w, tracks, time'), w, end, tail, nextId, more) ==>
              ClusterEnds(ParseCluster(v, tracks, time), v, end, tail, nextId, more)
  {
    hide ParseCluster;
  }

  lemma GroupKeepsTime(t: Tree, time: int)
    requires t.Node?
    ensures TimeAfter(t, time) == time
  {}

  lemma StandsThere(w: View)
    requires w.peek == 0
    ensures At(w, w.rest, w.pos)
  {}

  lemma NothingSaid(p: nat, time: int, tracks: seq<Track>, fileEnds: bool)
    ensures SaysAll([], p, time, tracks, fileEnds) == (Done, [])
  {}

  lemma InClusterSays(v: View, p: nat, ts: seq<Tree>, tail: seq<Byte>, nextId: nat, more: seq<Byte>)
    requires InCluster(v, p, ts, tail, nextId, more)
    ensures AllClusterTrees(ts) && v.up == 0 && v.levels != []
    ensures ts == [] ==> v.peek == 0 && v.pos == p && v.rest == tail && Inside(v, 0, tail, nextId, more)
  {
    hide ClusterTree, Nested, Follows, IdBytes, IdSize, ValidId, Bytes;
    if ts == [] {
      NoDocument(tail);
    }
  }

  // ------------------------------------------------------------------ where clusters end otherwise, and the file

  /** A cluster met inside a cluster, as when that one's size is unknown, ends the loop, and is left to the caller. */
  lemma {:induction false} ClusterInCluster(v: View, more: seq<Byte>, tracks: seq<Track>, time: int)
    requires v.peek == 0 && v.up == 0 && v.rest == IdBytes(ID_CLUSTER) + more
    requires NoneEndsWithin(v.levels, v.pos, 4) && (v.levels != [] ==> v.pos < v.levels[|v.levels| - 1].End())
    ensures ParseCluster(v, tracks, time) == Demuxed(v.(rest := more, pos := v.pos + 4, peek := ID_CLUSTER), Done, [])
  {
    hide IdBytes, ElementId, ValidId, NoneEndsWithin, IdSize;
    ClusterIdKnown();
    EnterElement(v, ID_CLUSTER, more, v.pos);
  }

  /** A cluster that cannot be entered because sixteen masters are open ends the file. */
  lemma ClusterTooDeep(v: View, w: View, tracks: seq<Track>)
    requires ElementId(v, true) == Read(w, Ok, ID_CLUSTER) && w.up == 0 && Master(w).status == Thrown
    ensures ReadAll(v, tracks).packets == [] && ReadAll(v, tracks).result == Broken
  {
    hide ElementId, Master;
    TopTurn(v, w, ID_CLUSTER, tracks);
  }

  /** A cluster that ends with an error is the last one: nothing behind the bad block is delivered. */
  lemma {:induction false} BadBlockEndsFile(v: View, w: View, inner: View, p: nat, ts: seq<Tree>, tracks: seq<Track>,
                                            tail: seq<Byte>, nextId: nat, more: seq<Byte>)
    requires ElementId(v, true) == Read(w, Ok, ID_CLUSTER) && w.up == 0
    requires Master(w).status == Ok && Master(w).view == inner && InCluster(inner, p, ts, tail, nextId, more)
    requires AllClusterTrees(ts) && SaysAll(ts, p, 0, tracks, tail == []).0 != Done
    ensures var o := SaysAll(ts, p, 0, tracks, tail == []);
            ReadAll(v, tracks).packets == o.1 && ReadAll(v, tracks).result == o.0
  {
    hide ElementId, Master, InCluster, SaysAll, ParseCluster;
    ClusterReads(inner, p, ts, tracks, 0, tail, nextId, more);
    TopTurn(v, w, ID_CLUSTER, tracks);
  }

  /** An identifier behind the end of masters closes them, however many, and is read as one of those left open. */
  lemma {:induction false} TopClosesMasters(v: View, id: nat, more: seq<Byte>, tracks: seq<Track>)
    requires v.peek == 0 && ValidId(id) && v.rest == IdBytes(id) + more && NoneEndsWithin(v.levels, v.pos, IdSize(id))
    ensures ReadAll(v, tracks)
         == ReadAll(v.(rest := more, pos := v.pos + IdSize(id), peek := id, levels := PopLevels(v.levels, v.pos), up := 0), tracks)
  {
    hide IdBytes, ValidId, IdSize, PopLevels, TopElement, NoneEndsWithin;
    ValidIdIsNotZero(id);
    var w := Peeked(v, id, more, v.pos);
    var z := w.(up := 0);
    PeekOnce(v, id, more);
    PeekForgets(w, tracks);
    PeekForgets(Lower(w), tracks);
  }

  lemma PeekOnce(v: View, id: nat, more: seq<Byte>)
    requires v.peek == 0 && ValidId(id) && v.rest == IdBytes(id) + more && NoneEndsWithin(v.levels, v.pos, IdSize(id))
    ensures ElementId(v, true) == Read(Peeked(v, id, more, v.pos), Ok, id)
    ensures ElementId(Peeked(v, id, more, v.pos).(up := 0), true) == Read(Peeked(v, id, more, v.pos).(up := 0), Ok, id)
  {
    hide IdBytes, ValidId, IdSize, PopLevels, NoneEndsWithin;
    ValidIdIsNotZero(id);
    FreshPeek(v, id, more);
  }

  /** What is left of the pending count does not outlive the next look at the identifier. */
  lemma PeekForgets(w: View, tracks: seq<Track>)
    requires w.peek != 0
    ensures ReadAll(w, tracks) == ReadAll(w.(up := 0), tracks)
  {
    hide TopElement;
  }
}
