/**
  The loop shared by all the matroska_parse_* functions: peek at an identifier, stop when a
  master has ended, otherwise read one element. For every well-formed tree of elements, however
  its sizes are written, the level stack makes each loop stop exactly at the end of its master.
  */
module EbmlLevels {
  import opened Bits
  import opened BigEndian
  import opened EbmlNumbers
  import opened BlockStream
  import opened EbmlReader

  // ------------------------------------------------------------------ the parse loop

  /** What a run of parse loops meets: elements read whole, and masters with their contents. */
  datatype Found = Item(id: nat, body: seq<Byte>) | Group(id: nat, kids: seq<Found>)

  datatype Parsed = Parsed(view: View, status: Status, found: seq<Found>)

  /** `if (level_up) level_up--`. */
  function Lower(v: View): View { if v.up > 0 then v.(up := v.up - 1) else v }

  /** One parse loop, entered with its master's header just read. */
  function Parse(v: View, isMaster: nat -> bool): (r: Parsed)
    ensures |r.view.rest| <= |v.rest|
    decreases |v.rest|
  {
    var i := ElementId(v, true);
    if i.status != Ok then Parsed(i.view, i.status, [])
    else if i.view.up > 0 then Parsed(Lower(i.view), Ok, [])
    else
      var e := ParseElement(i.view, i.value, isMaster);
      if e.status != Ok || e.view.up > 0 then e.(view := Lower(e.view))
      else
        var more := Parse(e.view, isMaster);
        more.(found := e.found + more.found)
  }

  /** The body of the loop's switch: a master is parsed by a loop of its own. */
  function ParseElement(v: View, id: nat, isMaster: nat -> bool): (r: Parsed)
    ensures |r.view.rest| <= |v.rest|
    ensures r.status == Ok ==> |r.view.rest| < |v.rest|
    decreases |v.rest|, 0
  {
    if isMaster(id) then
      var m := Master(v);
      if m.status != Ok then Parsed(m.view, m.status, [])
      else
        var inner := Parse(m.view, isMaster);
        inner.(found := [Group(id, inner.found)])
    else
      var b := Binary(v);
      if b.status != Ok then Parsed(b.view, b.status, []) else Parsed(b.view, Ok, [Item(id, b.value)])
  }

  /** After an element, the loop stops or starts over. */
  function GoOn(e: Parsed, isMaster: nat -> bool): Parsed {
    if e.status != Ok || e.view.up > 0 then e.(view := Lower(e.view))
    else
      var more := Parse(e.view, isMaster);
      more.(found := e.found + more.found)
  }

  /** One turn of the loop. */
  lemma OneTurn(v: View, isMaster: nat -> bool)
    ensures var i := ElementId(v, true);
            Parse(v, isMaster) == if i.status != Ok then Parsed(i.view, i.status, [])
                                  else if i.view.up > 0 then Parsed(Lower(i.view), Ok, [])
                                  else GoOn(ParseElement(i.view, i.value, isMaster), isMaster)
  {
    hide ElementId, ParseElement;
  }

  /** The loop as the source has it. */
  method RunLoop(d: Demuxer, isMaster: nat -> bool) returns (status: Status, found: seq<Found>)
    requires d.Valid()
    modifies d, d.io, d.levels
    ensures d.Valid()
    ensures var r := Parse(old(d.Seen()), isMaster); d.Seen() == r.view && status == r.status && found == r.found
    decreases |d.Seen().rest|
  {
    hide ElementId, ParseElement, Flatten, Parse;
    ghost var all := Parse(d.Seen(), isMaster);
    status, found := Ok, [];
    while status == Ok
      invariant d.Valid() && status == Ok
      invariant |d.Seen().rest| <= |old(d.Seen()).rest|
      invariant var r := Parse(d.Seen(), isMaster);
                all.view == r.view && all.status == r.status && all.found == found + r.found
      decreases |d.Seen().rest|
    {
      OneTurn(d.Seen(), isMaster);
      var id;
      status, id := d.ReadElementId(true);
      if status != Ok {
        return;
      }
      if d.levelUp > 0 {
        d.levelUp := d.levelUp - 1;
        return;
      }
      var more;
      status, more := RunElement(d, id, isMaster);
      found := found + more;
      if d.levelUp > 0 {
        d.levelUp := d.levelUp - 1;
        return;
      }
      if status != Ok {
        return;
      }
    }
  }

  method RunElement(d: Demuxer, id: nat, isMaster: nat -> bool) returns (status: Status, found: seq<Found>)
    requires d.Valid()
    modifies d, d.io, d.levels
    ensures d.Valid()
    ensures var r := ParseElement(old(d.Seen()), id, isMaster);
            d.Seen() == r.view && status == r.status && found == r.found
    decreases |d.Seen().rest|, 0
  {
    hide Master, Binary, Parse, Flatten;
    if isMaster(id) {
      status := d.ReadMaster();
      if status != Ok {
        return status, [];
      }
      status, found := RunLoop(d, isMaster);
      found := [Group(id, found)];
    } else {
      var binary;
      status, binary := d.ReadBinary();
      found := if status == Ok then [Item(id, binary)] else [];
    }
  }

  // ------------------------------------------------------------------ well-formed documents

  type SizeWidth = w: nat | 1 <= w <= 8 witness 1

  /** An element; `width` is the number of bytes its size is written in. */
  datatype Tree = Leaf(id: nat, width: SizeWidth, body: seq<Byte>) | Node(id: nat, width: SizeWidth, kids: seq<Tree>)

  function Body(t: Tree): seq<Byte>
    decreases t, 0
  {
    match t
    case Leaf(_, _, body) => body
    case Node(_, _, kids) => Document(kids)
  }

  function Bytes(t: Tree): (s: seq<Byte>)
    ensures s == IdBytes(t.id) + (SizeFixed(|Body(t)|, t.width) + Body(t))
    decreases t, 1
  {
    IdBytes(t.id) + SizeFixed(|Body(t)|, t.width) + Body(t)
  }

  function Document(ts: seq<Tree>): seq<Byte>
    decreases ts
  {
    if ts == [] then [] else Bytes(ts[0]) + Document(ts[1..])
  }

  /** What a reader ought to find: the tree without the widths of its sizes. */
  function Meaning(t: Tree): Found
    decreases t
  {
    match t
    case Leaf(id, _, body) => Item(id, body)
    case Node(id, _, kids) => Group(id, Meanings(kids))
  }

  function Meanings(ts: seq<Tree>): seq<Found>
    decreases ts
  {
    if ts == [] then [] else [Meaning(ts[0])] + Meanings(ts[1..])
  }

  /** Identifiers are valid, sizes fit their widths, and masters are the identifiers said to be. */
  predicate WellFormed(t: Tree, isMaster: nat -> bool)
    decreases t, 1
  {
    && ValidId(t.id) && |Body(t)| < Pow2(7 * t.width)
    && (t.Node? <==> isMaster(t.id))
    && (t.Leaf? ==> |t.body| <= INT_MAX)
    && (t.Node? ==> AllWellFormed(t.kids, isMaster))
  }

  predicate AllWellFormed(ts: seq<Tree>, isMaster: nat -> bool)
    decreases ts
  {
    ts == [] || (WellFormed(ts[0], isMaster) && AllWellFormed(ts[1..], isMaster))
  }

  function Depth(t: Tree): nat
    decreases t
  {
    match t
    case Leaf(_, _, _) => 0
    case Node(_, _, kids) => 1 + DepthAll(kids)
  }

  function DepthAll(ts: seq<Tree>): nat
    decreases ts
  {
    if ts == [] then 0
    else
      var a, b := Depth(ts[0]), DepthAll(ts[1..]);
      if a < b then b else a
  }

  // ------------------------------------------------------------------ the level stack

  /** Each open master lies inside the one below it. */
  predicate Nested(levels: seq<Level>) {
    forall i, j :: 0 <= i <= j < |levels| ==> levels[i].start <= levels[j].start && levels[j].End() <= levels[i].End()
  }

  /** No open master ends inside the `n` bytes after `p`. */
  predicate NoneEndsWithin(levels: seq<Level>, p: nat, n: nat) {
    forall i :: 0 <= i < |levels| ==> levels[i].End() <= p || p + n < levels[i].End()
  }

  /** Closing masters at `p` closes exactly those that end at or before `p`. */
  lemma {:induction false} PopsExactlyTheEnded(levels: seq<Level>, p: nat)
    requires Nested(levels)
    ensures var left := PopLevels(levels, p);
            forall i :: 0 <= i < |levels| ==> (i < |left| <==> p < levels[i].End())
  {
    if levels != [] && p >= levels[|levels| - 1].End() {
      PopsExactlyTheEnded(levels[..|levels| - 1], p);
    }
  }

  /** The source looks after the identifier's bytes are consumed; in a well-formed document that is the same. */
  lemma {:induction false} PopAfterId(levels: seq<Level>, p: nat, n: nat)
    requires NoneEndsWithin(levels, p, n)
    ensures PopLevels(levels, p + n) == PopLevels(levels, p)
  {
    if levels != [] && p >= levels[|levels| - 1].End() {
      PopAfterId(levels[..|levels| - 1], p, n);
    }
  }

  /** A master that fits in the innermost open one keeps the stack nested. */
  lemma PushKeepsNested(levels: seq<Level>, l: Level)
    requires Nested(levels)
    requires levels != [] ==> levels[|levels| - 1].start <= l.start && l.End() <= levels[|levels| - 1].End()
    ensures Nested(levels + [l])
  {}

  /** The reader stands before the bytes `s` at offset `p`, or has just peeked at the identifier they start with. */
  predicate At(v: View, s: seq<Byte>, p: nat) {
    || (v.peek == 0 && v.rest == s && v.pos == p)
    || (v.peek != 0 && ValidId(v.peek) && s == IdBytes(v.peek) + v.rest && v.pos == p + IdSize(v.peek))
  }

  /** After peeking at `id`, the reader has consumed it and closed the masters that end at `p`. */
  function Peeked(v: View, id: nat, rest: seq<Byte>, p: nat): View {
    v.(rest := rest, pos := p + IdSize(id), peek := id, levels := PopLevels(v.levels, p),
       up := |v.levels| - |PopLevels(v.levels, p)|)
  }

  /** Reading an identifier for the first time. */
  lemma FreshPeek(v: View, id: nat, rest: seq<Byte>)
    requires v.peek == 0 && ValidId(id) && v.rest == IdBytes(id) + rest
    requires NoneEndsWithin(v.levels, v.pos, IdSize(id))
    ensures ElementId(v, true) == Read(Peeked(v, id, rest, v.pos), Ok, id)
  {
    hide IdBytes, ReadNum, PopLevels, ValidId, IdSize, Pow2;
    IdRoundTrip(id, rest);
    PopAfterId(v.levels, v.pos, IdSize(id));
  }

  /** The identifier at the front of a byte string is unique. */
  lemma SameId(a: nat, x: seq<Byte>, b: nat, y: seq<Byte>)
    requires ValidId(a) && ValidId(b) && IdBytes(a) + x == IdBytes(b) + y
    ensures a == b && x == y
  {
    hide IdBytes, ReadNum, ValidId, IdSize, Pow2;
    IdRoundTrip(a, x);
    IdRoundTrip(b, y);
    assert (IdBytes(a) + x)[IdSize(a)..] == x;
    assert (IdBytes(b) + y)[IdSize(b)..] == y;
  }

  /** Standing before `id`, peeked at already or not, with no master ending here: the loop goes on. */
  lemma {:induction false} EnterElement(v: View, id: nat, rest: seq<Byte>, p: nat)
    requires At(v, IdBytes(id) + rest, p) && ValidId(id) && v.up == 0
    requires v.levels != [] ==> p < v.levels[|v.levels| - 1].End()
    requires NoneEndsWithin(v.levels, p, IdSize(id))
    ensures ElementId(v, true) == Read(v.(rest := rest, pos := p + IdSize(id), peek := id), Ok, id)
  {
    hide IdBytes, ReadNum, ValidId, IdSize, Pow2;
    if v.peek == 0 {
      FreshPeek(v, id, rest);
    } else {
      SameId(id, rest, v.peek, v.rest);
    }
  }

  /** Then the size: the reader stands before the content. */
  lemma HeaderReads(v: View, size: nat, width: SizeWidth, rest: seq<Byte>)
    requires v.peek != 0 && v.rest == SizeFixed(size, width) + rest && size < Pow2(7 * width)
    ensures Header(v) == Read(v.(rest := rest, pos := v.pos + width, peek := 0), Ok, size)
  {
    hide SizeFixed, ReadNum, Pow2;
    FixedSizeRoundTrip(size, width, rest);
  }

  /** What a loop must report when it has read everything up to offset `end`, where `tail` starts. */
  predicate EndsWell(r: Parsed, v: View, end: nat, tail: seq<Byte>, nextId: nat, more: seq<Byte>) {
    if tail == [] then r.status == Eof
    else
      && r.status == Ok && v.levels != []
      && var left := PopLevels(v.levels, end);
         && |left| < |v.levels|
         && r.view == v.(rest := more, pos := end + IdSize(nextId), peek := nextId, levels := left, up := |v.levels| - |left| - 1)
  }

  /** What follows: the end of the file, or another element, which no open master cuts in two. */
  predicate Follows(levels: seq<Level>, end: nat, tail: seq<Byte>, nextId: nat, more: seq<Byte>) {
    tail != [] ==> ValidId(nextId) && tail == IdBytes(nextId) + more && NoneEndsWithin(levels, end, IdSize(nextId))
  }

  lemma PopOne(levels: seq<Level>, l: Level, p: nat)
    requires l.End() <= p
    ensures PopLevels(levels + [l], p) == PopLevels(levels, p)
  {
    assert (levels + [l])[..|levels|] == levels;
  }

  lemma {:induction false} NothingMore(v: View, isMaster: nat -> bool, tail: seq<Byte>, nextId: nat, more: seq<Byte>)
    requires v.peek == 0 && v.rest == tail && v.up == 0
    requires v.levels != [] && v.levels[|v.levels| - 1].End() == v.pos
    requires Follows(v.levels, v.pos, tail, nextId, more)
    ensures var r := Parse(v, isMaster); EndsWell(r, v, v.pos, tail, nextId, more) && r.found == []
  {
    hide IdBytes, ValidId, IdSize, Pow2, ParseElement;
    if tail != [] {
      FreshPeek(v, nextId, more);
    }
  }

  /** Whichever ebml_read_* function fits the content, it leaves the reader behind it. */
  lemma {:induction false} LeafReaders(v: View, body: seq<Byte>, width: SizeWidth, after: seq<Byte>)
    requires v.peek != 0 && v.rest == SizeFixed(|body|, width) + (body + after)
    requires |body| < Pow2(7 * width) && |body| <= INT_MAX
    ensures var w := v.(rest := after, pos := v.pos + width + |body|, peek := 0);
            && Skip(v) == Read(w, Ok, |body|) && Binary(v) == Read(w, Ok, body)
            && (1 <= |body| <= 8 ==> Uint(v) == Read(w, Ok, UintOf(body)) && Sint(v) == Read(w, Ok, SintOf(body)))
  {
    hide SizeFixed, Pow2, Header, FromBE, UintOf, SintOf;
    HeaderReads(v, |body|, width, body + after);
    assert (body + after)[..|body|] == body && (body + after)[|body|..] == after;
    PaddedPrefix(body, after);
  }

  lemma LeafReads(v: View, t: Tree, after: seq<Byte>, isMaster: nat -> bool)
    requires t.Leaf? && WellFormed(t, isMaster)
    requires v.peek == t.id && v.rest == SizeFixed(|Body(t)|, t.width) + (Body(t) + after)
    ensures ParseElement(v, t.id, isMaster)
         == Parsed(v.(rest := after, pos := v.pos + t.width + |Body(t)|, peek := 0), Ok, [Meaning(t)])
  {
    hide SizeFixed, Pow2, Binary;
    LeafReaders(v, Body(t), t.width, after);
  }

  /** What follows the first identifier of a document. */
  function AfterId(ts: seq<Tree>, tail: seq<Byte>): seq<Byte>
    requires ts != []
  {
    var t := ts[0];
    SizeFixed(|Body(t)|, t.width) + (Body(t) + (Document(ts[1..]) + tail))
  }

  /** Masters that hold the whole document do not end inside its first identifier. */
  lemma {:induction false} FirstId(levels: seq<Level>, p: nat, ts: seq<Tree>, isMaster: nat -> bool, tail: seq<Byte>)
    requires ts != [] && AllWellFormed(ts, isMaster) && Nested(levels)
    requires levels != [] ==> p + |Document(ts)| <= levels[|levels| - 1].End()
    ensures Follows(levels, p, Document(ts) + tail, ts[0].id, AfterId(ts, tail))
    ensures ValidId(ts[0].id) && Document(ts) + tail == IdBytes(ts[0].id) + AfterId(ts, tail)
    ensures PopLevels(levels, p) == levels
  {
    hide IdBytes, IdSize, ValidId, SizeFixed, Body;
    var t := ts[0];
    assert Bytes(t) == IdBytes(t.id) + (SizeFixed(|Body(t)|, t.width) + Body(t));
    assert forall i :: 0 <= i < |levels| ==> p + |Document(ts)| <= levels[i].End();
  }

  lemma ValidIdIsNotZero(id: nat)
    requires ValidId(id)
    ensures id != 0
  {}

  /** The view in which a master's own loop starts. */
  function Opened(v: View, t: Tree, after: seq<Byte>): View {
    var start := v.pos + t.width;
    v.(rest := Body(t) + after, pos := start, peek := 0, levels := v.levels + [Level(start, |Body(t)|)])
  }

  lemma {:induction false} MasterReads(v: View, t: Tree, isMaster: nat -> bool, after: seq<Byte>)
    requires t.Node? && WellFormed(t, isMaster) && |v.levels| < EBML_MAX_DEPTH
    requires v.peek == t.id && v.rest == SizeFixed(|Body(t)|, t.width) + (Body(t) + after)
    ensures Master(v) == Read(Opened(v, t, after), Ok, |Body(t)|)
  {
    hide Pow2, SizeFixed, Header, Body;
    ValidIdIsNotZero(t.id);
    HeaderReads(v, |Body(t)|, t.width, Body(t) + after);
  }

  /** A master is read by a loop of its own, which pushes and pops its level. */
  lemma {:induction false} NodeReads(v: View, t: Tree, isMaster: nat -> bool, after: seq<Byte>, nextId: nat, more: seq<Byte>)
    requires t.Node? && WellFormed(t, isMaster) && |v.levels| + Depth(t) <= EBML_MAX_DEPTH
    requires v.peek == t.id && v.up == 0 && v.rest == SizeFixed(|Body(t)|, t.width) + (Body(t) + after)
    requires Nested(v.levels)
    requires v.levels != [] ==> var l := v.levels[|v.levels| - 1]; l.start <= v.pos && v.pos + t.width + |Body(t)| <= l.End()
    requires Follows(v.levels, v.pos + t.width + |Body(t)|, after, nextId, more)
    ensures var r, end := ParseElement(v, t.id, isMaster), v.pos + t.width + |Body(t)|;
            && r.found == [Meaning(t)]
            && if after == [] then r.status == Eof else
               r.status == Ok && r.view == Peeked(v, nextId, more, end)
    decreases t
  {
    hide IdBytes, ValidId, IdSize, Pow2, SizeFixed, PopLevels, Parse, Master, Nested;
    var m := Opened(v, t, after);
    var l := m.levels[|v.levels|];
    MasterReads(v, t, isMaster, after);
    PushKeepsNested(v.levels, l);
    PopOne(v.levels, l, l.End());
    assert Follows(m.levels, l.End(), after, nextId, more);
    ParseReadsDocument(m, l.start, t.kids, isMaster, after, nextId, more);
  }

  /** An element read whole leaves the masters alone, so the rest of the loop decides how it ends. */
  lemma ThenTheRest(e: Parsed, w: View, ts: seq<Tree>, isMaster: nat -> bool,
                    end: nat, tail: seq<Byte>, nextId: nat, more: seq<Byte>)
    requires ts != [] && e.status == Ok && e.found == [Meaning(ts[0])]
    requires e.view.up == w.up == 0 && e.view.levels == w.levels && e.view.eof == w.eof
    requires var r := Parse(e.view, isMaster); r.found == Meanings(ts[1..]) && EndsWell(r, e.view, end, tail, nextId, more)
    ensures var r := GoOn(e, isMaster); r.found == Meanings(ts) && EndsWell(r, w, end, tail, nextId, more)
  {
    hide Parse, PopLevels, IdSize, Meaning;
  }

  /** Before the size of the first element, inside a master that ends with the document. */
  ghost predicate Here(w: View, p: nat, ts: seq<Tree>, isMaster: nat -> bool, tail: seq<Byte>, nextId: nat, more: seq<Byte>) {
    && ts != [] && w.rest == AfterId(ts, tail) && w.peek == ts[0].id && w.pos == p + IdSize(ts[0].id) && w.up == 0
    && AllWellFormed(ts, isMaster) && |w.levels| + DepthAll(ts) <= EBML_MAX_DEPTH
    && w.levels != [] && Nested(w.levels) && w.levels[|w.levels| - 1].start <= p
    && w.levels[|w.levels| - 1].End() == p + |Document(ts)|
    && Follows(w.levels, p + |Document(ts)|, tail, nextId, more)
  }

  lemma Lengths(p: nat, ts: seq<Tree>)
    requires ts != []
    ensures var t, rest := ts[0], ts[1..];
            && p + |Bytes(t)| == p + IdSize(t.id) + t.width + |Body(t)|
            && p + |Bytes(t)| + |Document(rest)| == p + |Document(ts)|
            && Depth(t) <= DepthAll(ts) && DepthAll(rest) <= DepthAll(ts)
  {
    hide IdSize, SizeFixed, Body;
  }

  lemma {:induction false} ReadLeaf(w: View, p: nat, ts: seq<Tree>, isMaster: nat -> bool, tail: seq<Byte>, nextId: nat, more: seq<Byte>)
    requires Here(w, p, ts, isMaster, tail, nextId, more) && ts[0].Leaf?
    ensures var r := GoOn(ParseElement(w, ts[0].id, isMaster), isMaster);
            r.found == Meanings(ts) && EndsWell(r, w, p + |Document(ts)|, tail, nextId, more)
    decreases ts, 0
  {
    hide Pow2, IdBytes, SizeFixed, ValidId, IdSize, Body, Bytes, Document, PopLevels, ParseElement, Parse, GoOn, Nested,
      Meaning, Meanings, EndsWell, DepthAll, Follows;
    var t, rest := ts[0], ts[1..];
    Lengths(p, ts);
    LeafReads(w, t, Document(rest) + tail, isMaster);
    var e := ParseElement(w, t.id, isMaster);
    ParseReadsDocument(e.view, p + |Bytes(t)|, rest, isMaster, tail, nextId, more);
    ThenTheRest(e, w, ts, isMaster, p + |Document(ts)|, tail, nextId, more);
  }

  lemma {:induction false} ReadLastNode(w: View, p: nat, ts: seq<Tree>, isMaster: nat -> bool, tail: seq<Byte>, nextId: nat, more: seq<Byte>)
    requires Here(w, p, ts, isMaster, tail, nextId, more) && ts[0].Node? && |ts| == 1
    ensures var r := GoOn(ParseElement(w, ts[0].id, isMaster), isMaster);
            r.found == Meanings(ts) && EndsWell(r, w, p + |Document(ts)|, tail, nextId, more)
    decreases ts, 0
  {
    hide Pow2, IdBytes, SizeFixed, ValidId, IdSize, Body, Bytes, PopLevels, ParseElement, Parse, GoOn, Nested,
      Meaning, Meanings, EndsWell, DepthAll, Follows;
    var t, rest := ts[0], ts[1..];
    Lengths(p, ts);
    assert Document(rest) == [] && Document(rest) + tail == tail;
    NodeReads(w, t, isMaster, tail, nextId, more);
    LastNode(ParseElement(w, t.id, isMaster), w, ts, isMaster, p + |Document(ts)|, tail, nextId, more);
  }

  lemma {:induction false} ReadNode(w: View, p: nat, ts: seq<Tree>, isMaster: nat -> bool, tail: seq<Byte>, nextId: nat, more: seq<Byte>)
    requires Here(w, p, ts, isMaster, tail, nextId, more) && ts[0].Node? && |ts| > 1
    ensures var r := GoOn(ParseElement(w, ts[0].id, isMaster), isMaster);
            r.found == Meanings(ts) && EndsWell(r, w, p + |Document(ts)|, tail, nextId, more)
    decreases ts, 0
  {
    hide Pow2, IdBytes, SizeFixed, ValidId, IdSize, Body, Bytes, Document, AfterId, PopLevels, ParseElement, Parse, GoOn, Nested,
      Meaning, Meanings, EndsWell, DepthAll, Follows;
    var t, rest := ts[0], ts[1..];
    var p' := p + |Bytes(t)|;
    Lengths(p, ts);
    assert w.rest == SizeFixed(|Body(t)|, t.width) + (Body(t) + (Document(rest) + tail)) by { AfterIdIs(ts, tail); }
    FirstId(w.levels, p', rest, isMaster, tail);
    NodeReads(w, t, isMaster, Document(rest) + tail, rest[0].id, AfterId(rest, tail));
    NotEmpty(rest, tail);
    ValidIdIsNotZero(rest[0].id);
    var e := ParseElement(w, t.id, isMaster);
    ParseReadsDocument(e.view, p', rest, isMaster, tail, nextId, more);
    ThenTheRest(e, w, ts, isMaster, p + |Document(ts)|, tail, nextId, more);
  }

  lemma AfterIdIs(ts: seq<Tree>, tail: seq<Byte>)
    requires ts != []
    ensures AfterId(ts, tail) == SizeFixed(|Body(ts[0])|, ts[0].width) + (Body(ts[0]) + (Document(ts[1..]) + tail))
  {}

  lemma NotEmpty(ts: seq<Tree>, tail: seq<Byte>)
    requires ts != []
    ensures Document(ts) + tail != []
  {
    assert Bytes(ts[0]) != [];
  }

  /** The last element of a master is a master: its end is the end of this loop too. */
  lemma LastNode(e: Parsed, w: View, ts: seq<Tree>, isMaster: nat -> bool,
                 end: nat, tail: seq<Byte>, nextId: nat, more: seq<Byte>)
    requires |ts| == 1 && e.found == [Meaning(ts[0])]
    requires w.levels != [] && w.levels[|w.levels| - 1].End() == end
    requires if tail == [] then e.status == Eof else e.status == Ok && e.view == Peeked(w, nextId, more, end)
    ensures var r := GoOn(e, isMaster); r.found == Meanings(ts) && EndsWell(r, w, end, tail, nextId, more)
  {
    hide Parse, IdSize, Meaning, PopLevels;
    TopCloses(w.levels, end);
    assert Meanings(ts[1..]) == [];
  }

  lemma TopCloses(levels: seq<Level>, p: nat)
    requires levels != [] && levels[|levels| - 1].End() <= p
    ensures |PopLevels(levels, p)| < |levels|
  {}

  /**
    Every loop ends exactly where its master ends: the elements found are those of the document,
    the masters that end there are closed, and one of them is taken off the pending count.
    */
  lemma {:induction false} ParseReadsDocument(v: View, p: nat, ts: seq<Tree>, isMaster: nat -> bool,
                           tail: seq<Byte>, nextId: nat, more: seq<Byte>)
    requires At(v, Document(ts) + tail, p) && v.up == 0 && (v.peek != 0 ==> ts != [])
    requires AllWellFormed(ts, isMaster) && |v.levels| + DepthAll(ts) <= EBML_MAX_DEPTH
    requires v.levels != [] && Nested(v.levels) && v.levels[|v.levels| - 1].start <= p
    requires v.levels[|v.levels| - 1].End() == p + |Document(ts)|
    requires Follows(v.levels, p + |Document(ts)|, tail, nextId, more)
    ensures var r := Parse(v, isMaster);
            r.found == Meanings(ts) && EndsWell(r, v, p + |Document(ts)|, tail, nextId, more)
    decreases ts, 1
  {
    hide IdBytes, ValidId, IdSize, Pow2, SizeFixed, PopLevels, ElementId, ParseElement, Parse, Nested, NoneEndsWithin;
    if ts == [] {
      assert Document(ts) + tail == tail;
      NothingMore(v, isMaster, tail, nextId, more);
    } else {
      var t := ts[0];
      FirstId(v.levels, p, ts, isMaster, tail);
      EnterElement(v, t.id, AfterId(ts, tail), p);
      var w := v.(rest := AfterId(ts, tail), pos := p + IdSize(t.id), peek := t.id);
      OneTurn(v, isMaster);
      assert Here(w, p, ts, isMaster, tail, nextId, more);
      if t.Leaf? {
        ReadLeaf(w, p, ts, isMaster, tail, nextId, more);
      } else if |ts| == 1 {
        ReadLastNode(w, p, ts, isMaster, tail, nextId, more);
      } else {
        ReadNode(w, p, ts, isMaster, tail, nextId, more);
      }
    }
  }
}
