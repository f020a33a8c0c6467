/**
  Files of a UDF image while they are written (tsMuxer/iso_writer.cpp): full sectors go to the
  image, the rest waits in a sector buffer, and extents record where each file's bytes are.
  */
module IsoExtents {
  import opened Bits

  const SECTOR_SIZE: nat := 2048
  const MAX_EXTENT_SIZE: nat := 0x4000_0000

  /** A run of sectors, counted from the start of the partition, and the bytes in it. */
  datatype Extent = Extent(lbn: nat, size: nat) {
    function Start(): nat { lbn * SECTOR_SIZE }
    function End(): nat { lbn * SECTOR_SIZE + size }
    /** The first sector behind the extent. */
    function UpTo(): nat { lbn + (size + SECTOR_SIZE - 1) / SECTOR_SIZE }
  }

  /** The image from the start of the partition, its write position, and whose turn it was last. */
  datatype Owner = Owner(image: seq<Byte>, pos: nat, lastId: int)

  datatype FileState = FileState(extents: seq<Extent>, size: nat, buf: seq<Byte>)

  const EMPTY := FileState([], 0, [])

  // ------------------------------------------------------------------ one file

  /** Writing into a seekable file: overwriting, appending, or leaving a gap of zeros. */
  function PutAt(image: seq<Byte>, pos: nat, data: seq<Byte>): seq<Byte> {
    var base := if pos <= |image| then image else image + seq(pos - |image|, _ => 0);
    base[..pos] + data + if pos + |data| <= |base| then base[pos + |data|..] else []
  }

  /** Byte by byte: what was written, around it what was there, and zeros in a gap. */
  lemma PutAtBytes(image: seq<Byte>, pos: nat, data: seq<Byte>)
    ensures var r := PutAt(image, pos, data);
            && |r| == (if pos + |data| > |image| then pos + |data| else |image|)
            && forall i :: 0 <= i < |r| ==>
                 r[i] == if pos <= i < pos + |data| then data[i - pos] else if i < |image| then image[i] else 0
  {}

  function RawWrite(o: Owner, data: seq<Byte>): Owner {
    o.(image := PutAt(o.image, o.pos, data), pos := o.pos + |data|)
  }

  /** The sector that is written next. */
  function SectorNum(o: Owner): nat { o.pos / SECTOR_SIZE }

  /** The extent list once `len` more bytes are announced. */
  function Announce(o: Owner, f: FileState, id: int, len: nat): seq<Extent>
    requires o.lastId == id ==> f.extents != []
  {
    var n := |f.extents|;
    if o.lastId == id && f.extents[n - 1].size + len < MAX_EXTENT_SIZE then
      f.extents[n - 1 := f.extents[n - 1].(size := f.extents[n - 1].size + len)]
    else f.extents + [Extent(SectorNum(o), len)]
  }

  /** The part of the data that fills sectors goes to the image, the rest into the empty buffer. */
  function WriteWhole(o: Owner, data: seq<Byte>): (Owner, seq<Byte>) {
    var whole := |data| - |data| % SECTOR_SIZE;
    (if whole > 0 then RawWrite(o, data[..whole]) else o, data[whole..])
  }

  /** What happens to the data itself: first the buffer is filled up. */
  function WriteData(o: Owner, buf: seq<Byte>, data: seq<Byte>): (Owner, seq<Byte>)
    requires |buf| < SECTOR_SIZE
  {
    var toCopy := if SECTOR_SIZE - |buf| < |data| then SECTOR_SIZE - |buf| else |data|;
    if buf == [] then WriteWhole(o, data)
    else if |buf| + toCopy == SECTOR_SIZE then WriteWhole(RawWrite(o, buf + data[..toCopy]), data[toCopy..])
    else (o, buf + data[..toCopy])
  }

  /** FileEntryInfo::write. */
  function WriteFile(o: Owner, f: FileState, id: int, data: seq<Byte>): (Owner, FileState)
    requires |f.buf| < SECTOR_SIZE && (o.lastId == id ==> f.extents != [])
  {
    var w := WriteData(o.(lastId := id), f.buf, data);
    (w.0, FileState(Announce(o, f, id, |data|), f.size + |data|, w.1))
  }

  /** FileEntryInfo::close: the rest of the buffer is padded and written where the file size says. */
  function CloseFile(o: Owner, f: FileState): (Owner, FileState)
    requires |f.buf| < SECTOR_SIZE && (f.buf != [] ==> f.extents != [])
  {
    if f.buf == [] then (o, f)
    else
      var lbn := f.extents[|f.extents| - 1].lbn + f.size / SECTOR_SIZE;
      (RawWrite(o.(pos := lbn * SECTOR_SIZE), f.buf + seq(SECTOR_SIZE - |f.buf|, _ => 0)), f.(buf := []))
  }

  // ------------------------------------------------------------------ the data alone

  /** The writer stands at the end of an image of whole sectors. */
  predicate AtEnd(o: Owner) { o.pos == |o.image| && |o.image| % SECTOR_SIZE == 0 }

  lemma RawWriteAppends(o: Owner, data: seq<Byte>)
    requires AtEnd(o)
    ensures RawWrite(o, data) == o.(image := o.image + data, pos := o.pos + |data|)
  {}

  lemma WriteWholeAppends(o: Owner, data: seq<Byte>)
    requires AtEnd(o)
    ensures var w := WriteWhole(o, data);
            AtEnd(w.0) && w.0.lastId == o.lastId && |w.1| < SECTOR_SIZE && w.0.image + w.1 == o.image + data
  {
    var whole := |data| - |data| % SECTOR_SIZE;
    assert whole % SECTOR_SIZE == 0;
    RawWriteAppends(o, data[..whole]);
    assert data[..whole] + data[whole..] == data;
    if whole == 0 {
      assert data[whole..] == data;
    }
  }

  /** Image and buffer together only ever grow by the data. */
  lemma WriteDataAppends(o: Owner, buf: seq<Byte>, data: seq<Byte>)
    requires AtEnd(o) && |buf| < SECTOR_SIZE
    ensures var w := WriteData(o, buf, data);
            AtEnd(w.0) && w.0.lastId == o.lastId && |w.1| < SECTOR_SIZE && w.0.image + w.1 == o.image + buf + data
  {
    hide RawWrite, WriteWhole;
    var toCopy := if SECTOR_SIZE - |buf| < |data| then SECTOR_SIZE - |buf| else |data|;
    if buf == [] {
      WriteWholeAppends(o, data);
      assert o.image + buf == o.image;
    } else if |buf| + toCopy == SECTOR_SIZE {
      var sector := buf + data[..toCopy];
      RawWriteAppends(o, sector);
      var o' := RawWrite(o, sector);
      WriteWholeAppends(o', data[toCopy..]);
      assert o.image + sector + data[toCopy..] == o.image + buf + data;
    } else {
      assert data[..toCopy] == data;
      assert o.image + (buf + data) == o.image + buf + data;
    }
  }

  /** Closing pads to the sector boundary, provided it seeks to where the writer already is. */
  lemma ClosePads(o: Owner, f: FileState)
    requires AtEnd(o) && 0 < |f.buf| < SECTOR_SIZE && f.extents != []
    requires (f.extents[|f.extents| - 1].lbn + f.size / SECTOR_SIZE) * SECTOR_SIZE == |o.image|
    ensures var c := CloseFile(o, f);
            && AtEnd(c.0) && c.0.lastId == o.lastId && c.1 == f.(buf := [])
            && c.0.image == o.image + f.buf + seq(SECTOR_SIZE - |f.buf|, _ => 0)
  {
    var sector := f.buf + seq(SECTOR_SIZE - |f.buf|, _ => 0);
    RawWriteAppends(o, sector);
    assert o.image + sector == o.image + f.buf + seq(SECTOR_SIZE - |f.buf|, _ => 0);
  }

  // ------------------------------------------------------------------ reading extents

  function ReadOne(image: seq<Byte>, e: Extent): (r: seq<Byte>)
    requires e.End() <= |image|
    ensures |r| == e.size
  {
    image[e.Start()..e.End()]
  }

  predicate Within(image: seq<Byte>, es: seq<Extent>) {
    forall i :: 0 <= i < |es| ==> es[i].End() <= |image|
  }

  /** The bytes an extent list stands for. */
  function ReadBack(image: seq<Byte>, es: seq<Extent>): seq<Byte>
    requires Within(image, es)
  {
    if es == [] then [] else ReadBack(image, es[..|es| - 1]) + ReadOne(image, es[|es| - 1])
  }

  function Total(es: seq<Extent>): nat {
    if es == [] then 0 else Total(es[..|es| - 1]) + es[|es| - 1].size
  }

  lemma {:induction false} ReadBackGrows(image: seq<Byte>, more: seq<Byte>, es: seq<Extent>)
    requires Within(image, es)
    ensures Within(image + more, es) && ReadBack(image + more, es) == ReadBack(image, es)
  {
    if es != [] {
      var e := es[|es| - 1];
      ReadBackGrows(image, more, es[..|es| - 1]);
      assert (image + more)[e.Start()..e.End()] == image[e.Start()..e.End()];
    }
  }

  lemma ReadBackOneMore(image: seq<Byte>, es: seq<Extent>, e: Extent)
    requires Within(image, es) && e.End() <= |image|
    ensures Within(image, es + [e]) && ReadBack(image, es + [e]) == ReadBack(image, es) + ReadOne(image, e)
    ensures Total(es + [e]) == Total(es) + e.size
  {
    assert (es + [e])[..|es|] == es;
  }

  /** A new extent at the end of the bytes holds what is appended. */
  lemma {:induction false} NewExtentReads(v: seq<Byte>, es: seq<Extent>, data: seq<Byte>)
    requires Within(v, es) && |v| % SECTOR_SIZE == 0
    ensures var e := Extent(|v| / SECTOR_SIZE, |data|);
            && Within(v + data, es + [e]) && ReadBack(v + data, es + [e]) == ReadBack(v, es) + data
            && Total(es + [e]) == Total(es) + |data|
  {
    hide ReadBack, Total;
    var e := Extent(|v| / SECTOR_SIZE, |data|);
    assert e.Start() == |v|;
    ReadBackGrows(v, data, es);
    ReadBackOneMore(v + data, es, e);
    assert (v + data)[|v|..|v| + |data|] == data;
  }

  /** The last extent, when it ends with the bytes, grows with them. */
  lemma GrownExtentReads(v: seq<Byte>, es: seq<Extent>, data: seq<Byte>)
    requires es != [] && Within(v, es) && es[|es| - 1].End() == |v|
    ensures var n, e := |es| - 1, es[|es| - 1];
            var grown := es[n := e.(size := e.size + |data|)];
            && Within(v + data, grown) && ReadBack(v + data, grown) == ReadBack(v, es) + data
            && Total(grown) == Total(es) + |data|
  {
    var n, e := |es| - 1, es[|es| - 1];
    var e' := e.(size := e.size + |data|);
    var init := es[..n];
    assert es == init + [e] && es[n := e'] == init + [e'];
    ReadBackGrows(v, data, init);
    ReadBackOneMore(v, init, e);
    ReadBackOneMore(v + data, init, e');
    assert (v + data)[e'.Start()..e'.End()] == v[e.Start()..e.End()] + data;
  }

  // ------------------------------------------------------------------ many files

  datatype Disk = Disk(o: Owner, files: map<int, FileState>)

  datatype Op = OpWrite(id: int, data: seq<Byte>) | OpClose(id: int)

  function FileOf(d: Disk, id: int): FileState { if id in d.files then d.files[id] else EMPTY }

  /** What every disk built by these operations satisfies, allowed or not. */
  predicate Sane(d: Disk) {
    && (forall id :: id in d.files ==> |d.files[id].buf| < SECTOR_SIZE && (d.files[id].buf != [] ==> d.files[id].extents != []))
    && (d.o.lastId in d.files ==> d.files[d.o.lastId].extents != [])
    && (d.o.lastId !in d.files ==> d.o.lastId < 0)
  }

  /** Object identifiers are not negative; the one remembered before the first write is. */
  function Step(d: Disk, op: Op): (r: Disk)
    requires Sane(d) && op.id >= 0
    ensures Sane(r)
  {
    var f := FileOf(d, op.id);
    var w := match op
             case OpWrite(id, data) => WriteFile(d.o, f, id, data)
             case OpClose(id) => CloseFile(d.o, f);
    Disk(w.0, d.files[op.id := w.1])
  }

  /** Image and what still waits in the buffer of the file written last. */
  function Pending(d: Disk): seq<Byte> { FileOf(d, d.o.lastId).buf }

  function Virtual(d: Disk): seq<Byte> { d.o.image + Pending(d) }

  function Last(f: FileState): Extent
    requires f.extents != []
  {
    f.extents[|f.extents| - 1]
  }

  /**
    What the callers have to see to: a file is switched only on a sector boundary, writing goes on
    only where the file's last extent ends, the source's own assertion holds when an extent is full,
    and a partial sector is closed only while one extent holds the whole file.
    */
  predicate Allowed(d: Disk, op: Op) {
    && op.id >= 0
    && var f := FileOf(d, op.id);
       match op
       case OpWrite(id, data) =>
         && |data| < MAX_EXTENT_SIZE
         && if d.o.lastId != id then Pending(d) == []
            else f.extents != [] && Last(f).End() == |Virtual(d)|
                 && (Last(f).size + |data| >= MAX_EXTENT_SIZE ==> Last(f).size % SECTOR_SIZE == 0)
       case OpClose(id) =>
         f.buf == [] || (f.extents != [] && f.size / SECTOR_SIZE == Last(f).size / SECTOR_SIZE)
  }

  /** The bytes written to a file so far. */
  function Contents(ops: seq<Op>, id: int): seq<Byte> {
    if ops == [] then []
    else
      var op := ops[|ops| - 1];
      Contents(ops[..|ops| - 1], id) + if op.OpWrite? && op.id == id then op.data else []
  }

  const START := Disk(Owner([], 0, -1), map[])

  function Run(ops: seq<Op>): (d: Disk)
    requires forall k :: 0 <= k < |ops| ==> ops[k].id >= 0
    ensures Sane(d)
  {
    if ops == [] then START else Step(Run(ops[..|ops| - 1]), ops[|ops| - 1])
  }

  /** Every operation of the run was allowed when it came. */
  predicate AllAllowed(ops: seq<Op>)
    ensures AllAllowed(ops) ==> forall k :: 0 <= k < |ops| ==> ops[k].id >= 0
  {
    ops == [] || (AllAllowed(ops[..|ops| - 1]) && Allowed(Run(ops[..|ops| - 1]), ops[|ops| - 1]))
  }

  // ------------------------------------------------------------------ the invariant

  function Sectors(n: nat): nat { (n + SECTOR_SIZE - 1) / SECTOR_SIZE }

  /** One file, `content` having been written to it. */
  predicate FileInv(v: seq<Byte>, f: FileState, isLast: bool, content: seq<Byte>) {
    && Within(v, f.extents) && ReadBack(v, f.extents) == content && Total(f.extents) == f.size == |content|
    && (forall i :: 0 <= i < |f.extents| ==> f.extents[i].size < MAX_EXTENT_SIZE)
    && (!isLast ==> f.buf == [])
    && (f.buf != [] ==> f.extents != [] && Last(f).End() == |v|)
  }

  /** The place of an extent: its file and its number there. */
  predicate At(d: Disk, a: (int, nat)) { a.0 in d.files && a.1 < |d.files[a.0].extents| }

  function ExtentAt(d: Disk, a: (int, nat)): Extent
    requires At(d, a)
  {
    d.files[a.0].extents[a.1]
  }

  predicate Apart(x: Extent, y: Extent) { x.UpTo() <= y.lbn || y.UpTo() <= x.lbn }

  ghost predicate AllApart(d: Disk) {
    forall a, b :: At(d, a) && At(d, b) && a != b ==> Apart(ExtentAt(d, a), ExtentAt(d, b))
  }

  /** The place of the extent written last. */
  function Top(d: Disk): (int, int) { (d.o.lastId, |FileOf(d, d.o.lastId).extents| - 1) }

  /** No extent reaches past the end, and none past the start of the one written last. */
  ghost predicate Stacked(d: Disk)
    requires Sane(d)
  {
    && (forall a :: At(d, a) ==> ExtentAt(d, a).UpTo() <= Sectors(|Virtual(d)|))
    && forall a :: At(d, a) && a != Top(d) && d.o.lastId in d.files ==> ExtentAt(d, a).UpTo() <= Last(d.files[d.o.lastId]).lbn
  }

  ghost predicate Inv(d: Disk, ops: seq<Op>) {
    && Sane(d) && AtEnd(d.o)
    && (forall id :: FileInv(Virtual(d), FileOf(d, id), id == d.o.lastId, Contents(ops, id)))
    && AllApart(d) && Stacked(d)
  }

  lemma ContentsOneMore(ops: seq<Op>, op: Op, id: int)
    ensures Contents(ops + [op], id) == Contents(ops, id) + if op.OpWrite? && op.id == id then op.data else []
  {
    assert (ops + [op])[..|ops|] == ops;
  }

  /** The file being written: its buffer, if any, is the one that is pending. */
  lemma OwnBuffer(d: Disk, ops: seq<Op>, id: int)
    requires Inv(d, ops) && (d.o.lastId != id ==> Pending(d) == [])
    ensures FileOf(d, id).buf == Pending(d)
  {
    hide Sane, AllApart, Stacked, ReadBack, Total, Within, Contents;
    assert FileInv(Virtual(d), FileOf(d, id), id == d.o.lastId, Contents(ops, id));
  }

  /** A file that is not touched only sees the bytes grow behind its extents. */
  lemma OtherFileKeeps(v: seq<Byte>, more: seq<Byte>, f: FileState, wasLast: bool, content: seq<Byte>)
    requires FileInv(v, f, wasLast, content) && f.buf == []
    ensures FileInv(v + more, f, false, content)
  {
    hide ReadBack, Total;
    ReadBackGrows(v, more, f.extents);
  }

  /** When a new extent is begun, nothing is pending. */
  lemma NewExtentAligned(d: Disk, ops: seq<Op>, op: Op)
    requires Inv(d, ops) && op.OpWrite? && Allowed(d, op)
    requires var f := FileOf(d, op.id);
             !(d.o.lastId == op.id && Last(f).size + |op.data| < MAX_EXTENT_SIZE)
    ensures Pending(d) == [] && Virtual(d) == d.o.image
    ensures |Virtual(d)| % SECTOR_SIZE == 0 && SectorNum(d.o) == |Virtual(d)| / SECTOR_SIZE
  {
    hide AllApart, Stacked, FileInv, Contents;
    var b := Pending(d);
    assert |b| < SECTOR_SIZE;
    if d.o.lastId == op.id {
      var l := Last(FileOf(d, op.id));
      assert (l.lbn * SECTOR_SIZE + l.size) % SECTOR_SIZE == 0;
      assert (|d.o.image| + |b|) % SECTOR_SIZE == |b|;
    }
    assert d.o.image + [] == d.o.image;
  }

  /** The file that is written: its extents read back as its old content and the new data. */
  lemma WrittenFileKeeps(d: Disk, ops: seq<Op>, op: Op)
    requires Inv(d, ops) && op.OpWrite? && Allowed(d, op)
    ensures var f := FileOf(d, op.id);
            var es, v := Announce(d.o, f, op.id, |op.data|), Virtual(d) + op.data;
            && Within(v, es) && ReadBack(v, es) == Contents(ops, op.id) + op.data && Total(es) == f.size + |op.data|
            && es != [] && es[|es| - 1].End() == |v| && forall i :: 0 <= i < |es| ==> es[i].size < MAX_EXTENT_SIZE
  {
    hide AllApart, Stacked, ReadBack, Total, Contents, AtEnd;
    var f := FileOf(d, op.id);
    assert FileInv(Virtual(d), f, op.id == d.o.lastId, Contents(ops, op.id));
    if d.o.lastId == op.id && Last(f).size + |op.data| < MAX_EXTENT_SIZE {
      GrownExtentReads(Virtual(d), f.extents, op.data);
    } else {
      NewExtentAligned(d, ops, op);
      NewExtentReads(Virtual(d), f.extents, op.data);
    }
  }

  /** After a write, image and buffer hold the data behind what they held. */
  lemma {:induction false} WriteGrows(d: Disk, ops: seq<Op>, op: Op)
    requires Inv(d, ops) && op.OpWrite? && Allowed(d, op)
    ensures var d' := Step(d, op);
            && Virtual(d') == Virtual(d) + op.data && AtEnd(d'.o) && d'.o.lastId == op.id
            && FileOf(d', op.id).extents == Announce(d.o, FileOf(d, op.id), op.id, |op.data|)
            && FileOf(d', op.id).size == FileOf(d, op.id).size + |op.data|
            && forall id :: id != op.id ==> FileOf(d', id) == FileOf(d, id)
  {
    hide AllApart, Stacked, FileInv, WriteData, Announce, Contents;
    OwnBuffer(d, ops, op.id);
    var o := d.o.(lastId := op.id);
    WriteDataAppends(o, FileOf(d, op.id).buf, op.data);
  }

  lemma WriteKeepsFiles(d: Disk, ops: seq<Op>, op: Op)
    requires Inv(d, ops) && op.OpWrite? && Allowed(d, op)
    ensures var d' := Step(d, op);
            forall id :: FileInv(Virtual(d'), FileOf(d', id), id == d'.o.lastId, Contents(ops + [op], id))
  {
    hide AllApart, Stacked, ReadBack, Total, Within, Announce, Step, Contents, Virtual, AtEnd;
    var d' := Step(d, op);
    WriteGrows(d, ops, op);
    WrittenFileKeeps(d, ops, op);
    forall id
      ensures FileInv(Virtual(d'), FileOf(d', id), id == d'.o.lastId, Contents(ops + [op], id))
    {
      ContentsOneMore(ops, op, id);
      assert FileInv(Virtual(d), FileOf(d, id), id == d.o.lastId, Contents(ops, id));
      if id != op.id {
        assert Contents(ops, id) + [] == Contents(ops, id);
        OtherFileKeeps(Virtual(d), op.data, FileOf(d, id), id == d.o.lastId, Contents(ops, id));
      } else {
      }
    }
  }

  lemma UpToIsEnd(e: Extent)
    ensures e.UpTo() == Sectors(e.End()) && e.lbn <= e.UpTo()
  {
    assert (e.lbn * SECTOR_SIZE + (e.size + SECTOR_SIZE - 1)) / SECTOR_SIZE == e.lbn + (e.size + SECTOR_SIZE - 1) / SECTOR_SIZE;
  }

  /** All places but the top one were there before, and end at or before the top one's start. */
  lemma {:induction false} BelowTheTop(d: Disk, ops: seq<Op>, op: Op, a: (int, nat))
    requires Inv(d, ops) && op.OpWrite? && Allowed(d, op)
    requires At(Step(d, op), a) && a != Top(Step(d, op))
    ensures var d' := Step(d, op);
            && At(d, a) && ExtentAt(d', a) == ExtentAt(d, a)
            && FileOf(d', op.id).extents != [] && ExtentAt(d, a).UpTo() <= Last(FileOf(d', op.id)).lbn
  {
    hide AllApart, FileInv, Step, Contents, Virtual, AtEnd, Within, ReadBack, Total, Pending;
    var d' := Step(d, op);
    WriteGrows(d, ops, op);
    WrittenFileKeeps(d, ops, op);
    assert FileOf(d', a.0) == d'.files[a.0];
    if d.o.lastId == op.id && Last(FileOf(d, op.id)).size + |op.data| < MAX_EXTENT_SIZE {
      assert At(d, a);
    } else {
      NewExtentAligned(d, ops, op);
      assert At(d, a);
    }
  }

  lemma {:induction false} WriteKeepsPlaces(d: Disk, ops: seq<Op>, op: Op)
    requires Inv(d, ops) && op.OpWrite? && Allowed(d, op)
    ensures AllApart(Step(d, op)) && Stacked(Step(d, op))
  {
    hide FileInv, Step, Contents, AtEnd, Within, ReadBack, Total, Apart, Sectors, Stacked, At;
    var d' := Step(d, op);
    WriteGrows(d, ops, op);
    WrittenFileKeeps(d, ops, op);
    var top := Last(FileOf(d', op.id));
    UpToIsEnd(top);
    forall a | At(d', a)
      ensures ExtentAt(d', a).UpTo() <= Sectors(|Virtual(d')|)
      ensures a != Top(d') ==> At(d, a) && ExtentAt(d', a) == ExtentAt(d, a) && ExtentAt(d', a).UpTo() <= top.lbn
    {
      if a != Top(d') {
        BelowTheTop(d, ops, op, a);
      }
    }
    forall a, b | At(d', a) && At(d', b) && a != b
      ensures Apart(ExtentAt(d', a), ExtentAt(d', b))
    {
      OneBelow(ExtentAt(d', a), ExtentAt(d', b));
    }
    StackedIs(d', top);
  }

  lemma OneBelow(x: Extent, y: Extent)
    ensures x.UpTo() <= y.lbn || y.UpTo() <= x.lbn ==> Apart(x, y)
  {}

  lemma StackedIs(d: Disk, top: Extent)
    requires Sane(d) && d.o.lastId in d.files && top == Last(FileOf(d, d.o.lastId))
    requires forall a :: At(d, a) ==> ExtentAt(d, a).UpTo() <= Sectors(|Virtual(d)|)
    requires forall a :: At(d, a) && a != Top(d) ==> ExtentAt(d, a).UpTo() <= top.lbn
    ensures Stacked(d)
  {
    hide At, Sectors;
  }

  // ------------------------------------------------------------------ closing

  /** With bytes waiting, the file is the one written last, and closing seeks right exactly under the stated condition. */
  lemma CloseSeeksRight(d: Disk, ops: seq<Op>, id: int)
    requires Inv(d, ops) && FileOf(d, id).buf != []
    ensures var f := FileOf(d, id);
            && d.o.lastId == id && f.extents != []
            && ((Last(f).lbn + f.size / SECTOR_SIZE) * SECTOR_SIZE == d.o.pos
                <==> f.size / SECTOR_SIZE == Last(f).size / SECTOR_SIZE)
  {
    hide AllApart, Stacked, ReadBack, Total, Within, Contents;
    var f := FileOf(d, id);
    assert FileInv(Virtual(d), f, id == d.o.lastId, Contents(ops, id));
    var l, n, b := Last(f), |d.o.image| / SECTOR_SIZE, |f.buf|;
    assert l.lbn * SECTOR_SIZE + l.size == n * SECTOR_SIZE + b && 0 < b < SECTOR_SIZE;
    assert l.size / SECTOR_SIZE == n - l.lbn;
  }

  /** Two disks with the same extents have them apart and stacked alike. */
  lemma SamePlaces(d: Disk, d': Disk)
    requires Sane(d) && Sane(d') && d'.o.lastId == d.o.lastId && Sectors(|Virtual(d')|) == Sectors(|Virtual(d)|)
    requires forall id :: FileOf(d', id).extents == FileOf(d, id).extents
    requires AllApart(d) && Stacked(d)
    ensures AllApart(d') && Stacked(d')
  {
    hide Sectors, Virtual, Apart;
    forall a | At(d', a)
      ensures At(d, a) && ExtentAt(d', a) == ExtentAt(d, a)
    {
      assert d'.files[a.0] == FileOf(d', a.0);
    }
    var l := d.o.lastId;
    if l in d'.files {
      assert FileOf(d', l) == d'.files[l] && FileOf(d, l).extents != [];
    }
    assert Top(d') == Top(d);
  }

  lemma {:induction false} CloseKeeps(d: Disk, ops: seq<Op>, op: Op)
    requires Inv(d, ops) && op.OpClose? && Allowed(d, op)
    ensures Inv(Step(d, op), ops + [op])
  {
    hide AllApart, Stacked, FileInv, Contents, Step, CloseFile;
    var d' := Step(d, op);
    CloseGrows(d, ops, op);
    var more := ClosePadding(d, op.id);
    forall id
      ensures FileInv(Virtual(d'), FileOf(d', id), id == d'.o.lastId, Contents(ops + [op], id))
    {
      ContentsOneMore(ops, op, id);
      assert Contents(ops, id) + [] == Contents(ops, id);
      assert FileInv(Virtual(d), FileOf(d, id), id == d.o.lastId, Contents(ops, id));
      if FileOf(d, op.id).buf == [] {
        assert Virtual(d') == Virtual(d);
      } else {
        CloseSeeksRight(d, ops, op.id);
        NotLast(Virtual(d), FileOf(d, id), id == d.o.lastId, Contents(ops, id));
        PaddedFileKeeps(Virtual(d), more, FileOf(d, id), id == d.o.lastId, Contents(ops, id));
      }
    }
    SamePlaces(d, d');
  }

  /** The zeros that closing adds. */
  function ClosePadding(d: Disk, id: int): seq<Byte>
    requires Sane(d)
  {
    var b := FileOf(d, id).buf;
    if b == [] then [] else seq(SECTOR_SIZE - |b|, _ => 0)
  }

  lemma {:induction false} CloseGrows(d: Disk, ops: seq<Op>, op: Op)
    requires Inv(d, ops) && op.OpClose? && Allowed(d, op)
    ensures var d' := Step(d, op);
            && Virtual(d') == Virtual(d) + ClosePadding(d, op.id) && AtEnd(d'.o) && d'.o.lastId == d.o.lastId
            && Sectors(|Virtual(d')|) == Sectors(|Virtual(d)|)
            && FileOf(d', op.id) == FileOf(d, op.id).(buf := [])
            && forall id :: id != op.id ==> FileOf(d', id) == FileOf(d, id)
  {
    hide AllApart, Stacked, FileInv, Contents, RawWrite;
    var f := FileOf(d, op.id);
    if f.buf == [] {
      assert Virtual(d) + [] == Virtual(d);
    } else {
      CloseSeeksRight(d, ops, op.id);
      ClosePads(d.o, f);
      var o' := Step(d, op).o;
      assert o'.image + [] == o'.image;
    }
  }

  lemma NotLast(v: seq<Byte>, f: FileState, isLast: bool, content: seq<Byte>)
    requires FileInv(v, f, isLast, content)
    ensures !isLast ==> f.buf == []
  {
    hide ReadBack, Total, Within;
  }

  /** Padding behind the bytes changes no file, once the buffer is emptied. */
  lemma PaddedFileKeeps(v: seq<Byte>, more: seq<Byte>, f: FileState, isLast: bool, content: seq<Byte>)
    requires FileInv(v, f, isLast, content)
    ensures FileInv(v + more, f.(buf := []), isLast, content)
  {
    hide ReadBack, Total;
    ReadBackGrows(v, more, f.extents);
  }

  // ------------------------------------------------------------------ whole runs

  lemma StartInv()
    ensures Inv(START, [])
  {}

  lemma {:induction false} RunKeepsInv(ops: seq<Op>)
    requires AllAllowed(ops)
    ensures Inv(Run(ops), ops)
  {
    hide Inv, Allowed, Step;
    if ops == [] {
      StartInv();
    } else {
      var before, op := ops[..|ops| - 1], ops[|ops| - 1];
      RunKeepsInv(before);
      StepKeepsInv(Run(before), before, op);
      assert before + [op] == ops;
    }
  }

  lemma StepKeepsInv(d: Disk, ops: seq<Op>, op: Op)
    requires Inv(d, ops) && Allowed(d, op)
    ensures Inv(Step(d, op), ops + [op])
  {
    hide AllApart, Stacked, FileInv, Contents, Step, Allowed;
    if op.OpWrite? {
      WriteGrows(d, ops, op);
      WriteKeepsFiles(d, ops, op);
      WriteKeepsPlaces(d, ops, op);
    } else {
      CloseKeeps(d, ops, op);
    }
  }

  /**
    After any allowed run: the extents of all files are pairwise disjoint, of every file they add up
    to its size and stay below the limit, and the image, with the sector still in the buffer, holds in
    them exactly the bytes written to the file.
    */
  lemma {:induction false} ImageHoldsEveryFile(ops: seq<Op>, id: int)
    requires AllAllowed(ops)
    ensures var d := Run(ops);
            var f := FileOf(d, id);
            && AllApart(d) && Total(f.extents) == f.size == |Contents(ops, id)|
            && (forall i :: 0 <= i < |f.extents| ==> f.extents[i].size < MAX_EXTENT_SIZE)
            && Within(Virtual(d), f.extents) && ReadBack(Virtual(d), f.extents) == Contents(ops, id)
            && (Pending(d) == [] ==> Virtual(d) == d.o.image)
  {
    hide AllApart, Stacked, ReadBack, Total, Within, Contents, Run, AllAllowed;
    RunKeepsInv(ops);
    var d := Run(ops);
    assert FileInv(Virtual(d), FileOf(d, id), id == d.o.lastId, Contents(ops, id));
    assert d.o.image + [] == d.o.image;
  }

  // ------------------------------------------------------------------ when closing goes wrong

  /** Only the last extent of a file reaches into the pending bytes, and it starts before them. */
  lemma PendingIsInLast(d: Disk, ops: seq<Op>, id: int)
    requires Inv(d, ops) && FileOf(d, id).buf != []
    ensures var f := FileOf(d, id);
            && f.extents != [] && Last(f).Start() <= |d.o.image| && Last(f).End() == |d.o.image| + |f.buf|
            && Within(d.o.image, f.extents[..|f.extents| - 1])
  {
    hide AllApart, ReadBack, Total, Contents, Sectors, Step;
    CloseSeeksRight(d, ops, id);
    var f := FileOf(d, id);
    assert FileInv(Virtual(d), f, id == d.o.lastId, Contents(ops, id));
    var l, n := Last(f), |f.extents| - 1;
    forall i | 0 <= i < n
      ensures f.extents[i].End() <= |d.o.image|
    {
      assert At(d, (id, i)) && (id, i) != Top(d);
    }
  }

  /** Reading with other bytes where the pending ones belong. */
  lemma OtherTail(image: seq<Byte>, b: seq<Byte>, x: seq<Byte>, es: seq<Extent>)
    requires es != [] && es[|es| - 1].Start() <= |image| && es[|es| - 1].End() == |image| + |b| && |b| <= |x|
    requires Within(image, es[..|es| - 1])
    ensures Within(image + b, es) && Within(image + x, es)
    ensures var r := ReadBack(image + b, es);
            |r| >= |b| && r[|r| - |b|..] == b && ReadBack(image + x, es) == r[..|r| - |b|] + x[..|b|]
  {
    hide *;
    var n := |es| - 1;
    var init, e := es[..n], es[n];
    assert es == init + [e];
    ReadBackGrows(image, b, init);
    ReadBackGrows(image, x, init);
    ReadsOver(image, b, b, e);
    ReadsOver(image, b, x, e);
    ReadBackOneMore(image + b, init, e);
    ReadBackOneMore(image + x, init, e);
    assert b[..|b|] == b;
    SwapTail(ReadBack(image, init), image[e.Start()..], b, x[..|b|]);
  }

  lemma SwapTail(c: seq<Byte>, y: seq<Byte>, b: seq<Byte>, x: seq<Byte>)
    ensures var r := c + (y + b); r[|r| - |b|..] == b && c + (y + x) == r[..|r| - |b|] + x
  {
    assert c + (y + b) == (c + y) + b && c + (y + x) == (c + y) + x;
  }

  lemma ReadsOver(image: seq<Byte>, b: seq<Byte>, x: seq<Byte>, e: Extent)
    requires e.Start() <= |image| && e.End() == |image| + |b| && |b| <= |x|
    ensures e.End() <= |image + x| && ReadOne(image + x, e) == image[e.Start()..] + x[..|b|]
  {}

  /** A close that seeks past the end leaves zeros where the last bytes of the file belong. */
  lemma {:induction false} CloseElsewhere(d: Disk, ops: seq<Op>, id: int)
    requires Inv(d, ops) && FileOf(d, id).buf != []
    requires FileOf(d, id).size / SECTOR_SIZE != Last(FileOf(d, id)).size / SECTOR_SIZE
    ensures var f, c, all := FileOf(d, id), CloseFile(d.o, FileOf(d, id)), Contents(ops, id);
            var n := |f.buf|;
            && n <= |all| && Within(c.0.image, f.extents)
            && ReadBack(c.0.image, f.extents) == all[..|all| - n] + seq(n, _ => 0)
            && all[|all| - n..] == f.buf
  {
    hide AllApart, Stacked, ReadBack, Total, Contents;
    PendingIsInLast(d, ops, id);
    CloseSeeksRight(d, ops, id);
    var f := FileOf(d, id);
    assert FileInv(Virtual(d), f, id == d.o.lastId, Contents(ops, id));
    TotalAtLeastLast(f.extents);
    var image, target := d.o.image, (Last(f).lbn + f.size / SECTOR_SIZE) * SECTOR_SIZE;
    var sector: seq<Byte> := f.buf + seq(SECTOR_SIZE - |f.buf|, _ => 0);
    var x: seq<Byte> := seq(target - |image|, _ => 0) + sector;
    assert PutAt(image, target, sector) == image + x;
    OtherTail(image, f.buf, x, f.extents);
    assert x[..|f.buf|] == seq(|f.buf|, _ => 0);
  }

  lemma TotalAtLeastLast(es: seq<Extent>)
    requires es != []
    ensures Total(es) >= es[|es| - 1].size
  {}

  /** Closing keeps the file's bytes exactly under the stated condition, or if the lost bytes were zero anyway. */
  lemma {:induction false} CloseKeepsBytesExactly(d: Disk, ops: seq<Op>, id: int)
    requires Inv(d, ops) && FileOf(d, id).buf != [] && id >= 0
    ensures var f, c := FileOf(d, id), CloseFile(d.o, FileOf(d, id));
            && Within(c.0.image, f.extents)
            && (ReadBack(c.0.image, f.extents) == Contents(ops, id)
                <==> f.size / SECTOR_SIZE == Last(f).size / SECTOR_SIZE || f.buf == seq(|f.buf|, _ => 0))
  {
    hide AllApart, Stacked, ReadBack, Total, Contents, RawWrite;
    var f, c, all := FileOf(d, id), CloseFile(d.o, FileOf(d, id)), Contents(ops, id);
    var n := |f.buf|;
    CloseSeeksRight(d, ops, id);
    if f.size / SECTOR_SIZE == Last(f).size / SECTOR_SIZE {
      assert FileInv(Virtual(d), f, id == d.o.lastId, all);
      ClosePads(d.o, f);
      ReadBackGrows(Virtual(d), seq(SECTOR_SIZE - n, _ => 0), f.extents);
    } else {
      CloseElsewhere(d, ops, id);
      assert all == all[..|all| - n] + f.buf;
    }
  }

  lemma WholeSector(o: Owner, id: int, f: FileState, data: seq<Byte>)
    requires AtEnd(o) && o.lastId != id && f.buf == [] && |data| == SECTOR_SIZE
    ensures WriteFile(o, f, id, data)
         == (Owner(o.image + data, o.pos + SECTOR_SIZE, id), FileState(f.extents + [Extent(SectorNum(o), SECTOR_SIZE)], f.size + SECTOR_SIZE, []))
  {
    hide RawWrite;
    var whole := |data| - |data| % SECTOR_SIZE;
    assert whole == SECTOR_SIZE && data[..whole] == data && data[whole..] == [];
    RawWriteAppends(o.(lastId := id), data);
  }

  /** Writing two files in turn, a sector each and then less than one. */
  function InTurn(a: seq<Byte>, b: seq<Byte>, c: seq<Byte>): seq<Op> { [OpWrite(0, a), OpWrite(1, b), OpWrite(0, c)] }

  lemma {:induction false} InTurnRuns(a: seq<Byte>, b: seq<Byte>, c: seq<Byte>)
    requires |a| == |b| == SECTOR_SIZE && 0 < |c| < SECTOR_SIZE
    ensures AllAllowed(InTurn(a, b, c)) && Contents(InTurn(a, b, c), 0) == a + c
    ensures var d := Run(InTurn(a, b, c));
            d.o == Owner(a + b, 2 * SECTOR_SIZE, 0)
            && FileOf(d, 0) == FileState([Extent(0, SECTOR_SIZE), Extent(2, |c|)], SECTOR_SIZE + |c|, c)
  {
    hide WriteFile;
    var none: seq<Op> := [];
    var one, two, three := [OpWrite(0, a)], [OpWrite(0, a), OpWrite(1, b)], InTurn(a, b, c);
    assert one[..0] == none && two[..1] == one && three[..2] == two;
    var d0, d1, d2 := Run(none), Run(one), Run(two);
    WholeSector(d0.o, 0, EMPTY, a);
    assert [] + a == a && [] + [Extent(0, SECTOR_SIZE)] == [Extent(0, SECTOR_SIZE)];
    assert d1 == Disk(Owner(a, SECTOR_SIZE, 0), map[0 := FileState([Extent(0, SECTOR_SIZE)], SECTOR_SIZE, [])]);
    WholeSector(d1.o, 1, EMPTY, b);
    assert [] + [Extent(1, SECTOR_SIZE)] == [Extent(1, SECTOR_SIZE)];
    PartSector(d2.o, 0, FileOf(d2, 0), c);
    assert Contents(none, 0) + a == a && a + [] == a;
    assert Contents(one, 0) == a && Contents(two, 0) == a;
    assert Allowed(d0, one[0]) && Allowed(d1, two[1]) && Allowed(d2, three[2]);
    assert AllAllowed(none) && AllAllowed(one) && AllAllowed(two);
  }

  lemma PartSector(o: Owner, id: int, f: FileState, data: seq<Byte>)
    requires AtEnd(o) && o.lastId != id && f.buf == [] && 0 < |data| < SECTOR_SIZE
    ensures WriteFile(o, f, id, data)
         == (o.(lastId := id), FileState(f.extents + [Extent(SectorNum(o), |data|)], f.size + |data|, data))
  {
    assert data[0..] == data;
  }

  /** So closing a file after such a run loses its last bytes, unless they are zeros. */
  lemma {:induction false} LostTail(a: seq<Byte>, b: seq<Byte>, c: seq<Byte>)
    requires |a| == |b| == SECTOR_SIZE && 0 < |c| < SECTOR_SIZE && c != seq(|c|, _ => 0)
    ensures AllAllowed(InTurn(a, b, c))
    ensures var d := Run(InTurn(a, b, c));
            var f, r := FileOf(d, 0), CloseFile(d.o, FileOf(d, 0));
            && Contents(InTurn(a, b, c), 0) == a + c
            && Within(r.0.image, f.extents) && ReadBack(r.0.image, f.extents) == a + seq(|c|, _ => 0) != a + c
  {
    hide AllAllowed, Run, Contents, ReadBack, CloseFile, Inv;
    var ops := InTurn(a, b, c);
    InTurnRuns(a, b, c);
    RunKeepsInv(ops);
    CloseElsewhere(Run(ops), ops, 0);
    assert (a + c)[..SECTOR_SIZE] == a;
    var zeros: seq<Byte> := seq(|c|, _ => 0);
    assert (a + zeros)[SECTOR_SIZE..] == zeros && (a + c)[SECTOR_SIZE..] == c;
  }

  // ------------------------------------------------------------------ interleaved files

  /** FileEntryInfo::addExtent. */
  function AddExtent(es: seq<Extent>, e: Extent): seq<Extent> {
    var n := |es| - 1;
    if es != [] && es[n].lbn + es[n].size / SECTOR_SIZE == e.lbn && es[n].size + e.size < MAX_EXTENT_SIZE then
      es[n := es[n].(size := es[n].size + e.size)]
    else es + [e]
  }

  /** Merging changes neither the bytes nor the bound, for extents of whole sectors. */
  lemma {:induction false} AddExtentReads(image: seq<Byte>, es: seq<Extent>, e: Extent)
    requires Within(image, es) && e.End() <= |image| && (es != [] ==> es[|es| - 1].size % SECTOR_SIZE == 0)
    ensures var r := AddExtent(es, e);
            && Within(image, r) && ReadBack(image, r) == ReadBack(image, es) + ReadOne(image, e) && Total(r) == Total(es) + e.size
            && (e.size < MAX_EXTENT_SIZE && (forall i :: 0 <= i < |es| ==> es[i].size < MAX_EXTENT_SIZE)
                ==> forall i :: 0 <= i < |r| ==> r[i].size < MAX_EXTENT_SIZE)
            && (e.size % SECTOR_SIZE == 0 ==> r[|r| - 1].size % SECTOR_SIZE == 0)
  {
    hide ReadBack, Total, ReadOne, Within;
    var n := |es| - 1;
    if es != [] && es[n].lbn + es[n].size / SECTOR_SIZE == e.lbn && es[n].size + e.size < MAX_EXTENT_SIZE {
      var init, l := es[..n], es[n];
      var merged := l.(size := l.size + e.size);
      assert es == init + [l] && AddExtent(es, e) == init + [merged];
      WithinParts(image, init, l);
      ReadBackOneMore(image, init, l);
      MergedReads(image, l, e);
      ReadBackOneMore(image, init, merged);
      assert ReadBack(image, init) + (ReadOne(image, l) + ReadOne(image, e)) == ReadBack(image, init) + ReadOne(image, l) + ReadOne(image, e);
    } else {
      ReadBackOneMore(image, es, e);
    }
  }

  lemma WithinParts(image: seq<Byte>, init: seq<Extent>, e: Extent)
    requires Within(image, init + [e])
    ensures Within(image, init) && e.End() <= |image|
  {
    assert (init + [e])[|init|] == e;
    assert forall i :: 0 <= i < |init| ==> (init + [e])[i] == init[i];
  }

  lemma MergedReads(image: seq<Byte>, l: Extent, e: Extent)
    requires l.End() <= |image| && e.End() <= |image| && l.size % SECTOR_SIZE == 0 && l.lbn + l.size / SECTOR_SIZE == e.lbn
    ensures var merged := l.(size := l.size + e.size);
            merged.End() <= |image| && ReadOne(image, merged) == ReadOne(image, l) + ReadOne(image, e)
  {
    assert l.End() == e.Start();
  }

  /** createInterleavedFile: extents of the second file before those of the first, pair by pair. */
  function Interleaved(out: seq<Extent>, in1: seq<Extent>, in2: seq<Extent>, n: nat): seq<Extent>
    requires n <= |in1| == |in2|
  {
    if n == 0 then out else AddExtent(AddExtent(Interleaved(out, in1, in2, n - 1), in2[n - 1]), in1[n - 1])
  }

  function Alternating(image: seq<Byte>, in1: seq<Extent>, in2: seq<Extent>, n: nat): seq<Byte>
    requires n <= |in1| == |in2| && Within(image, in1) && Within(image, in2)
  {
    if n == 0 then [] else Alternating(image, in1, in2, n - 1) + ReadOne(image, in2[n - 1]) + ReadOne(image, in1[n - 1])
  }

  predicate WholeSectors(es: seq<Extent>) { forall i :: 0 <= i < |es| ==> es[i].size % SECTOR_SIZE == 0 && es[i].size < MAX_EXTENT_SIZE }

  /** The interleaved file is the two files' pieces in turn, and shares their sectors. */
  lemma {:induction false} InterleavedReads(image: seq<Byte>, in1: seq<Extent>, in2: seq<Extent>, n: nat)
    requires n <= |in1| == |in2| && Within(image, in1) && Within(image, in2) && WholeSectors(in1) && WholeSectors(in2)
    ensures var r := Interleaved([], in1, in2, n);
            && Within(image, r) && ReadBack(image, r) == Alternating(image, in1, in2, n)
            && (r != [] ==> r[|r| - 1].size % SECTOR_SIZE == 0)
            && forall i :: 0 <= i < |r| ==> r[i].size < MAX_EXTENT_SIZE
  {
    hide AddExtent, ReadBack, ReadOne;
    if n == 0 {
      NothingReads(image);
    } else {
      InterleavedReads(image, in1, in2, n - 1);
      var r := Interleaved([], in1, in2, n - 1);
      AddExtentReads(image, r, in2[n - 1]);
      AddExtentReads(image, AddExtent(r, in2[n - 1]), in1[n - 1]);
    }
  }

  lemma NothingReads(image: seq<Byte>)
    ensures ReadBack(image, []) == []
  {}

  // ------------------------------------------------------------------ the objects

  class IsoWriter {
    var image: seq<Byte>
    var pos: nat
    var lastWritedObjectId: int

    ghost function State(): Owner
      reads this
    {
      Owner(image, pos, lastWritedObjectId)
    }

    constructor ()
      ensures State() == START.o
    {
      image, pos, lastWritedObjectId := [], 0, -1;
    }

    /** Writing the file at its position. */
    method WriteRawData(data: seq<Byte>)
      modifies this
      ensures State() == RawWrite(old(State()), data)
    {
      image := PutAt(image, pos, data);
      pos := pos + |data|;
    }

    /** sectorSeek in the main partition. */
    method SectorSeek(lbn: nat)
      modifies this
      ensures State() == old(State()).(pos := lbn * SECTOR_SIZE)
    {
      pos := lbn * SECTOR_SIZE;
    }

    /** absoluteSectorNum, counted from the partition. */
    method AbsoluteSectorNum() returns (n: nat)
      ensures n == SectorNum(State())
    {
      n := pos / SECTOR_SIZE;
    }
  }

  class FileEntryInfo {
    const owner: IsoWriter
    const objectId: nat
    const sectorBuffer: array<Byte>
    var extents: seq<Extent>
    var fileSize: nat
    var sectorBufferSize: nat

    ghost predicate Valid()
      reads this, sectorBuffer
    {
      && sectorBuffer.Length == SECTOR_SIZE && sectorBufferSize < SECTOR_SIZE
      && (sectorBufferSize > 0 ==> extents != [])
    }

    ghost function State(): FileState
      reads this, sectorBuffer
      requires Valid()
    {
      FileState(extents, fileSize, sectorBuffer[..sectorBufferSize])
    }

    constructor (owner: IsoWriter, objectId: nat)
      ensures Valid() && this.owner == owner && this.objectId == objectId && State() == EMPTY && fresh(sectorBuffer)
    {
      this.owner, this.objectId := owner, objectId;
      sectorBuffer := new Byte[SECTOR_SIZE](_ => 0);
      extents, fileSize, sectorBufferSize := [], 0, 0;
    }

    /** memcpy into the sector buffer. */
    method Buffer(data: seq<Byte>)
      requires Valid() && sectorBufferSize + |data| <= SECTOR_SIZE
      modifies sectorBuffer
      ensures sectorBuffer[..sectorBufferSize + |data|] == old(sectorBuffer[..sectorBufferSize]) + data
    {
      var at := sectorBufferSize;
      forall i | 0 <= i < |data| {
        sectorBuffer[at + i] := data[i];
      }
    }

    /** The extent bookkeeping at the start of write. */
    method NoteExtent(len: nat)
      requires owner.lastWritedObjectId == objectId ==> extents != []
      modifies `extents
      ensures extents == Announce(owner.State(), FileState(old(extents), fileSize, []), objectId, len)
    {
      var n := |extents|;
      if owner.lastWritedObjectId != objectId {
        var lbn := owner.AbsoluteSectorNum();
        extents := extents + [Extent(lbn, len)];
      } else if extents[n - 1].size + len < MAX_EXTENT_SIZE {
        extents := extents[n - 1 := extents[n - 1].(size := extents[n - 1].size + len)];
      } else {
        var lbn := owner.AbsoluteSectorNum();
        extents := extents + [Extent(lbn, len)];
      }
    }

    /** The tail of write: whole sectors go out, the rest is buffered. */
    method WriteSectors(data: seq<Byte>)
      requires Valid() && sectorBufferSize == 0 && extents != []
      modifies owner, sectorBuffer, `sectorBufferSize
      ensures Valid()
      ensures var w := WriteWhole(old(owner.State()), data); owner.State() == w.0 && sectorBuffer[..sectorBufferSize] == w.1
    {
      hide PutAt;
      var rest := |data| % SECTOR_SIZE;
      if |data| - rest > 0 {
        owner.WriteRawData(data[..|data| - rest]);
      }
      if rest > 0 {
        Buffer(data[|data| - rest..]);
        sectorBufferSize := rest;
      }
    }

    /** write. */
    method Write(data: seq<Byte>)
      requires Valid() && (owner.lastWritedObjectId == objectId ==> extents != [])
      modifies this, owner, sectorBuffer
      ensures Valid()
      ensures (owner.State(), State()) == WriteFile(old(owner.State()), old(State()), objectId, data)
    {
      hide PutAt, WriteWhole;
      NoteExtent(|data|);
      owner.lastWritedObjectId := objectId;
      fileSize := fileSize + |data|;
      if sectorBufferSize == 0 {
        WriteSectors(data);
        return;
      }
      var toCopy := if SECTOR_SIZE - sectorBufferSize < |data| then SECTOR_SIZE - sectorBufferSize else |data|;
      ghost var waiting := sectorBuffer[..sectorBufferSize];
      Buffer(data[..toCopy]);
      if sectorBufferSize + toCopy == SECTOR_SIZE {
        assert sectorBuffer[..] == sectorBuffer[..SECTOR_SIZE];
        owner.WriteRawData(sectorBuffer[..]);
        sectorBufferSize := 0;
        WriteSectors(data[toCopy..]);
      } else {
        sectorBufferSize := sectorBufferSize + toCopy;
      }
    }

    /** close. */
    method Close()
      requires Valid()
      modifies this, owner, sectorBuffer
      ensures Valid()
      ensures (owner.State(), State()) == CloseFile(old(owner.State()), old(State()))
    {
      hide PutAt;
      if sectorBufferSize > 0 {
        var delta := fileSize / SECTOR_SIZE;
        owner.SectorSeek(extents[|extents| - 1].lbn + delta);
        ghost var waiting := sectorBuffer[..sectorBufferSize];
        var zeros: seq<Byte> := seq(SECTOR_SIZE - sectorBufferSize, _ => 0);
        Buffer(zeros);
        assert sectorBuffer[..] == sectorBuffer[..SECTOR_SIZE] == waiting + zeros;
        owner.WriteRawData(sectorBuffer[..]);
        sectorBufferSize := 0;
      }
    }

    /** addExtent. */
    method AddOne(e: Extent)
      modifies `extents, `fileSize
      ensures extents == AddExtent(old(extents), e) && fileSize == old(fileSize) + e.size
    {
      if extents == [] {
        extents := [e];
      } else {
        var n := |extents| - 1;
        var lastLbn := extents[n].lbn + extents[n].size / SECTOR_SIZE;
        if lastLbn == e.lbn && extents[n].size + e.size < MAX_EXTENT_SIZE {
          extents := extents[n := extents[n].(size := extents[n].size + e.size)];
        } else {
          extents := extents + [e];
        }
      }
      fileSize := fileSize + e.size;
    }

    /** The loop of createInterleavedFile. */
    method Interleave(in1: seq<Extent>, in2: seq<Extent>)
      requires |in1| == |in2|
      modifies `extents, `fileSize
      ensures extents == Interleaved(old(extents), in1, in2, |in1|)
    {
      hide AddExtent;
      var i := 0;
      while i < |in1|
        invariant 0 <= i <= |in1| && extents == Interleaved(old(extents), in1, in2, i)
      {
        AddOne(in2[i]);
        AddOne(in1[i]);
        i := i + 1;
      }
    }
  }
}
