/**
  Allocation descriptors of a file entry and its continuation sectors, as iso_writer.cpp writes
  them, and a reader that follows the continuation links (section 14.14.1.1 of Part 4 of ECMA-167).
  Sectors are seen as 512 little-endian 32-bit words.
  */
module IsoDescriptors {
  import opened IsoExtents

  type Word = x: int | 0 <= x < 0x1_0000_0000

  const WORDS: nat := 512
  const NEXT_EXTENT := 0xC000_0000
  const MAX_EXTENTS_IN_EXTFILE: nat := (SECTOR_SIZE - 216 - 32) / 16
  const MAX_EXTENTS_IN_EXTCONT: nat := (SECTOR_SIZE - 24 - 32) / 16

  /** Where the descriptors start: byte 216 of a file entry, byte 24 of a continuation. */
  const FILE_TABLE: nat := 216 / 4
  const CONT_TABLE: nat := 24 / 4
  /** The word at byte 212: the table's length in a file entry. */
  const LENGTH_WORD: nat := 212 / 4

  // ------------------------------------------------------------------ what is written

  function Zeros(n: nat): seq<Word> { seq(n, _ => 0) }

  function Filled(ws: seq<Word>): (s: seq<Word>)
    requires |ws| <= WORDS
    ensures |s| == WORDS
  {
    ws + Zeros(WORDS - |ws|)
  }

  /** Sizes leave the two type bits free, and locations fit a word. */
  predicate Storable(es: seq<Extent>) {
    forall i :: 0 <= i < |es| ==> es[i].size < MAX_EXTENT_SIZE && es[i].lbn < 0x1_0000_0000
  }

  function LongAD(len: Word, pos: Word, partition: Word, id: Word): seq<Word> { [len, pos, partition, id] }

  /** One descriptor an extent. */
  function Table(es: seq<Extent>): (s: seq<Word>)
    requires Storable(es)
    ensures |s| == 4 * |es|
  {
    if es == [] then [] else Table(es[..|es| - 1]) + LongAD(es[|es| - 1].size, es[|es| - 1].lbn, 0, 0)
  }

  /** The descriptor that says where the next sector of descriptors is. */
  function Link(linked: bool, here: nat): (s: seq<Word>)
    requires here + 1 < 0x1_0000_0000
    ensures |s| == if linked then 4 else 0
  {
    if linked then LongAD(SECTOR_SIZE + NEXT_EXTENT, here + 1, 1, 0) else []
  }

  /** A table with its link takes this many bytes. */
  function TableLength(n: nat, linked: bool): (len: nat)
    ensures len % 16 == 0
  {
    0x10 * n + if linked then 0x10 else 0
  }

  /** The extended file entry; `head` is everything in front of the table's length. */
  function FileSector(head: seq<Word>, es: seq<Extent>, linked: bool, here: nat): (s: seq<Word>)
    requires |head| == LENGTH_WORD && Storable(es) && here + 1 < 0x1_0000_0000
    requires |es| + (if linked then 1 else 0) <= MAX_EXTENTS_IN_EXTFILE + 1
    ensures |s| == WORDS
  {
    Filled(head + [TableLength(|es|, linked)] + Table(es) + Link(linked, here))
  }

  /** Descriptor tag (without checksums), the previous extent's location, the table's length. */
  function ContHead(n: nat, linked: bool, here: Word): (s: seq<Word>)
    requires n <= MAX_EXTENTS_IN_EXTCONT + 1
    ensures |s| == CONT_TABLE
  {
    [258 + 3 * 0x1_0000, 0x1_0000, 0, here, 0, TableLength(n, linked)]
  }

  function Add32(w: Word, n: nat): Word { (w as int + n) % 0x1_0000_0000 }

  /** A continuation; with a link, 0x10 is also added at byte 212, as if this were a file entry. */
  function ContSector(es: seq<Extent>, linked: bool, here: nat): (s: seq<Word>)
    requires Storable(es) && here + 1 < 0x1_0000_0000
    requires |es| + (if linked then 1 else 0) <= MAX_EXTENTS_IN_EXTCONT + 1
    ensures |s| == WORDS
  {
    var plain := Filled(ContHead(|es|, linked, here) + Table(es) + Link(linked, here));
    if linked then plain[LENGTH_WORD := Add32(plain[LENGTH_WORD], 0x10)] else plain
  }

  /** How many extents go into a sector for `cap`: a single one left over is squeezed in. */
  function Take(n: nat, cap: nat): nat { if n <= cap + 1 then n else cap }

  function ContChain(es: seq<Extent>, here: nat): seq<seq<Word>>
    requires Storable(es) && here + |es| < 0x1_0000_0000
    decreases |es|
  {
    if es == [] then []
    else
      var k := Take(|es|, MAX_EXTENTS_IN_EXTCONT);
      [ContSector(es[..k], k < |es|, here)] + ContChain(es[k..], here + 1)
  }

  /** All sectors of a file's entry. */
  function FileChain(head: seq<Word>, es: seq<Extent>, here: nat): seq<seq<Word>>
    requires |head| == LENGTH_WORD && Storable(es) && here + |es| + 1 < 0x1_0000_0000
  {
    var k := Take(|es|, MAX_EXTENTS_IN_EXTFILE);
    [FileSector(head, es[..k], k < |es|, here)] + ContChain(es[k..], here + 1)
  }

  // ------------------------------------------------------------------ the allocated count is the written count

  /** FileEntryInfo::allocateEntity, for a file with `n` extents. */
  function SectorsUsed(n: nat): nat {
    if n <= MAX_EXTENTS_IN_EXTFILE then 1
    else 1 + (n - 1 - MAX_EXTENTS_IN_EXTFILE + MAX_EXTENTS_IN_EXTCONT - 1) / MAX_EXTENTS_IN_EXTCONT
  }

  function ContSectors(n: nat): nat { if n == 0 then 0 else (n + MAX_EXTENTS_IN_EXTCONT - 2) / MAX_EXTENTS_IN_EXTCONT }

  lemma ContSectorsStep(n: nat)
    ensures n > MAX_EXTENTS_IN_EXTCONT + 1 ==> ContSectors(n) == 1 + ContSectors(n - MAX_EXTENTS_IN_EXTCONT)
    ensures 2 <= n <= MAX_EXTENTS_IN_EXTCONT + 1 ==> ContSectors(n) == 1
  {
    assert MAX_EXTENTS_IN_EXTCONT == 124;
    if n > 125 {
      assert (n + 122) / 124 == 1 + (n - 124 + 122) / 124;
    }
  }

  lemma ContChainStep(es: seq<Extent>, here: nat)
    requires Storable(es) && here + |es| < 0x1_0000_0000
    ensures var k := Take(|es|, MAX_EXTENTS_IN_EXTCONT);
            |ContChain(es, here)| == if es == [] then 0 else 1 + |ContChain(es[k..], here + 1)|
  {
    hide ContSector;
  }

  lemma {:induction false} ContCount(es: seq<Extent>, here: nat)
    requires Storable(es) && here + |es| < 0x1_0000_0000 && |es| != 1
    ensures |ContChain(es, here)| == ContSectors(|es|)
    decreases |es|
  {
    hide ContChain, ContSectors;
    ContChainStep(es, here);
    ContSectorsStep(|es|);
    NoContSectors();
    if es != [] {
      ContCount(es[Take(|es|, MAX_EXTENTS_IN_EXTCONT)..], here + 1);
    }
  }

  lemma NoContSectors()
    ensures ContSectors(0) == 0
  {}

  /** The reservation formula agrees with the greedy writing loop for every number of extents. */
  lemma {:induction false} AllocatedIsWritten(head: seq<Word>, es: seq<Extent>, here: nat)
    requires |head| == LENGTH_WORD && Storable(es) && here + |es| + 1 < 0x1_0000_0000
    ensures |FileChain(head, es, here)| == SectorsUsed(|es|)
  {
    hide FileSector, ContSector, ContChain;
    ContCount(es[Take(|es|, MAX_EXTENTS_IN_EXTFILE)..], here + 1);
  }

  // ------------------------------------------------------------------ following the links

  datatype Next = NoNext | Next(sector: nat)

  /** Extents up to the end of the table, or to a descriptor whose type bits say where it goes on. */
  function ReadTable(ws: seq<Word>, at: nat, count: nat): (seq<Extent>, Next)
    requires at + 4 * count <= |ws|
    decreases count
  {
    if count == 0 then ([], NoNext)
    else if ws[at] >= NEXT_EXTENT then ([], Next(ws[at + 1]))
    else
      var more := ReadTable(ws, at + 4, count - 1);
      ([Extent(ws[at + 1], ws[at])] + more.0, more.1)
  }

  /** The table at `at`, whose length in bytes is in word `lengthAt`. */
  function Descriptors(ws: seq<Word>, lengthAt: nat, at: nat): (seq<Extent>, Next)
    requires lengthAt < |ws|
  {
    if at + 4 * (ws[lengthAt] / 16) <= |ws| then ReadTable(ws, at, ws[lengthAt] / 16) else ([], NoNext)
  }

  /** The extents listed from continuation sector `n` on; links lead forward. */
  function WalkOn(disk: seq<seq<Word>>, n: nat): seq<Extent>
    decreases |disk| - n
  {
    if n >= |disk| || |disk[n]| != WORDS then []
    else
      var t := Descriptors(disk[n], 5, CONT_TABLE);
      t.0 + if t.1.Next? && t.1.sector > n then WalkOn(disk, t.1.sector) else []
  }

  /** The extents of the file whose entry is sector `n`. */
  function Walk(disk: seq<seq<Word>>, n: nat): seq<Extent> {
    if n >= |disk| || |disk[n]| != WORDS then []
    else
      var t := Descriptors(disk[n], LENGTH_WORD, FILE_TABLE);
      t.0 + if t.1.Next? && t.1.sector > n then WalkOn(disk, t.1.sector) else []
  }

  lemma {:induction false} TableAt(es: seq<Extent>, i: nat)
    requires Storable(es) && i < |es|
    ensures var t := Table(es);
            t[4 * i] == es[i].size && t[4 * i + 1] == es[i].lbn && t[4 * i + 2] == 0 && t[4 * i + 3] == 0
  {
    if i < |es| - 1 {
      TableAt(es[..|es| - 1], i);
    }
  }

  /** Size and location of every extent, and the link if there is one, stand in the words from `at` on. */
  predicate Listed(ws: seq<Word>, at: nat, es: seq<Extent>, linked: bool, here: nat)
    requires at + 4 * |es| + (if linked then 4 else 0) <= |ws|
  {
    && (forall i :: 0 <= i < |es| ==> ws[at + 4 * i] == es[i].size && ws[at + 4 * i + 1] == es[i].lbn)
    && (linked ==> ws[at + 4 * |es|] >= NEXT_EXTENT && ws[at + 4 * |es| + 1] == here + 1)
  }

  lemma {:induction false} ReadListed(ws: seq<Word>, at: nat, es: seq<Extent>, linked: bool, here: nat)
    requires at + 4 * |es| + (if linked then 4 else 0) <= |ws| && Storable(es) && Listed(ws, at, es, linked, here)
    ensures ReadTable(ws, at, |es| + if linked then 1 else 0) == (es, if linked then Next(here + 1) else NoNext)
    decreases |es|
  {
    if es != [] {
      var rest := es[1..];
      forall i | 0 <= i < |rest|
        ensures ws[at + 4 + 4 * i] == rest[i].size && ws[at + 4 + 4 * i + 1] == rest[i].lbn
      {
        assert rest[i] == es[i + 1];
        assert ws[at + 4 * (i + 1)] == es[i + 1].size;
      }
      ReadListed(ws, at + 4, rest, linked, here);
      assert ws[at + 4 * 0] == es[0].size && ws[at + 4 * 0 + 1] == es[0].lbn;
      assert es == [es[0]] + rest;
    }
  }

  lemma FileSectorLists(head: seq<Word>, es: seq<Extent>, linked: bool, here: nat)
    requires |head| == LENGTH_WORD && Storable(es) && here + 1 < 0x1_0000_0000
    requires |es| + (if linked then 1 else 0) <= MAX_EXTENTS_IN_EXTFILE + 1
    ensures Descriptors(FileSector(head, es, linked, here), LENGTH_WORD, FILE_TABLE)
         == (es, if linked then Next(here + 1) else NoNext)
  {
    hide ReadTable, Table;
    var ws := FileSector(head, es, linked, here);
    forall i | 0 <= i < |es|
      ensures ws[FILE_TABLE + 4 * i] == es[i].size && ws[FILE_TABLE + 4 * i + 1] == es[i].lbn
    {
      TableAt(es, i);
    }
    ReadListed(ws, FILE_TABLE, es, linked, here);
  }

  lemma ContSectorLists(es: seq<Extent>, linked: bool, here: nat)
    requires Storable(es) && here + 1 < 0x1_0000_0000
    requires |es| + (if linked then 1 else 0) <= MAX_EXTENTS_IN_EXTCONT + 1
    ensures Descriptors(ContSector(es, linked, here), 5, CONT_TABLE) == (es, if linked then Next(here + 1) else NoNext)
  {
    hide ReadTable, Table;
    var ws := ContSector(es, linked, here);
    forall i | 0 <= i < |es|
      ensures ws[CONT_TABLE + 4 * i] == es[i].size && ws[CONT_TABLE + 4 * i + 1] == es[i].lbn
    {
      TableAt(es, i);
      assert CONT_TABLE + 4 * i != LENGTH_WORD && CONT_TABLE + 4 * i + 1 != LENGTH_WORD;
    }
    ReadListed(ws, CONT_TABLE, es, linked, here);
  }

  /** Words of the table, in a continuation sector. */
  lemma ContSectorWord(es: seq<Extent>, linked: bool, here: nat, j: nat)
    requires Storable(es) && here + 1 < 0x1_0000_0000
    requires |es| + (if linked then 1 else 0) <= MAX_EXTENTS_IN_EXTCONT + 1 && j < 4 * |es|
    ensures ContSector(es, linked, here)[CONT_TABLE + j]
         == if linked && CONT_TABLE + j == LENGTH_WORD then Add32(Table(es)[j], 0x10) else Table(es)[j]
  {
    hide Table, Add32, Filled, Link, ContHead, Storable;
    FilledWord(ContHead(|es|, linked, here), Table(es), Link(linked, here), j);
  }

  lemma FilledWord(h: seq<Word>, t: seq<Word>, l: seq<Word>, j: nat)
    requires j < |t| && |h + t + l| <= WORDS
    ensures Filled(h + t + l)[|h| + j] == t[j]
  {}

  /** The stray addition meets the implementation-use word of the sector's twelfth descriptor, and nothing else. */
  lemma StrayWord(es: seq<Extent>, here: nat, i: nat)
    requires Storable(es) && here + 1 < 0x1_0000_0000 && |es| == MAX_EXTENTS_IN_EXTCONT && i < |es|
    ensures ContSector(es, true, here)[CONT_TABLE + 4 * i + 3] == if i == 11 then 0x10 else 0
  {
    hide Table, ContSector;
    TableAt(es, i);
    ContSectorWord(es, true, here, 4 * i + 3);
  }

  /** Word `j` of the descriptors, with the one behind them that leads to the next sector, and zeros behind that. */
  function TableWord(es: seq<Extent>, linked: bool, here: nat, j: nat): int {
    if j < 4 * |es| then if j % 4 == 0 then es[j / 4].size else if j % 4 == 1 then es[j / 4].lbn else 0
    else if linked && j < 4 * |es| + 4 then
      if j % 4 == 0 then 0xC000_0800 else if j % 4 == 1 then here + 1 else if j % 4 == 2 then 1 else 0
    else 0
  }

  lemma TableWordIs(es: seq<Extent>, linked: bool, here: nat, j: nat)
    requires Storable(es) && j < 4 * |es|
    ensures Table(es)[j] == TableWord(es, linked, here, j)
  {
    hide Table;
    TableAt(es, j / 4);
    assert j == 4 * (j / 4) + j % 4;
  }

  lemma LinkWordIs(es: seq<Extent>, linked: bool, here: nat, j: nat)
    requires here + 1 < 0x1_0000_0000 && 4 * |es| <= j
    ensures if linked && j < 4 * |es| + 4 then Link(linked, here)[j - 4 * |es|] == TableWord(es, linked, here, j)
            else TableWord(es, linked, here, j) == 0
  {
    assert 4 * |es| % 4 == 0;
    if linked && j < 4 * |es| + 4 {
      assert (j - 4 * |es|) % 4 == j % 4;
    }
  }

  lemma TailWords(h: seq<Word>, t: seq<Word>, l: seq<Word>, w: nat)
    requires |h| <= w < 512 && |h + t + l| <= 512
    ensures var j := w - |h|;
            Filled(h + t + l)[w] == if j < |t| then t[j] else if j < |t| + |l| then l[j - |t|] else 0
  {}

  lemma TableWords(h: seq<Word>, es: seq<Extent>, linked: bool, here: nat, w: nat)
    requires Storable(es) && here + 1 < 0x1_0000_0000 && |h| <= w < 512 && |h| + 4 * |es| + (if linked then 4 else 0) <= 512
    ensures Filled(h + Table(es) + Link(linked, here))[w] == TableWord(es, linked, here, w - |h|)
  {
    hide Table, Link, Filled, TableWord, Storable;
    TailWords(h, Table(es), Link(linked, here), w);
    if w - |h| < 4 * |es| {
      TableWordIs(es, linked, here, w - |h|);
    } else {
      LinkWordIs(es, linked, here, w - |h|);
    }
  }

  lemma HeadWords(h: seq<Word>, t: seq<Word>, l: seq<Word>, w: nat)
    requires w < |h| && |h + t + l| <= WORDS
    ensures Filled(h + t + l)[w] == h[w]
  {}

  /** A continuation sector, word by word: tag 258, version 3, serial number 1, its own location, the length of the table;
      in a linked one the length that a file entry would have gets its 0x10 in the midst of the table. */
  lemma {:induction false} ContSectorWords(es: seq<Extent>, linked: bool, here: nat, w: nat)
    requires Storable(es) && here + 1 < 0x1_0000_0000 && |es| <= 125 && (linked ==> |es| == 124) && w < 512
    ensures ContSector(es, linked, here)[w]
         == if w == 0 then 258 + 3 * 0x1_0000 else if w == 1 then 0x1_0000 else if w == 2 || w == 4 then 0
            else if w == 3 then here else if w == 5 then 16 * (|es| + if linked then 1 else 0)
            else if w == 53 && linked then 16 else TableWord(es, linked, here, w - 6)
  {
    hide Table, Filled, TableWord;
    var h := ContHead(|es|, linked, here);
    if w < 6 {
      HeadWords(h, Table(es), Link(linked, here), w);
    } else {
      TableWords(h, es, linked, here, w);
      if w == 53 && linked {
        EleventhIsZero(es, linked, here);
      }
    }
  }

  lemma EleventhIsZero(es: seq<Extent>, linked: bool, here: nat)
    requires |es| == 124
    ensures TableWord(es, linked, here, 47) == 0
  {}

  /** A file entry's sector: what stands in front of the table, its length, and the table. */
  lemma {:induction false} FileSectorWords(head: seq<Word>, es: seq<Extent>, linked: bool, here: nat, w: nat)
    requires |head| == 53 && Storable(es) && here + 1 < 0x1_0000_0000 && |es| + (if linked then 1 else 0) <= 113 && w < 512
    ensures FileSector(head, es, linked, here)[w]
         == if w < 53 then head[w] else if w == 53 then 16 * (|es| + if linked then 1 else 0)
            else TableWord(es, linked, here, w - 54)
  {
    hide Table, Filled, TableWord;
    var h := head + [TableLength(|es|, linked)];
    if w < 54 {
      HeadWords(h, Table(es), Link(linked, here), w);
    } else {
      TableWords(h, es, linked, here, w);
    }
  }

  /** The sectors stand on the disk from `here` on. */
  predicate StandsAt(disk: seq<seq<Word>>, here: nat, chain: seq<seq<Word>>) {
    here + |chain| <= |disk| && disk[here..here + |chain|] == chain
  }

  lemma {:induction false} ContinuationsAreFollowed(disk: seq<seq<Word>>, es: seq<Extent>, here: nat)
    requires es != [] && Storable(es) && here + |es| < 0x1_0000_0000
    requires StandsAt(disk, here, ContChain(es, here))
    ensures WalkOn(disk, here) == es
    decreases |es|
  {
    hide ContSector, Descriptors;
    var k := Take(|es|, MAX_EXTENTS_IN_EXTCONT);
    var chain := ContChain(es, here);
    ContSectorLists(es[..k], k < |es|, here);
    assert disk[here] == chain[0];
    if k < |es| {
      assert disk[here + 1..here + |chain|] == chain[1..];
      ContinuationsAreFollowed(disk, es[k..], here + 1);
      assert es[..k] + es[k..] == es;
    } else {
      assert es[..k] == es;
    }
  }

  /** Whoever follows the links finds the extents of the file, in order. */
  lemma LinksLeadToAllExtents(disk: seq<seq<Word>>, head: seq<Word>, es: seq<Extent>, here: nat)
    requires |head| == LENGTH_WORD && Storable(es) && here + |es| + 1 < 0x1_0000_0000
    requires StandsAt(disk, here, FileChain(head, es, here))
    ensures Walk(disk, here) == es
  {
    hide FileSector, Descriptors, ContChain, WalkOn;
    var k := Take(|es|, MAX_EXTENTS_IN_EXTFILE);
    var chain := FileChain(head, es, here);
    FileSectorLists(head, es[..k], k < |es|, here);
    assert disk[here] == chain[0];
    if k < |es| {
      assert disk[here + 1..here + |chain|] == chain[1..];
      ContinuationsAreFollowed(disk, es[k..], here + 1);
      assert es[..k] + es[k..] == es;
    } else {
      assert es[..k] == es;
    }
  }

  // ------------------------------------------------------------------ the writer

  class DescriptorWriter {
    const buffer: array<Word>
    var base: nat  // where the writer was sent last
    var sectors: seq<seq<Word>>  // the sectors written since

    /** absoluteSectorNum. */
    function Here(): nat
      reads this
    {
      base + |sectors|
    }

    ghost predicate Valid()
      reads this
    {
      buffer.Length == WORDS
    }

    constructor ()
      ensures Valid() && sectors == [] && base == 0 && fresh(buffer)
    {
      buffer := new Word[WORDS](_ => 0);
      base, sectors := 0, [];
    }

    /** sectorSeek. */
    method Seek(pos: nat)
      requires Valid()
      modifies this
      ensures Valid() && sectors == [] && Here() == base == pos
    {
      base, sectors := pos, [];
    }

    /** memset of the whole buffer. */
    method Clear()
      requires Valid()
      modifies buffer
      ensures buffer[..] == Zeros(WORDS)
    {
      forall i | 0 <= i < WORDS {
        buffer[i] := 0;
      }
    }

    /** writeLongAD: the partition is a 16-bit store into the low half of the third word. */
    method WriteLongAD(at: nat, len: Word, pos: Word, partition: Word, id: Word)
      requires Valid() && at + 4 <= WORDS && partition < 0x1_0000 && buffer[at + 2] == 0
      modifies buffer
      ensures buffer[..] == old(buffer[..at]) + LongAD(len, pos, partition, id) + old(buffer[at + 4..])
    {
      buffer[at] := len;
      buffer[at + 1] := pos;
      buffer[at + 2] := buffer[at + 2] / 0x1_0000 * 0x1_0000 + partition;
      buffer[at + 3] := id;
    }

    /** A descriptor behind what is in the buffer already. */
    method AppendLongAD(ghost front: seq<Word>, at: nat, len: Word, pos: Word, partition: Word)
      requires Valid() && at == |front| && at + 4 <= WORDS && partition < 0x1_0000 && buffer[..] == Filled(front)
      modifies buffer
      ensures buffer[..] == Filled(front + LongAD(len, pos, partition, 0))
    {
      assert buffer[at + 2] == buffer[..][at + 2] == 0;
      WriteLongAD(at, len, pos, partition, 0);
    }

    /** The descriptor loop, then the link. */
    method AppendTable(ghost front: seq<Word>, at: nat, es: seq<Extent>, linked: bool)
      requires Valid() && Storable(es) && at == |front| && at + 4 * |es| + (if linked then 4 else 0) <= WORDS
      requires buffer[..] == Filled(front) && Here() + 1 < 0x1_0000_0000
      modifies buffer
      ensures buffer[..] == Filled(front + Table(es) + Link(linked, Here()))
    {
      hide LongAD, Filled;
      var i := 0;
      EmptyTable(front);
      assert es[..0] == [];
      while i < |es|
        invariant 0 <= i <= |es| && buffer[..] == Filled(front + Table(es[..i]))
      {
        TableOneMore(front, es, i);
        AppendLongAD(front + Table(es[..i]), at + 4 * i, es[i].size, es[i].lbn, 0);
        i := i + 1;
      }
      assert es[..i] == es;
      if linked {
        AppendLongAD(front + Table(es), at + 4 * i, SECTOR_SIZE + NEXT_EXTENT, Here() + 1, 1);
      } else {
        assert front + Table(es) + [] == front + Table(es);
      }
    }

    /** writeAllocationExtentDescriptor. */
    method WriteAllocationExtentDescriptor(es: seq<Extent>, start: nat, indexEnd: nat)
      requires Valid() && Storable(es) && start <= indexEnd <= |es| && Here() + 1 < 0x1_0000_0000
      requires indexEnd - start + (if indexEnd < |es| then 1 else 0) <= MAX_EXTENTS_IN_EXTCONT + 1
      modifies this`sectors, buffer
      ensures Valid()
      ensures sectors == old(sectors) + [ContSector(es[start..indexEnd], indexEnd < |es|, old(Here()))]
    {
      hide Table, LongAD;
      Clear();
      var here, linked := Here(), indexEnd < |es|;
      buffer[0] := 258 + 3 * 0x1_0000;
      buffer[1] := 0x1_0000;
      buffer[3] := here;
      buffer[5] := TableLength(indexEnd - start, linked);
      ghost var front := ContHead(indexEnd - start, linked, here);
      assert buffer[..] == Filled(front);
      AppendTable(front, CONT_TABLE, es[start..indexEnd], linked);
      if linked {
        buffer[LENGTH_WORD] := Add32(buffer[LENGTH_WORD], 0x10);
      }
      sectors := sectors + [buffer[..]];
    }

    /** The loop over the continuation sectors. */
    method WriteContinuations(es: seq<Extent>, start: nat) returns (written: nat)
      requires Valid() && Storable(es) && start <= |es| && Here() + |es| < 0x1_0000_0000
      modifies this`sectors, buffer
      ensures Valid()
      ensures sectors == old(sectors) + ContChain(es[start..], old(Here()))
      ensures written == |ContChain(es[start..], old(Here()))|
    {
      hide ContSector, ContChain;
      var indexStart := start;
      written := 0;
      ghost var all, before, first := ContChain(es[start..], Here()), sectors, Here();
      ghost var done: seq<seq<Word>> := [];
      while indexStart < |es|
        invariant start <= indexStart <= |es| && Valid() && written == |done| <= indexStart
        invariant sectors == before + done && all == done + ContChain(es[indexStart..], first + |done|)
      {
        ghost var rest := es[indexStart..];
        ContChainUnfolds(rest, Here());
        var indexEnd := if indexStart + MAX_EXTENTS_IN_EXTCONT < |es| then indexStart + MAX_EXTENTS_IN_EXTCONT else |es|;
        if |es| - indexEnd == 1 {
          indexEnd := indexEnd + 1;
        }
        ghost var k := Take(|rest|, MAX_EXTENTS_IN_EXTCONT);
        assert rest[..k] == es[indexStart..indexEnd] && rest[k..] == es[indexEnd..];
        ghost var sector := ContSector(rest[..k], k < |rest|, Here());
        WriteAllocationExtentDescriptor(es, indexStart, indexEnd);
        assert done + ([sector] + ContChain(rest[k..], first + |done| + 1)) == done + [sector] + ContChain(rest[k..], first + |done| + 1);
        done := done + [sector];
        written := written + 1;
        indexStart := indexEnd;
      }
      assert es[indexStart..] == [];
      NoMoreSectors(Here());
    }

    /** The file branch of writeExtendedFileEntryDescriptor; `head` is what the lines before it put into the buffer. */
    method WriteFileEntry(head: seq<Word>, es: seq<Extent>) returns (sectorsWrited: nat)
      requires Valid() && |head| == LENGTH_WORD && Storable(es) && Here() + |es| + 1 < 0x1_0000_0000
      modifies this`sectors, buffer
      ensures Valid()
      ensures sectors == old(sectors) + FileChain(head, es, old(Here()))
      ensures sectorsWrited == |FileChain(head, es, old(Here()))|
    {
      hide ContSector, FileSector, ContChain;
      var indexEnd := if MAX_EXTENTS_IN_EXTFILE < |es| then MAX_EXTENTS_IN_EXTFILE else |es|;
      if |es| - indexEnd == 1 {
        indexEnd := indexEnd + 1;
      }
      WriteFirstSector(head, es, indexEnd);
      var more := WriteContinuations(es, indexEnd);
      sectorsWrited := 1 + more;
    }

    method WriteFirstSector(head: seq<Word>, es: seq<Extent>, indexEnd: nat)
      requires Valid() && |head| == LENGTH_WORD && Storable(es) && indexEnd <= |es| && Here() + 1 < 0x1_0000_0000
      requires indexEnd + (if indexEnd < |es| then 1 else 0) <= MAX_EXTENTS_IN_EXTFILE + 1
      modifies this`sectors, buffer
      ensures Valid() && sectors == old(sectors) + [FileSector(head, es[..indexEnd], indexEnd < |es|, old(Here()))]
    {
      hide Table, LongAD;
      Clear();
      forall i | 0 <= i < |head| {
        buffer[i] := head[i];
      }
      var linked := indexEnd < |es|;
      buffer[LENGTH_WORD] := 0x10 * indexEnd;
      if linked {
        buffer[LENGTH_WORD] := Add32(buffer[LENGTH_WORD], 0x10);
      }
      ghost var front := head + [TableLength(indexEnd, linked)];
      assert buffer[..] == Filled(front);
      AppendTable(front, FILE_TABLE, es[..indexEnd], linked);
      sectors := sectors + [buffer[..]];
    }
  }

  lemma EmptyTable(front: seq<Word>)
    ensures front + Table([]) == front
  {}

  lemma TableOneMore(front: seq<Word>, es: seq<Extent>, i: nat)
    requires i < |es| && Storable(es)
    ensures front + Table(es[..i + 1]) == front + Table(es[..i]) + LongAD(es[i].size, es[i].lbn, 0, 0)
  {
    assert es[..i + 1][..i] == es[..i];
  }

  lemma ContChainUnfolds(es: seq<Extent>, here: nat)
    requires es != [] && Storable(es) && here + |es| < 0x1_0000_0000
    ensures var k := Take(|es|, MAX_EXTENTS_IN_EXTCONT);
            ContChain(es, here) == [ContSector(es[..k], k < |es|, here)] + ContChain(es[k..], here + 1)
  {
    hide ContSector;
  }

  lemma NoMoreSectors(here: nat)
    requires here < 0x1_0000_0000
    ensures ContChain([], here) == []
  {}
}
