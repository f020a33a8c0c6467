/**
  The metadata of a directory tree (tsMuxer/iso_writer.cpp): sectors are allocated to files and
  directories in one walk over the tree, and written in a second one.
  */
module IsoTree {
  import opened IsoExtents
  import opened IsoDescriptors

  /** A file with its extents and the words its entry starts with, or a directory; `slot` names its mutable fields. */
  datatype Entity = File(slot: nat, objectId: nat, extents: seq<Extent>, head: seq<Word>)
                  | Dir(slot: nat, objectId: nat, files: seq<Entity>, subDirs: seq<Entity>)

  /** FileEntryInfo::allocateEntity: a directory takes two sectors. */
  function Own(e: Entity): (n: nat)
    ensures n >= 1
  {
    if e.Dir? then 2 else SectorsUsed(|e.extents|)
  }

  // ------------------------------------------------------------------ places

  /** Sectors of a whole subtree. */
  function Size(e: Entity): nat
    decreases e
  {
    match e
    case File(_, _, _, _) => Own(e)
    case Dir(_, _, files, subDirs) => Own(e) + SizeAll(files, |files|) + SizeAll(subDirs, |subDirs|)
  }

  function SizeAll(es: seq<Entity>, n: nat): nat
    requires n <= |es|
    decreases es, n
  {
    if n == 0 then 0 else SizeAll(es, n - 1) + Size(es[n - 1])
  }

  /** An entity, the first of its sectors, and the first sector of its parent. */
  datatype Place = Place(entity: Entity, start: nat, parent: nat)

  /** Every entity of the subtree, in the order of the walk. */
  function Places(e: Entity, at: nat, parent: nat): seq<Place>
    decreases e
  {
    [Place(e, at, parent)] +
    match e
    case File(_, _, _, _) => []
    case Dir(_, _, files, subDirs) =>
      PlacesAll(files, |files|, at + Own(e), at) + PlacesAll(subDirs, |subDirs|, at + Own(e) + SizeAll(files, |files|), at)
  }

  function PlacesAll(es: seq<Entity>, n: nat, at: nat, parent: nat): seq<Place>
    requires n <= |es|
    decreases es, n
  {
    if n == 0 then [] else PlacesAll(es, n - 1, at, parent) + Places(es[n - 1], at + SizeAll(es, n - 1), parent)
  }

  /** The intervals follow one another without gap from `at` to `end`. */
  predicate Chained(ps: seq<Place>, at: nat, end: nat) {
    if ps == [] then at == end else ps[0].start == at && Chained(ps[1..], at + Own(ps[0].entity), end)
  }

  lemma {:induction false} ChainedConcat(a: seq<Place>, b: seq<Place>, at: nat, mid: nat, end: nat)
    requires Chained(a, at, mid) && Chained(b, mid, end)
    ensures Chained(a + b, at, end)
  {
    if a == [] {
      assert a + b == b;
    } else {
      ChainedConcat(a[1..], b, at + Own(a[0].entity), mid, end);
      assert (a + b)[1..] == a[1..] + b;
    }
  }

  /** The subtree's intervals are contiguous, in preorder, and end at the number the walk returns. */
  lemma {:induction false} PlacesAreChained(e: Entity, at: nat, parent: nat)
    ensures Chained(Places(e, at, parent), at, at + Size(e))
    decreases e
  {
    var first := [Place(e, at, parent)];
    assert first[1..] == [] && Chained(first, at, at + Own(e));
    match e
    case File(_, _, _, _) => assert Places(e, at, parent) == first;
    case Dir(_, _, files, subDirs) =>
      var mid := at + Own(e) + SizeAll(files, |files|);
      PlacesAllAreChained(files, |files|, at + Own(e), at);
      PlacesAllAreChained(subDirs, |subDirs|, mid, at);
      var a, b := PlacesAll(files, |files|, at + Own(e), at), PlacesAll(subDirs, |subDirs|, mid, at);
      ChainedConcat(a, b, at + Own(e), mid, at + Size(e));
      ChainedConcat(first, a + b, at, at + Own(e), at + Size(e));
  }

  lemma {:induction false} PlacesAllAreChained(es: seq<Entity>, n: nat, at: nat, parent: nat)
    requires n <= |es|
    ensures Chained(PlacesAll(es, n, at, parent), at, at + SizeAll(es, n))
    decreases es, n
  {
    if n > 0 {
      var mid := at + SizeAll(es, n - 1);
      PlacesAllAreChained(es, n - 1, at, parent);
      PlacesAreChained(es[n - 1], mid, parent);
      ChainedConcat(PlacesAll(es, n - 1, at, parent), Places(es[n - 1], mid, parent), at, mid, at + SizeAll(es, n));
    }
  }

  /** So any two of them are disjoint. */
  lemma {:induction false} ChainedAreDisjoint(ps: seq<Place>, at: nat, end: nat, i: nat, j: nat)
    requires Chained(ps, at, end) && i < j < |ps|
    ensures at <= ps[i].start && ps[i].start + Own(ps[i].entity) <= ps[j].start && ps[j].start + Own(ps[j].entity) <= end
    decreases |ps|
  {
    var next := at + Own(ps[0].entity);
    if i > 0 {
      ChainedAreDisjoint(ps[1..], next, end, i - 1, j - 1);
    } else {
      ChainedBounds(ps[1..], next, end, j - 1);
    }
  }

  lemma {:induction false} ChainedBounds(ps: seq<Place>, at: nat, end: nat, j: nat)
    requires Chained(ps, at, end) && j < |ps|
    ensures at <= ps[j].start && ps[j].start + Own(ps[j].entity) <= end
    decreases |ps|
  {
    var next := at + Own(ps[0].entity);
    ChainedEnd(ps[1..], next, end);
    if j > 0 {
      ChainedBounds(ps[1..], next, end, j - 1);
    }
  }

  lemma {:induction false} ChainedEnd(ps: seq<Place>, at: nat, end: nat)
    requires Chained(ps, at, end)
    ensures at <= end
  {
    if ps != [] {
      ChainedEnd(ps[1..], at + Own(ps[0].entity), end);
    }
  }

  // ------------------------------------------------------------------ what is written

  /** A metadata sector: descriptor words of a file, a directory's entry, or its list of identifiers. */
  datatype Sector = Blank | FileWords(words: seq<Word>) | DirEntry(slot: nat) | DirList(parent: nat, links: seq<nat>)

  /** What the descriptors can hold, for sectors numbered up to `limit`. */
  predicate Writable(e: Entity, limit: nat)
    decreases e
  {
    match e
    case File(_, _, extents, head) => WritableFile(extents, head, limit)
    case Dir(_, _, files, subDirs) => WritableAll(files, |files|, limit) && WritableAll(subDirs, |subDirs|, limit)
  }

  predicate WritableFile(extents: seq<Extent>, head: seq<Word>, at: nat) {
    |head| == LENGTH_WORD && Storable(extents) && at + |extents| + 1 < 0x1_0000_0000
  }

  predicate WritableAll(es: seq<Entity>, n: nat, limit: nat)
    requires n <= |es|
    decreases es, n
  {
    n == 0 || (WritableAll(es, n - 1, limit) && Writable(es[n - 1], limit))
  }

  lemma {:induction false} WritableOne(es: seq<Entity>, n: nat, limit: nat, i: nat)
    requires i < n <= |es| && WritableAll(es, n, limit)
    ensures Writable(es[i], limit)
    decreases n
  {
    if i < n - 1 {
      WritableOne(es, n - 1, limit, i);
    }
  }

  /** A file's entry and its continuations: as many sectors as were allocated. */
  function FileSectors(extents: seq<Extent>, head: seq<Word>, at: nat): (s: seq<Sector>)
    ensures |s| == SectorsUsed(|extents|)
  {
    if WritableFile(extents, head, at) then
      AllocatedIsWritten(head, extents, at);
      var chain := FileChain(head, extents, at);
      seq(|chain|, k requires 0 <= k < |chain| => FileWords(chain[k]))
    else seq(SectorsUsed(|extents|), _ => Blank)
  }

  /** The sectors an entity itself writes, given the places of its parent and its children. */
  function OwnSectors(e: Entity, at: nat, parent: nat, links: seq<nat>): (s: seq<Sector>)
    ensures |s| == Own(e)
  {
    match e
    case File(_, _, extents, head) => FileSectors(extents, head, at)
    case Dir(slot, _, _, _) => [DirEntry(slot), DirList(parent, links)]
  }

  /** Where the children start. */
  function Links(es: seq<Entity>, at: nat): (s: seq<nat>)
    ensures |s| == |es|
  {
    seq(|es|, i requires 0 <= i < |es| => at + SizeAll(es, i))
  }

  function LinksOf(e: Entity, at: nat): seq<nat>
    requires e.Dir?
  {
    Links(e.files, at + Own(e)) + Links(e.subDirs, at + Own(e) + SizeAll(e.files, |e.files|))
  }

  /** All sectors of the subtree. */
  function Image(e: Entity, at: nat, parent: nat): (s: seq<Sector>)
    ensures |s| == Size(e)
    decreases e
  {
    match e
    case File(_, _, _, _) => OwnSectors(e, at, parent, [])
    case Dir(_, _, files, subDirs) =>
      OwnSectors(e, at, parent, LinksOf(e, at)) + ImageAll(files, |files|, at + Own(e), at)
      + ImageAll(subDirs, |subDirs|, at + Own(e) + SizeAll(files, |files|), at)
  }

  function ImageAll(es: seq<Entity>, n: nat, at: nat, parent: nat): (s: seq<Sector>)
    requires n <= |es|
    ensures |s| == SizeAll(es, n)
    decreases es, n
  {
    if n == 0 then [] else ImageAll(es, n - 1, at, parent) + Image(es[n - 1], at + SizeAll(es, n - 1), parent)
  }

  // ------------------------------------------------------------------ reading the tree back

  /** What can be found from a sector on: a file with its extents, or a directory with its children. */
  datatype Shape = FileShape(head: seq<Word>, extents: seq<Extent>) | DirShape(slot: nat, kids: seq<Shape>) | NoShape

  function ShapeOf(e: Entity): Shape
    decreases e
  {
    match e
    case File(_, _, extents, head) => FileShape(head, extents)
    case Dir(slot, _, files, subDirs) => DirShape(slot, ShapesOf(files, |files|) + ShapesOf(subDirs, |subDirs|))
  }

  function ShapesOf(es: seq<Entity>, n: nat): seq<Shape>
    requires n <= |es|
    decreases es, n
  {
    if n == 0 then [] else ShapesOf(es, n - 1) + [ShapeOf(es[n - 1])]
  }

  /** The disk, as the descriptor reader sees it. */
  function WordsOn(disk: seq<Sector>): (ws: seq<seq<Word>>)
    ensures |ws| == |disk|
  {
    seq(|disk|, i requires 0 <= i < |disk| => if disk[i].FileWords? then disk[i].words else [])
  }

  /** Follow the links from sector `at`; they lead forward. */
  function ReadTree(disk: seq<Sector>, at: nat): Shape
    decreases |disk| - at, 0
  {
    if at >= |disk| then NoShape
    else
      match disk[at]
      case FileWords(ws) => if |ws| == WORDS then FileShape(ws[..LENGTH_WORD], Walk(WordsOn(disk), at)) else NoShape
      case DirEntry(slot) =>
        if at + 1 < |disk| && disk[at + 1].DirList? then DirShape(slot, ReadLinks(disk, disk[at + 1].links, at)) else NoShape
      case _ => NoShape
  }

  function ReadLinks(disk: seq<Sector>, links: seq<nat>, at: nat): seq<Shape>
    requires at < |disk|
    decreases |disk| - at, 0, |links|
  {
    if links == [] then []
    else
      var n := |links| - 1;
      ReadLinks(disk, links[..n], at) + [if links[n] > at then ReadTree(disk, links[n]) else NoShape]
  }

  predicate HasImage(disk: seq<Sector>, e: Entity, at: nat, parent: nat) {
    at + Size(e) <= |disk| && disk[at..at + Size(e)] == Image(e, at, parent)
  }

  /** A directory starts with its entry and its list. */
  lemma ImageStarts(e: Entity, at: nat, parent: nat)
    requires e.Dir?
    ensures var s := Image(e, at, parent);
            Size(e) >= 2 && |s| >= 2 && s[0] == DirEntry(e.slot) && s[1] == DirList(parent, LinksOf(e, at))
  {
    hide LinksOf, ImageAll, SizeAll;
  }

  /** The descriptors of a file's entry lead to its extents. */
  lemma {:induction false} FileReads(disk: seq<Sector>, e: Entity, at: nat, parent: nat)
    requires e.File? && HasImage(disk, e, at, parent) && Writable(e, |disk|)
    ensures ReadTree(disk, at) == ShapeOf(e)
  {
    hide SectorsUsed, FileChain, Walk;
    var chain, ws := FileChain(e.head, e.extents, at), WordsOn(disk);
    AllocatedIsWritten(e.head, e.extents, at);
    forall k | 0 <= k < |chain|
      ensures ws[at + k] == chain[k] && disk[at + k] == FileWords(chain[k])
    {
      assert disk[at + k] == disk[at..at + Size(e)][k];
    }
    assert ws[at..at + |chain|] == chain;
    ChainStarts(e.head, e.extents, at);
    LinksLeadToAllExtents(ws, e.head, e.extents, at);
    assert disk[at] == disk[at + 0];
  }

  lemma ChainStarts(head: seq<Word>, es: seq<Extent>, here: nat)
    requires WritableFile(es, head, here)
    ensures var chain := FileChain(head, es, here); |chain| >= 1 && |chain[0]| == WORDS && chain[0][..LENGTH_WORD] == head
  {
    hide Table, Link, ContChain;
  }

  lemma {:induction false} ReadLinksConcat(disk: seq<Sector>, a: seq<nat>, b: seq<nat>, at: nat)
    requires at < |disk|
    ensures ReadLinks(disk, a + b, at) == ReadLinks(disk, a, at) + ReadLinks(disk, b, at)
    decreases |b|
  {
    hide ReadTree;
    if b == [] {
      assert a + b == a;
      assert ReadLinks(disk, a, at) + [] == ReadLinks(disk, a, at);
    } else {
      var n := |b| - 1;
      ReadLinksConcat(disk, a, b[..n], at);
      assert (a + b)[..|a + b| - 1] == a + b[..n];
    }
  }

  /** The sectors of the i-th of several subtrees, in the middle of all of them. */
  lemma {:induction false} ImageAllSlice(es: seq<Entity>, n: nat, i: nat, at: nat, parent: nat)
    requires i < n <= |es|
    ensures SizeAll(es, i) + Size(es[i]) == SizeAll(es, i + 1) <= SizeAll(es, n)
    ensures ImageAll(es, n, at, parent)[SizeAll(es, i)..SizeAll(es, i + 1)] == Image(es[i], at + SizeAll(es, i), parent)
    decreases n
  {
    hide Image, Size;
    var all, init := ImageAll(es, n, at, parent), ImageAll(es, n - 1, at, parent);
    if i < n - 1 {
      ImageAllSlice(es, n - 1, i, at, parent);
      assert all[..|init|] == init;
      assert all[SizeAll(es, i)..SizeAll(es, i + 1)] == init[SizeAll(es, i)..SizeAll(es, i + 1)];
    }
  }

  predicate HasAll(disk: seq<Sector>, es: seq<Entity>, at: nat, parent: nat) {
    at + SizeAll(es, |es|) <= |disk| && disk[at..at + SizeAll(es, |es|)] == ImageAll(es, |es|, at, parent)
  }

  /** Each of several subtrees is where its link points ... */
  lemma OneOfAll(disk: seq<Sector>, es: seq<Entity>, i: nat, at: nat, parent: nat)
    requires i < |es| && HasAll(disk, es, at, parent)
    ensures HasImage(disk, es[i], at + SizeAll(es, i), parent)
    ensures at + SizeAll(es, i) + Size(es[i]) == at + SizeAll(es, i + 1) <= |disk|
  {
    hide Image, Size, ImageAll, SizeAll;
    ImageAllSlice(es, |es|, i, at, parent);
    SubSlice(disk, at, SizeAll(es, |es|), SizeAll(es, i), SizeAll(es, i + 1));
  }

  /** The first two sectors of a directory on the disk. */
  lemma StartsWhere(disk: seq<Sector>, e: Entity, at: nat, parent: nat)
    requires e.Dir? && HasImage(disk, e, at, parent)
    ensures at + 1 < |disk| && disk[at] == DirEntry(e.slot) && disk[at + 1] == DirList(parent, LinksOf(e, at))
  {
    hide Image, Size, LinksOf;
    ImageStarts(e, at, parent);
    var s := disk[at..at + Size(e)];
    assert disk[at] == s[0] && disk[at + 1] == s[1];
  }

  lemma SubSlice(disk: seq<Sector>, at: nat, total: nat, from: nat, to: nat)
    requires at + total <= |disk| && from <= to <= total
    ensures disk[at..at + total][from..to] == disk[at + from..at + to]
  {
    var a, b := disk[at..at + total][from..to], disk[at + from..at + to];
    assert |a| == |b| && forall k :: 0 <= k < |a| ==> a[k] == b[k];
  }

  /** Following the links from a written tree's first sector finds the tree. */
  lemma {:induction false} TreeIsFound(disk: seq<Sector>, e: Entity, at: nat, parent: nat)
    requires HasImage(disk, e, at, parent) && Writable(e, |disk|)
    ensures ReadTree(disk, at) == ShapeOf(e)
    decreases e
  {
    hide *;
    match e
    case File(_, _, _, _) => FileReads(disk, e, at, parent);
    case Dir(_, _, files, subDirs) =>
      var a := at + 2;
      var mid := a + SizeAll(files, |files|);
      StartsWhere(disk, e, at, parent);
      DirParts(disk, e, at, parent);
      KidsWritable(e, |disk|);
      AllAreFound(disk, files, |files|, a, at);
      AllAreFound(disk, subDirs, |subDirs|, mid, at);
      ReadLinksConcat(disk, Links(files, a), Links(subDirs, mid), at);
      assert Links(files, a)[..|files|] == Links(files, a) && Links(subDirs, mid)[..|subDirs|] == Links(subDirs, mid);
      DirReads(disk, e, at, parent);
  }

  lemma KidsWritable(e: Entity, limit: nat)
    requires e.Dir? && Writable(e, limit)
    ensures WritableAll(e.files, |e.files|, limit) && WritableAll(e.subDirs, |e.subDirs|, limit)
  {}

  lemma DirReads(disk: seq<Sector>, e: Entity, at: nat, parent: nat)
    requires e.Dir? && at + 1 < |disk| && disk[at] == DirEntry(e.slot) && disk[at + 1] == DirList(parent, LinksOf(e, at))
    ensures var a := at + 2;
            var mid := a + SizeAll(e.files, |e.files|);
            ReadTree(disk, at) == DirShape(e.slot, ReadLinks(disk, Links(e.files, a) + Links(e.subDirs, mid), at))
    ensures ShapeOf(e) == DirShape(e.slot, ShapesOf(e.files, |e.files|) + ShapesOf(e.subDirs, |e.subDirs|))
  {
    hide ReadLinks, ShapesOf, Links, SizeAll;
  }

  lemma ThreeParts(a: seq<Sector>, b: seq<Sector>, c: seq<Sector>)
    ensures var s := a + b + c; s[|a|..|a| + |b|] == b && s[|a| + |b|..|a| + |b| + |c|] == c
  {}

  /** A directory's image holds the images of its files, then of its subdirectories. */
  lemma {:induction false} DirParts(disk: seq<Sector>, e: Entity, at: nat, parent: nat)
    requires e.Dir? && HasImage(disk, e, at, parent)
    ensures var mid := at + 2 + SizeAll(e.files, |e.files|);
            HasAll(disk, e.files, at + 2, at) && HasAll(disk, e.subDirs, mid, at)
  {
    hide ImageAll, SizeAll, LinksOf;
    var a, n, m := at + Own(e), SizeAll(e.files, |e.files|), SizeAll(e.subDirs, |e.subDirs|);
    var all := disk[at..at + Size(e)];
    var head := OwnSectors(e, at, parent, LinksOf(e, at));
    var fs, ds := ImageAll(e.files, |e.files|, a, at), ImageAll(e.subDirs, |e.subDirs|, a + n, at);
    assert all == head + fs + ds;
    SubSlice(disk, at, Size(e), 2, 2 + n);
    SubSlice(disk, at, Size(e), 2 + n, 2 + n + m);
    ThreeParts(head, fs, ds);
  }

  lemma {:induction false} AllAreFound(disk: seq<Sector>, es: seq<Entity>, n: nat, at: nat, above: nat)
    requires n <= |es| && above < at && above < |disk| && HasAll(disk, es, at, above) && WritableAll(es, |es|, |disk|)
    ensures ReadLinks(disk, Links(es, at)[..n], above) == ShapesOf(es, n)
    decreases es, n
  {
    hide ReadTree, ShapeOf, HasAll, SizeAll, HasImage, Writable, WritableAll;
    if n > 0 {
      var links := Links(es, at)[..n];
      AllAreFound(disk, es, n - 1, at, above);
      OneOfAll(disk, es, n - 1, at, above);
      WritableOne(es, |es|, |disk|, n - 1);
      TreeIsFound(disk, es[n - 1], at + SizeAll(es, n - 1), above);
      assert links[..n - 1] == Links(es, at)[..n - 1];
    }
  }

  // ------------------------------------------------------------------ slots and mapping entries

  function Slots(e: Entity): set<nat>
    decreases e
  {
    match e
    case File(slot, _, _, _) => {slot}
    case Dir(slot, _, files, subDirs) => {slot} + SlotsAll(files, |files|) + SlotsAll(subDirs, |subDirs|)
  }

  function SlotsAll(es: seq<Entity>, n: nat): set<nat>
    requires n <= |es|
    decreases es, n
  {
    if n == 0 then {} else SlotsAll(es, n - 1) + Slots(es[n - 1])
  }

  /** Different entities have different fields. */
  predicate Separate(e: Entity)
    decreases e
  {
    match e
    case File(_, _, _, _) => true
    case Dir(slot, _, files, subDirs) =>
      && SeparateAll(files, |files|) && SeparateAll(subDirs, |subDirs|)
      && slot !in SlotsAll(files, |files|) && slot !in SlotsAll(subDirs, |subDirs|)
      && SlotsAll(files, |files|) !! SlotsAll(subDirs, |subDirs|)
  }

  predicate SeparateAll(es: seq<Entity>, n: nat)
    requires n <= |es|
    decreases es, n
  {
    n == 0 || (SeparateAll(es, n - 1) && Separate(es[n - 1]) && SlotsAll(es, n - 1) !! Slots(es[n - 1]))
  }

  predicate SlotsIn(ps: seq<Place>, slots: set<nat>) { forall i :: 0 <= i < |ps| ==> ps[i].entity.slot in slots }

  lemma SlotsInConcat(a: seq<Place>, b: seq<Place>, s: set<nat>, t: set<nat>)
    requires SlotsIn(a, s) && SlotsIn(b, t)
    ensures SlotsIn(a + b, s + t)
  {}

  lemma {:induction false} PlacesHaveSlots(e: Entity, at: nat, parent: nat)
    ensures SlotsIn(Places(e, at, parent), Slots(e))
    decreases e
  {
    hide SlotsIn, Own;
    SlotsInOne(Place(e, at, parent));
    match e
    case File(slot, _, _, _) =>
      assert Slots(e) == {slot};
      assert Places(e, at, parent) == [Place(e, at, parent)];
    case Dir(slot, _, files, subDirs) =>
      var a := at + Own(e);
      var mid := a + SizeAll(files, |files|);
      var fs, ds := PlacesAll(files, |files|, a, at), PlacesAll(subDirs, |subDirs|, mid, at);
      PlacesAllHaveSlots(files, |files|, a, at);
      PlacesAllHaveSlots(subDirs, |subDirs|, mid, at);
      SlotsInConcat(fs, ds, SlotsAll(files, |files|), SlotsAll(subDirs, |subDirs|));
      SlotsInConcat([Place(e, at, parent)], fs + ds, {slot}, SlotsAll(files, |files|) + SlotsAll(subDirs, |subDirs|));
      assert Slots(e) == {slot} + (SlotsAll(files, |files|) + SlotsAll(subDirs, |subDirs|));
  }

  lemma SlotsInOne(p: Place)
    ensures SlotsIn([p], {p.entity.slot})
  {}

  lemma {:induction false} PlacesAllHaveSlots(es: seq<Entity>, n: nat, at: nat, parent: nat)
    requires n <= |es|
    ensures SlotsIn(PlacesAll(es, n, at, parent), SlotsAll(es, n))
    decreases es, n
  {
    if n > 0 {
      hide SlotsIn, Places, Slots;
      PlacesAllHaveSlots(es, n - 1, at, parent);
      PlacesHaveSlots(es[n - 1], at + SizeAll(es, n - 1), parent);
      SlotsInConcat(PlacesAll(es, n - 1, at, parent), Places(es[n - 1], at + SizeAll(es, n - 1), parent),
                    SlotsAll(es, n - 1), Slots(es[n - 1]));
    }
  }

  /** The entry made for every object with an identifier: its parent's sector and its own. */
  function Mapped(ps: seq<Place>, m: map<nat, (nat, nat)>): map<nat, (nat, nat)> {
    if ps == [] then m
    else
      var p := ps[|ps| - 1];
      var before := Mapped(ps[..|ps| - 1], m);
      if p.entity.objectId != 0 then before[p.entity.objectId := (p.parent, p.start)] else before
  }

  lemma {:induction false} MappedConcat(a: seq<Place>, b: seq<Place>, m: map<nat, (nat, nat)>)
    ensures Mapped(a + b, m) == Mapped(b, Mapped(a, m))
    decreases |b|
  {
    if b == [] {
      assert a + b == a;
    } else {
      MappedConcat(a, b[..|b| - 1], m);
      assert (a + b)[..|a + b| - 1] == a + b[..|b| - 1];
    }
  }

  /** With distinct identifiers every entry stays what it was made. */
  lemma {:induction false} MappingIsRight(ps: seq<Place>, m: map<nat, (nat, nat)>, i: nat)
    requires i < |ps| && ps[i].entity.objectId != 0
    requires forall j :: 0 <= j < |ps| && ps[j].entity.objectId == ps[i].entity.objectId ==> j == i
    ensures ps[i].entity.objectId in Mapped(ps, m) && Mapped(ps, m)[ps[i].entity.objectId] == (ps[i].parent, ps[i].start)
  {
    if i < |ps| - 1 {
      MappingIsRight(ps[..|ps| - 1], m, i);
    }
  }

  /** Every place but the first knows where its parent's place is. */
  predicate ParentKnown(ps: seq<Place>, i: nat)
    requires i < |ps|
  {
    exists j :: 0 <= j < i && ps[j].start == ps[i].parent && ps[j].entity.Dir?
                && (ps[i].entity in ps[j].entity.files || ps[i].entity in ps[j].entity.subDirs)
  }

  lemma {:induction false} ParentsAreKnown(e: Entity, at: nat, parent: nat, i: nat)
    requires 0 < i < |Places(e, at, parent)|
    ensures ParentKnown(Places(e, at, parent), i)
    decreases e, 1
  {
    var ps := Places(e, at, parent);
    var a := at + Own(e);
    var mid := a + SizeAll(e.files, |e.files|);
    var fs, ds := PlacesAll(e.files, |e.files|, a, at), PlacesAll(e.subDirs, |e.subDirs|, mid, at);
    assert ps == [Place(e, at, parent)] + fs + ds;
    if i < 1 + |fs| {
      ParentIn(e, e.files, |e.files|, a, at, i - 1);
      Lifted(fs, ps, 1, i - 1, e, at);
    } else {
      ParentIn(e, e.subDirs, |e.subDirs|, mid, at, i - 1 - |fs|);
      Lifted(ds, ps, 1 + |fs|, i - 1 - |fs|, e, at);
    }
  }

  /** Among the children's places, the parent is either there or the directory itself. */
  lemma {:induction false} ParentIn(e: Entity, es: seq<Entity>, n: nat, at: nat, parent: nat, i: nat)
    requires e.Dir? && (es == e.files || es == e.subDirs) && n <= |es| && i < |PlacesAll(es, n, at, parent)|
    ensures var ps := PlacesAll(es, n, at, parent);
            ParentKnown(ps, i) || (ps[i].parent == parent && (ps[i].entity in e.files || ps[i].entity in e.subDirs))
    decreases e, 0, n
  {
    var ps, init := PlacesAll(es, n, at, parent), PlacesAll(es, n - 1, at, parent);
    var last := Places(es[n - 1], at + SizeAll(es, n - 1), parent);
    assert ps == init + last;
    if i < |init| {
      ParentIn(e, es, n - 1, at, parent, i);
      if ParentKnown(init, i) {
        Moved(init, ps, 0, i);
      }
    } else if i > |init| {
      ParentsAreKnown(es[n - 1], at + SizeAll(es, n - 1), parent, i - |init|);
      Moved(last, ps, |init|, i - |init|);
    }
  }

  lemma Moved(part: seq<Place>, ps: seq<Place>, offset: nat, i: nat)
    requires i < |part| && offset + |part| <= |ps| && ps[offset..offset + |part|] == part && ParentKnown(part, i)
    ensures ParentKnown(ps, offset + i)
  {
    var j :| 0 <= j < i && part[j].start == part[i].parent && part[j].entity.Dir?
             && (part[i].entity in part[j].entity.files || part[i].entity in part[j].entity.subDirs);
    assert ps[offset + j] == part[j] && ps[offset + i] == part[i];
  }

  lemma Lifted(part: seq<Place>, ps: seq<Place>, offset: nat, i: nat, e: Entity, at: nat)
    requires i < |part| && 1 <= offset && offset + |part| <= |ps| && ps[offset..offset + |part|] == part
    requires e.Dir? && ps[0].entity == e && ps[0].start == at
    requires ParentKnown(part, i) || (part[i].parent == at && (part[i].entity in e.files || part[i].entity in e.subDirs))
    ensures ParentKnown(ps, offset + i)
  {
    if ParentKnown(part, i) {
      Moved(part, ps, offset, i);
    } else {
      assert ps[offset + i] == part[i];
    }
  }

  // ------------------------------------------------------------------ the two walks

  /** The fields hold what the places say. */
  predicate Recorded(ps: seq<Place>, sectorNum: seq<nat>, sectorsUsed: seq<nat>) {
    forall i :: 0 <= i < |ps| ==> RecordedAt(ps[i], sectorNum, sectorsUsed)
  }

  predicate RecordedAt(p: Place, sectorNum: seq<nat>, sectorsUsed: seq<nat>) {
    var s := p.entity.slot;
    s < |sectorNum| == |sectorsUsed| && sectorNum[s] == p.start && sectorsUsed[s] == Own(p.entity)
  }

  /** Nothing outside the slots differs. */
  predicate SameBut(a: seq<nat>, b: seq<nat>, slots: set<nat>) {
    |a| == |b| && forall s :: 0 <= s < |a| && s !in slots ==> a[s] == b[s]
  }

  lemma RecordedStays(ps: seq<Place>, slots: set<nat>, other: set<nat>, num: seq<nat>, num': seq<nat>, used: seq<nat>, used': seq<nat>)
    requires Recorded(ps, num, used) && SlotsIn(ps, slots) && slots !! other && SameBut(num, num', other) && SameBut(used, used', other)
    ensures Recorded(ps, num', used')
  {
    hide Own;
    forall i | 0 <= i < |ps|
      ensures RecordedAt(ps[i], num', used')
    {
      assert RecordedAt(ps[i], num, used) && ps[i].entity.slot !in other;
    }
  }

  lemma RecordedConcat(a: seq<Place>, b: seq<Place>, num: seq<nat>, used: seq<nat>)
    requires Recorded(a, num, used) && Recorded(b, num, used)
    ensures Recorded(a + b, num, used)
  {
    hide RecordedAt;
  }

  lemma SameButJoin(a: seq<nat>, b: seq<nat>, c: seq<nat>, s: set<nat>, t: set<nat>)
    requires SameBut(a, b, s) && SameBut(b, c, t)
    ensures SameBut(a, c, s + t)
  {}

  predicate InRange(slots: set<nat>, n: nat) { forall s :: s in slots ==> s < n }

  lemma {:induction false} SeparatePrefix(es: seq<Entity>, n: nat, i: nat)
    requires i < n <= |es| && SeparateAll(es, n)
    ensures SeparateAll(es, i) && Separate(es[i]) && SlotsAll(es, i) !! Slots(es[i])
    ensures SlotsAll(es, i) <= SlotsAll(es, n) && Slots(es[i]) <= SlotsAll(es, n)
    decreases n
  {
    hide Separate, Slots;
    if i < n - 1 {
      SeparatePrefix(es, n - 1, i);
    }
  }

  class MetadataWriter {
    const sectorNum: array<nat>
    const sectorsUsed: array<nat>
    const disk: array<Sector>
    var mapping: map<nat, (nat, nat)>
    var totalFiles: nat
    var totalDirectories: nat

    ghost predicate Valid()
      reads this
    {
      sectorNum.Length == sectorsUsed.Length && sectorNum != sectorsUsed
    }

    constructor (slots: nat, sectors: nat)
      ensures Valid() && sectorNum.Length == slots && disk.Length == sectors && mapping == map[]
      ensures fresh(sectorNum) && fresh(sectorsUsed) && fresh(disk)
    {
      sectorNum := new nat[slots](_ => 0);
      sectorsUsed := new nat[slots](_ => 0);
      disk := new Sector[sectors](_ => Blank);
      mapping, totalFiles, totalDirectories := map[], 0, 0;
    }

    /** IsoWriter::allocateEntity; the parent's sector is read from the parent's field. */
    method AllocateEntity(e: Entity, parentSlot: nat, ghost parent: nat, at: nat) returns (next: nat)
      requires Valid() && Separate(e) && InRange(Slots(e), sectorNum.Length) && parentSlot !in Slots(e)
      requires e.objectId != 0 ==> parentSlot < sectorNum.Length && sectorNum[parentSlot] == parent
      modifies this, sectorNum, sectorsUsed
      ensures Valid() && next == at + Size(e)
      ensures Recorded(Places(e, at, parent), sectorNum[..], sectorsUsed[..])
      ensures SameBut(old(sectorNum[..]), sectorNum[..], Slots(e)) && SameBut(old(sectorsUsed[..]), sectorsUsed[..], Slots(e))
      ensures mapping == Mapped(Places(e, at, parent), old(mapping))
      decreases e, 1
    {
      hide SectorsUsed, Mapped, Recorded, PlacesAll, SlotsAll, SeparateAll, SlotsIn, SameBut, SizeAll;
      if e.File? && e.objectId != 0 {
        totalFiles := totalFiles + 1;
      } else if e.Dir? {
        totalDirectories := totalDirectories + 1;
      }
      AllocateOne(e, parentSlot, parent, at);
      next := at + Own(e);
      match e
      case File(_, _, _, _) =>
        assert Places(e, at, parent) == [Place(e, at, parent)];
      case Dir(slot, _, files, subDirs) =>
        ghost var own, m0 := [Place(e, at, parent)], mapping;
        ghost var num, used := sectorNum[..], sectorsUsed[..];
        ghost var fs := PlacesAll(files, |files|, next, at);
        KidsInRange(e, sectorNum.Length);
        next := AllocateAll(files, slot, at, next);
        ghost var num1, used1 := sectorNum[..], sectorsUsed[..];
        ghost var ds := PlacesAll(subDirs, |subDirs|, next, at);
        SameButAt(num, num1, SlotsAll(files, |files|), slot);
        next := AllocateAll(subDirs, slot, at, next);
        JoinWalks(e, at, parent, num, used, num1, used1, sectorNum[..], sectorsUsed[..]);
        MappedConcat(own, fs, old(mapping));
        MappedConcat(own + fs, ds, old(mapping));
        SameButJoin(old(sectorNum[..]), num, num1, {slot}, SlotsAll(files, |files|));
        SameButJoin(old(sectorsUsed[..]), used, used1, {slot}, SlotsAll(files, |files|));
        SameButJoin(old(sectorNum[..]), num1, sectorNum[..], {slot} + SlotsAll(files, |files|), SlotsAll(subDirs, |subDirs|));
        SameButJoin(old(sectorsUsed[..]), used1, sectorsUsed[..], {slot} + SlotsAll(files, |files|), SlotsAll(subDirs, |subDirs|));
        assert Places(e, at, parent) == own + fs + ds;
    }

    /** The entity's own fields and mapping entry. */
    method AllocateOne(e: Entity, parentSlot: nat, ghost parent: nat, at: nat)
      requires Valid() && e.slot < sectorNum.Length && parentSlot != e.slot
      requires e.objectId != 0 ==> parentSlot < sectorNum.Length && sectorNum[parentSlot] == parent
      modifies this, sectorNum, sectorsUsed
      ensures Valid() && Recorded([Place(e, at, parent)], sectorNum[..], sectorsUsed[..])
      ensures SameBut(old(sectorNum[..]), sectorNum[..], {e.slot}) && SameBut(old(sectorsUsed[..]), sectorsUsed[..], {e.slot})
      ensures mapping == Mapped([Place(e, at, parent)], old(mapping)) && sectorNum[e.slot] == at
    {
      hide SectorsUsed;
      sectorNum[e.slot] := at;
      sectorsUsed[e.slot] := Own(e);
      if e.objectId != 0 {
        mapping := mapping[e.objectId := (sectorNum[parentSlot], sectorNum[e.slot])];
      }
      assert [Place(e, at, parent)][..0] == [];
    }

    /** A loop over a directory's files or subdirectories. */
    method AllocateAll(es: seq<Entity>, parentSlot: nat, ghost parent: nat, at: nat) returns (next: nat)
      requires Valid() && SeparateAll(es, |es|) && InRange(SlotsAll(es, |es|), sectorNum.Length)
      requires parentSlot !in SlotsAll(es, |es|) && parentSlot < sectorNum.Length && sectorNum[parentSlot] == parent
      modifies this, sectorNum, sectorsUsed
      ensures Valid() && next == at + SizeAll(es, |es|)
      ensures Recorded(PlacesAll(es, |es|, at, parent), sectorNum[..], sectorsUsed[..])
      ensures SameBut(old(sectorNum[..]), sectorNum[..], SlotsAll(es, |es|))
      ensures SameBut(old(sectorsUsed[..]), sectorsUsed[..], SlotsAll(es, |es|))
      ensures mapping == Mapped(PlacesAll(es, |es|, at, parent), old(mapping))
      decreases es, 0
    {
      hide Mapped, Recorded, Places, Slots, Separate, SlotsIn, SameBut, Size, SeparateAll;
      ghost var num0, used0 := sectorNum[..], sectorsUsed[..];
      next := at;
      var i := 0;
      NothingWalked(num0, used0, mapping);
      while i < |es|
        invariant 0 <= i <= |es| && Valid() && next == at + SizeAll(es, i) && sectorNum[parentSlot] == parent
        invariant Recorded(PlacesAll(es, i, at, parent), sectorNum[..], sectorsUsed[..])
        invariant SameBut(num0, sectorNum[..], SlotsAll(es, i)) && SameBut(used0, sectorsUsed[..], SlotsAll(es, i))
        invariant mapping == Mapped(PlacesAll(es, i, at, parent), old(mapping))
      {
        ghost var num, used := sectorNum[..], sectorsUsed[..];
        ghost var before, here := PlacesAll(es, i, at, parent), Places(es[i], next, parent);
        SeparatePrefix(es, |es|, i);
        next := AllocateEntity(es[i], parentSlot, parent, next);
        PlacesAllHaveSlots(es, i, at, parent);
        RecordedStays(before, SlotsAll(es, i), Slots(es[i]), num, sectorNum[..], used, sectorsUsed[..]);
        RecordedConcat(before, here, sectorNum[..], sectorsUsed[..]);
        MappedConcat(before, here, old(mapping));
        SameButJoin(num0, num, sectorNum[..], SlotsAll(es, i), Slots(es[i]));
        SameButJoin(used0, used, sectorsUsed[..], SlotsAll(es, i), Slots(es[i]));
        SameButAt(num, sectorNum[..], Slots(es[i]), parentSlot);
        i := i + 1;
      }
    }

    /** The fields of several subtrees, for one directory's list of identifiers. */
    method CollectLinks(es: seq<Entity>, ghost at: nat, ghost parent: nat) returns (links: seq<nat>)
      requires Valid() && Recorded(PlacesAll(es, |es|, at, parent), sectorNum[..], sectorsUsed[..])
      ensures links == Links(es, at)
    {
      hide Recorded, Places, PlacesAll, SizeAll;
      links := [];
      var i := 0;
      while i < |es|
        invariant 0 <= i <= |es| && links == Links(es, at)[..i]
      {
        KidIsRecorded(es, |es|, i, at, parent, sectorNum[..], sectorsUsed[..]);
        links := links + [sectorNum[es[i].slot]];
        i := i + 1;
      }
      assert Links(es, at)[..i] == Links(es, at);
    }

    /** serializeFile: the descriptor writer, sent to the file's sector, writes the entry and its continuations. */
    method SerializeFile(e: Entity, pos: nat) returns (writed: nat)
      requires e.File? && Writable(e, pos) && pos + Own(e) <= disk.Length
      modifies disk
      ensures writed == Own(e)
      ensures disk[..] == old(disk[..pos]) + OwnSectors(e, pos, 0, []) + old(disk[pos + Own(e)..])
    {
      hide SectorsUsed, FileChain;
      ghost var before, chain := disk[..], FileChain(e.head, e.extents, pos);
      var writer := new DescriptorWriter();
      writer.Seek(pos);
      writed := writer.WriteFileEntry(e.head, e.extents);
      AllocatedIsWritten(e.head, e.extents, pos);
      assert writer.sectors == chain;
      var k := 0;
      while k < writed
        invariant 0 <= k <= writed == Own(e) && writer.sectors == chain
        invariant disk[..pos] == before[..pos] && disk[pos + k..] == before[pos + k..]
        invariant forall j :: 0 <= j < k ==> disk[pos + j] == FileWords(chain[j])
      {
        disk[pos + k] := FileWords(writer.sectors[k]);
        k := k + 1;
      }
      assert disk[pos..pos + k] == OwnSectors(e, pos, 0, []);
      assert disk[..] == disk[..pos] + disk[pos..pos + k] + disk[pos + k..];
    }

    /** serializeDir: the entry, then the identifiers of the parent and the children. */
    method SerializeDir(e: Entity, pos: nat, hasParent: bool, parentSlot: nat, ghost parent: nat)
      requires Valid() && e.Dir? && Recorded(Places(e, pos, parent), sectorNum[..], sectorsUsed[..]) && pos + 2 <= disk.Length
      requires if hasParent then parentSlot < sectorNum.Length && sectorNum[parentSlot] == parent else parent == pos
      modifies disk
      ensures disk[..] == old(disk[..pos]) + OwnSectors(e, pos, parent, LinksOf(e, pos)) + old(disk[pos + 2..])
    {
      hide Recorded, SizeAll, PlacesAll, Places, Links;
      DirIsRecorded(e, pos, parent, sectorNum[..], sectorsUsed[..]);
      var fileLinks := CollectLinks(e.files, pos + Own(e), pos);
      var dirLinks := CollectLinks(e.subDirs, pos + Own(e) + SizeAll(e.files, |e.files|), pos);
      disk[pos] := DirEntry(e.slot);
      disk[pos + 1] := DirList(if hasParent then sectorNum[parentSlot] else pos, fileLinks + dirLinks);
    }

    /** FileEntryInfo::serialize: the entity seeks to the sector in its field and writes from there. */
    method Serialize(e: Entity, hasParent: bool, parentSlot: nat, ghost at: nat, ghost parent: nat)
      requires Valid() && Recorded(Places(e, at, parent), sectorNum[..], sectorsUsed[..]) && at + Own(e) <= disk.Length
      requires Writable(e, disk.Length)
      requires if hasParent then parentSlot < sectorNum.Length && sectorNum[parentSlot] == parent else parent == at
      modifies disk
      ensures disk[..] == old(disk[..at]) + OwnPart(e, at, parent) + old(disk[at + Own(e)..])
    {
      hide Recorded, SizeAll, Places, LinksOf, SectorsUsed, FileSectors;
      FirstIsRecorded(e, at, parent, sectorNum[..], sectorsUsed[..]);
      var pos := sectorNum[e.slot];
      if e.File? {
        var writed := SerializeFile(e, pos);
        assert writed == sectorsUsed[e.slot];
      } else {
        SerializeDir(e, pos, hasParent, parentSlot, parent);
      }
    }

    /** IsoWriter::writeEntity. */
    method WriteEntity(e: Entity, hasParent: bool, parentSlot: nat, ghost at: nat, ghost parent: nat)
      requires Valid() && Recorded(Places(e, at, parent), sectorNum[..], sectorsUsed[..]) && at + Size(e) <= disk.Length
      requires Writable(e, disk.Length)
      requires if hasParent then parentSlot < sectorNum.Length && sectorNum[parentSlot] == parent else parent == at
      modifies disk
      ensures disk[..] == old(disk[..at]) + Image(e, at, parent) + old(disk[at + Size(e)..])
      decreases e, 1
    {
      hide *;
      ImageParts(e, at, parent);
      ghost var before := disk[..];
      Serialize(e, hasParent, parentSlot, at, parent);
      if e.Dir? {
        WriteKids(e, before, at, parent);
      }
    }

    /** The two loops of writeEntity, after the directory's own sectors. */
    method WriteKids(e: Entity, ghost before: seq<Sector>, ghost at: nat, ghost parent: nat)
      requires Valid() && e.Dir? && Recorded(Places(e, at, parent), sectorNum[..], sectorsUsed[..])
      requires at + Size(e) <= disk.Length == |before| && Writable(e, disk.Length)
      requires disk[..] == before[..at] + OwnPart(e, at, parent) + before[at + Own(e)..]
      modifies disk
      ensures disk[..] == before[..at] + Image(e, at, parent) + before[at + Size(e)..]
      decreases e, 0
    {
      hide Recorded, SizeAll, Places, PlacesAll, Image, ImageAll, OwnPart, Size, Own, Writable, WritableAll;
      ImageParts(e, at, parent);
      ghost var own, n := OwnPart(e, at, parent), SizeAll(e.files, |e.files|);
      ghost var fs, ds := ImageAll(e.files, |e.files|, at + 2, at), ImageAll(e.subDirs, |e.subDirs|, at + 2 + n, at);
      DirIsRecorded(e, at, parent, sectorNum[..], sectorsUsed[..]);
      KidsWritable(e, disk.Length);
      ghost var mid := disk[..];
      WriteAll(e.files, e.slot, at + 2, at);
      Spliced(before, mid, disk[..], at, own, fs);
      mid := disk[..];
      WriteAll(e.subDirs, e.slot, at + 2 + n, at);
      Spliced(before, mid, disk[..], at, own + fs, ds);
    }

    /** A loop over a directory's children. */
    method WriteAll(es: seq<Entity>, parentSlot: nat, ghost at: nat, ghost parent: nat)
      requires Valid() && Recorded(PlacesAll(es, |es|, at, parent), sectorNum[..], sectorsUsed[..])
      requires parentSlot < sectorNum.Length && sectorNum[parentSlot] == parent && at + SizeAll(es, |es|) <= disk.Length
      requires WritableAll(es, |es|, disk.Length)
      modifies disk
      ensures disk[..] == old(disk[..at]) + ImageAll(es, |es|, at, parent) + old(disk[at + SizeAll(es, |es|)..])
      decreases es, 0
    {
      hide *;
      ghost var before := disk[..];
      var i := 0;
      ImageAllNone(es, at, parent);
      assert before == before[..at] + [] + before[at..];
      while i < |es|
        invariant 0 <= i <= |es|
        invariant at + SizeAll(es, i) <= disk.Length
        invariant disk[..] == before[..at] + ImageAll(es, i, at, parent) + before[at + SizeAll(es, i)..]
      {
        ghost var start, mid, done := at + SizeAll(es, i), disk[..], ImageAll(es, i, at, parent);
        ImageAllSlice(es, |es|, i, at, parent);
        ImageAllStep(es, i, at, parent);
        KidIsRecorded(es, |es|, i, at, parent, sectorNum[..], sectorsUsed[..]);
        WritableOne(es, |es|, disk.Length, i);
        WriteEntity(es[i], true, parentSlot, start, parent);
        Spliced(before, mid, disk[..], at, done, Image(es[i], start, parent));
        i := i + 1;
      }
    }
  }

  function OwnPart(e: Entity, at: nat, parent: nat): (s: seq<Sector>)
    ensures |s| == Own(e)
  {
    if e.File? then OwnSectors(e, at, 0, []) else OwnSectors(e, at, parent, LinksOf(e, at))
  }

  lemma ImageParts(e: Entity, at: nat, parent: nat)
    ensures e.File? ==> Image(e, at, parent) == OwnPart(e, at, parent) && Size(e) == Own(e)
    ensures e.Dir? ==>
              var n, m := SizeAll(e.files, |e.files|), SizeAll(e.subDirs, |e.subDirs|);
              && Own(e) == 2 && Size(e) == 2 + n + m
              && Image(e, at, parent) == OwnPart(e, at, parent) + ImageAll(e.files, |e.files|, at + 2, at)
                                         + ImageAll(e.subDirs, |e.subDirs|, at + 2 + n, at)
  {
    hide SizeAll, ImageAll, LinksOf, SectorsUsed;
  }

  lemma ImageAllNone(es: seq<Entity>, at: nat, parent: nat)
    ensures ImageAll(es, 0, at, parent) == [] && SizeAll(es, 0) == 0
  {}

  lemma ImageAllStep(es: seq<Entity>, i: nat, at: nat, parent: nat)
    requires i < |es|
    ensures ImageAll(es, i + 1, at, parent) == ImageAll(es, i, at, parent) + Image(es[i], at + SizeAll(es, i), parent)
  {
    hide Image, SizeAll;
  }

  /** Writing `x` behind an `a` already written at `at` leaves `a + x` there. */
  lemma Spliced(before: seq<Sector>, mid: seq<Sector>, after: seq<Sector>, at: nat, a: seq<Sector>, x: seq<Sector>)
    requires at + |a| + |x| <= |before|
    requires mid == before[..at] + a + before[at + |a|..]
    requires after == mid[..at + |a|] + x + mid[at + |a| + |x|..]
    ensures after == before[..at] + (a + x) + before[at + |a| + |x|..]
  {}

  lemma RecordedParts(a: seq<Place>, b: seq<Place>, num: seq<nat>, used: seq<nat>)
    requires Recorded(a + b, num, used)
    ensures Recorded(a, num, used) && Recorded(b, num, used)
  {
    hide RecordedAt;
    assert forall i :: 0 <= i < |a| ==> (a + b)[i] == a[i];
    forall i | 0 <= i < |b|
      ensures RecordedAt(b[i], num, used)
    {
      assert (a + b)[|a| + i] == b[i];
    }
  }

  lemma FirstIsRecorded(e: Entity, at: nat, parent: nat, num: seq<nat>, used: seq<nat>)
    requires Recorded(Places(e, at, parent), num, used)
    ensures e.slot < |num| == |used| && num[e.slot] == at && used[e.slot] == Own(e)
  {
    hide PlacesAll, Own, SizeAll;
    assert RecordedAt(Places(e, at, parent)[0], num, used);
  }

  lemma DirIsRecorded(e: Entity, at: nat, parent: nat, num: seq<nat>, used: seq<nat>)
    requires e.Dir? && Recorded(Places(e, at, parent), num, used)
    ensures e.slot < |num| && num[e.slot] == at && Own(e) == 2
    ensures Recorded(PlacesAll(e.files, |e.files|, at + 2, at), num, used)
    ensures Recorded(PlacesAll(e.subDirs, |e.subDirs|, at + 2 + SizeAll(e.files, |e.files|), at), num, used)
  {
    hide PlacesAll, SizeAll, Recorded;
    FirstIsRecorded(e, at, parent, num, used);
    var own := [Place(e, at, parent)];
    var fs, ds := PlacesAll(e.files, |e.files|, at + Own(e), at), PlacesAll(e.subDirs, |e.subDirs|, at + Own(e) + SizeAll(e.files, |e.files|), at);
    assert Places(e, at, parent) == own + (fs + ds);
    RecordedParts(own, fs + ds, num, used);
    RecordedParts(fs, ds, num, used);
  }

  lemma {:induction false} KidIsRecorded(es: seq<Entity>, n: nat, i: nat, at: nat, parent: nat, num: seq<nat>, used: seq<nat>)
    requires i < n <= |es| && Recorded(PlacesAll(es, n, at, parent), num, used)
    ensures Recorded(Places(es[i], at + SizeAll(es, i), parent), num, used)
    ensures es[i].slot < |num| && num[es[i].slot] == at + SizeAll(es, i)
    decreases n
  {
    hide Places, SizeAll, Recorded;
    RecordedParts(PlacesAll(es, n - 1, at, parent), Places(es[n - 1], at + SizeAll(es, n - 1), parent), num, used);
    if i < n - 1 {
      KidIsRecorded(es, n - 1, i, at, parent, num, used);
    } else {
      FirstIsRecorded(es[i], at + SizeAll(es, i), parent, num, used);
    }
  }

  /** The children's slots are in range, and theirs alone. */
  lemma KidsInRange(e: Entity, n: nat)
    requires e.Dir? && Separate(e) && InRange(Slots(e), n)
    ensures InRange(SlotsAll(e.files, |e.files|), n) && InRange(SlotsAll(e.subDirs, |e.subDirs|), n) && e.slot < n
    ensures SeparateAll(e.files, |e.files|) && SeparateAll(e.subDirs, |e.subDirs|)
  {}

  lemma SameButAt(a: seq<nat>, b: seq<nat>, slots: set<nat>, s: nat)
    requires SameBut(a, b, slots) && s !in slots && s < |a|
    ensures a[s] == b[s]
  {}

  lemma NothingWalked(num: seq<nat>, used: seq<nat>, m: map<nat, (nat, nat)>)
    ensures Recorded([], num, used) && SameBut(num, num, {}) && SameBut(used, used, {}) && Mapped([], m) == m
  {}

  /** What the walk over a directory recorded is still there after the walks over its children. */
  lemma JoinWalks(e: Entity, at: nat, parent: nat, num: seq<nat>, used: seq<nat>, num1: seq<nat>, used1: seq<nat>,
                  num2: seq<nat>, used2: seq<nat>)
    requires e.Dir? && Separate(e)
    requires var a, mid := at + Own(e), at + Own(e) + SizeAll(e.files, |e.files|);
             && Recorded([Place(e, at, parent)], num, used)
             && Recorded(PlacesAll(e.files, |e.files|, a, at), num1, used1)
             && Recorded(PlacesAll(e.subDirs, |e.subDirs|, mid, at), num2, used2)
    requires SameBut(num, num1, SlotsAll(e.files, |e.files|)) && SameBut(used, used1, SlotsAll(e.files, |e.files|))
    requires SameBut(num1, num2, SlotsAll(e.subDirs, |e.subDirs|)) && SameBut(used1, used2, SlotsAll(e.subDirs, |e.subDirs|))
    ensures Recorded(Places(e, at, parent), num2, used2)
  {
    hide Recorded, SameBut, PlacesAll, SlotsAll, SlotsIn, SizeAll, SeparateAll;
    var a, mid := at + Own(e), at + Own(e) + SizeAll(e.files, |e.files|);
    var own, fs, ds := [Place(e, at, parent)], PlacesAll(e.files, |e.files|, a, at), PlacesAll(e.subDirs, |e.subDirs|, mid, at);
    SlotsInOne(own[0]);
    PlacesAllHaveSlots(e.files, |e.files|, a, at);
    RecordedStays(own, {e.slot}, SlotsAll(e.files, |e.files|), num, num1, used, used1);
    RecordedStays(own, {e.slot}, SlotsAll(e.subDirs, |e.subDirs|), num1, num2, used1, used2);
    RecordedStays(fs, SlotsAll(e.files, |e.files|), SlotsAll(e.subDirs, |e.subDirs|), num1, num2, used1, used2);
    RecordedConcat(own, fs, num2, used2);
    RecordedConcat(own + fs, ds, num2, used2);
    assert Places(e, at, parent) == own + fs + ds;
  }
}
