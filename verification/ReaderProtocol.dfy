/**
  The worker/consumer protocol of the threaded double-buffered reader
  (tsMuxer/bufferedReader.cpp, tsMuxer/bufferedReader.h and the bounded queue of
  libmediation/containers/safequeue.h).

  One worker thread and one consumer thread share a table of readers and a bounded
  queue of reader identifiers.  Every shared access that the source performs as a unit
  (a critical section, or one unlocked load or store) is one step, and any
  interleaving of enabled steps is a run.  What only the thread itself changes - for the
  consumer m_notified, m_deleted and m_bufferIndex - it loads together with its next access.
  */
module ReaderProtocol {

  type Byte = x: int | 0 <= x < 256

  /** Capacity of the request queue; a push onto a full queue is refused. */
  const QUEUE_MAX_SIZE: nat := 4096

  /** The shared record of one reader, with its stream and three history variables. */
  datatype Reader = Reader(
    file: seq<Byte>,         // the bytes of the stream
    pos: nat,                // how many of them the worker has read
    blocks: seq<seq<Byte>>,  // m_nextBlock[0], m_nextBlock[1]
    index: nat,              // m_bufferIndex
    notified: bool,          // m_notified
    nextSize: int,           // m_nextBlockSize
    deleted: bool,           // m_deleted
    eof: bool,               // m_eof
    atQueue: int,            // m_atQueue
    failed: bool,            // history: some read reported an error
    refused: nat,            // history: requests the full queue refused
    delivered: seq<Byte>,    // history: bytes returned by readBlock with NO_ERROR
    held: int,               // history: index of the block last returned, -1 for none
    heldData: seq<Byte>      // history: what that block contained when it was returned
  )

  datatype Worker =
    | WIdle                            // about to test m_terminated at the head of the loop
    | WWaiting                         // in pop, which returns when the queue is not empty
    | WPopped(id: int)                 // popped an identifier
    | WLooking(id: int)                // saw m_terminated == false
    | WFound(id: int)                  // looked the reader up
    | WFetched(id: int, target: nat)   // loaded m_bufferIndex
    | WReading(id: int, target: nat)   // saw m_deleted == false
    | WRead(id: int, n: int)           // the read returned n
    | WReady(id: int, n: int)          // m_eof is up to date, size not yet published
    | WDone(id: int)                   // published or skipped, m_atQueue not yet decremented
    | WExited

  datatype Consumer =
    | CIdle
    | CTesting(id: int)                                        // in readBlock, about to test the wait condition
    | CSleeping(id: int)                                       // in m_readCond.wait
    | CReady(id: int)                                          // left the wait
    | CCounted(id: int, count: nat)                            // loaded readCnt
    | CRated(id: int, count: nat, atEof: bool, prev: nat)      // loaded rez and prevIndex
    | CFlipped(id: int, count: nat, atEof: bool, prev: nat)    // stored m_bufferIndex
    | CCleared(id: int, count: nat, atEof: bool, prev: nat)    // stored m_nextBlockSize = 0
    | CStopping                                                // in the destructor, m_terminated is set
    | CJoining                                                 // in the destructor, waiting for the worker
    | CGone

  datatype State = State(
    readers: map<int, Reader>,
    queue: seq<int>,
    lastId: nat,
    terminated: bool,
    worker: Worker,
    consumer: Consumer,
    freed: multiset<int>      // history: every delete of a ReaderData
  )

  datatype Step =
    | CreateReader(file: seq<Byte>)
    | BeginRead(rid: int)
    | TestBlock
    | SpuriousWake
    | LoadCount
    | LoadEof
    | Flip
    | ClearSize
    | Return
    | Notify(rid: int, dataRead: nat, threshold: nat)
    | DeleteReader(rid: int)
    | Terminate
    | PushStop
    | Destroy
    | TestLoop
    | Pop
    | TestTerminated
    | GetReader
    | LoadIndex
    | CheckDeleted
    | Read(n: int)
    | StoreEof
    | Publish
    | Finish

  // ------------------------------------------------------------------ behaviour

  const Init := State(map[], [], 0, false, WIdle, CIdle, multiset{})

  function NewReader(file: seq<Byte>): Reader {
    Reader(file, 0, [[], []], 0, false, 0, false, false, 0, false, 0, [], -1, [])
  }

  /** Store `data` over the front of a block, as a read into it does. */
  function Overwrite(old_: seq<Byte>, data: seq<Byte>): (r: seq<Byte>)
    ensures |r| >= |data| && r[..|data|] == data
  {
    data + (if |old_| > |data| then old_[|data|..] else [])
  }

  function Prefix(block: seq<Byte>, n: nat): seq<Byte> {
    if n <= |block| then block[..n] else block
  }

  /** The three statements that queue a request for a reader. */
  function Request(s: State, id: int): State
    requires id in s.readers
  {
    var r := s.readers[id].(notified := true, atQueue := s.readers[id].atQueue + 1);
    if |s.queue| >= QUEUE_MAX_SIZE
    then s.(readers := s.readers[id := r.(refused := r.refused + 1)])
    else s.(readers := s.readers[id := r], queue := s.queue + [id])
  }

  function Free(s: State, id: int): State {
    s.(readers := s.readers - {id}, freed := s.freed + multiset{id})
  }

  /** The reader the consumer is inside readBlock with; 0 is never a reader identifier. */
  function ConsumerId(c: Consumer): int {
    match c
    case CTesting(id) => id
    case CSleeping(id) => id
    case CReady(id) => id
    case CCounted(id, _) => id
    case CRated(id, _, _, _) => id
    case CFlipped(id, _, _, _) => id
    case CCleared(id, _, _, _) => id
    case _ => 0
  }

  /** Whether the step is the next thing its thread does, and what the stream can answer:
      a read returns a positive count up to the bytes left, 0 only at the end, or an error. */
  predicate Enabled(s: State, step: Step) {
    match step
    case CreateReader(_) => s.consumer.CIdle?
    case BeginRead(id) => s.consumer.CIdle? && (id in s.readers ==> !s.readers[id].deleted)
    case TestBlock => s.consumer.CTesting?
    case SpuriousWake => s.consumer.CSleeping?
    case LoadCount => s.consumer.CReady?
    case LoadEof => s.consumer.CCounted?
    case Flip => s.consumer.CRated?
    case ClearSize => s.consumer.CFlipped?
    case Return => s.consumer.CCleared?
    case Notify(id, _, _) => s.consumer.CIdle? && (id in s.readers ==> !s.readers[id].deleted)
    case DeleteReader(_) => s.consumer.CIdle?
    case Terminate => s.consumer.CIdle?
    case PushStop => s.consumer.CStopping?
    case Destroy => s.consumer.CJoining? && s.worker.WExited?
    case TestLoop => s.worker.WIdle?
    case Pop => s.worker.WWaiting? && s.queue != []
    case TestTerminated => s.worker.WPopped?
    case GetReader => s.worker.WLooking?
    case LoadIndex => s.worker.WFound?
    case CheckDeleted => s.worker.WFetched?
    case Read(n) =>
      && s.worker.WReading?
      && (s.worker.id in s.readers ==>
            var r := s.readers[s.worker.id];
            n <= |r.file| - r.pos && (n == 0 ==> r.pos == |r.file|))
    case StoreEof => s.worker.WRead?
    case Publish => s.worker.WReady?
    case Finish => s.worker.WDone?
  }

  /** Whether every record and block the step dereferences exists. */
  predicate Safe(s: State, step: Step) {
    match step
    case TestBlock => s.consumer.CTesting? ==> s.consumer.id in s.readers
    case LoadCount => s.consumer.CReady? ==> s.consumer.id in s.readers
    case LoadEof => s.consumer.CCounted? ==> s.consumer.id in s.readers
    case Flip => s.consumer.CRated? ==> s.consumer.id in s.readers && s.readers[s.consumer.id].index < 2
    case ClearSize => s.consumer.CFlipped? ==> s.consumer.id in s.readers
    case Return =>
      s.consumer.CCleared? ==>
        s.consumer.id in s.readers && s.consumer.prev < |s.readers[s.consumer.id].blocks|
    case LoadIndex => s.worker.WFound? ==> s.worker.id in s.readers
    case CheckDeleted => s.worker.WFetched? ==> s.worker.id in s.readers
    case Read(n) =>
      s.worker.WReading? ==>
        && s.worker.id in s.readers && s.readers[s.worker.id].pos <= |s.readers[s.worker.id].file|
        && s.worker.target < |s.readers[s.worker.id].blocks|
    case StoreEof => s.worker.WRead? ==> s.worker.id in s.readers
    case Publish => s.worker.WReady? ==> s.worker.id in s.readers
    case Finish => s.worker.WDone? ==> s.worker.id in s.readers
    case _ => true
  }

  // The consumer's steps.

  function DoCreate(s: State, file: seq<Byte>): State {
    s.(readers := s.readers[s.lastId + 1 := NewReader(file)], lastId := s.lastId + 1)
  }

  function DoBeginRead(s: State, id: int): State {
    if id !in s.readers then s  // UNKNOWN_READERID
    else if s.readers[id].nextSize == 0 && !s.readers[id].notified
    then Request(s, id).(consumer := CTesting(id))
    else s.(consumer := CTesting(id))
  }

  function DoTestBlock(s: State): State
    requires s.consumer.CTesting? && s.consumer.id in s.readers
  {
    var r := s.readers[s.consumer.id];
    s.(consumer := if r.nextSize == 0 && !r.eof then CSleeping(s.consumer.id) else CReady(s.consumer.id))
  }

  function DoLoadCount(s: State): State
    requires s.consumer.CReady? && s.consumer.id in s.readers
  {
    var size := s.readers[s.consumer.id].nextSize;
    s.(consumer := CCounted(s.consumer.id, if size >= 0 then size else 0))
  }

  function DoLoadEof(s: State): State
    requires s.consumer.CCounted? && s.consumer.id in s.readers
  {
    var r := s.readers[s.consumer.id];
    s.(consumer := CRated(s.consumer.id, s.consumer.count, r.eof, r.index))
  }

  function DoFlip(s: State): State
    requires s.consumer.CRated? && s.consumer.id in s.readers && s.readers[s.consumer.id].index < 2
  {
    var r := s.readers[s.consumer.id];
    s.(readers := s.readers[s.consumer.id := r.(index := 1 - r.index, held := -1)],
       consumer := CFlipped(s.consumer.id, s.consumer.count, s.consumer.atEof, s.consumer.prev))
  }

  function DoClearSize(s: State): State
    requires s.consumer.CFlipped? && s.consumer.id in s.readers
  {
    s.(readers := s.readers[s.consumer.id := s.readers[s.consumer.id].(nextSize := 0)],
       consumer := CCleared(s.consumer.id, s.consumer.count, s.consumer.atEof, s.consumer.prev))
  }

  function Returned(r: Reader, count: nat, atEof: bool, prev: nat): Reader
    requires prev < |r.blocks|
  {
    var block := Prefix(r.blocks[prev], count);
    r.(notified := false, held := prev, heldData := block,
       delivered := if atEof then r.delivered else r.delivered + block)
  }

  function DoReturn(s: State): State
    requires s.consumer.CCleared? && s.consumer.id in s.readers
    requires s.consumer.prev < |s.readers[s.consumer.id].blocks|
  {
    var c := s.consumer;
    s.(readers := s.readers[c.id := Returned(s.readers[c.id], c.count, c.atEof, c.prev)], consumer := CIdle)
  }

  function DoNotify(s: State, id: int, dataRead: nat, threshold: nat): State {
    if id in s.readers && dataRead >= threshold && !s.readers[id].notified then Request(s, id) else s
  }

  function DoDelete(s: State, id: int): State {
    if id !in s.readers then s
    else if s.readers[id].atQueue > 0 then s.(readers := s.readers[id := s.readers[id].(deleted := true)])
    else Free(s, id)
  }

  function DoTerminate(s: State): State {
    s.(terminated := true, consumer := CStopping)
  }

  function DoPushStop(s: State): State {
    s.(consumer := CJoining, queue := if |s.queue| >= QUEUE_MAX_SIZE then s.queue else s.queue + [0])
  }

  function DoDestroy(s: State): State {
    s.(readers := map[], freed := s.freed + multiset(s.readers.Keys), consumer := CGone)
  }

  // The worker's steps.

  function DoTestLoop(s: State): State {
    s.(worker := if s.terminated then WExited else WWaiting)
  }

  function DoPop(s: State): State
    requires s.queue != []
  {
    s.(worker := WPopped(s.queue[0]), queue := s.queue[1..])
  }

  function DoTestTerminated(s: State): State
    requires s.worker.WPopped?
  {
    s.(worker := if s.terminated then WExited else WLooking(s.worker.id))
  }

  function DoGetReader(s: State): State
    requires s.worker.WLooking?
  {
    s.(worker := if s.worker.id in s.readers then WFound(s.worker.id) else WIdle)
  }

  function DoLoadIndex(s: State): State
    requires s.worker.WFound? && s.worker.id in s.readers
  {
    s.(worker := WFetched(s.worker.id, s.readers[s.worker.id].index))
  }

  function DoCheckDeleted(s: State): State
    requires s.worker.WFetched? && s.worker.id in s.readers
  {
    s.(worker := if s.readers[s.worker.id].deleted then WDone(s.worker.id)
                 else WReading(s.worker.id, s.worker.target))
  }

  function Filled(r: Reader, target: nat, n: int): Reader
    requires target < |r.blocks| && r.pos <= |r.file| && n <= |r.file| - r.pos
  {
    if n > 0
    then r.(pos := r.pos + n,
            blocks := r.blocks[target := Overwrite(r.blocks[target], r.file[r.pos..r.pos + n])])
    else r.(failed := r.failed || n < 0)
  }

  function DoRead(s: State, n: int): State
    requires Enabled(s, Read(n)) && Safe(s, Read(n))
  {
    s.(readers := s.readers[s.worker.id := Filled(s.readers[s.worker.id], s.worker.target, n)],
       worker := WRead(s.worker.id, n))
  }

  function DoStoreEof(s: State): State
    requires s.worker.WRead? && s.worker.id in s.readers
  {
    var r := s.readers[s.worker.id];
    s.(readers := s.readers[s.worker.id := r.(eof := r.eof || s.worker.n <= 0)],
       worker := WReady(s.worker.id, s.worker.n))
  }

  function Woken(c: Consumer): Consumer {
    if c.CSleeping? then CTesting(c.id) else c
  }

  function DoPublish(s: State): State
    requires s.worker.WReady? && s.worker.id in s.readers
  {
    s.(readers := s.readers[s.worker.id := s.readers[s.worker.id].(nextSize := s.worker.n)],
       worker := WDone(s.worker.id), consumer := Woken(s.consumer))
  }

  function DoFinish(s: State): State
    requires s.worker.WDone? && s.worker.id in s.readers
  {
    var id := s.worker.id;
    var r := s.readers[id].(atQueue := s.readers[id].atQueue - 1);
    var t := s.(readers := s.readers[id := r], worker := WIdle);
    if r.deleted && r.atQueue == 0 then Free(t, id) else t
  }

  function Apply(s: State, step: Step): State
    requires Enabled(s, step) && Safe(s, step)
  {
    match step
    case CreateReader(file) => DoCreate(s, file)
    case BeginRead(id) => DoBeginRead(s, id)
    case TestBlock => DoTestBlock(s)
    case SpuriousWake => s.(consumer := Woken(s.consumer))
    case LoadCount => DoLoadCount(s)
    case LoadEof => DoLoadEof(s)
    case Flip => DoFlip(s)
    case ClearSize => DoClearSize(s)
    case Return => DoReturn(s)
    case Notify(id, dataRead, threshold) => DoNotify(s, id, dataRead, threshold)
    case DeleteReader(id) => DoDelete(s, id)
    case Terminate => DoTerminate(s)
    case PushStop => DoPushStop(s)
    case Destroy => DoDestroy(s)
    case TestLoop => DoTestLoop(s)
    case Pop => DoPop(s)
    case TestTerminated => DoTestTerminated(s)
    case GetReader => DoGetReader(s)
    case LoadIndex => DoLoadIndex(s)
    case CheckDeleted => DoCheckDeleted(s)
    case Read(n) => DoRead(s, n)
    case StoreEof => DoStoreEof(s)
    case Publish => DoPublish(s)
    case Finish => DoFinish(s)
  }

  // ------------------------------------------------------------------ invariant

  /** The reader whose request the worker is serving. */
  function WorkerId(w: Worker): int {
    match w
    case WPopped(id) => id
    case WLooking(id) => id
    case WFound(id) => id
    case WFetched(id, _) => id
    case WReading(id, _) => id
    case WRead(id, _) => id
    case WReady(id, _) => id
    case WDone(id) => id
    case _ => 0
  }

  /** All that concerns one reader: its record, how often it is queued, and the threads if
      they are busy with it. */
  datatype View = View(r: Reader, queued: nat, w: Worker, c: Consumer, exited: bool) {

    function InProgress(): nat { if w.WIdle? then 0 else 1 }

    /** Requests queued, or popped and not yet published. */
    function Pending(): nat { queued + if w.WIdle? || w.WDone? then 0 else 1 }

    /** The worker has read a block it has not yet published. */
    predicate Fresh() { w.WRead? || w.WReady? }

    predicate Flipped() { c.CFlipped? || c.CCleared? }

    /** The consumer has decided what readBlock will return. */
    predicate Decided() { c.CRated? || c.CFlipped? || c.CCleared? }

    /** A request has been made and its outcome is not yet known to the consumer. */
    predicate Awaiting() { r.notified && r.nextSize == 0 && !c.CCleared? }

    /** Bookkeeping of requests, and indices in range. */
    predicate Counted() {
      && (exited ==> w.WIdle?)
      && (!exited ==> r.atQueue == queued + InProgress() + r.refused)
      && (w.WReading? || w.WFetched? ==> w.target < 2)
      && (Decided() ==> c.prev < 2)
      && |r.blocks| == 2 && r.index < 2 && r.pos <= |r.file|
    }

    /** The block numbered `i` starts with the bytes that follow those already delivered. */
    predicate Holds(i: nat, n: int) {
      && i < |r.blocks|
      && 0 <= n <= |r.blocks[i]|
      && |r.delivered| + n <= |r.file|
      && r.blocks[i][..n] == r.file[|r.delivered|..|r.delivered| + n]
    }

    /** Before the end of the stream has been seen. */
    predicate Live() {
      && r.nextSize >= 0
      && (r.nextSize > 0 ==> r.notified)
      && (c.CCleared? ==> r.notified && r.nextSize == 0)
      && (!exited ==> Pending() + r.refused <= if Awaiting() then 1 else 0)
      && (!exited && !r.deleted && Awaiting() ==> Pending() + r.refused == 1)
      && r.delivered <= r.file
      && r.pos == |r.delivered| + (if Fresh() && w.n > 0 then w.n else if c.CCleared? then c.count else r.nextSize)
      && (Fresh() ==>
            && (w.n > 0 ==> Holds(r.index, w.n))
            && (w.n == 0 ==> r.pos == |r.file|)
            && (w.n < 0 ==> r.failed)
            && (w.WReady? ==> w.n > 0))
      && (r.nextSize > 0 && !Flipped() ==> Holds(r.index, r.nextSize))
      && (w.WFetched? || w.WReading? ==> w.target == r.index)
      && (c.CReady? ==> r.nextSize > 0)
      && (c.CTesting? || c.CSleeping? ==> r.notified)
      && (c.CCounted? ==> c.count == r.nextSize > 0)
      && (Decided() ==>
            && c.count > 0 && !c.atEof
            && (!c.CCleared? ==> c.count == r.nextSize)
            && c.prev == (if Flipped() then 1 - r.index else r.index)
            && Holds(c.prev, c.count))
    }

    /** Once the end of the stream has been seen. */
    predicate Ended() {
      && r.delivered <= r.file
      && (!r.failed ==> r.delivered == r.file && r.pos == |r.file| && (Fresh() ==> w.n == 0))
      && (Decided() ==> c.atEof)
    }

    /** The block the consumer was given last is intact and is not the one being filled. */
    predicate Kept() {
      && -1 <= r.held < 2
      && (r.held != -1 && (!r.eof || !r.failed) ==>
            |r.blocks| == 2 && |r.heldData| <= |r.blocks[r.held]| && r.blocks[r.held][..|r.heldData|] == r.heldData)
      && (r.held != -1 && !r.eof ==> r.held == 1 - r.index && !Flipped())
    }

    /** Someone is going to answer a sleeping consumer. */
    predicate Answered() {
      && (c != CIdle ==> !r.deleted && !exited)
      && (c.CSleeping? ==> Pending() + r.refused > 0)
    }

    predicate Good() {
      Counted() && (if r.eof then Ended() else Live()) && Kept() && Answered()
    }
  }

  function Look(s: State, id: int): View
    requires id in s.readers
  {
    View(s.readers[id], multiset(s.queue)[id],
         if WorkerId(s.worker) == id then s.worker else WIdle,
         if ConsumerId(s.consumer) == id then s.consumer else CIdle,
         s.worker.WExited?)
  }

  ghost predicate TableInv(s: State) {
    && (forall id <- s.readers :: 0 < id <= s.lastId)
    && (forall id :: s.freed[id] == if 0 < id <= s.lastId && id !in s.readers then 1 else 0)
    && (!s.worker.WExited? ==>
          && (forall i :: 0 <= i < |s.queue| ==> s.queue[i] in s.readers || (s.queue[i] == 0 && s.terminated))
          && (s.worker.WPopped? && s.worker.id == 0 ==> s.terminated))
    && (WorkerId(s.worker) in s.readers || s.worker.WIdle? || s.worker.WWaiting? || s.worker.WExited? || s.worker == WPopped(0))
    && (ConsumerId(s.consumer) in s.readers || s.consumer.CIdle? || s.terminated)
    && (s.terminated <==> s.consumer.CStopping? || s.consumer.CJoining? || s.consumer.CGone?)
    && (s.consumer.CJoining? && s.worker.WWaiting? ==> s.queue != [])
    && (s.consumer.CGone? ==> s.readers == map[] && s.worker.WExited?)
    && (s.worker.WExited? ==> s.terminated)
  }

  ghost predicate Inv(s: State) {
    && TableInv(s)
    && (forall id <- s.readers :: Look(s, id).Good())
  }

  // The same steps, seen by the one reader they concern.

  lemma ReturnLocal(v: View)
    requires v.Good() && v.c.CCleared?
    ensures v.(r := Returned(v.r, v.c.count, v.c.atEof, v.c.prev), c := CIdle).Good()
  {
    var n := |v.r.delivered|;
    if !v.r.eof {
      assert v.r.delivered + v.r.file[n..n + v.c.count] == v.r.file[..n + v.c.count];
    }
  }

  function Requested(v: View, refused: bool): View {
    v.(r := v.r.(notified := true, atQueue := v.r.atQueue + 1, refused := v.r.refused + if refused then 1 else 0),
       queued := v.queued + if refused then 0 else 1)
  }

  lemma RequestLocal(v: View, refused: bool, c: Consumer)
    requires v.Good() && v.c.CIdle? && !v.exited && !v.r.notified && !v.r.deleted
    requires c.CIdle? || c.CTesting?
    ensures Requested(v, refused).(c := c).Good()
  {}

  lemma WaitLocal(v: View, c: Consumer)
    requires v.Good()
    requires c == match v.c
                  case CTesting(id) => if v.r.nextSize == 0 && !v.r.eof then CSleeping(id) else CReady(id)
                  case CReady(id) => CCounted(id, if v.r.nextSize >= 0 then v.r.nextSize else 0)
                  case CCounted(id, count) => CRated(id, count, v.r.eof, v.r.index)
                  case _ => Woken(v.c)
    ensures v.(c := c).Good()
  {}

  lemma PopLocal(v: View, id: int)
    requires v.Good() && v.w.WIdle? && v.queued > 0 && !v.exited
    ensures v.(w := WPopped(id), queued := v.queued - 1).Good()
  {}

  lemma ReadLocal(v: View, n: int)
    requires v.Good() && v.w.WReading? && n <= |v.r.file| - v.r.pos && (n == 0 ==> v.r.pos == |v.r.file|)
    ensures v.(r := Filled(v.r, v.w.target, n), w := WRead(v.w.id, n)).Good()
  {}

  lemma PublishLocal(v: View)
    requires v.Good() && v.w.WReady?
    ensures v.(r := v.r.(nextSize := v.w.n), w := WDone(v.w.id), c := Woken(v.c)).Good()
  {}

  // ------------------------------------------------------------------ steps keep it

  lemma InitInv()
    ensures Inv(Init)
  {}

  /** No step ever reaches a record that has been freed or a block that does not exist. */
  lemma StepIsSafe(s: State, step: Step)
    requires Inv(s) && Enabled(s, step)
    ensures Safe(s, step)
  {
    if ConsumerId(s.consumer) in s.readers {
      assert Look(s, ConsumerId(s.consumer)).Good();
    }
    if WorkerId(s.worker) in s.readers {
      assert Look(s, WorkerId(s.worker)).Good();
    }
  }

  lemma CreateKeepsInv(s: State, file: seq<Byte>)
    requires Inv(s) && s.consumer.CIdle?
    ensures Inv(DoCreate(s, file))
  {
    var t := DoCreate(s, file);
    var who := s.lastId + 1;
    forall id | id in t.readers && id != who ensures Look(t, id).Good() {
      assert Look(t, id) == Look(s, id);
    }
  }

  /** A step that changes one record and what the threads are doing about that reader. */
  lemma TouchKeepsInv(s: State, t: State, who: int)
    requires Inv(s) && who in s.readers && who in t.readers
    requires t == s.(readers := s.readers[who := t.readers[who]], worker := t.worker, consumer := t.consumer)
    requires t.worker == s.worker || (WorkerId(s.worker) == who && (t.worker.WIdle? || WorkerId(t.worker) == who))
    requires t.consumer == s.consumer
          || ((s.consumer.CIdle? || ConsumerId(s.consumer) == who) && (t.consumer.CIdle? || ConsumerId(t.consumer) == who))
    requires Look(t, who).Good()
    ensures Inv(t)
  {
    forall id | id in t.readers ensures Look(t, id).Good() {
      if id != who {
        assert Look(t, id) == Look(s, id);
      }
    }
  }

  lemma {:induction false} WaitKeepsInv(s: State, c: Consumer)
    requires Inv(s) && ConsumerId(s.consumer) != 0 && s.consumer.id in s.readers
    requires c == match s.consumer
                  case CTesting(_) => DoTestBlock(s).consumer
                  case CReady(_) => DoLoadCount(s).consumer
                  case CCounted(_, _) => DoLoadEof(s).consumer
                  case _ => Woken(s.consumer)
    ensures Inv(s.(consumer := c))
  {
    hide TableInv, View.Good;
    var t, who := s.(consumer := c), s.consumer.id;
    WaitLocal(Look(s, who), c);
    assert Look(t, who) == Look(s, who).(c := c);
    assert t.readers == s.readers[who := t.readers[who]];
    TouchKeepsInv(s, t, who);
  }

  lemma FlipKeepsInv(s: State)
    requires Inv(s) && Enabled(s, Flip) && Safe(s, Flip)
    ensures Inv(DoFlip(s))
  {
    var t, who := DoFlip(s), s.consumer.id;
    assert Look(t, who) == Look(s, who).(r := t.readers[who], c := t.consumer);
    TouchKeepsInv(s, t, who);
  }

  lemma ClearSizeKeepsInv(s: State)
    requires Inv(s) && Enabled(s, ClearSize) && Safe(s, ClearSize)
    ensures Inv(DoClearSize(s))
  {
    var t, who := DoClearSize(s), s.consumer.id;
    assert Look(t, who) == Look(s, who).(r := t.readers[who], c := t.consumer);
    TouchKeepsInv(s, t, who);
  }

  lemma {:induction false} ReturnKeepsInv(s: State)
    requires Inv(s) && Enabled(s, Return) && Safe(s, Return)
    ensures Inv(DoReturn(s))
  {
    var t, who := DoReturn(s), s.consumer.id;
    ReturnLocal(Look(s, who));
    assert Look(t, who) == Look(s, who).(r := t.readers[who], c := CIdle);
    TouchKeepsInv(s, t, who);
  }

  lemma RequestLook(s: State, id: int, other: int)
    requires id in s.readers && other in s.readers
    ensures other in Request(s, id).readers
    ensures Look(Request(s, id), other) ==
            if other == id then Requested(Look(s, id), |s.queue| >= QUEUE_MAX_SIZE) else Look(s, other)
  {
  }

  lemma {:induction false} RequestKeepsInv(s: State, id: int, c: Consumer)
    requires Inv(s) && s.consumer.CIdle? && id in s.readers && (c == CIdle || c == CTesting(id))
    requires !s.readers[id].deleted && !s.readers[id].notified
    ensures Inv(Request(s, id).(consumer := c))
  {
    hide View.Good;
    var u := Request(s, id);
    var t := u.(consumer := c);
    forall other | other in t.readers ensures Look(t, other).Good() {
      RequestLook(s, id, other);
      if other == id {
        RequestLocal(Look(s, id), |s.queue| >= QUEUE_MAX_SIZE, c);
        assert Look(t, id) == Look(u, id).(c := c);
      } else {
        assert Look(t, other) == Look(u, other);
      }
    }
  }

  lemma {:induction false} BeginReadKeepsInv(s: State, id: int)
    requires Inv(s) && Enabled(s, BeginRead(id))
    ensures Inv(DoBeginRead(s, id))
  {
    if id in s.readers {
      assert Look(s, id).Good();
      if s.readers[id].nextSize == 0 && !s.readers[id].notified {
        RequestKeepsInv(s, id, CTesting(id));
      } else {
        var t := DoBeginRead(s, id);
        assert Look(t, id) == Look(s, id).(c := CTesting(id));
        assert t.readers == s.readers[id := t.readers[id]];
        TouchKeepsInv(s, t, id);
      }
    }
  }

  lemma {:induction false} NotifyKeepsInv(s: State, id: int, dataRead: nat, threshold: nat)
    requires Inv(s) && Enabled(s, Notify(id, dataRead, threshold))
    ensures Inv(DoNotify(s, id, dataRead, threshold))
  {
    if id in s.readers && dataRead >= threshold && !s.readers[id].notified {
      RequestKeepsInv(s, id, CIdle);
      assert Request(s, id).(consumer := CIdle) == Request(s, id);
    }
  }

  lemma {:induction false} DeleteKeepsInv(s: State, id: int)
    requires Inv(s) && s.consumer.CIdle?
    ensures Inv(DoDelete(s, id))
  {
    if id in s.readers {
      var t := DoDelete(s, id);
      if s.readers[id].atQueue > 0 {
        assert Look(t, id) == Look(s, id).(r := t.readers[id]);
        TouchKeepsInv(s, t, id);
      } else {
        FreeKeepsInv(s, id);
      }
    }
  }

  lemma TerminateKeepsInv(s: State)
    requires Inv(s) && s.consumer.CIdle?
    ensures Inv(DoTerminate(s))
  {
    var t := DoTerminate(s);
    forall id | id in t.readers ensures Look(t, id).Good() {
      assert Look(t, id) == Look(s, id);
    }
  }

  lemma PushStopKeepsInv(s: State)
    requires Inv(s) && s.consumer.CStopping?
    ensures Inv(DoPushStop(s))
  {
    var t := DoPushStop(s);
    forall id | id in t.readers ensures Look(t, id).Good() {
      assert Look(t, id) == Look(s, id);
    }
  }

  lemma ExitKeepsViews(s: State)
    requires Inv(s) && s.terminated && (s.worker.WIdle? || s.worker.WPopped?)
    ensures var t := s.(worker := WExited); forall id <- s.readers :: Look(t, id).Good()
  {
    var t := s.(worker := WExited);
    forall id | id in s.readers ensures Look(t, id).Good() {
      assert Look(t, id) == Look(s, id).(w := WIdle, exited := true);
    }
  }

  lemma TestLoopKeepsInv(s: State)
    requires Inv(s) && s.worker.WIdle?
    ensures Inv(DoTestLoop(s))
  {
    if s.terminated {
      ExitKeepsViews(s);
    } else {
      forall id | id in s.readers ensures Look(DoTestLoop(s), id).Good() {
        assert Look(DoTestLoop(s), id) == Look(s, id);
      }
    }
  }

  lemma PopLook(s: State, id: int)
    requires s.worker.WWaiting? && s.queue != [] && id in s.readers && id != 0
    ensures Look(DoPop(s), id) ==
            if id == s.queue[0]
            then Look(s, id).(w := WPopped(id), queued := Look(s, id).queued - 1)
            else Look(s, id)
  {
    assert s.queue == [s.queue[0]] + s.queue[1..];
  }

  lemma PopKeepsInv(s: State)
    requires Inv(s) && s.worker.WWaiting? && s.queue != []
    ensures Inv(DoPop(s))
  {
    forall i | 0 <= i < |s.queue| - 1 ensures s.queue[1..][i] == s.queue[i + 1] {}
    forall id | id in s.readers ensures Look(DoPop(s), id).Good() {
      PopLook(s, id);
      if id == s.queue[0] {
        assert id in s.queue;
        PopLocal(Look(s, id), id);
      }
    }
  }

  lemma {:induction false} TestTerminatedKeepsInv(s: State)
    requires Inv(s) && s.worker.WPopped?
    ensures Inv(DoTestTerminated(s))
  {
    if s.terminated {
      ExitKeepsViews(s);
    } else {
      LookupKeepsInv(s, WLooking(s.worker.id));
    }
  }

  /** The worker's steps up to the load of the buffer index. */
  lemma {:induction false} LookupKeepsInv(s: State, w: Worker)
    requires Inv(s) && (s.worker.WPopped? || s.worker.WLooking? || s.worker.WFound?) && s.worker.id in s.readers
    requires || (s.worker.WPopped? && w == WLooking(s.worker.id))
             || (s.worker.WLooking? && w == WFound(s.worker.id))
             || (s.worker.WFound? && w == WFetched(s.worker.id, s.readers[s.worker.id].index))
    ensures Inv(s.(worker := w))
  {
    var t, who := s.(worker := w), s.worker.id;
    assert Look(s, who).Good();
    assert Look(t, who) == Look(s, who).(w := w);
    assert t.readers == s.readers[who := t.readers[who]];
    TouchKeepsInv(s, t, who);
  }

  lemma CheckDeletedKeepsInv(s: State)
    requires Inv(s) && Enabled(s, CheckDeleted) && Safe(s, CheckDeleted)
    ensures Inv(DoCheckDeleted(s))
  {
    var t, who := DoCheckDeleted(s), s.worker.id;
    assert Look(s, who).Good();
    assert Look(t, who) == Look(s, who).(w := t.worker);
    assert t.readers == s.readers[who := t.readers[who]];
    TouchKeepsInv(s, t, who);
  }

  lemma {:induction false} ReadKeepsInv(s: State, n: int)
    requires Inv(s) && Enabled(s, Read(n)) && Safe(s, Read(n))
    ensures Inv(DoRead(s, n))
  {
    var t, who := DoRead(s, n), s.worker.id;
    ReadLocal(Look(s, who), n);
    assert Look(t, who) == Look(s, who).(r := t.readers[who], w := t.worker);
    TouchKeepsInv(s, t, who);
  }

  lemma {:induction false} StoreEofKeepsInv(s: State)
    requires Inv(s) && Enabled(s, StoreEof) && Safe(s, StoreEof)
    ensures Inv(DoStoreEof(s))
  {
    var t, who := DoStoreEof(s), s.worker.id;
    assert Look(t, who) == Look(s, who).(r := t.readers[who], w := t.worker);
    TouchKeepsInv(s, t, who);
  }

  lemma PublishKeepsInv(s: State)
    requires Inv(s) && s.worker.WReady? && s.worker.id in s.readers
    ensures Inv(DoPublish(s))
  {
    var t, who := DoPublish(s), s.worker.id;
    PublishLocal(Look(s, who));
    assert Look(t, who) == Look(s, who).(r := t.readers[who], w := t.worker, c := Woken(Look(s, who).c));
    forall id | id in t.readers && id != who ensures Look(t, id).Good() {
      assert Look(t, id) == Look(s, id).(c := Woken(Look(s, id).c));
    }
  }

  /** Freeing a record that is neither queued nor in use. */
  lemma FreeKeepsInv(s: State, id: int)
    requires TableInv(s) && id in s.readers
    requires forall other <- s.readers :: other != id ==> Look(s, other).Good()
    requires WorkerId(s.worker) != id && ConsumerId(s.consumer) != id
    requires !s.worker.WExited? ==> id !in s.queue
    ensures Inv(Free(s, id))
  {
    var t := Free(s, id);
    forall other | other in t.readers ensures Look(t, other).Good() {
      assert Look(t, other) == Look(s, other);
    }
  }

  function Decremented(s: State): State
    requires s.worker.WDone? && s.worker.id in s.readers
  {
    var r := s.readers[s.worker.id];
    s.(readers := s.readers[s.worker.id := r.(atQueue := r.atQueue - 1)], worker := WIdle)
  }

  lemma DecrementKeepsInv(s: State)
    requires Inv(s) && s.worker.WDone? && s.worker.id in s.readers
    ensures Inv(Decremented(s))
  {
    var t, who := Decremented(s), s.worker.id;
    assert Look(t, who) == Look(s, who).(r := t.readers[who], w := WIdle);
    TouchKeepsInv(s, t, who);
  }

  lemma {:induction false} FinishKeepsInv(s: State)
    requires Inv(s) && s.worker.WDone? && s.worker.id in s.readers
    ensures Inv(DoFinish(s))
  {
    var who := s.worker.id;
    DecrementKeepsInv(s);
    if s.readers[who].deleted && s.readers[who].atQueue == 1 {
      assert multiset(s.queue)[who] == 0;
      FreeKeepsInv(Decremented(s), who);
    }
  }

  /** Every step keeps the invariant. */
  lemma {:induction false} StepKeepsInv(s: State, step: Step)
    requires Inv(s) && Enabled(s, step) && Safe(s, step)
    ensures Inv(Apply(s, step))
  {
    match step
    case CreateReader(file) => CreateKeepsInv(s, file);
    case BeginRead(id) => BeginReadKeepsInv(s, id);
    case TestBlock => WaitKeepsInv(s, DoTestBlock(s).consumer);
    case SpuriousWake => WaitKeepsInv(s, Woken(s.consumer));
    case LoadCount => WaitKeepsInv(s, DoLoadCount(s).consumer);
    case LoadEof => WaitKeepsInv(s, DoLoadEof(s).consumer);
    case Flip => FlipKeepsInv(s);
    case ClearSize => ClearSizeKeepsInv(s);
    case Return => ReturnKeepsInv(s);
    case Notify(id, dataRead, threshold) => NotifyKeepsInv(s, id, dataRead, threshold);
    case DeleteReader(id) => DeleteKeepsInv(s, id);
    case Terminate => TerminateKeepsInv(s);
    case PushStop => PushStopKeepsInv(s);
    case Destroy => DestroyKeepsInv(s);
    case TestLoop => TestLoopKeepsInv(s);
    case Pop => PopKeepsInv(s);
    case TestTerminated => TestTerminatedKeepsInv(s);
    case GetReader => LookupKeepsInv(s, DoGetReader(s).worker);
    case LoadIndex => LookupKeepsInv(s, DoLoadIndex(s).worker);
    case CheckDeleted => CheckDeletedKeepsInv(s);
    case Read(n) => ReadKeepsInv(s, n);
    case StoreEof => StoreEofKeepsInv(s);
    case Publish => PublishKeepsInv(s);
    case Finish => FinishKeepsInv(s);
  }

  lemma DestroyKeepsInv(s: State)
    requires Inv(s) && Enabled(s, Destroy)
    ensures Inv(DoDestroy(s))
  {
  }

  // ------------------------------------------------------------------ theorems about runs

  /** A run: every step is the next thing its thread does, and a step whose memory accesses
      are all valid has the effect the source gives it.  What an invalid access would do is
      left open, so that validity is proved and not assumed. */
  ghost predicate IsRun(states: seq<State>, steps: seq<Step>) {
    && |states| == |steps| + 1
    && states[0] == Init
    && forall i :: 0 <= i < |steps| ==>
         && Enabled(states[i], steps[i])
         && (Safe(states[i], steps[i]) ==> states[i + 1] == Apply(states[i], steps[i]))
  }

  ghost predicate Reachable(s: State) {
    exists states, steps :: IsRun(states, steps) && states[|steps|] == s
  }

  lemma {:induction false} RunKeepsInv(states: seq<State>, steps: seq<Step>, i: nat)
    requires IsRun(states, steps) && i < |states|
    ensures Inv(states[i])
  {
    if i > 0 {
      RunKeepsInv(states, steps, i - 1);
      StepIsSafe(states[i - 1], steps[i - 1]);
      StepKeepsInv(states[i - 1], steps[i - 1]);
    }
  }

  lemma ReachableInv(s: State)
    requires Reachable(s)
    ensures Inv(s)
  {
    var states, steps :| IsRun(states, steps) && states[|steps|] == s;
    RunKeepsInv(states, steps, |steps|);
  }

  /** Lifetime: in every interleaving no step touches a record after its delete, whatever
      either thread does next. */
  lemma NeverUsedAfterFree(s: State, step: Step)
    requires Reachable(s) && Enabled(s, step)
    ensures Safe(s, step)
  {
    ReachableInv(s);
    StepIsSafe(s, step);
  }

  /** Each record ever created is in the table or has been deleted exactly once. */
  lemma FreedExactlyOnce(s: State, id: int)
    requires Reachable(s)
    ensures s.freed[id] <= 1
    ensures 0 < id <= s.lastId ==> (s.freed[id] == 1 <==> id !in s.readers)
    ensures s.consumer.CGone? && 0 < id <= s.lastId ==> s.freed[id] == 1
  {
    ReachableInv(s);
  }

  /** The bounded queue never holds more than it may. */
  lemma {:induction false} QueueIsBounded(states: seq<State>, steps: seq<Step>, i: nat)
    requires IsRun(states, steps) && i < |states|
    ensures |states[i].queue| <= 4096
  {
    if i > 0 {
      QueueIsBounded(states, steps, i - 1);
      PrefixIsReachable(states, steps, i - 1);
      NeverUsedAfterFree(states[i - 1], steps[i - 1]);
      QueueGrowsByOne(states[i - 1], steps[i - 1]);
    }
  }

  lemma QueueGrowsByOne(s: State, step: Step)
    requires Enabled(s, step) && Safe(s, step) && |s.queue| <= 4096
    ensures |Apply(s, step).queue| <= 4096
  {}

  /** deleteReader frees the record at once if no request is counted, and otherwise marks it. */
  lemma DeleteMarksOrFrees(s: State, id: int)
    requires Reachable(s) && s.consumer.CIdle? && id in s.readers
    ensures var t := Apply(s, DeleteReader(id));
            if s.readers[id].atQueue == 0 then id !in t.readers && t.freed[id] == s.freed[id] + 1
            else id in t.readers && t.readers[id] == s.readers[id].(deleted := true)
  {
    ReachableInv(s);
    assert Look(s, id).Good();
  }

  /** A record that is marked has requests to wait for, as long as there is a worker. */
  predicate Awaited(s: State, id: int) {
    id in s.readers && s.readers[id].deleted && !s.worker.WExited? ==> s.readers[id].atQueue > 0
  }

  lemma StepKeepsAwaited(s: State, step: Step, id: int)
    requires Enabled(s, step) && Safe(s, step) && Awaited(s, id)
    ensures Awaited(Apply(s, step), id)
  {}

  lemma {:induction false} DeletedIsAwaited(states: seq<State>, steps: seq<Step>, i: nat, id: int)
    requires IsRun(states, steps) && i < |states|
    ensures Awaited(states[i], id)
  {
    hide Enabled, Safe, Apply;
    if i > 0 {
      DeletedIsAwaited(states, steps, i - 1, id);
      PrefixIsReachable(states, steps, i - 1);
      NeverUsedAfterFree(states[i - 1], steps[i - 1]);
      StepKeepsAwaited(states[i - 1], steps[i - 1], id);
    }
  }

  /** So, the queue having refused nothing, a marked record is still queued or being served: with the last of its
      requests the worker frees it. */
  lemma DeletedWillBeFreed(states: seq<State>, steps: seq<Step>, i: nat, id: int)
    requires IsRun(states, steps) && i < |states| && id in states[i].readers && states[i].readers[id].deleted
    requires !states[i].worker.WExited? && states[i].readers[id].refused == 0
    ensures var outstanding := multiset(states[i].queue)[id] + if WorkerId(states[i].worker) == id then 1 else 0;
            && outstanding > 0
            && (outstanding == 1 && states[i].worker == WDone(id) ==>
                  Enabled(states[i], Finish) && Safe(states[i], Finish) && id !in Apply(states[i], Finish).readers)
  {
    var s := states[i];
    DeletedIsAwaited(states, steps, i, id);
    PrefixIsReachable(states, steps, i);
    AtQueueCounts(s, id);
  }

  /** The worker has nothing more to read for the reader. */
  predicate Quiet(s: State, id: int) {
    id in s.readers ==> s.readers[id].deleted && !(s.worker.WReading? && s.worker.id == id)
  }

  lemma QuietStays(s: State, step: Step, id: int)
    requires Reachable(s) && Enabled(s, step) && Safe(s, step) && 0 < id <= s.lastId && Quiet(s, id)
    ensures Quiet(Apply(s, step), id) && id <= Apply(s, step).lastId
    ensures id in Apply(s, step).readers ==> id in s.readers && Apply(s, step).readers[id].pos == s.readers[id].pos
  {
    hide Reachable;
  }

  /** Once a reader is marked, its stream is not read any more - but for a read the worker has already decided on. */
  lemma {:induction false} DeletedIsNotRead(states: seq<State>, steps: seq<Step>, i: nat, j: nat, id: int)
    requires IsRun(states, steps) && i <= j < |states| && 0 < id <= states[i].lastId && Quiet(states[i], id)
    ensures Quiet(states[j], id) && id <= states[j].lastId
    ensures id in states[j].readers ==> id in states[i].readers && states[j].readers[id].pos == states[i].readers[id].pos
    decreases j
  {
    hide Enabled, Safe, Apply;
    if i < j {
      DeletedIsNotRead(states, steps, i, j - 1, id);
      PrefixIsReachable(states, steps, j - 1);
      NeverUsedAfterFree(states[j - 1], steps[j - 1]);
      QuietStays(states[j - 1], steps[j - 1], id);
    }
  }

  /** m_atQueue counts the queued requests, the one being served and those the full queue
      refused; it is the number of outstanding requests exactly when none was refused. */
  lemma AtQueueCounts(s: State, id: int)
    requires Reachable(s) && id in s.readers && !s.worker.WExited?
    ensures var r := s.readers[id];
            var outstanding := multiset(s.queue)[id] + if WorkerId(s.worker) == id then 1 else 0;
            && r.atQueue == outstanding + r.refused
            && (r.atQueue == outstanding <==> r.refused == 0)
  {
    ReachableInv(s);
    assert Look(s, id).Good();
  }

  /** Delivery: what readBlock has returned is a prefix of the stream, in order, and the
      end-of-stream flag of a stream without read errors means all of it was returned. */
  lemma DeliveredInOrder(s: State, id: int)
    requires Reachable(s) && id in s.readers
    ensures var r := s.readers[id];
            r.delivered <= r.file && (r.eof && !r.failed ==> r.delivered == r.file)
  {
    ReachableInv(s);
    assert Look(s, id).Good();
  }

  /** What readBlock counts: the bytes published, and none if an error was - which ends the stream. */
  lemma BytesCounted(s: State)
    requires Reachable(s) && s.consumer.CReady?
    ensures Safe(s, LoadCount)
    ensures var r := s.readers[s.consumer.id];
            && (r.nextSize >= 0 ==> Apply(s, LoadCount).consumer == CCounted(s.consumer.id, r.nextSize))
            && (r.nextSize < 0 ==> Apply(s, LoadCount).consumer == CCounted(s.consumer.id, 0) && r.eof)
  {
    ReachableInv(s);
    assert Look(s, s.consumer.id).Good();
  }

  /** Exclusion: while the stream lasts the worker fills neither the block the consumer was
      given last nor a block published and not yet taken, and the consumer's block keeps
      the bytes it had when it was returned. */
  lemma BlocksDoNotClash(s: State, id: int)
    requires Reachable(s) && id in s.readers
    ensures var r := s.readers[id];
            && (s.worker.WReading? && s.worker.id == id && !r.eof ==>
                  s.worker.target != r.held && r.nextSize == 0 && !Look(s, id).Decided())
            && (r.held != -1 && (!r.eof || !r.failed) ==>
                  0 <= r.held < |r.blocks| && r.heldData <= r.blocks[r.held])
  {
    ReachableInv(s);
    assert Look(s, id).Good();
  }

  /** A consumer asleep in readBlock, with no data and the end not seen, has a request queued or in
      progress exactly if the full queue did not refuse it. */
  lemma SleeperIsServed(s: State)
    requires Reachable(s) && s.consumer.CSleeping?
    ensures s.consumer.id in s.readers
    ensures var id := s.consumer.id;
            var r := s.readers[id];
            && (Look(s, id).Pending() > 0 || r.refused > 0)
            && (!r.eof && r.nextSize == 0 ==> (Look(s, id).Pending() > 0 <==> r.refused == 0))
  {
    ReachableInv(s);
    assert Look(s, s.consumer.id).Good();
  }

  /** How many steps the worker needs before the requests now outstanding are published. */
  function Distance(s: State): nat {
    10 * |s.queue| +
    match s.worker
    case WPopped(_) => 9
    case WLooking(_) => 8
    case WFound(_) => 7
    case WFetched(_, _) => 6
    case WReading(_, _) => 5
    case WRead(_, _) => 4
    case WReady(_, _) => 3
    case WDone(_) => 2
    case WIdle => 1
    case _ => 0
  }

  predicate IsWorkerStep(step: Step) {
    || step.TestLoop? || step.Pop? || step.TestTerminated? || step.GetReader? || step.LoadIndex? || step.CheckDeleted?
    || step.Read? || step.StoreEof? || step.Publish? || step.Finish?
  }

  /** Only an empty queue and the end of its loop can keep the worker from going on. */
  lemma NextOfWorker(s: State) returns (step: Step)
    requires Inv(s) && !s.worker.WExited? && (s.worker.WWaiting? ==> s.queue != [])
    ensures IsWorkerStep(step) && Enabled(s, step)
  {
    if s.worker.WReading? {
      assert Look(s, s.worker.id).Good();
    }
    step := match s.worker
      case WIdle => TestLoop
      case WWaiting => Pop
      case WPopped(_) => TestTerminated
      case WLooking(_) => GetReader
      case WFound(_) => LoadIndex
      case WFetched(_, _) => CheckDeleted
      case WReading(_, _) => Read(-1)
      case WRead(_, _) => StoreEof
      case WReady(_, _) => Publish
      case WDone(_) => Finish;
  }

  /** Progress: while the consumer sleeps with its request queued or in progress, the worker has
      a step to take ... */
  lemma SleeperHasHelp(s: State) returns (step: Step)
    requires Reachable(s) && s.consumer.CSleeping?
    requires s.consumer.id in s.readers && Look(s, s.consumer.id).Pending() > 0
    ensures IsWorkerStep(step) && Enabled(s, step)
  {
    ReachableInv(s);
    var id := s.consumer.id;
    assert Look(s, id).Good();
    if s.worker.WWaiting? {
      assert id in s.queue;
    }
    step := NextOfWorker(s);
  }

  lemma WorkerLowersDistance(s: State, step: Step)
    requires IsWorkerStep(step) && Enabled(s, step) && Safe(s, step)
    ensures Distance(Apply(s, step)) < Distance(s)
    ensures Apply(s, step).consumer == s.consumer || (step.Publish? && Apply(s, step).consumer == Woken(s.consumer))
  {
    hide Filled, Woken;
  }

  /** ... and each step the worker takes brings the answer closer. */
  lemma SleeperGetsCloser(s: State, step: Step)
    requires Reachable(s) && IsWorkerStep(step) && Enabled(s, step)
    ensures Safe(s, step) && Distance(Apply(s, step)) < Distance(s)
    ensures Apply(s, step).consumer == s.consumer || (step.Publish? && Apply(s, step).consumer == Woken(s.consumer))
  {
    hide *;
    NeverUsedAfterFree(s, step);
    WorkerLowersDistance(s, step);
  }

  // ------------------------------------------------------------------ the destructor

  /** A bound on the steps of both threads from the moment m_terminated is set. */
  function Remaining(s: State): nat {
    Distance(s) + match s.consumer
                  case CStopping => 12
                  case CJoining => 1
                  case _ => 0
  }

  /** Once m_terminated is set some thread has a step to take until the destructor is through: the 0 it pushes
      wakes a worker that waits on an empty queue, and where the full queue refuses it none waits. */
  lemma ShutdownGoesOn(s: State) returns (step: Step)
    requires Reachable(s) && s.terminated && !s.consumer.CGone?
    ensures Enabled(s, step)
  {
    ReachableInv(s);
    if s.consumer.CStopping? {
      step := PushStop;
    } else if s.worker.WExited? {
      step := Destroy;
    } else {
      step := NextOfWorker(s);
    }
  }

  lemma ShutdownGetsCloser(s: State, step: Step)
    requires Reachable(s) && s.terminated && Enabled(s, step)
    ensures Safe(s, step) && Apply(s, step).terminated && Remaining(Apply(s, step)) < Remaining(s)
  {
    hide Inv, Reachable, Safe;
    OnlyDestructorLeft(s);
    NeverUsedAfterFree(s, step);
    if IsWorkerStep(step) {
      WorkerLowersDistance(s, step);
    }
  }

  lemma OnlyDestructorLeft(s: State)
    requires Reachable(s) && s.terminated
    ensures s.consumer.CStopping? || s.consumer.CJoining? || s.consumer.CGone?
  {
    ReachableInv(s);
  }

  /** A run that cannot go on is one whose destructor has deleted every record left. */
  lemma ShutdownStops(s: State)
    requires Reachable(s) && s.terminated
    ensures (forall step :: !Enabled(s, step)) <==> s.consumer.CGone?
    ensures s.consumer.CGone? ==> s.readers == map[]
  {
    if s.consumer.CGone? {
      ReachableInv(s);
    } else {
      var step := ShutdownGoesOn(s);
    }
  }

  /** So the destructor returns in whatever order the threads take their steps: a run cannot get longer than this
      once m_terminated is set. */
  lemma {:induction false} ShutdownEnds(states: seq<State>, steps: seq<Step>, i: nat, j: nat)
    requires IsRun(states, steps) && i <= j < |states| && states[i].terminated
    ensures states[j].terminated && j - i + Remaining(states[j]) <= Remaining(states[i])
    decreases j
  {
    hide Remaining, Enabled;
    if i < j {
      ShutdownEnds(states, steps, i, j - 1);
      PrefixIsReachable(states, steps, j - 1);
      ShutdownGetsCloser(states[j - 1], steps[j - 1]);
    }
  }

  // ------------------------------------------------------------------ a request that was refused

  /** The step asks for a block of the reader. */
  predicate Requests(s: State, step: Step, id: int) {
    && id in s.readers && !s.readers[id].notified
    && match step
       case BeginRead(rid) => rid == id && s.readers[id].nextSize == 0
       case Notify(rid, dataRead, threshold) => rid == id && dataRead >= threshold
       case _ => false
  }

  /** The reader counts on an answer, and nobody is going to give it. */
  predicate Lost(s: State, id: int) {
    id in s.readers && !s.readers[id].eof && Look(s, id).Awaiting() && Look(s, id).Pending() == 0
  }

  /** Before the end of a stream, a request is lost exactly if the queue is full when it is made. */
  lemma RequestIsLost(s: State, step: Step, id: int)
    requires Reachable(s) && Enabled(s, step) && Requests(s, step, id) && !s.readers[id].eof
    ensures Safe(s, step) && id in Apply(s, step).readers
    ensures var t := Apply(s, step);
            && (Lost(t, id) <==> |s.queue| >= QUEUE_MAX_SIZE)
            && Look(t, id).Pending() == (if |s.queue| >= QUEUE_MAX_SIZE then 0 else 1)
            && t.readers[id].refused == if |s.queue| >= QUEUE_MAX_SIZE then 1 else 0
  {
    ReachableInv(s);
    assert Look(s, id).Good();
    RequestLook(s, id, id);
    var t, u := Apply(s, step), Request(s, id);
    assert Look(t, id) == Look(u, id).(c := Look(t, id).c);
  }

  /** The consumer is inside readBlock for a reader whose request was lost. */
  predicate Forgotten(s: State, id: int) {
    Lost(s, id) && (s.consumer == CTesting(id) || s.consumer == CSleeping(id))
  }

  /** The worker can only be about to count down an earlier request of that reader ... */
  lemma FinishForgets(s: State, id: int)
    requires Inv(s) && s.worker.WDone? && s.worker.id in s.readers && Forgotten(s, id)
    ensures Forgotten(DoFinish(s), id)
  {
    assert Look(s, id).Good();
    var t := DoFinish(s);
    if s.worker.id == id {
      assert Look(t, id) == Look(s, id).(r := t.readers[id], w := WIdle);
    } else {
      assert Look(t, id) == Look(s, id);
    }
  }

  lemma PopForgets(s: State, id: int)
    requires Inv(s) && s.worker.WWaiting? && s.queue != [] && Forgotten(s, id)
    ensures Forgotten(DoPop(s), id)
  {
    assert Look(s, id).Good();
    PopLook(s, id);
    assert s.queue[0] in s.queue;
  }

  /** ... or busy with another one, whose block at most makes the consumer look again. */
  lemma WorkForgets(s: State, t: State, id: int)
    requires Inv(s) && Forgotten(s, id) && WorkerId(s.worker) != id && WorkerId(t.worker) != id
    requires t == s.(readers := t.readers, worker := t.worker, consumer := t.consumer)
    requires id in t.readers && t.readers[id] == s.readers[id] && (t.consumer == s.consumer || t.consumer == Woken(s.consumer))
    ensures Forgotten(t, id)
  {
    assert Look(t, id).(exited := false) == Look(s, id).(c := t.consumer, exited := false);
  }

  lemma WorkerForgets(s: State, step: Step, id: int)
    requires Inv(s) && Enabled(s, step) && Safe(s, step) && Forgotten(s, id) && IsWorkerStep(step)
    ensures Forgotten(Apply(s, step), id)
  {
    if step.Pop? {
      PopForgets(s, id);
    } else if step.Finish? {
      FinishForgets(s, id);
    } else {
      hide *;
      LostIsNotServed(s, id);
      if WorkerId(s.worker) == id {
        DoneOnlyFinishes(s, step);
      } else {
        WorksElsewhere(s, step, id);
        WorkForgets(s, Apply(s, step), id);
      }
    }
  }

  lemma DoneOnlyFinishes(s: State, step: Step)
    requires s.worker.WDone? && Enabled(s, step) && IsWorkerStep(step)
    ensures step.Finish?
  {}

  lemma WorksElsewhere(s: State, step: Step, id: int)
    requires Enabled(s, step) && Safe(s, step) && IsWorkerStep(step) && !step.Pop? && !step.Finish?
    requires id > 0 && id in s.readers && WorkerId(s.worker) != id
    ensures var t := Apply(s, step);
            && t == s.(readers := t.readers, worker := t.worker, consumer := t.consumer) && WorkerId(t.worker) != id
            && id in t.readers && t.readers[id] == s.readers[id] && (t.consumer == s.consumer || t.consumer == Woken(s.consumer))
  {
    hide Filled, Woken;
  }

  lemma LostIsNotServed(s: State, id: int)
    requires Inv(s) && Lost(s, id)
    ensures id > 0 && id in s.readers && (WorkerId(s.worker) == id ==> s.worker.WDone?)
  {}

  /** No step of either thread gets the consumer any further. */
  lemma ForgottenStays(s: State, step: Step, id: int)
    requires Reachable(s) && Enabled(s, step) && Forgotten(s, id)
    ensures Safe(s, step) && Forgotten(Apply(s, step), id)
  {
    NeverUsedAfterFree(s, step);
    ReachableInv(s);
    if IsWorkerStep(step) {
      WorkerForgets(s, step, id);
    } else {
      assert Look(s, id).Good();
      var t := Apply(s, step);
      assert Look(t, id) == Look(s, id).(c := t.consumer);
    }
  }

  /** Whatever happens from then on, readBlock never returns. */
  lemma {:induction false} ForgottenForEver(states: seq<State>, steps: seq<Step>, i: nat, j: nat, id: int)
    requires IsRun(states, steps) && i <= j < |states| && Forgotten(states[i], id)
    ensures Forgotten(states[j], id)
    decreases j
  {
    if i < j {
      ForgottenForEver(states, steps, i, j - 1, id);
      PrefixIsReachable(states, steps, j - 1);
      ForgottenStays(states[j - 1], steps[j - 1], id);
    }
  }

  lemma PrefixIsReachable(states: seq<State>, steps: seq<Step>, i: nat)
    requires IsRun(states, steps) && i < |states|
    ensures Reachable(states[i])
  {
    assert IsRun(states[..i + 1], steps[..i]) && states[..i + 1][|steps[..i]|] == states[i];
  }

  /** Only a request changes the number of refused requests. */
  lemma RefusedStays(s: State, step: Step, id: int)
    requires Reachable(s) && Enabled(s, step) && !Requests(s, step, id) && 0 < id <= s.lastId
    ensures Safe(s, step) && s.lastId <= Apply(s, step).lastId
    ensures id in Apply(s, step).readers ==> id in s.readers && Apply(s, step).readers[id].refused == s.readers[id].refused
  {
    NeverUsedAfterFree(s, step);
  }

  lemma {:induction false} RefusedSince(states: seq<State>, steps: seq<Step>, i: nat, j: nat, id: int)
    requires IsRun(states, steps) && i <= j < |states| && id in states[i].readers && id in states[j].readers
    requires forall k :: i <= k < j ==> !Requests(states[k], steps[k], id)
    ensures states[j].readers[id].refused == states[i].readers[id].refused
    decreases j
  {
    if i < j {
      RunKeepsInv(states, steps, i);
      StaysGone(states, steps, i, j - 1, id);
      PrefixIsReachable(states, steps, j - 1);
      RefusedStays(states[j - 1], steps[j - 1], id);
      RefusedSince(states, steps, i, j - 1, id);
    }
  }

  /** Identifiers are not given twice. */
  lemma {:induction false} StaysGone(states: seq<State>, steps: seq<Step>, i: nat, j: nat, id: int)
    requires IsRun(states, steps) && i <= j < |states| && 0 < id <= states[i].lastId
    ensures id <= states[j].lastId
    decreases j
  {
    if i < j {
      StaysGone(states, steps, i, j - 1, id);
      PrefixIsReachable(states, steps, j - 1);
      NeverUsedAfterFree(states[j - 1], steps[j - 1]);
    }
  }

  /** A read of the reader's stream that reports an error. */
  predicate ReadFails(s: State, step: Step, id: int) {
    step.Read? && step.n < 0 && s.worker.WReading? && s.worker.id == id
  }

  lemma FailsByReading(s: State, step: Step, id: int)
    requires Reachable(s) && Enabled(s, step) && Safe(s, step) && id in Apply(s, step).readers
    ensures id in s.readers ==> (Apply(s, step).readers[id].failed <==> s.readers[id].failed || ReadFails(s, step, id))
    ensures id !in s.readers ==> id == s.lastId + 1 && !Apply(s, step).readers[id].failed
    ensures ReadFails(s, step, id) ==> 0 < id <= s.lastId
  {
    hide Reachable;
    IdsAreKnown(s, id);
  }

  lemma IdsAreKnown(s: State, id: int)
    requires Reachable(s)
    ensures id in s.readers ==> 0 < id <= s.lastId
    ensures s.worker.WReading? && s.worker.id == id ==> id in s.readers
  {
    ReachableInv(s);
  }

  /** The history of errors: a reader has failed exactly if a read of its stream has. */
  lemma {:induction false} FailedExactly(states: seq<State>, steps: seq<Step>, i: nat, id: int)
    requires IsRun(states, steps) && i < |states| && id in states[i].readers
    ensures states[i].readers[id].failed <==> exists k :: 0 <= k < i && ReadFails(states[k], steps[k], id)
    decreases i
  {
    hide Enabled, Safe, Apply, ReadFails, Reachable;
    if i > 0 {
      var s, step := states[i - 1], steps[i - 1];
      PrefixIsReachable(states, steps, i - 1);
      NeverUsedAfterFree(s, step);
      FailsByReading(s, step, id);
      if id in s.readers {
        FailedExactly(states, steps, i - 1, id);
      } else {
        forall k | 0 <= k < i
          ensures !ReadFails(states[k], steps[k], id)
        {
          PrefixIsReachable(states, steps, k);
          NeverUsedAfterFree(states[k], steps[k]);
          FailsBeforeItIsThere(states, steps, k, i - 1, id);
        }
      }
    }
  }

  lemma FailsBeforeItIsThere(states: seq<State>, steps: seq<Step>, k: nat, j: nat, id: int)
    requires IsRun(states, steps) && k <= j < |steps| && id > states[j].lastId
    ensures !ReadFails(states[k], steps[k], id)
  {
    hide Apply;
    if ReadFails(states[k], steps[k], id) {
      RunKeepsInv(states, steps, k);
      StaysGone(states, steps, k, j, id);
      assert false;
    }
  }

  /**
    So whether a sleeping consumer is going to be served was decided when its reader's last request
    was made: exactly if the queue had room then.
    */
  lemma SleeperWasServed(states: seq<State>, steps: seq<Step>, i: nat, j: nat, id: int)
    requires IsRun(states, steps) && i < j < |states|
    requires Requests(states[i], steps[i], id) && !states[i].readers[id].eof
    requires forall k :: i < k < j ==> !Requests(states[k], steps[k], id)
    requires states[j].consumer == CSleeping(id)
    requires id in states[j].readers && !states[j].readers[id].eof && states[j].readers[id].nextSize == 0
    ensures Look(states[j], id).Pending() > 0 <==> |states[i].queue| < QUEUE_MAX_SIZE
    ensures Forgotten(states[j], id) <==> |states[i].queue| >= QUEUE_MAX_SIZE
  {
    PrefixIsReachable(states, steps, i);
    PrefixIsReachable(states, steps, j);
    RequestIsLost(states[i], steps[i], id);
    RefusedSince(states, steps, i + 1, j, id);
    SleeperIsServed(states[j]);
    ReachableInv(states[j]);
    assert Look(states[j], id).Good();
  }

  // ------------------------------------------------------------------ when a request is refused

  ghost predicate Distinct(q: seq<int>) {
    forall i, j :: 0 <= i < j < |q| ==> q[i] != q[j]
  }

  lemma {:induction false} DistinctFits(q: seq<int>, keys: set<int>)
    requires Distinct(q) && forall i :: 0 <= i < |q| ==> q[i] in keys
    ensures |q| <= |keys|
  {
    if q != [] {
      DistinctFits(q[1..], keys - {q[0]});
    }
  }

  lemma OccursOnce(q: seq<int>, i: nat, j: nat)
    requires i < j < |q| && q[i] == q[j]
    ensures multiset(q)[q[i]] >= 2
  {
    assert q == q[..j] + q[j..];
    assert multiset(q) == multiset(q[..j]) + multiset(q[j..]);
    assert q[i] in q[..j] && q[j] in q[j..];
  }

  /** No request is refused while fewer than QUEUE_MAX_SIZE readers exist and none of them
      has reached the end of its stream. */
  lemma QueueHasRoom(s: State)
    requires Reachable(s) && !s.terminated
    requires |s.readers| < QUEUE_MAX_SIZE && forall id <- s.readers :: !s.readers[id].eof
    ensures |s.queue| < QUEUE_MAX_SIZE
  {
    ReachableInv(s);
    forall i, j | 0 <= i < j < |s.queue| ensures s.queue[i] != s.queue[j] {
      assert Look(s, s.queue[i]).Good();
      if s.queue[i] == s.queue[j] {
        OccursOnce(s.queue, i, j);
      }
    }
    DistinctFits(s.queue, s.readers.Keys);
  }

  /** The state a finished stream is left in when the consumer outruns the worker. */
  ghost predicate Spinning(s: State, id: int) {
    && Reachable(s) && s.consumer.CIdle? && id in s.readers
    && var r := s.readers[id]; r.eof && !r.deleted && !r.notified && r.nextSize == 0
  }

  lemma ReachableStep(s: State, step: Step)
    requires Reachable(s) && Enabled(s, step)
    ensures Safe(s, step) && Reachable(Apply(s, step))
  {
    NeverUsedAfterFree(s, step);
    var states, steps :| IsRun(states, steps) && states[|steps|] == s;
    var states' := states + [Apply(s, step)];
    var steps' := steps + [step];
    assert IsRun(states', steps') && states'[|steps'|] == Apply(s, step);
  }

  /** readBlock on a stream whose end has been seen returns at once. */
  lemma ReturnAtEof(s: State, id: int) returns (t: State)
    requires Reachable(s) && s.consumer == CTesting(id)
    requires id in s.readers && s.readers[id].eof && s.readers[id].nextSize == 0
    ensures Spinning(t, id)
    ensures t.worker == s.worker && t.queue == s.queue && t.readers[id].refused == s.readers[id].refused
  {
    ReachableInv(s);
    assert Look(s, id).Good();
    t := s;
    ReachableStep(t, TestBlock); t := Apply(t, TestBlock);
    ReachableStep(t, LoadCount); t := Apply(t, LoadCount);
    ReachableStep(t, LoadEof); t := Apply(t, LoadEof);
    ReachableStep(t, Flip); t := Apply(t, Flip);
    ReachableStep(t, ClearSize); t := Apply(t, ClearSize);
    ReachableStep(t, Return); t := Apply(t, Return);
  }

  /** Each such call leaves one more request behind, or is refused by the full queue. */
  lemma LapQueuesAgain(s: State, id: int) returns (t: State)
    requires Spinning(s, id)
    ensures Spinning(t, id)
    ensures t.worker == s.worker
    ensures t.queue == if |s.queue| >= QUEUE_MAX_SIZE then s.queue else s.queue + [id]
    ensures t.readers[id].refused == s.readers[id].refused + if |s.queue| >= QUEUE_MAX_SIZE then 1 else 0
  {
    ReachableStep(s, BeginRead(id));
    t := ReturnAtEof(Apply(s, BeginRead(id)), id);
  }

  lemma SpinUntilRefused(s: State, id: int) returns (t: State)
    requires Spinning(s, id)
    ensures Spinning(t, id) && t.readers[id].refused > 0 && t.worker == s.worker && |t.queue| >= QUEUE_MAX_SIZE
    decreases QUEUE_MAX_SIZE - |s.queue|
  {
    t := LapQueuesAgain(s, id);
    if |s.queue| < QUEUE_MAX_SIZE {
      t := SpinUntilRefused(t, id);
    }
  }

  /** The first request on an empty stream ... */
  lemma EmptyStreamRequested() returns (s: State)
    ensures Reachable(s)
    ensures s == State(map[1 := NewReader([]).(notified := true, atQueue := 1)], [1], 1, false,
                       WIdle, CTesting(1), multiset{})
  {
    var none: seq<Step> := [];
    assert IsRun([Init], none) && [Init][|none|] == Init;
    ReachableStep(Init, CreateReader([]));
    s := Apply(Init, CreateReader([]));
    ReachableStep(s, BeginRead(1)); s := Apply(s, BeginRead(1));
  }

  lemma EmptyStreamLooked() returns (s: State)
    ensures Reachable(s)
    ensures s == State(map[1 := NewReader([]).(notified := true, atQueue := 1)], [], 1, false,
                       WLooking(1), CTesting(1), multiset{})
  {
    s := EmptyStreamRequested();
    ReachableStep(s, TestLoop); s := Apply(s, TestLoop);
    ReachableStep(s, Pop); s := Apply(s, Pop);
    ReachableStep(s, TestTerminated); s := Apply(s, TestTerminated);
  }

  lemma EmptyStreamFetched() returns (s: State)
    ensures Reachable(s)
    ensures s == State(map[1 := NewReader([]).(notified := true, atQueue := 1)], [], 1, false,
                       WReading(1, 0), CTesting(1), multiset{})
  {
    s := EmptyStreamLooked();
    ReachableStep(s, GetReader); s := Apply(s, GetReader);
    ReachableStep(s, LoadIndex); s := Apply(s, LoadIndex);
    ReachableStep(s, CheckDeleted); s := Apply(s, CheckDeleted);
  }

  /** ... and how the worker serves it, up to the store of m_eof. */
  lemma EmptyStreamEnds() returns (s: State)
    ensures Reachable(s) && s.worker == WReady(1, 0) && s.consumer == CTesting(1)
    ensures 1 in s.readers && s.readers[1].eof && s.readers[1].nextSize == 0
  {
    s := EmptyStreamFetched();
    ReachableStep(s, Read(0)); s := Apply(s, Read(0));
    ReachableStep(s, StoreEof); s := Apply(s, StoreEof);
  }

  /** The refusal is real: some run reaches a state in which m_atQueue exceeds the number of
      outstanding requests, so that a later delete of that reader is put off to the
      destructor.  Its stream is empty and its owner keeps calling readBlock. */
  lemma RefusalHappens() returns (s: State)
    ensures Reachable(s) && !s.worker.WExited? && 1 in s.readers
    ensures s.readers[1].atQueue > multiset(s.queue)[1] + if WorkerId(s.worker) == 1 then 1 else 0
  {
    s := EmptyStreamEnds();
    s := ReturnAtEof(s, 1);
    s := SpinUntilRefused(s, 1);
    AtQueueCounts(s, 1);
  }

  /** And so is the hang: while the queue is full, the first readBlock on any new stream sleeps for ever. */
  lemma SleepsForEver(file: seq<Byte>) returns (s: State, id: int)
    ensures Reachable(s) && s.consumer == CSleeping(id) && Forgotten(s, id)
    ensures s.readers[id] == NewReader(file).(notified := true, atQueue := 1, refused := 1)
  {
    s := EmptyStreamEnds();
    s := ReturnAtEof(s, 1);
    s := SpinUntilRefused(s, 1);
    id := s.lastId + 1;
    ReachableInv(s);
    ReachableStep(s, CreateReader(file)); s := Apply(s, CreateReader(file));
    RequestIsLost(s, BeginRead(id), id);
    ReachableStep(s, BeginRead(id)); s := Apply(s, BeginRead(id));
    ReachableStep(s, TestBlock); s := Apply(s, TestBlock);
  }
}
