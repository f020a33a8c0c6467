/**
  A TrueHD stream with an AC-3 core (tsMuxer/ac3StreamReader.cpp): readPacketTHD lets one core
  packet through for so many TrueHD samples.
  */
module TrueHd {
  import opened Bits

  /** What the packetizer hands out next: nothing yet, an AC-3 frame, or a TrueHD frame. */
  datatype Event = NoData | Ac3(id: nat) | Thd

  /** What a call returns: no packet, a core packet with its time, or a TrueHD packet with the samples before it. */
  datatype Output = Pending | Core(id: nat, pts: int) | Hd(samples: nat)

  datatype Option<T> = None | Some(value: T)

  /** The reader's fields; a delayed packet is one whose buffer is not empty. */
  datatype State = State(wait: bool, delayed: Option<nat>, total: nat, demuxed: nat, nextAc3: int)

  /** Samples in an AC-3 frame and in a TrueHD frame, and the time an AC-3 frame lasts. */
  datatype Params = Params(samples: nat, thdSamples: nat, frameDuration: int)

  predicate Valid(p: Params) { p.samples >= p.thdSamples > 0 }

  const START := State(true, None, 0, 0, 0)

  /** A turn of the loop: the next state, and the packet if the call returns. */
  datatype Turn = Turn(state: State, output: Option<Output>)

  function EmitCore(s: State, id: nat, p: Params): Turn {
    Turn(s.(wait := false, nextAc3 := s.nextAc3 + p.frameDuration), Some(Core(id, s.nextAc3)))
  }

  /** One packet from the packetizer. */
  function Take(s: State, e: Event, p: Params): Turn {
    match e
    case NoData => Turn(s, Some(Pending))
    case Ac3(id) => if s.wait then EmitCore(s, id, p) else Turn(s.(delayed := Some(id)), None)
    case Thd =>
      var demuxed := s.demuxed + p.thdSamples;
      var full := demuxed >= p.samples;
      Turn(s.(total := s.total + p.thdSamples,
              demuxed := if full then demuxed - p.samples else demuxed,
              wait := s.wait || full), Some(Hd(s.total)))
  }

  /** The check at the start of a call: a packet that was delayed is due. */
  function Due(s: State): bool { s.wait && s.delayed.Some? }

  /** readPacketTHD: state, packet, and the events used up; the source ends with no data. */
  datatype Call = Call(state: State, output: Output, used: nat)

  function ReadPacket(s: State, es: seq<Event>, p: Params): (c: Call)
    ensures c.used <= |es|
  {
    if Due(s) then
      var t := EmitCore(s.(delayed := None), s.delayed.value, p);
      Call(t.state, t.output.value, 0)
    else Loop(s, es, p)
  }

  function Loop(s: State, es: seq<Event>, p: Params): (c: Call)
    ensures c.used <= |es|
    decreases |es|
  {
    if es == [] then Call(s, Pending, 0)
    else
      var t := Take(s, es[0], p);
      if t.output.Some? then Call(t.state, t.output.value, 1)
      else
        var c := Loop(t.state, es[1..], p);
        c.(used := c.used + 1)
  }

  // ------------------------------------------------------------------ the accounts of a run

  /** AC-3 frames taken in, core packets let out, frames dropped as overlapped, and times the sample count filled up. */
  datatype Account = Account(taken: nat, emitted: nat, dropped: nat, filled: nat)

  function Held(s: State): nat { if s.delayed.Some? then 1 else 0 }

  /** What the invariant says about the fields and the accounts. */
  predicate Balanced(s: State, a: Account, p: Params) {
    && s.total == a.filled * p.samples + s.demuxed && s.demuxed < p.samples
    && a.emitted + (if s.wait then 1 else 0) <= a.filled + 1
    && a.taken == a.emitted + a.dropped + Held(s)
    && s.nextAc3 == a.emitted * p.frameDuration
  }

  /** The entries one packet makes. */
  function Entered(s: State, a: Account, e: Event, p: Params): Account {
    match e
    case NoData => a
    case Ac3(_) => if s.wait then a.(taken := a.taken + 1, emitted := a.emitted + 1) else a.(taken := a.taken + 1, dropped := a.dropped + Held(s))
    case Thd => if s.demuxed + p.thdSamples >= p.samples then a.(filled := a.filled + 1) else a
  }

  lemma StartBalances(p: Params)
    requires Valid(p)
    ensures Balanced(START, Account(0, 0, 0, 0), p)
  {}

  lemma TakeBalances(s: State, a: Account, e: Event, p: Params)
    requires Valid(p) && Balanced(s, a, p)
    ensures Balanced(Take(s, e, p).state, Entered(s, a, e, p), p)
  {
    assert (a.filled + 1) * p.samples == a.filled * p.samples + p.samples;
    assert (a.emitted + 1) * p.frameDuration == a.emitted * p.frameDuration + p.frameDuration;
  }

  lemma DueBalances(s: State, a: Account, p: Params)
    requires Valid(p) && Balanced(s, a, p) && Due(s)
    ensures Balanced(ReadPacket(s, [], p).state, a.(emitted := a.emitted + 1), p)
  {
    assert (a.emitted + 1) * p.frameDuration == a.emitted * p.frameDuration + p.frameDuration;
  }

  function LoopAccount(s: State, a: Account, es: seq<Event>, p: Params): Account
    decreases |es|
  {
    if es == [] then a
    else
      var t := Take(s, es[0], p);
      if t.output.Some? then Entered(s, a, es[0], p) else LoopAccount(t.state, Entered(s, a, es[0], p), es[1..], p)
  }

  function CallAccount(s: State, a: Account, es: seq<Event>, p: Params): Account {
    if Due(s) then a.(emitted := a.emitted + 1) else LoopAccount(s, a, es, p)
  }

  lemma {:induction false} LoopBalances(s: State, a: Account, es: seq<Event>, p: Params)
    requires Valid(p) && Balanced(s, a, p)
    ensures Balanced(Loop(s, es, p).state, LoopAccount(s, a, es, p), p)
    decreases |es|
  {
    if es != [] {
      hide Balanced, Take, Entered;
      TakeBalances(s, a, es[0], p);
      var t := Take(s, es[0], p);
      if t.output.None? {
        LoopBalances(t.state, Entered(s, a, es[0], p), es[1..], p);
      }
    }
  }

  /** A run: a number of calls over a stream of packets. */
  datatype Progress = Progress(state: State, rest: seq<Event>, account: Account, outputs: seq<Output>)

  function Calls(es: seq<Event>, n: nat, p: Params): (r: Progress)
    ensures |r.rest| <= |es| && |r.outputs| == n
  {
    if n == 0 then Progress(START, es, Account(0, 0, 0, 0), [])
    else
      var b := Calls(es, n - 1, p);
      var c := ReadPacket(b.state, b.rest, p);
      Progress(c.state, b.rest[c.used..], CallAccount(b.state, b.account, b.rest, p), b.outputs + [c.output])
  }

  /** In every run the books balance. */
  lemma {:induction false} RunBalances(es: seq<Event>, n: nat, p: Params)
    requires Valid(p)
    ensures var r := Calls(es, n, p); Balanced(r.state, r.account, p)
  {
    hide Balanced;
    if n == 0 {
      StartBalances(p);
    } else {
      RunBalances(es, n - 1, p);
      var b := Calls(es, n - 1, p);
      if Due(b.state) {
        DueBalances(b.state, b.account, p);
      } else {
        LoopBalances(b.state, b.account, b.rest, p);
      }
    }
  }

  // ------------------------------------------------------------------ what the accounts count

  function Count(es: seq<Event>, e: bool): nat {
    if es == [] then 0
    else Count(es[..|es| - 1], e) + if es[|es| - 1].Ac3? == e && !es[|es| - 1].NoData? then 1 else 0
  }

  function Cores(os: seq<Output>): nat {
    if os == [] then 0 else Cores(os[..|os| - 1]) + if os[|os| - 1].Core? then 1 else 0
  }

  function Hds(os: seq<Output>): nat {
    if os == [] then 0 else Hds(os[..|os| - 1]) + if os[|os| - 1].Hd? then 1 else 0
  }

  lemma {:induction false} CountConcat(a: seq<Event>, b: seq<Event>, e: bool)
    ensures Count(a + b, e) == Count(a, e) + Count(b, e)
  {
    if b == [] {
      assert a + b == a;
    } else {
      CountConcat(a, b[..|b| - 1], e);
      assert (a + b)[..|a + b| - 1] == a + b[..|b| - 1];
    }
  }

  /** What a loop took in and gave out, against its entries. */
  lemma {:induction false} LoopCounts(s: State, a: Account, es: seq<Event>, p: Params)
    ensures var c, b := Loop(s, es, p), LoopAccount(s, a, es, p);
            && b.taken == a.taken + Count(es[..c.used], true)
            && b.emitted == a.emitted + (if c.output.Core? then 1 else 0)
            && c.state.total == s.total + Count(es[..c.used], false) * p.thdSamples
            && Count(es[..c.used], false) == (if c.output.Hd? then 1 else 0)
    decreases |es|
  {
    if es != [] {
      var t := Take(s, es[0], p);
      assert es[..1] == [es[0]];
      if t.output.None? {
        LoopCounts(t.state, Entered(s, a, es[0], p), es[1..], p);
        var c := Loop(t.state, es[1..], p);
        assert es[..c.used + 1] == [es[0]] + es[1..][..c.used];
        CountConcat([es[0]], es[1..][..c.used], true);
        CountConcat([es[0]], es[1..][..c.used], false);
      }
    } else {
      assert es[..0] == [];
    }
  }

  lemma OneMoreOutput(os: seq<Output>, o: Output)
    ensures Cores(os + [o]) == Cores(os) + (if o.Core? then 1 else 0) && Hds(os + [o]) == Hds(os) + (if o.Hd? then 1 else 0)
  {
    assert (os + [o])[..|os|] == os;
  }

  /** The accounts of a run, counted in the packets used up and in the packets returned. */
  predicate Counted(es: seq<Event>, r: Progress, p: Params) {
    && |r.rest| <= |es| && r.rest == es[|es| - |r.rest|..]
    && r.account.taken == Count(es[..|es| - |r.rest|], true)
    && r.account.emitted == Cores(r.outputs)
    && r.state.total == Hds(r.outputs) * p.thdSamples
    && Hds(r.outputs) == Count(es[..|es| - |r.rest|], false)
  }

  lemma CountedAtStart(es: seq<Event>, p: Params)
    ensures Counted(es, Calls(es, 0, p), p)
  {
    assert es[0..] == es && es[..0] == [];
  }

  lemma CallsStep(es: seq<Event>, n: nat, p: Params)
    requires n > 0
    ensures var b, r := Calls(es, n - 1, p), Calls(es, n, p);
            var c := ReadPacket(b.state, b.rest, p);
            r == Progress(c.state, b.rest[c.used..], CallAccount(b.state, b.account, b.rest, p), b.outputs + [c.output])
  {}

  lemma CallCounts(s: State, a: Account, es: seq<Event>, p: Params)
    ensures var c, b := ReadPacket(s, es, p), CallAccount(s, a, es, p);
            && b.taken == a.taken + Count(es[..c.used], true)
            && b.emitted == a.emitted + (if c.output.Core? then 1 else 0)
            && c.state.total == s.total + Count(es[..c.used], false) * p.thdSamples
            && Count(es[..c.used], false) == (if c.output.Hd? then 1 else 0)
  {
    hide Loop, LoopAccount, Count;
    if Due(s) {
      NothingCounted();
      assert es[..0] == [];
    } else {
      LoopCounts(s, a, es, p);
    }
  }

  lemma CountedStep(es: seq<Event>, b: Progress, c: Call, a: Account, p: Params)
    requires Counted(es, b, p) && c.used <= |b.rest|
    requires a.taken == b.account.taken + Count(b.rest[..c.used], true)
    requires a.emitted == b.account.emitted + if c.output.Core? then 1 else 0
    requires c.state.total == b.state.total + Count(b.rest[..c.used], false) * p.thdSamples
    requires Count(b.rest[..c.used], false) == if c.output.Hd? then 1 else 0
    ensures Counted(es, Progress(c.state, b.rest[c.used..], a, b.outputs + [c.output]), p)
  {
    hide Cores, Hds, Count;
    OneMoreOutput(b.outputs, c.output);
    var rest := b.rest[c.used..];
    var done, new_ := es[..|es| - |b.rest|], b.rest[..c.used];
    assert es[..|es| - |rest|] == done + new_;
    CountConcat(done, new_, true);
    CountConcat(done, new_, false);
  }

  lemma {:induction false} AccountsCount(es: seq<Event>, n: nat, p: Params)
    ensures Counted(es, Calls(es, n, p), p)
  {
    hide *;
    if n == 0 {
      CountedAtStart(es, p);
    } else {
      AccountsCount(es, n - 1, p);
      CallsStep(es, n, p);
      var b := Calls(es, n - 1, p);
      CallCounts(b.state, b.account, b.rest, p);
      CountedStep(es, b, ReadPacket(b.state, b.rest, p), CallAccount(b.state, b.account, b.rest, p), p);
    }
  }

  lemma NothingCounted()
    ensures Count([], true) == 0 && Count([], false) == 0
  {}

  // ------------------------------------------------------------------ overlapped frames

  /** The stream alone: whether a core frame is awaited, whether one is held, samples since the last full
      frame, and frames that came while one was held. */
  datatype Flow = Flow(wait: bool, held: bool, samples: nat, overlapped: nat)

  function Through(es: seq<Event>, p: Params): Flow {
    if es == [] then Flow(true, false, 0, 0) else Onward(Through(es[..|es| - 1], p), es[|es| - 1], p)
  }

  /** A frame is let out when it is awaited, held when none is, and lost when there is one already; the
      held one goes out as soon as enough samples have passed. */
  function Onward(f: Flow, e: Event, p: Params): Flow {
    match e
    case NoData => f
    case Ac3(_) =>
      if f.wait then f.(wait := false)
      else if f.held then f.(overlapped := f.overlapped + 1)
      else f.(held := true)
    case Thd =>
      if f.samples + p.thdSamples < p.samples then f.(samples := f.samples + p.thdSamples)
      else Flow(!f.held, false, f.samples + p.thdSamples - p.samples, f.overlapped)
  }

  /** The reader, except that a held frame that is due goes out with the next call. */
  predicate Follows(s: State, a: Account, f: Flow) {
    && f == Flow(s.wait && !Due(s), s.delayed.Some? && !Due(s), s.demuxed, a.dropped)
    && (f.wait ==> !f.held)
  }

  lemma {:induction false} LoopFollows(s: State, a: Account, done: seq<Event>, es: seq<Event>, p: Params)
    requires !Due(s) && Follows(s, a, Through(done, p))
    ensures var c := Loop(s, es, p); Follows(c.state, LoopAccount(s, a, es, p), Through(done + es[..c.used], p))
    decreases |es|
  {
    if es == [] {
      assert done + es[..0] == done;
    } else {
      var t, more := Take(s, es[0], p), done + [es[0]];
      assert more[..|done|] == done;
      assert Through(more, p) == Onward(Through(done, p), es[0], p);
      if t.output.Some? {
        assert done + es[..1] == more;
      } else {
        LoopFollows(t.state, Entered(s, a, es[0], p), more, es[1..], p);
        var c := Loop(t.state, es[1..], p);
        assert done + es[..c.used + 1] == more + es[1..][..c.used];
      }
    }
  }

  /** What was used up of the stream. */
  function Used(es: seq<Event>, r: Progress): seq<Event>
    requires |r.rest| <= |es|
  {
    es[..|es| - |r.rest|]
  }

  lemma UsedStep(es: seq<Event>, b: Progress, r: Progress, used: nat)
    requires |b.rest| <= |es| && b.rest == es[|es| - |b.rest|..] && used <= |b.rest| && r.rest == b.rest[used..]
    ensures Used(es, r) == Used(es, b) + b.rest[..used]
  {}

  lemma {:induction false} CallFollows(s: State, a: Account, done: seq<Event>, es: seq<Event>, p: Params)
    requires Follows(s, a, Through(done, p))
    ensures var c := ReadPacket(s, es, p); Follows(c.state, CallAccount(s, a, es, p), Through(done + es[..c.used], p))
  {
    hide Loop, LoopAccount, Through;
    if Due(s) {
      assert done + es[..0] == done;
    } else {
      LoopFollows(s, a, done, es, p);
    }
  }

  lemma NothingFollows(es: seq<Event>, p: Params)
    ensures var r := Calls(es, 0, p); Follows(r.state, r.account, Through(Used(es, r), p))
  {
    assert es[..0] == [];
  }

  /** In every run the frames counted as dropped are the overlapped ones of the stream used up. */
  lemma {:induction false} DroppedAreOverlapped(es: seq<Event>, n: nat, p: Params)
    ensures var r := Calls(es, n, p); Follows(r.state, r.account, Through(Used(es, r), p))
  {
    hide Follows, Through, ReadPacket, CallAccount, Calls, Count, Cores, Hds;
    if n == 0 {
      NothingFollows(es, p);
    } else {
      DroppedAreOverlapped(es, n - 1, p);
      CallsStep(es, n, p);
      AccountsCount(es, n - 1, p);
      var b, r := Calls(es, n - 1, p), Calls(es, n, p);
      var c := ReadPacket(b.state, b.rest, p);
      CallFollows(b.state, b.account, Used(es, b), b.rest, p);
      UsedStep(es, b, r, c.used);
    }
  }

  /**
    In every run: the TrueHD samples are whole AC-3 frames and a remainder of less than one; there is
    never more than one core packet ahead of them; and every AC-3 frame was let out, overlapped, or is held.
    */
  lemma Interleaving(es: seq<Event>, n: nat, p: Params)
    requires Valid(p)
    ensures var r := Calls(es, n, p);
            var samples, cores, taken := Hds(r.outputs) * p.thdSamples, Cores(r.outputs), Count(Used(es, r), true);
            && r.state.demuxed == samples % p.samples
            && cores + (if r.state.wait then 1 else 0) <= samples / p.samples + 1
            && taken == cores + Through(Used(es, r), p).overlapped + Held(r.state)
            && r.state.nextAc3 == cores * p.frameDuration
  {
    hide Calls, Count, Cores, Hds, Through;
    DroppedAreOverlapped(es, n, p);
    RunBalances(es, n, p);
    AccountsCount(es, n, p);
    var r := Calls(es, n, p);
    DivModUnique(r.state.total, p.samples, r.account.filled, r.state.demuxed);
  }

  // ------------------------------------------------------------------ times and order

  /** The times count the packets before: core packets in frame durations, TrueHD packets in samples. */
  predicate TimeOf(os: seq<Output>, k: nat, p: Params)
    requires k < |os|
  {
    && (os[k].Core? ==> os[k].pts == Cores(os[..k]) * p.frameDuration)
    && (os[k].Hd? ==> os[k].samples == Hds(os[..k]) * p.thdSamples)
  }

  lemma {:induction false} LoopTimes(s: State, es: seq<Event>, p: Params)
    ensures var o := Loop(s, es, p).output;
            (o.Core? ==> o.pts == s.nextAc3) && (o.Hd? ==> o.samples == s.total)
    decreases |es|
  {
    if es != [] {
      var t := Take(s, es[0], p);
      if t.output.None? {
        LoopTimes(t.state, es[1..], p);
      }
    }
  }

  /** In every run each packet is returned with the time of its place. */
  lemma {:induction false} TimesCountPackets(es: seq<Event>, n: nat, p: Params, k: nat)
    requires Valid(p) && k < n
    ensures TimeOf(Calls(es, n, p).outputs, k, p)
  {
    hide Loop, LoopAccount, Cores, Hds, Count, CallAccount, Calls;
    CallsStep(es, n, p);
    var b, r := Calls(es, n - 1, p), Calls(es, n, p);
    if k < n - 1 {
      TimesCountPackets(es, n - 1, p, k);
      assert r.outputs[..k] == b.outputs[..k];
    } else {
      assert r.outputs[..k] == b.outputs;
      RunBalances(es, n - 1, p);
      AccountsCount(es, n - 1, p);
      LoopTimes(b.state, b.rest, p);
    }
  }

  /** The AC-3 frames of the stream are numbered in order, starting no earlier than `low`. */
  predicate Numbered(es: seq<Event>, low: nat)
    decreases |es|
  {
    es == [] || if es[0].Ac3? then low <= es[0].id && Numbered(es[1..], es[0].id + 1) else Numbered(es[1..], low)
  }

  /** Core packets were returned in the order of their frames, each at most once, and all before what is still to come. */
  predicate InOrder(os: seq<Output>, s: State, low: nat) {
    && (forall i, j :: 0 <= i < j < |os| && os[i].Core? && os[j].Core? ==> os[i].id < os[j].id)
    && (forall i :: 0 <= i < |os| && os[i].Core? ==> os[i].id < if s.delayed.Some? then s.delayed.value else low)
    && (s.delayed.Some? ==> s.delayed.value < low)
  }

  lemma {:induction false} LoopInOrder(s: State, es: seq<Event>, p: Params, os: seq<Output>, low: nat) returns (next: nat)
    requires !Due(s) && Numbered(es, low) && InOrder(os, s, low)
    ensures var c := Loop(s, es, p); Numbered(es[c.used..], next) && InOrder(os + [c.output], c.state, next)
    decreases |es|
  {
    next := low;
    if es == [] {
      assert es[0..] == es;
    } else {
      var t := Take(s, es[0], p);
      if es[0].Ac3? {
        next := es[0].id + 1;
      }
      if t.output.None? {
        next := LoopInOrder(t.state, es[1..], p, os, next);
        var c := Loop(t.state, es[1..], p);
        assert es[1..][c.used..] == es[c.used + 1..];
      }
    }
  }

  lemma CallInOrder(s: State, es: seq<Event>, p: Params, os: seq<Output>, low: nat) returns (next: nat)
    requires Numbered(es, low) && InOrder(os, s, low)
    ensures var c := ReadPacket(s, es, p); Numbered(es[c.used..], next) && InOrder(os + [c.output], c.state, next)
  {
    hide Loop, Numbered;
    next := low;
    if Due(s) {
      assert es[0..] == es;
    } else {
      next := LoopInOrder(s, es, p, os, low);
    }
  }

  lemma NoneOutOfOrder(es: seq<Event>, p: Params, low: nat)
    ensures InOrder(Calls(es, 0, p).outputs, Calls(es, 0, p).state, low) && Calls(es, 0, p).rest == es
  {}

  /** The packets returned so far, against those still to come. */
  ghost predicate OrderKept(r: Progress) {
    exists low: nat :: Numbered(r.rest, low) && InOrder(r.outputs, r.state, low)
  }

  /** In every run the core packets come out in the order of their frames, none of them twice. */
  lemma {:induction false} CoresKeepOrder(es: seq<Event>, n: nat, p: Params)
    requires Numbered(es, 0)
    ensures OrderKept(Calls(es, n, p))
  {
    hide Numbered, InOrder, ReadPacket, CallAccount, Calls;
    if n == 0 {
      NoneOutOfOrder(es, p, 0);
    } else {
      CoresKeepOrder(es, n - 1, p);
      CallsStep(es, n, p);
      var b := Calls(es, n - 1, p);
      var low: nat :| Numbered(b.rest, low) && InOrder(b.outputs, b.state, low);
      var next := CallInOrder(b.state, b.rest, p, b.outputs, low);
    }
  }

  // ------------------------------------------------------------------ the latest frame

  /** The AC-3 frame that came last. */
  function LastAc3(es: seq<Event>): Option<nat> {
    if es == [] then None
    else if es[|es| - 1].Ac3? then Some(es[|es| - 1].id)
    else LastAc3(es[..|es| - 1])
  }

  lemma LastAc3OneMore(es: seq<Event>, e: Event)
    ensures LastAc3(es + [e]) == if e.Ac3? then Some(e.id) else LastAc3(es)
  {
    assert (es + [e])[..|es|] == es;
  }

  /** The frame held, if there is one. */
  predicate HoldsLast(s: State, done: seq<Event>) { s.delayed.Some? ==> s.delayed == LastAc3(done) }

  predicate ReturnsLast(o: Output, done: seq<Event>) { o.Core? ==> LastAc3(done) == Some(o.id) }

  lemma {:induction false} LoopTakesLast(s: State, done: seq<Event>, es: seq<Event>, p: Params)
    requires !Due(s) && HoldsLast(s, done)
    ensures var c := Loop(s, es, p); HoldsLast(c.state, done + es[..c.used]) && ReturnsLast(c.output, done + es[..c.used])
    decreases |es|
  {
    if es == [] {
      assert done + es[..0] == done;
    } else {
      var t, more := Take(s, es[0], p), done + [es[0]];
      LastAc3OneMore(done, es[0]);
      if t.output.Some? {
        assert done + es[..1] == more;
      } else {
        LoopTakesLast(t.state, more, es[1..], p);
        var c := Loop(t.state, es[1..], p);
        assert done + es[..c.used + 1] == more + es[1..][..c.used];
      }
    }
  }

  lemma CallTakesLast(s: State, done: seq<Event>, es: seq<Event>, p: Params)
    requires HoldsLast(s, done)
    ensures var c := ReadPacket(s, es, p); HoldsLast(c.state, done + es[..c.used]) && ReturnsLast(c.output, done + es[..c.used])
  {
    hide Loop, LastAc3;
    if Due(s) {
      assert done + es[..0] == done;
    } else {
      LoopTakesLast(s, done, es, p);
    }
  }

  /**
    In every run a frame that is held is the last AC-3 frame of the stream used up, so one that comes
    while another is held takes its place; and every core packet is that last frame when it goes out.
    */
  lemma {:induction false} CoresAreUpToDate(es: seq<Event>, n: nat, p: Params)
    ensures var r := Calls(es, n, p);
            && (r.state.delayed.Some? ==> r.state.delayed == LastAc3(es[..|es| - |r.rest|]))
            && (n > 0 && r.outputs[n - 1].Core? ==> LastAc3(es[..|es| - |r.rest|]) == Some(r.outputs[n - 1].id))
  {
    hide ReadPacket, CallAccount, Calls, Count, Cores, Hds, LastAc3;
    if n == 0 {
      NothingReturned(es, p);
    } else {
      CoresAreUpToDate(es, n - 1, p);
      CallsStep(es, n, p);
      AccountsCount(es, n - 1, p);
      var b, r := Calls(es, n - 1, p), Calls(es, n, p);
      var c := ReadPacket(b.state, b.rest, p);
      CallTakesLast(b.state, Used(es, b), b.rest, p);
      UsedStep(es, b, r, c.used);
    }
  }

  lemma NothingReturned(es: seq<Event>, p: Params)
    ensures Calls(es, 0, p).state.delayed.None?
  {}

  // ------------------------------------------------------------------ the reader

  class TrueHdReader {
    const params: Params
    var input: seq<Event> // what the packetizer has still to hand out
    var thdDemuxWaitAc3: bool
    var delayedAc3: Option<nat> // None stands for the empty buffer
    var totalThdSamples: nat
    var demuxedThdSamples: nat
    var nextAc3Time: int

    ghost function Fields(): State
      reads this
    {
      State(thdDemuxWaitAc3, delayedAc3, totalThdSamples, demuxedThdSamples, nextAc3Time)
    }

    constructor (params: Params, input: seq<Event>)
      ensures this.params == params && this.input == input && Fields() == START
    {
      this.params, this.input := params, input;
      thdDemuxWaitAc3, delayedAc3 := true, None;
      totalThdSamples, demuxedThdSamples, nextAc3Time := 0, 0, 0;
    }

    /** A core packet goes out, stamped with the next time. */
    method Stamp(id: nat) returns (o: Output)
      modifies `thdDemuxWaitAc3, `nextAc3Time
      ensures var t := EmitCore(old(Fields()), id, params); Fields() == t.state && o == t.output.value
    {
      thdDemuxWaitAc3 := false;
      o := Core(id, nextAc3Time);
      nextAc3Time := nextAc3Time + params.frameDuration;
    }

    /** A TrueHD packet goes out, and its samples are counted. */
    method CountSamples() returns (o: Output)
      modifies `totalThdSamples, `demuxedThdSamples, `thdDemuxWaitAc3
      ensures var t := Take(old(Fields()), Thd, params); Fields() == t.state && o == t.output.value
    {
      o := Hd(totalThdSamples);
      totalThdSamples := totalThdSamples + params.thdSamples;
      demuxedThdSamples := demuxedThdSamples + params.thdSamples;
      if demuxedThdSamples >= params.samples {
        demuxedThdSamples := demuxedThdSamples - params.samples;
        thdDemuxWaitAc3 := true;
      }
    }

    /** readPacketTHD. */
    method ReadPacketThd() returns (o: Output)
      modifies this
      ensures var c := ReadPacket(old(Fields()), old(input), params);
              Fields() == c.state && o == c.output && input == old(input)[c.used..]
    {
      if thdDemuxWaitAc3 && delayedAc3.Some? {
        var id := delayedAc3.value;
        delayedAc3 := None;
        o := Stamp(id);
        return;
      }
      ghost var used := 0;
      while true
        invariant used <= |old(input)| && input == old(input)[used..]
        invariant var c, l := Loop(old(Fields()), old(input), params), Loop(Fields(), input, params);
                  c == l.(used := used + l.used)
        decreases |input|
      {
        if input == [] {
          return Pending;
        }
        var e := input[0];
        input := input[1..];
        used := used + 1;
        match e {
          case NoData =>
            return Pending;
          case Ac3(id) =>
            if thdDemuxWaitAc3 {
              o := Stamp(id);
              return;
            }
            delayedAc3 := Some(id);
          case Thd =>
            o := CountSamples();
            return;
        }
      }
    }
  }
}
