/** Whole sessions: firmware to bytes, and bytes back to firmware state. */
module Recordings {
  import opened Basics
  import opened Trace
  import opened Stream
  import opened TraceReading
  import opened TraceWriting
  import opened RxPump
  import opened Replaying
  import opened Firmware
  import opened Session
  import opened Timelines
  import opened WritesOff
  import opened Verdicts
  import opened Transcript
  import opened Pipeline
  import opened Ring
  import opened Loading
  import Codec
  import Crc32
  import Grammar
  import Seeking
  import Navigation
  import Playback

  const BLOCK_BUFFER_BYTES := 256

  // ----- recording

  /** What reaches the trace of a list of calls on the writer: without the flag, writes do not. */
  function Kept(es: seq<Event>, flags: u16): seq<Event> {
    Heard(es, flags % 2 == 1)
  }

  /** A trace that loads as the recording of the run that ended in `w`. */
  ghost predicate LoadsAsRun<D>(data: Bytes, h: Header, ops: HalOps<D>, w: World<D>) {
    |data| < TWO_32 && Replaying.Load(data) == Ready(h, Start(Kept(Recording(ops, w), h.flags), h.flags % 2 == 1))
  }

  lemma KeptSnoc(es: seq<Event>, e: Event, flags: u16)
    ensures Kept(es + [e], flags) == Kept(es, flags) + (if e.kind.MmioWrite? && flags % 2 == 0 then [] else [e])
  {
    InputsSnoc(es, e);
  }

  /** The next event of an ordered list is acceptable after the ones before it. */
  lemma NextAcceptable(es: seq<Event>, i: nat)
    requires Recordable(START, es) && i < |es|
    ensures WellFormed(es[i]) && AdvanceAll(START, es[..i]).ts <= es[i].ts
    ensures AdvanceAll(START, es[..i + 1]).ts == es[i].ts
  {
    assert es == es[..i] + es[i..] && es[i..] == [es[i]] + es[i + 1..] && es[..i + 1] == es[..i] + [es[i]];
    RecordableSplit(START, es[..i], es[i..]);
    assert [es[i]][1..] == [];
    RecordableConcat(START, es[..i], [es[i]]);
  }

  datatype RecordResult = RecordResult(trace: Bytes, fw: State, healthy: bool)

  /**
   * Records a run on any backend with a clock: the trace loads as exactly what crossed the shim,
   * then EV_STOP, with the writes only if the flag asks for them.
   */
  method RecordRun<D(!new)>(ops: HalOps<D>, ctx: D, variant: Variant, iters: nat, seed: u64, flags: u16)
    returns (r: RecordResult)
    requires Terminating(ops) && Monotone(ops) && ops.now(Recorded(ops, variant, ctx, 0, iters).ctx) < TWO_64
    ensures var w := Recorded(ops, variant, ctx, 0, iters);
            && r.healthy && r.fw == w.fw
            && (|r.trace| < TWO_32 ==> LoadsAsRun(r.trace, Header(VERSION, flags, BuildIdFor(variant), seed), ops, w))
  {
    var board := new Board(ops, ctx);
    hide Run, Terminating, Monotone;
    board.RxPumpRun(variant, iters);
    ghost var w := Recorded(ops, variant, ctx, 0, iters);
    RunOrdered(ops, variant, ctx, 0, iters);
    var trace, ok := WriteTrace(board.log, ops.now(board.ctx), Header(VERSION, flags, BuildIdFor(variant), seed));
    r := RecordResult(trace, board.Fw(), ok);
  }

  /** Feeds the calls to a writer whose sink keeps everything, and finishes the trace. */
  method WriteTrace(log: seq<Event>, end: u64, h: Header) returns (trace: Bytes, ok: bool)
    requires Ordered(0, log, end) && h.version == VERSION
    ensures ok && (|trace| < TWO_32 ==>
              Replaying.Load(trace) == Ready(h, Start(Kept(log + [Event(Stop, end, 0, 0)], h.flags), h.flags % 2 == 1)))
  {
    hide Ordered, Kept, Replaying.Load, EncodeHeader, Frames, Sound, Flatten, Codec.Visible, Delivers, ReadTrace, PutU32, Callable, OfferAll;
    LogTaken(log, end, h.flags);
    KeptSnoc(log, Event(Stop, end, 0, 0), h.flags);
    var sink := new Sink.Callback(_ => true);
    var buffer := new u8[BLOCK_BUFFER_BYTES](_ => 0);
    ghost var blocks;
    ok, blocks := Transcribe(sink, buffer, log, end, h);
    trace := sink.out;
    if |trace| < TWO_32 {
      LoadsAs(trace, h, blocks);
    }
  }

  /** A writer takes all of an ordered log, writes only if flagged. */
  lemma LogTaken(log: seq<Event>, end: nat, flags: u16)
    requires Ordered(0, log, end) && end < TWO_64
    ensures forall e | e in log :: Callable(e)
    ensures var i := OfferAll(OPENED, log, flags);
            i.ok && i.last <= end && i.events == Kept(log, flags)
  {
    hide Ordered, Recordable, AdvanceAll, OfferAll, Kept;
    OrderedRecordable(START, log, end);
    forall e | e in log
      ensures Callable(e)
    {
      var k :| 0 <= k < |log| && log[k] == e;
      NextAcceptable(log, k);
      OrderedKinds(0, log, end, k);
    }
    FrontTaken(log, |log|, flags);
    assert log[..|log|] == log;
  }

  lemma {:induction false} FrontTaken(log: seq<Event>, k: nat, flags: u16)
    requires Recordable(START, log) && k <= |log|
    ensures var i := OfferAll(OPENED, log[..k], flags);
            i.ok && i.last <= AdvanceAll(START, log[..k]).ts && i.events == Kept(log[..k], flags)
    decreases k
  {
    hide Recordable, AdvanceAll, Kept, OfferAll;
    if k == 0 {
      FirstTaken(flags);
    } else {
      FrontTaken(log, k - 1, flags);
      NextAcceptable(log, k - 1);
      KeptSnoc(log[..k - 1], log[k - 1], flags);
      OfferSnoc(OPENED, log[..k - 1], log[k - 1], flags);
      assert log[..k] == log[..k - 1] + [log[k - 1]];
    }
  }

  lemma FirstTaken(flags: u16)
    ensures OfferAll(OPENED, [], flags) == OPENED && Kept([], flags) == [] && AdvanceAll(START, []).ts == 0
  {
  }

  lemma {:induction false} OrderedKinds(p: nat, es: seq<Event>, limit: nat, i: nat)
    requires Ordered(p, es, limit) && i < |es|
    ensures es[i].kind in {Kind.MmioRead, Kind.MmioWrite, Kind.IrqEnter}
    decreases |es|
  {
    if i > 0 {
      OrderedKinds(es[0].ts, es[1..], limit, i - 1);
    }
  }

  lemma LoadsAs(trace: Bytes, h: Header, blocks: seq<Block>)
    requires |trace| < TWO_32 && h.version == VERSION && Sound(blocks) && AllAccepted(blocks)
    requires trace == EncodeHeader(h.flags, h.buildId, h.seed) + Frames(blocks) + PutU32(0)
    ensures Replaying.Load(trace) == Ready(h, Start(Flatten(blocks), h.flags % 2 == 1))
  {
    hide EncodeHeader, Frames, Sound, Flatten, ReadTrace, Codec.BetweenBlocks;
    Codec.RoundTrip(trace, h, blocks, PutU32(0));
    BoundaryHeader(h, blocks);
  }

  lemma BoundaryHeader(h: Header, blocks: seq<Block>)
    requires Sound(blocks)
    ensures Codec.BetweenBlocks(h, blocks).header == h && Codec.BetweenBlocks(h, blocks).error.None?
  {
  }

  // ----- replaying

  datatype Rejection = TooLarge | Unreadable(reason: ReadError) | UnknownBuild

  datatype ReplayResult = Rejected(why: Rejection) | Completed(fw: State, diverged: bool, consumed: nat, total: nat)

  /** A replay of a trace by a given build. */
  function OutcomeAs(data: Bytes, variant: Variant, iters: nat): ReplayResult {
    if |data| >= TWO_32 then Rejected(TooLarge)
    else
      match Replaying.Load(data)
      case Refused(e) => Rejected(Unreadable(e))
      case Ready(_, start) =>
        var w := Played(Tape(variant, start.events, start.checkWrites), iters);
        Completed(w.fw, w.ctx.divergence.Some?, w.ctx.cursor, |start.events|)
  }

  /** A replay by the build the trace itself names. */
  function Outcome(data: Bytes, iters: nat): ReplayResult {
    if |data| >= TWO_32 then Rejected(TooLarge)
    else
      match Replaying.Load(data)
      case Refused(e) => Rejected(Unreadable(e))
      case Ready(h, _) =>
        match VariantFor(h.buildId)
        case None => Rejected(UnknownBuild)
        case Some(v) => OutcomeAs(data, v, iters)
  }

  method ReplayRunAs(data: Bytes, variant: Variant, iters: nat) returns (r: ReplayResult)
    ensures r == OutcomeAs(data, variant, iters)
  {
    hide Replaying.Load, Run;
    var hal := new Playback.ReplayHal();
    var loaded := hal.Load(data);
    if !loaded {
      return Rejected(match hal.error.value case TooLarge => Rejection.TooLarge case Unreadable(e) => Rejection.Unreadable(e));
    }
    ReplayTerminates();
    var board := new Board(REPLAY, Start(hal.events, hal.checkWrites));
    board.RxPumpRun(variant, iters);
    r := Completed(board.Fw(), board.ctx.divergence.Some?, board.ctx.cursor, |hal.events|);
  }

  method ReplayRun(data: Bytes, iters: nat) returns (r: ReplayResult)
    ensures r == Outcome(data, iters)
  {
    hide Replaying.Load, OutcomeAs;
    var hal := new Playback.ReplayHal();
    var loaded := hal.Load(data);
    if !loaded {
      return Rejected(match hal.error.value case TooLarge => Rejection.TooLarge case Unreadable(e) => Rejection.Unreadable(e));
    }
    var variant := VariantFor(hal.header.buildId);
    match variant
    case None => r := Rejected(UnknownBuild);
    case Some(v) => r := ReplayRunAs(data, v, iters);
  }

  // ----- what is refused

  /**
   * A replay runs exactly on the traces of some events recorded by a known build, below 4 GiB. The
   * timeline opens the same ones.
   */
  lemma CompletedExactly(data: Bytes, iters: nat)
    ensures Outcome(data, iters).Completed? <==>
              |data| < TWO_32 && exists h, es :: Grammar.Spells(data, h, es) && (h.buildId == BUILD_BUGGY || h.buildId == BUILD_FIXED)
    ensures Navigation.TapeOf(data).Some? <==> Outcome(data, iters).Completed?
  {
    hide Replaying.Load, Grammar.Spells, Played;
    if |data| < TWO_32 {
      var loaded := Replaying.Load(data);
      if loaded.Ready? {
        LoadsWhat(data, loaded);
      }
      forall h, es | Grammar.Spells(data, h, es)
        ensures loaded == ReadyFor(h, es)
      {
        LoadsExactly(data, h, es);
      }
    }
  }

  /** Nothing runs on a trace that does not load, on any build, and no timeline opens it. */
  ghost predicate Rejects(data: Bytes, e: ReadError) {
    && Navigation.TapeOf(data).None?
    && forall iters: nat :: Outcome(data, iters) == Rejected(Unreadable(e))
                         && forall v :: OutcomeAs(data, v, iters) == Rejected(Unreadable(e))
  }

  lemma RefusedRejects(data: Bytes, e: ReadError)
    requires |data| < TWO_32 && Replaying.Load(data) == Refused(e)
    ensures Rejects(data, e)
  {
    hide Replaying.Load, Played;
  }

  /** A trace with a hole in it is never replayed. */
  lemma HoleReported(data: Bytes, h: Header, blocks: seq<Block>, tail: Bytes)
    requires h.version == VERSION && Codec.Carries(data, Codec.HeaderBytes(h), blocks, tail) && Codec.Closes(tail) && Codec.Visible(blocks)
    requires Codec.NextAccepted(blocks, Codec.Leading(blocks)) < |blocks|
    ensures Rejects(data, if Wrap32(Codec.NextAccepted(blocks, Codec.Leading(blocks))) > Codec.Leading(blocks) then GapInTrace else WentBackwards)
  {
    hide Replaying.Load, Codec.HeaderBytes, Codec.Closes, Codec.Visible, Sound, Frames, Wrap32, Rejects;
    LossyLoad(data, h, blocks, tail);
    RefusedRejects(data, Replaying.Load(data).error);
  }

  /** Nor is one with a damaged block. */
  lemma DamageReported(data: Bytes, h: Header, before: seq<Block>, number: u32, payload: Bytes, damaged: Bytes, at: nat, rest: Bytes)
    requires h.version == VERSION && AllAccepted(before) && 0 < |payload| < TWO_32
    requires Crc32.BurstAt(Codec.Inner(number, payload), damaged, at) && damaged != Codec.Inner(number, payload)
    requires Codec.Carries(data, Codec.HeaderBytes(h), before, PutU32(|payload|) + damaged + rest)
    ensures Rejects(data, CrcMismatch)
  {
    hide Replaying.Load, Codec.HeaderBytes, Codec.Inner, Crc32.BurstAt, Rejects;
    DamagedLoad(data, h, before, number, payload, damaged, at, rest);
    RefusedRejects(data, CrcMismatch);
  }

  /** Nor is one cut inside a block. */
  lemma CutReported(full: Bytes, h: Header, blocks: seq<Block>, cut: nat)
    requires h.version == VERSION && Codec.Carries(full, Codec.HeaderBytes(h), blocks, PutU32(0)) && AllAccepted(blocks)
    requires HEADER_SIZE <= cut <= |full|
    requires var k := Codec.WholeBlocks(blocks, cut - HEADER_SIZE);
             k < |blocks| && cut - HEADER_SIZE - |Frames(blocks[..k])| >= 4
    ensures Rejects(full[..cut], TruncatedBlock)
  {
    hide Replaying.Load, Codec.HeaderBytes, Frames, Sound, Codec.WholeBlocks, Rejects;
    CutLoad(full, h, blocks, cut);
    RefusedRejects(full[..cut], TruncatedBlock);
  }

  // ----- both ends together

  /**
   * What is recorded replays identically, through the bytes and with or without recorded writes: the
   * replay of a recorded trace by the build it names is after every pass in the recorded state,
   * without divergence, with exactly the events recorded up to there consumed. Asked for more passes
   * than were recorded, it runs into EV_STOP and reports that it has diverged.
   */
  lemma RecordedReplays<D(!new)>(ops: HalOps<D>, v: Variant, ctx: D, iters: nat, seed: u64, flags: u16, data: Bytes, k: nat)
    requires Terminating(ops)
    requires LoadsAsRun(data, Header(VERSION, flags, BuildIdFor(v), seed), ops, Recorded(ops, v, ctx, 0, iters))
    ensures k <= iters ==>
              var w := Recorded(ops, v, ctx, 0, k);
              Outcome(data, k) == Completed(w.fw, false, |Kept(w.seen, flags)|, |Kept(Recorded(ops, v, ctx, 0, iters).seen, flags)| + 1)
    ensures k > iters ==> Outcome(data, k).Completed? && Outcome(data, k).diverged
  {
    hide Run, Recorded, Replaying.Load, Recording, Inputs, Played;
    var m := if k <= iters then k else iters;
    ReplayedTo(ops, v, ctx, iters, m, flags);
    if k > iters {
      RunsIntoStop(ops, v, ctx, iters, flags, k);
    }
  }

  /** The tape a recording makes. */
  function TapeFor<D(!new)>(ops: HalOps<D>, v: Variant, ctx: D, iters: nat, flags: u16): Tape
    requires Terminating(ops)
  {
    Tape(v, Kept(Recording(ops, Recorded(ops, v, ctx, 0, iters)), flags), flags % 2 == 1)
  }

  lemma ReplayedTo<D(!new)>(ops: HalOps<D>, v: Variant, ctx: D, iters: nat, k: nat, flags: u16)
    requires Terminating(ops) && k <= iters
    ensures var t := TapeFor(ops, v, ctx, iters, flags);
            var w, r := Recorded(ops, v, ctx, 0, k), Played(t, k);
            && r.fw == w.fw && r.ctx.divergence.None? && r.ctx.cursor == |Kept(w.seen, flags)|
            && |t.events| == |Kept(Recorded(ops, v, ctx, 0, iters).seen, flags)| + 1
            && t.events[|t.events| - 1].kind.Stop?
  {
    hide Run, Inputs;
    var w := Recorded(ops, v, ctx, 0, iters);
    InputsSnoc(w.seen, Event(Stop, ops.now(w.ctx), 0, 0));
    if flags % 2 == 1 {
      ReplayFollows(ops, v, ctx, 0, iters, k);
    } else {
      UncheckedFollows(ops, v, ctx, iters, k);
    }
  }

  lemma RunsIntoStop<D(!new)>(ops: HalOps<D>, v: Variant, ctx: D, iters: nat, flags: u16, k: nat)
    requires Terminating(ops) && iters < k
    ensures Played(TapeFor(ops, v, ctx, iters, flags), k).ctx.divergence == Some(AfterStop)
  {
    hide Run, Recorded, Played, TapeFor;
    ReplayedTo(ops, v, ctx, iters, iters, flags);
    TapeVectored(ops, v, ctx, iters, flags);
    NoReadNext(TapeFor(ops, v, ctx, iters, flags), iters, k);
  }

  lemma TapeVectored<D(!new)>(ops: HalOps<D>, v: Variant, ctx: D, iters: nat, flags: u16)
    requires Terminating(ops)
    ensures Vectored(TapeFor(ops, v, ctx, iters, flags).events)
  {
    hide Recorded;
    RecordingVectored(ops, v, ctx, iters);
    InputsVectored(Recording(ops, Recorded(ops, v, ctx, 0, iters)));
  }

  lemma {:induction false} InputsVectored(es: seq<Event>)
    requires Vectored(es)
    ensures Vectored(Inputs(es))
  {
    if es != [] {
      InputsVectored(Front(es));
    }
  }

  /**
   * A buggy recording with writes, replayed by the fixed build, through the bytes: the report says
   * diverged if and only if a byte was accepted inside a drain before the last pass. Otherwise
   * everything was consumed, and the state differs in `pending` alone, by what the last drain accepted.
   */
  lemma MismatchReported<D(!new)>(ops: HalOps<D>, ctx: D, iters: nat, seed: u64, flags: u16, data: Bytes)
    requires Terminating(ops) && iters >= 1 && flags % 2 == 1
    requires LoadsAsRun(data, Header(VERSION, flags, BUILD_BUGGY, seed), ops, Recorded(ops, Buggy, ctx, 0, iters))
    ensures var w, r := Recorded(ops, Buggy, ctx, 0, iters), OutcomeAs(data, Fixed, iters);
            var debt := Recorded(ops, Buggy, ctx, 0, iters - 1).inWindow;
            && r.Completed? && (r.diverged <==> debt > 0) && r.total == |w.seen| + 1
            && (debt == 0 ==> r.fw == w.fw.(pending := r.fw.pending) && r.fw.pending == w.fw.pending + w.inWindow)
            && (debt == 0 ==> r.consumed == |w.seen|)
  {
    hide Run, Recorded, Replaying.Load;
    BuildMismatch(ops, ctx, 0, iters);
  }

  /** Such a trace is one the timeline is exact on, in the sense of `Faithful`. */
  lemma RecordedIsFaithful<D(!new)>(ops: HalOps<D>, v: Variant, ctx: D, iters: nat, seed: u64, flags: u16, data: Bytes)
    requires Terminating(ops) && flags % 2 == 1
    requires LoadsAsRun(data, Header(VERSION, flags, BuildIdFor(v), seed), ops, Recorded(ops, v, ctx, 0, iters))
    ensures var t := Tape(v, Recording(ops, Recorded(ops, v, ctx, 0, iters)), true);
            Navigation.TapeOf(data) == Some(t) && Faithful(t, iters)
  {
    hide Run, Recorded, Replaying.Load;
    ReplayedTo(ops, v, ctx, iters, iters, flags);
    RecordingVectored(ops, v, ctx, iters);
  }

  lemma RecordingVectored<D(!new)>(ops: HalOps<D>, v: Variant, ctx: D, iters: nat)
    requires Terminating(ops)
    ensures Vectored(Recording(ops, Recorded(ops, v, ctx, 0, iters)))
  {
    hide Run;
    RunCrossings(ops, v, ctx, 0, iters);
    var w := Recorded(ops, v, ctx, 0, iters);
    forall i | 0 <= i < |w.seen|
      ensures w.seen[i].kind.IsIrq() ==> w.seen[i].addr != NO_IRQ
    {
      assert Crossing(w.seen[i]);
    }
  }

  // ----- execution interleaved with draining

  /** The run as `record_buffered` makes it: a number of equal slices. Draining touches neither firmware nor backend. */
  function Sliced<D(!new)>(ops: HalOps<D>, v: Variant, w: World<D>, slices: nat, perSlice: nat): (r: World<D>)
    requires Terminating(ops) && !w.draining
    ensures !r.draining
  {
    if slices == 0 then w else Run(ops, v, Sliced(ops, v, w, slices - 1, perSlice), perSlice)
  }

  function Total(slices: nat, perSlice: nat): (n: nat) {
    if slices == 0 then 0 else Total(slices - 1, perSlice) + perSlice
  }

  lemma {:induction false} TotalIsProduct(slices: nat, perSlice: nat)
    ensures Total(slices, perSlice) == slices * perSlice
  {
    if slices > 0 {
      TotalIsProduct(slices - 1, perSlice);
      assert slices * perSlice == (slices - 1) * perSlice + perSlice;
    } else {
      assert 0 * perSlice == 0;
    }
  }

  lemma SlicesStart<D(!new)>(ops: HalOps<D>, v: Variant, w: World<D>, perSlice: nat)
    requires Terminating(ops) && !w.draining
    ensures Sliced(ops, v, w, 0, perSlice) == w && Run(ops, v, w, 0) == w
  {
  }

  lemma SliceStep<D(!new)>(ops: HalOps<D>, v: Variant, w: World<D>, k: nat, perSlice: nat)
    requires Terminating(ops) && !w.draining
    ensures Sliced(ops, v, w, k + 1, perSlice) == Run(ops, v, Sliced(ops, v, w, k, perSlice), perSlice)
  {
    hide Run;
  }

  lemma {:induction false} SlicesTotal<D(!new)>(ops: HalOps<D>, v: Variant, w: World<D>, slices: nat, perSlice: nat)
    requires Terminating(ops) && !w.draining
    ensures Sliced(ops, v, w, slices, perSlice) == Run(ops, v, w, Total(slices, perSlice))
  {
    hide Run, Sliced, Terminating;
    if slices == 0 {
      SlicesStart(ops, v, w, perSlice);
    } else {
      SlicesTotal(ops, v, w, slices - 1, perSlice);
      SliceStep(ops, v, w, slices - 1, perSlice);
      RunSplit(ops, v, w, Total(slices - 1, perSlice), perSlice);
    }
  }

  /** It is the run of one piece with `slices * (iters / slices)` passes, and so of `iters` only if that divides. */
  lemma SlicesCompose<D(!new)>(ops: HalOps<D>, v: Variant, w: World<D>, slices: nat, perSlice: nat)
    requires Terminating(ops) && !w.draining
    ensures var n: nat := slices * perSlice;
            Sliced(ops, v, w, slices, perSlice) == Run(ops, v, w, n)
  {
    hide Run, Sliced, Total, Terminating;
    TotalIsProduct(slices, perSlice);
    SlicesTotal(ops, v, w, slices, perSlice);
  }

  /** What a number of slices recorded is the front of what all of them will have. */
  lemma SlicesGrow<D(!new)>(ops: HalOps<D>, v: Variant, ctx: D, k: nat, slices: nat, perSlice: nat)
    requires Terminating(ops) && k <= slices
    ensures var n: nat := slices * perSlice;
            Sliced(ops, v, Boot(ctx, 0), k, perSlice).seen <= Recorded(ops, v, ctx, 0, n).seen
  {
    hide Run, Terminating, Sliced;
    SlicesCompose(ops, v, Boot(ctx, 0), k, perSlice);
    FewerTimes(k, slices, perSlice);
    RecordedGrows(ops, v, ctx, 0, k * perSlice, slices * perSlice);
  }

  lemma FewerTimes(k: nat, n: nat, m: nat)
    requires k <= n
    ensures 0 <= k * m <= n * m
  {
  }

  /** The firmware's log is on the writer, and what was drained reached the link. */
  ghost predicate UpToDate<D(!new)>(board: Board<D>, recorder: Recorder, link: Link)
    reads board, recorder, recorder.ring, recorder.ring.store, recorder.writer, recorder.writer.buf, Footprint(recorder.writer.sink), link
  {
    && recorder.Valid() && Writing(recorder.writer) && recorder.drained == link.received
    && board.ring != recorder.writer.buf && board.ring != recorder.ring.store
    && Taken(recorder.writer) == OfferAll(OPENED, board.log, recorder.writer.flags)
  }

  /** One slice: the firmware runs, its calls go to the writer, and some bytes move on. */
  method RunSlice<D(!new)>(board: Board<D>, recorder: Recorder, link: Link, variant: Variant, passes: nat, budget: u32)
    requires board.Valid() && !board.draining && UpToDate(board, recorder, link)
    requires forall e | e in Run(board.ops, variant, board.View(), passes).seen :: Callable(e)
    modifies board, board.ring, recorder`drained, recorder.ring`tail, recorder.ring`popped
    modifies recorder.writer, recorder.writer.buf, Footprint(recorder.writer.sink), link
    ensures board.Valid() && board.View() == Run(board.ops, variant, old(board.View()), passes)
    ensures UpToDate(board, recorder, link) && Wired(recorder)
  {
    hide Run, Terminating, Callable, OfferAll, Sound, Books, Frames, Flatten, PowerOfTwo, Wrap32, Wrap64, CountLost;
    var done := |board.log|;
    ghost var before := board.log;
    board.RxPumpRun(variant, passes);
    var added := board.log[done..];
    assert before <= board.log;
    assert board.log == before + added;
    OfferConcat(OPENED, before, added, recorder.writer.flags);
    recorder.NoteAll(added);
    var sent := recorder.DrainInto(link, budget);
  }

  method RunInSlices<D(!new)>(board: Board<D>, recorder: Recorder, link: Link, variant: Variant, slices: nat, perSlice: nat,
                              budget: u32, ghost ctx: D)
    requires board.Valid() && board.View() == Boot(ctx, 0) && Monotone(board.ops) && UpToDate(board, recorder, link)
    requires var n: nat := slices * perSlice;
             board.ops.now(Recorded(board.ops, variant, ctx, 0, n).ctx) < TWO_64
    modifies board, board.ring, recorder`drained, recorder.ring`tail, recorder.ring`popped
    modifies recorder.writer, recorder.writer.buf, Footprint(recorder.writer.sink), link
    ensures board.Valid() && board.View() == Sliced(board.ops, variant, Boot(ctx, 0), slices, perSlice)
    ensures UpToDate(board, recorder, link) && Wired(recorder)
  {
    hide Run, Terminating, Monotone, Callable, OfferAll, Sound, Books, Frames, Flatten, PowerOfTwo, Sliced, UpToDate;
    SlicesStart(board.ops, variant, Boot(ctx, 0), perSlice);
    for slice := 0 to slices
      invariant board.Valid() && board.View() == Sliced(board.ops, variant, Boot(ctx, 0), slice, perSlice)
      invariant UpToDate(board, recorder, link) && Wired(recorder)
    {
      SliceStep(board.ops, variant, Boot(ctx, 0), slice, perSlice);
      SliceCallable(board.ops, variant, ctx, slice + 1, slices, perSlice);
      RunSlice(board, recorder, link, variant, perSlice, budget);
    }
  }

  /** All that crosses the shim can be put to the writer. */
  lemma SliceCallable<D(!new)>(ops: HalOps<D>, v: Variant, ctx: D, k: nat, slices: nat, perSlice: nat)
    requires Terminating(ops) && Monotone(ops) && k <= slices
    requires var n: nat := slices * perSlice;
             ops.now(Recorded(ops, v, ctx, 0, n).ctx) < TWO_64
    ensures forall e | e in Sliced(ops, v, Boot(ctx, 0), k, perSlice).seen :: Callable(e)
  {
    hide Run, Terminating, Monotone, Sliced, Callable, Ordered;
    var w := Recorded(ops, v, ctx, 0, slices * perSlice);
    RunOrdered(ops, v, ctx, 0, slices * perSlice);
    LogTaken(w.seen, ops.now(w.ctx), 0);
    SlicesGrow(ops, v, ctx, k, slices, perSlice);
  }

  /** Drains until nothing more moves. */
  method DrainOut(recorder: Recorder, link: Link)
    requires recorder.Valid() && recorder.drained == link.received
    modifies recorder`drained, recorder.ring`tail, recorder.ring`popped, link
    ensures recorder.Valid() && recorder.drained == link.received && recorder.Carried() == old(recorder.Carried())
    ensures recorder.ring.store != null && (forall k :: link.takes(k) > 0) ==> recorder.ring.Contents() == []
  {
    hide Sound, Books, Frames, Flatten, PowerOfTwo;
    var moving := true;
    while moving
      invariant recorder.Valid() && recorder.drained == link.received && recorder.Carried() == old(recorder.Carried())
      invariant !moving && recorder.ring.store != null && (forall k :: link.takes(k) > 0) ==> recorder.ring.Contents() == []
      decreases |recorder.ring.Contents()|, moving
    {
      var sent := recorder.DrainInto(link, 0xFFFF);
      moving := sent > 0;
    }
  }

  /** Ends the trace and empties the ring as far as the link allows. */
  method FinishBuffered(recorder: Recorder, link: Link, end: u64, ghost seen: seq<Event>, ghost h: Header)
    returns (healthy: bool, ghost left: Bytes, ghost blocks: seq<Block>, ghost terminated: bool)
    requires recorder.Valid() && Writing(recorder.writer) && recorder.drained == link.received
    requires recorder.writer.prefix == EncodeHeader(h.flags, h.buildId, h.seed) && h.version == VERSION
    requires Taken(recorder.writer) == OfferAll(OPENED, seen, h.flags) && Ordered(0, seen, end)
    modifies recorder, recorder.ring`tail, recorder.ring`popped
    modifies recorder.writer, recorder.writer.buf, Footprint(recorder.writer.sink), link
    ensures Sound(blocks) && ReadsBack(link.received + left, blocks, OfferAll(OPENED, seen, h.flags), end)
    ensures link.received + left == EncodeHeader(h.flags, h.buildId, h.seed) + Frames(blocks) + (if terminated then PutU32(0) else [])
    ensures |blocks| < TWO_32 ==> (healthy <==> terminated && AllAccepted(blocks))
    ensures recorder.ring.store != null && (forall k :: link.takes(k) > 0) ==> left == []
    ensures recorder.ring.store == old(recorder.ring.store)
    ensures healthy && left == [] && |blocks| < TWO_32 && |link.received| < TWO_32 ==>
              Replaying.Load(link.received) == Ready(h, Start(Kept(seen + [Event(Stop, end, 0, 0)], h.flags), h.flags % 2 == 1))
  {
    hide EncodeHeader, OfferAll, ReadsBack, Sound, Books, Frames, Flatten, PutU32, Replaying.Load, Ordered, Kept, PowerOfTwo, Wrap32, Wrap64, CountLost;
    LogTaken(seen, end, h.flags);
    OffersNoStop(seen, h.flags);
    ghost var i := Taken(recorder.writer);
    var stopped := recorder.Stop(end);
    blocks, terminated := recorder.writer.blocks, stopped;
    FinishedReadsBack(recorder.Carried(), h, blocks, stopped, i, end);
    DrainOut(recorder, link);
    left := recorder.ring.Contents();
    healthy := recorder.Healthy();
    if healthy && left == [] && |blocks| < TWO_32 && |link.received| < TWO_32 {
      assert link.received + [] == link.received;
      KeptSnoc(seen, Event(Stop, end, 0, 0), h.flags);
      LoadsAs(link.received, h, blocks);
    }
  }

  /** Runs, drains and finishes, on a recorder that has begun. */
  method RecordThrough<D(!new)>(board: Board<D>, recorder: Recorder, link: Link, variant: Variant, slices: nat, perSlice: nat,
                                budget: u32, ghost ctx: D, ghost n: nat, h: Header)
    returns (healthy: bool, ghost left: Bytes, ghost blocks: seq<Block>, ghost terminated: bool)
    requires board.Valid() && board.View() == Boot(ctx, 0) && Monotone(board.ops) && UpToDate(board, recorder, link)
    requires n == slices * perSlice && board.ops.now(Recorded(board.ops, variant, ctx, 0, n).ctx) < TWO_64
    requires recorder.writer.prefix == EncodeHeader(h.flags, h.buildId, h.seed) && recorder.writer.flags == h.flags
    requires h.version == VERSION && recorder.ring.store != null
    modifies board, board.ring, recorder, recorder.ring`tail, recorder.ring`popped
    modifies recorder.writer, recorder.writer.buf, Footprint(recorder.writer.sink), link
    ensures var w := Recorded(board.ops, variant, ctx, 0, n);
            && board.Valid() && board.Fw() == w.fw && ((forall k :: link.takes(k) > 0) ==> left == [])
            && Sound(blocks) && ReadsBack(link.received + left, blocks, OfferAll(OPENED, w.seen, h.flags), board.ops.now(w.ctx))
            && link.received + left == EncodeHeader(h.flags, h.buildId, h.seed) + Frames(blocks) + (if terminated then PutU32(0) else [])
            && (|blocks| < TWO_32 ==> (healthy <==> terminated && AllAccepted(blocks)))
            && (healthy && left == [] && |blocks| < TWO_32 && |link.received| < TWO_32 ==>
                  LoadsAsRun(link.received, h, board.ops, w))
  {
    hide Run, Terminating, Monotone, EncodeHeader, OfferAll, ReadsBack, Sound, Books, Frames, Flatten, Replaying.Load, PowerOfTwo, Ordered;
    hide Wrap32, Wrap64, CountLost, Kept, Sliced;
    RunInSlices(board, recorder, link, variant, slices, perSlice, budget, ctx);
    SlicesCompose(board.ops, variant, Boot(ctx, 0), slices, perSlice);
    RunOrdered(board.ops, variant, ctx, 0, n);
    healthy, left, blocks, terminated := FinishBuffered(recorder, link, board.ops.now(board.ctx), board.log, h);
  }

  /** At least one slice. */
  function Slices(wanted: nat): (n: nat)
    ensures n > 0 && (wanted > 0 ==> n == wanted) && (n != wanted ==> n == 1)
  {
    if wanted == 0 then 1 else wanted
  }

  /** The passes actually run: what does not divide evenly is left off. */
  function Passes(iters: nat, slices: nat): (n: nat)
    requires slices > 0
    ensures n <= iters < n + slices && n % slices == 0 && (n == iters <==> iters % slices == 0)
  {
    var per := iters / slices;
    assert iters == slices * per + iters % slices;
    DivisionUnique(slices * per, slices, per, 0);
    slices * per
  }

  /** A recorder with its header pushed, if the ring's size allows. */
  method OpenRecorder(capacity: u32, h: Header) returns (began: bool, recorder: Recorder)
    ensures began <==> (HEADER_SIZE <= capacity <= MAX_CAPACITY && PowerOfTwo(capacity))
    ensures fresh(recorder) && fresh(recorder.ring) && fresh(recorder.writer)
    ensures began ==>
              && recorder.Valid() && Writing(recorder.writer) && recorder.drained == []
              && Taken(recorder.writer) == OPENED == OfferAll(OPENED, [], h.flags) && recorder.writer.flags == h.flags
              && recorder.writer.prefix == EncodeHeader(h.flags, h.buildId, h.seed)
              && recorder.ring.store != null && fresh(recorder.ring.store)
              && recorder.writer.buf != null && fresh(recorder.writer.buf) && fresh(recorder.writer.sink)
  {
    hide EncodeHeader, Sound, Books, Frames, Flatten, PowerOfTwo, Wrap32, Wrap64, CountLost;
    recorder := new Recorder();
    var storage, block := new u8[capacity](_ => 0), new u8[BLOCK_BUFFER_BYTES](_ => 0);
    began := recorder.Begin(storage, capacity, block, h.buildId, h.seed, h.flags);
  }

  datatype BufferedResult = BufferedResult(began: bool, trace: Bytes, fw: State, healthy: bool)

  /**
   * Records a run through a ring of limited size into a link of limited speed, in slices. `left` is
   * what still waits in the ring at the end, `blocks` what the writer made, and `terminated` whether
   * the terminator went in. Whatever was lost on the way shows in what is read back. The recording is
   * healthy exactly if nothing was; then, once all of it is through, it loads as the run.
   */
  method RecordBuffered<D(!new)>(ops: HalOps<D>, ctx: D, variant: Variant, iters: nat, wanted: nat,
                                 capacity: u32, link: Link, budget: u32, seed: u64, flags: u16)
    returns (r: BufferedResult, ghost left: Bytes, ghost blocks: seq<Block>, ghost terminated: bool)
    requires Terminating(ops) && Monotone(ops) && link.received == []
    requires ops.now(Recorded(ops, variant, ctx, 0, Passes(iters, Slices(wanted))).ctx) < TWO_64
    modifies link
    ensures r.began <==> (HEADER_SIZE <= capacity <= MAX_CAPACITY && PowerOfTwo(capacity))
    ensures r.began ==>
              var w := Recorded(ops, variant, ctx, 0, Passes(iters, Slices(wanted)));
              && r.fw == w.fw && r.trace == link.received && ((forall k :: link.takes(k) > 0) ==> left == [])
              && Sound(blocks) && ReadsBack(r.trace + left, blocks, OfferAll(OPENED, w.seen, flags), ops.now(w.ctx))
              && r.trace + left == EncodeHeader(flags, BuildIdFor(variant), seed) + Frames(blocks) + (if terminated then PutU32(0) else [])
              && (|blocks| < TWO_32 ==> (r.healthy <==> terminated && AllAccepted(blocks)))
              && (r.healthy && left == [] && |blocks| < TWO_32 && |r.trace| < TWO_32 ==>
                    LoadsAsRun(r.trace, Header(VERSION, flags, BuildIdFor(variant), seed), ops, w))
  {
    hide Run, Terminating, Monotone, EncodeHeader, OfferAll, ReadsBack, Sound, Books, Frames, Flatten, Replaying.Load, PowerOfTwo, Ordered;
    hide Wrap32, Wrap64, CountLost, Passes, Kept, PutU32;
    var slices := Slices(wanted);
    var perSlice := iters / slices;
    var board := new Board(ops, ctx);
    var began, recorder := OpenRecorder(capacity, Header(VERSION, flags, BuildIdFor(variant), seed));
    if !began {
      return BufferedResult(false, [], board.Fw(), false), [], [], false;
    }
    ghost var n := PassesAre(iters, slices);
    var healthy;
    healthy, left, blocks, terminated :=
      RecordThrough(board, recorder, link, variant, slices, perSlice, budget, ctx, n, Header(VERSION, flags, BuildIdFor(variant), seed));
    r := BufferedResult(true, link.received, board.Fw(), healthy);
  }

  lemma PassesAre(iters: nat, slices: nat) returns (n: nat)
    requires slices > 0
    ensures n == Passes(iters, slices) == slices * (iters / slices)
  {
    n := Passes(iters, slices);
  }

  // ----- traces for given events

  lemma {:induction false} PayloadBound(p: Predictor, es: seq<Event>)
    requires Recordable(p, es)
    ensures |EncodeEvents(p, es)| <= 21 * |es|
    decreases |es|
  {
    hide EncodeEvent;
    if es != [] {
      EventSize(p, es[0]);
      PayloadBound(Advance(p, es[0]), es[1..]);
    }
  }

  /** Any ordered list of events that fits a block is the content of some trace. */
  lemma Spelled(es: seq<Event>, h: Header) returns (data: Bytes)
    requires Recordable(START, es) && 0 < |es| < 0x100_0000 && h.version == VERSION
    ensures |data| < TWO_32 && Replaying.Load(data) == Ready(h, Start(es, h.flags % 2 == 1))
  {
    hide EncodeHeader, PutU32, BlockFrame, EncodeEvents, Recordable, Replaying.Load;
    PayloadBound(START, es);
    var blocks := [Block(es, true)];
    assert Front(blocks) == [] && Frames([]) == [] && Flatten([]) == [];
    assert Sound(blocks) && Frames(blocks) == [] + BlockFrame([], es) && Flatten(blocks) == [] + es;
    data := EncodeHeader(h.flags, h.buildId, h.seed) + Frames(blocks) + PutU32(0);
    LoadsAs(data, h, blocks);
    assert [] + es == es;
  }

  /** The tape on which a checkpoint changes the answer is one the timeline can be given. */
  lemma OneByteIsATrace() returns (data: Bytes)
    ensures Navigation.TapeOf(data) == Some(Seeking.ONE_BYTE)
  {
    hide Replaying.Load;
    OneByteRecordable();
    data := Spelled(Seeking.ONE_BYTE.events, Header(VERSION, 1, BUILD_BUGGY, 0));
  }

  lemma OneByteRecordable()
    ensures Recordable(START, Seeking.ONE_BYTE.events)
  {
    var es := Seeking.ONE_BYTE.events;
    assert es[1..][1..] == es[2..] && es[2..][1..] == es[3..] && es[3..][1..] == es[4..];
    assert es[4..][1..] == es[5..] && es[5..][1..] == es[6..] && es[6..][1..] == [];
    assert Recordable(Predictor(15, GPIO0_ODR), es[6..]);
    assert Recordable(Predictor(12, SYSTICK_CNT), es[5..]);
    assert Recordable(Predictor(9, UART0_DR), es[4..]);
    assert Recordable(Predictor(6, UART0_SR), es[3..]);
    assert Recordable(Predictor(3, SYSTICK_CNT), es[2..]);
    assert Recordable(Predictor(3, SYSTICK_CNT), es[1..]);
  }
}
