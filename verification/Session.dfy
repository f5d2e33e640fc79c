/** Recording a run of the example firmware, replaying it, and replaying it on the other build. */
module Session {
  import opened Basics
  import opened Trace
  import opened Stream
  import opened RxPump
  import opened RxAccount
  import opened Replaying

  // ----- builds

  const BUILD_BUGGY: u64 := 0xBADC_0DE0_0000_0001
  const BUILD_FIXED: u64 := 0x600D_C0DE_0000_0001

  function BuildIdFor(v: Variant): u64 {
    match v
    case Buggy => BUILD_BUGGY
    case Fixed => BUILD_FIXED
  }

  function VariantFor(buildId: u64): (v: Option<Variant>)
    ensures v.Some? ==> BuildIdFor(v.value) == buildId
    ensures v.None? ==> buildId != BuildIdFor(Buggy) && buildId != BuildIdFor(Fixed)
    ensures (v == Some(Buggy) <==> buildId == BUILD_BUGGY) && (v == Some(Fixed) <==> buildId == BUILD_FIXED)
  {
    if buildId == BUILD_BUGGY then Some(Buggy) else if buildId == BUILD_FIXED then Some(Fixed) else None
  }

  /** The recording of a run: what crossed the shim, then EV_STOP. */
  function Recording<D>(ops: HalOps<D>, w: World<D>): seq<Event> {
    w.seen + [Event(Stop, ops.now(w.ctx), 0, 0)]
  }

  /** What a recording without writes keeps: everything that was an input to the firmware. */
  function Inputs(es: seq<Event>): seq<Event> {
    if es == [] then []
    else Inputs(Front(es)) + (if Last(es).kind.MmioWrite? then [] else [Last(es)])
  }

  lemma InputsSnoc(es: seq<Event>, e: Event)
    ensures Inputs(es + [e]) == Inputs(es) + (if e.kind.MmioWrite? then [] else [e])
  {
    assert Front(es + [e]) == es && Last(es + [e]) == e;
  }

  lemma {:induction false} InputsPrefix(a: seq<Event>, b: seq<Event>)
    requires a <= b
    ensures Inputs(a) <= Inputs(b)
    decreases |b|
  {
    if a != b {
      InputsPrefix(a, Front(b));
    }
  }

  // ----- the recording foretells itself

  predicate Crossing(e: Event) {
    e.kind in {MmioRead, MmioWrite, IrqEnter} && (e.kind.IrqEnter? ==> e.addr != NO_IRQ)
  }

  ghost predicate AllCrossings(s: seq<Event>) {
    forall i :: 0 <= i < |s| ==> Crossing(s[i])
  }

  lemma RunCrossings<D(!new)>(ops: HalOps<D>, v: Variant, ctx: D, mask: nat, iters: nat)
    requires Terminating(ops)
    ensures AllCrossings(Run(ops, v, Boot(ctx, mask), iters).seen)
  {
    var inv := (s: seq<Event>, d: D) => AllCrossings(s);
    assert Preserves(ops, inv);
    hide Run, Preserves;
    RunKeeps(ops, inv, v, Boot(ctx, mask), iters);
  }

  lemma RecordingForetells<D(!new)>(ops: HalOps<D>, v: Variant, ctx: D, mask: nat, iters: nat)
    requires Terminating(ops)
    ensures var w := Run(ops, v, Boot(ctx, mask), iters);
            Foretold(Recording(ops, w), w)
  {
    hide Run, Terminating;
    RunCrossings(ops, v, ctx, mask, iters);
    RunQuiet(ops, v, Boot(ctx, mask), iters);
    var w := Run(ops, v, Boot(ctx, mask), iters);
    forall i | 0 <= i < |w.seen|
      ensures w.seen[i].kind in {MmioRead, MmioWrite, IrqEnter} && (w.seen[i].kind.IrqEnter? ==> w.seen[i].addr != NO_IRQ)
    {
      assert Crossing(w.seen[i]);
    }
  }

  /** The recorded run after `k` passes. */
  function Recorded<D(!new)>(ops: HalOps<D>, b: Variant, ctx: D, mask: nat, k: nat): (w: World<D>)
    requires Terminating(ops)
    ensures !w.draining
  {
    Run(ops, b, Boot(ctx, mask), k)
  }

  /** A replay of `t`, with writes checked, after `k` passes. */
  function Replayed(b: Variant, t: seq<Event>, mask: nat, k: nat): (v: World<Replay>)
    ensures !v.draining
  {
    ReplayTerminates();
    Run(REPLAY, b, Boot(Start(t, true), mask), k)
  }

  lemma ReplayedStep(b: Variant, t: seq<Event>, mask: nat, k: nat)
    ensures Terminating(REPLAY)
    ensures Replayed(b, t, mask, k + 1) == Iterate(REPLAY, b, Replayed(b, t, mask, k))
  {
    ReplayTerminates();
    hide Iterate, Run;
    RunStep(REPLAY, b, Boot(Start(t, true), mask), k);
  }

  lemma RecordedStep<D(!new)>(ops: HalOps<D>, b: Variant, ctx: D, mask: nat, k: nat)
    requires Terminating(ops)
    ensures Recorded(ops, b, ctx, mask, k + 1) == Iterate(ops, b, Recorded(ops, b, ctx, mask, k))
  {
    hide Iterate, Run;
    RunStep(ops, b, Boot(ctx, mask), k);
  }

  /** What is recorded by a pass stays recorded. */
  lemma RecordedGrows<D(!new)>(ops: HalOps<D>, b: Variant, ctx: D, mask: nat, k: nat, iters: nat)
    requires Terminating(ops) && k <= iters
    ensures Extends(Recorded(ops, b, ctx, mask, k), Recorded(ops, b, ctx, mask, iters))
  {
    hide Run, Terminating;
    RunSplit(ops, b, Boot(ctx, mask), k, iters - k);
    assert k + (iters - k) == iters;
  }

  /** A partial recording is foretold by the whole. */
  lemma PartForetold<D(!new)>(ops: HalOps<D>, b: Variant, ctx: D, mask: nat, iters: nat, k: nat)
    requires Terminating(ops) && k <= iters
    ensures Foretold(Recording(ops, Recorded(ops, b, ctx, mask, iters)), Recorded(ops, b, ctx, mask, k))
  {
    RecordingForetells(ops, b, ctx, mask, iters);
    RecordedGrows(ops, b, ctx, mask, k, iters);
    hide Run, Foretold, Terminating, Recorded;
    var w := Recorded(ops, b, ctx, mask, iters);
    ForetoldBefore(Recording(ops, w), Recorded(ops, b, ctx, mask, k), w);
  }

  /**
   * Record and replay: whatever the backend, the mask, the variant and the length of the run, a
   * replay of a recording with writes is at every pass of the main loop in the recorded state, has
   * consumed exactly the events recorded up to there, and has not diverged.
   */
  lemma ReplayFollows<D(!new)>(ops: HalOps<D>, b: Variant, ctx: D, mask: nat, iters: nat, k: nat)
    requires Terminating(ops) && k <= iters
    ensures var t := Recording(ops, Recorded(ops, b, ctx, mask, iters));
            Mirrors(t, Recorded(ops, b, ctx, mask, k), Replayed(b, t, mask, k))
  {
    ReplayTerminates();
    hide Run, Foretold, Terminating;
    PartForetold(ops, b, ctx, mask, iters, k);
    var t := Recording(ops, Recorded(ops, b, ctx, mask, iters));
    RunMirrors(t, ops, b, Boot(ctx, mask), Boot(Start(t, true), mask), k);
  }

  /** At the end the cursor is on EV_STOP and the final state is the recorded one. */
  lemma ReplayEnds<D(!new)>(ops: HalOps<D>, b: Variant, ctx: D, mask: nat, iters: nat)
    requires Terminating(ops)
    ensures var w := Recorded(ops, b, ctx, mask, iters);
            var t := Recording(ops, w);
            var v := Replayed(b, t, mask, iters);
            && v.fw == w.fw && v.ctx.divergence.None?
            && v.ctx.cursor == |t| - 1 && t[v.ctx.cursor].kind.Stop?
  {
    hide Run, Recorded, Replayed;
    ReplayFollows(ops, b, ctx, mask, iters, iters);
  }

  // ----- replaying on the other build

  /** Without a byte accepted inside a drain the two builds are the same program. */
  lemma {:induction false} BuildsAgree<D(!new)>(ops: HalOps<D>, ctx: D, mask: nat, iters: nat)
    requires Terminating(ops) && Recorded(ops, Buggy, ctx, mask, iters).inWindow == 0
    ensures Recorded(ops, Fixed, ctx, mask, iters) == Recorded(ops, Buggy, ctx, mask, iters)
    decreases iters
  {
    hide Iterate, Terminating, Run;
    if iters > 0 {
      RecordedGrows(ops, Buggy, ctx, mask, iters - 1, iters);
      RecordedStep(ops, Buggy, ctx, mask, iters - 1);
      RecordedStep(ops, Fixed, ctx, mask, iters - 1);
      BuildsAgree(ops, ctx, mask, iters - 1);
      PassesAgree(ops, ctx, mask, iters - 1);
    } else {
      RecordedNone(ops, ctx, mask);
    }
  }

  lemma RecordedNone<D(!new)>(ops: HalOps<D>, ctx: D, mask: nat)
    requires Terminating(ops)
    ensures Recorded(ops, Buggy, ctx, mask, 0) == Recorded(ops, Fixed, ctx, mask, 0)
    ensures Recorded(ops, Buggy, ctx, mask, 0).inWindow == 0
  {
  }

  /** Up to the closing update a pass is the same in both builds; that update differs by what arrived. */
  lemma PassesAgree<D(!new)>(ops: HalOps<D>, ctx: D, mask: nat, iters: nat)
    requires Terminating(ops)
    requires Recorded(ops, Buggy, ctx, mask, iters).inWindow == 0
    ensures var w := Recorded(ops, Buggy, ctx, mask, iters);
            var b, f := Iterate(ops, Buggy, w), Iterate(ops, Fixed, w);
            && f == b.(fw := b.fw.(pending := f.fw.pending))
            && f.fw.pending == b.fw.pending + b.inWindow
            && (b.inWindow > 0 ==> w.fw.pending > 0 && b.fw.pending == 0)
  {
    RaceAccount(ops, Buggy, ctx, mask, iters);
    hide Run, Fifo, Iterate, Terminating;
    PassAgrees(ops, Recorded(ops, Buggy, ctx, mask, iters));
  }

  lemma PassAgrees<D(!new)>(ops: HalOps<D>, w: World<D>)
    requires Terminating(ops) && !w.draining && w.inWindow == 0 && w.fw.pending == Occupancy(w.fw)
    ensures var b, f := Iterate(ops, Buggy, w), Iterate(ops, Fixed, w);
            && f == b.(fw := b.fw.(pending := f.fw.pending))
            && f.fw.pending == b.fw.pending + b.inWindow
            && (b.inWindow > 0 ==> w.fw.pending > 0 && b.fw.pending == 0)
  {
    hide Drain, ReadRegister, Iterate, Fifo, Terminating;
    IterateCases(ops, Buggy, w);
    IterateCases(ops, Fixed, w);
    if w.fw.pending > 0 {
      DrainDrained(ops, w.(draining := true), w.fw.pending);
      SettleDiffers(Drain(ops, w.(draining := true), w.fw.pending).fw, w.fw.pending);
    } else {
      ReadGrew(ops, w, SYSTICK_CNT);
    }
  }

  lemma SettleDiffers(s: State, n: u32)
    requires n <= s.pending
    ensures Settle(Fixed, s, n) == Settle(Buggy, s, n).(pending := s.pending - n)
  {
  }

  /** The first pass, if any, in which the buggy build accepts a byte inside a drain. */
  lemma {:induction false} FirstStranding<D(!new)>(ops: HalOps<D>, ctx: D, mask: nat, iters: nat) returns (k: nat)
    requires Terminating(ops) && Recorded(ops, Buggy, ctx, mask, iters).inWindow > 0
    ensures k < iters && Recorded(ops, Buggy, ctx, mask, k).inWindow == 0
    ensures Recorded(ops, Buggy, ctx, mask, k + 1).inWindow > 0
  {
    hide Recorded, Terminating;
    RecordedNone(ops, ctx, mask);
    k := iters - 1;
    if Recorded(ops, Buggy, ctx, mask, k).inWindow > 0 {
      k := FirstStranding(ops, ctx, mask, k);
    }
  }

  /** Every pass begins with a register read. */
  lemma PassStartsWithRead<D(!new)>(ops: HalOps<D>, v: Variant, w: World<D>)
    requires Terminating(ops) && !w.draining
    ensures Iterate(ops, v, w).seen[|w.seen|].kind.MmioRead?
  {
    hide Drain, ReadRegister, Iterate;
    IterateCases(ops, v, w);
    if w.fw.pending == 0 {
      FirstRead(ops, w, SYSTICK_CNT);
    } else {
      DrainStartsWithRead(ops, w.(draining := true), w.fw.pending);
    }
  }

  lemma FirstRead<D(!new)>(ops: HalOps<D>, w: World<D>, addr: u32)
    requires Terminating(ops)
    ensures ReadRegister(ops, w, addr).0.seen[|w.seen|].kind.MmioRead?
  {
    var w1 := RawRead(ops, w, addr).0;
    assert w1.seen[|w.seen|].kind.MmioRead? && w1.seen <= Pump(ops, w1).seen;
  }

  lemma {:induction false} DrainStartsWithRead<D(!new)>(ops: HalOps<D>, w: World<D>, n: nat)
    requires Terminating(ops) && n > 0
    ensures Drain(ops, w, n).seen[|w.seen|].kind.MmioRead?
    decreases n
  {
    if n == 1 {
      var w1 := w.(fw := Take(w.fw));
      FirstRead(ops, w1, SYSTICK_CNT);
      assert Stamp(ops, w1).seen <= Drain(ops, w, 1).seen;
    } else {
      DrainStartsWithRead(ops, w, n - 1);
    }
  }

  /** Once diverged, a replay stays diverged. */
  lemma DivergedForGood(v: Variant, w: World<Replay>, iters: nat)
    requires Terminating(REPLAY) && !w.draining && w.ctx.divergence.Some?
    ensures Run(REPLAY, v, w, iters).ctx.divergence.Some?
  {
    hide Run, Preserves;
    DivergencePreserved();
    RunKeeps(REPLAY, HasDiverged, v, w, iters);
  }

  /** As long as nothing was stranded before it, the fixed build follows a pass of the buggy recording. */
  lemma FixedFollows<D(!new)>(ops: HalOps<D>, ctx: D, mask: nat, iters: nat, k: nat)
    requires Terminating(ops) && k < iters && Recorded(ops, Buggy, ctx, mask, k).inWindow == 0
    ensures var t := Recording(ops, Recorded(ops, Buggy, ctx, mask, iters));
            Mirrors(t, Iterate(ops, Fixed, Recorded(ops, Buggy, ctx, mask, k)), Replayed(Fixed, t, mask, k + 1))
  {
    hide Run, Iterate, Foretold, Terminating;
    var t := Recording(ops, Recorded(ops, Buggy, ctx, mask, iters));
    var w := Recorded(ops, Buggy, ctx, mask, k);
    RecordedStep(ops, Buggy, ctx, mask, k);
    ReplayedStep(Fixed, t, mask, k);
    BuildsAgree(ops, ctx, mask, k);
    PartForetold(ops, Buggy, ctx, mask, iters, k);
    RunMirrors(t, ops, Fixed, Boot(ctx, mask), Boot(Start(t, true), mask), k);
    PassesAgree(ops, ctx, mask, k);
    PartForetold(ops, Buggy, ctx, mask, iters, k + 1);
    SameRecord(t, Iterate(ops, Fixed, w), Iterate(ops, Buggy, w));
    IterateMirrors(t, ops, Fixed, w, Replayed(Fixed, t, mask, k));
  }

  /** A write where the recording has none is a divergence. */
  lemma StrayWriteDiverges(v: World<Replay>, addr: u32, value: u32)
    requires Terminating(REPLAY) && v.ctx.checkWrites
    requires v.ctx.cursor < |v.ctx.events| ==> !v.ctx.events[v.ctx.cursor].kind.MmioWrite?
    ensures WriteRegister(REPLAY, v, addr, value).ctx.divergence.Some?
  {
    var v1 := RawWrite(REPLAY, v, addr, value);
    assert v1.ctx.divergence.Some?;
    hide Preserves;
    DivergencePreserved();
    PumpKeeps(REPLAY, HasDiverged, v1);
  }

  /** The first byte consumed where the recording idled makes the replay diverge at its port write. */
  lemma ConsumeDiverges<D(!new)>(t: seq<Event>, ops: HalOps<D>, b: World<D>, v: World<Replay>)
    requires Terminating(ops) && Terminating(REPLAY) && Tracks(t, false, b, v)
    requires var b1 := ReadRegister(ops, b, SYSTICK_CNT).0;
             Foretold(t, b1) && !t[|b1.seen|].kind.MmioWrite?
    ensures ConsumeOne(REPLAY, v).ctx.divergence.Some?
  {
    hide Foretold, ReadRegister, WriteRegister, Terminating;
    var v1 := v.(fw := Take(v.fw));
    assert Tracks(t, false, b, v1);
    ReadMirrors(t, false, ops, b, v1, SYSTICK_CNT);
    var v2 := Stamp(REPLAY, v1);
    StrayWriteDiverges(v2, GPIO0_ODR, v2.fw.consumed);
  }

  lemma {:induction false} DrainDiverges<D(!new)>(t: seq<Event>, ops: HalOps<D>, b: World<D>, v: World<Replay>, n: nat)
    requires Terminating(ops) && Terminating(REPLAY) && Tracks(t, false, b, v) && n >= 1
    requires var b1 := ReadRegister(ops, b, SYSTICK_CNT).0;
             Foretold(t, b1) && !t[|b1.seen|].kind.MmioWrite?
    ensures Drain(REPLAY, v, n).ctx.divergence.Some?
    decreases n
  {
    hide Foretold, ReadRegister, ConsumeOne, Terminating, Tracks, Preserves;
    if n == 1 {
      assert Drain(REPLAY, v, 0) == v;
      ConsumeDiverges(t, ops, b, v);
    } else {
      DrainDiverges(t, ops, b, v, n - 1);
      DivergencePreserved();
      ConsumeKeeps(REPLAY, HasDiverged, Drain(REPLAY, v, n - 1));
    }
  }

  /** The event after a pass of the recording is a read or the end of the run. */
  lemma NextIsNoWrite<D(!new)>(ops: HalOps<D>, v: Variant, ctx: D, mask: nat, iters: nat, k: nat)
    requires Terminating(ops) && k <= iters
    ensures var t := Recording(ops, Recorded(ops, v, ctx, mask, iters));
            var n := |Recorded(ops, v, ctx, mask, k).seen|;
            n < |t| && !t[n].kind.MmioWrite?
  {
    hide Run, Iterate, Terminating, Recorded;
    var w, end := Recorded(ops, v, ctx, mask, k), Recorded(ops, v, ctx, mask, iters);
    if k < iters {
      RecordedStep(ops, v, ctx, mask, k);
      PassStartsWithRead(ops, v, w);
      RecordedGrows(ops, v, ctx, mask, k + 1, iters);
      assert Recorded(ops, v, ctx, mask, k + 1).seen <= end.seen;
    }
  }

  /** One further pass after a stranded byte: the fixed build consumes it, the recording idled. */
  lemma StrandingDiverges<D(!new)>(ops: HalOps<D>, ctx: D, mask: nat, iters: nat, k: nat)
    requires Terminating(ops) && k + 2 <= iters
    requires Recorded(ops, Buggy, ctx, mask, k).inWindow == 0 && Recorded(ops, Buggy, ctx, mask, k + 1).inWindow > 0
    ensures var t := Recording(ops, Recorded(ops, Buggy, ctx, mask, iters));
            Replayed(Fixed, t, mask, k + 2).ctx.divergence.Some?
  {
    hide Run, Iterate, Foretold, Terminating, Recorded, Replayed, ReadRegister, Drain;
    var t := Recording(ops, Recorded(ops, Buggy, ctx, mask, iters));
    var b, v := Recorded(ops, Buggy, ctx, mask, k + 1), Replayed(Fixed, t, mask, k + 1);
    RecordedStep(ops, Buggy, ctx, mask, k);
    RecordedStep(ops, Buggy, ctx, mask, k + 1);
    ReplayedStep(Fixed, t, mask, k + 1);
    FixedFollows(ops, ctx, mask, iters, k);
    PassesAgree(ops, ctx, mask, k);
    assert b.fw.pending == 0 && v.fw.pending == b.inWindow && Tracks(t, false, b, v);
    IterateCases(ops, Buggy, b);
    IterateCases(REPLAY, Fixed, v);
    PartForetold(ops, Buggy, ctx, mask, iters, k + 2);
    NextIsNoWrite(ops, Buggy, ctx, mask, iters, k + 2);
    DrainDiverges(t, ops, b, v.(draining := true), v.fw.pending);
  }

  lemma ReplayedDivergedForGood(b: Variant, t: seq<Event>, mask: nat, k: nat, iters: nat)
    requires k <= iters && Replayed(b, t, mask, k).ctx.divergence.Some?
    ensures Replayed(b, t, mask, iters).ctx.divergence.Some?
  {
    ReplayTerminates();
    hide Run, Terminating;
    RunSplit(REPLAY, b, Boot(Start(t, true), mask), k, iters - k);
    assert k + (iters - k) == iters;
    DivergedForGood(b, Replayed(b, t, mask, k), iters - k);
  }

  /**
   * A recording of the buggy build, with writes, replayed on the fixed build: it diverges exactly
   * if some byte was accepted inside a drain before the last pass. If none was at all, the replay
   * ends in the recorded state; if only in the last pass, it differs in `pending` alone, by their number.
   */
  lemma BuildMismatch<D(!new)>(ops: HalOps<D>, ctx: D, mask: nat, iters: nat)
    requires Terminating(ops) && iters >= 1
    ensures var w := Recorded(ops, Buggy, ctx, mask, iters);
            var v := Replayed(Fixed, Recording(ops, w), mask, iters);
            var debt := Recorded(ops, Buggy, ctx, mask, iters - 1).inWindow;
            && (v.ctx.divergence.Some? <==> debt > 0)
            && (debt == 0 ==> v.fw == w.fw.(pending := v.fw.pending) && v.fw.pending == w.fw.pending + w.inWindow)
            && (debt == 0 ==> v.ctx.cursor == |w.seen|)
  {
    hide Run, Iterate, Foretold, Terminating, Recorded, Replayed;
    var t := Recording(ops, Recorded(ops, Buggy, ctx, mask, iters));
    RecordedStep(ops, Buggy, ctx, mask, iters - 1);
    if Recorded(ops, Buggy, ctx, mask, iters - 1).inWindow == 0 {
      FixedFollows(ops, ctx, mask, iters, iters - 1);
      PassesAgree(ops, ctx, mask, iters - 1);
    } else {
      var k := FirstStranding(ops, ctx, mask, iters - 1);
      StrandingDiverges(ops, ctx, mask, iters, k);
      ReplayedDivergedForGood(Fixed, t, mask, k + 2, iters);
    }
  }
}
