/**
 * Recordings without writes. Interrupts that followed a write are then served one access early, at
 * the read before it. For the example firmware this commutes: every pass ends in the recorded state.
 */
module WritesOff {
  import opened Basics
  import opened Trace
  import opened Stream
  import opened RxPump
  import opened Replaying
  import opened Session

  /** `v`, replaying the inputs of `t`, has consumed those recorded in `w`; `lastStamp` may be behind. */
  ghost predicate Shadows<D>(t: seq<Event>, w: World<D>, v: World<Replay>) {
    && v.fw == w.fw.(lastStamp := v.fw.lastStamp) && v.accepted == w.accepted && v.inWindow == w.inWindow
    && v.mask == w.mask && v.inIsr == w.inIsr && v.draining == w.draining
    && v.ctx.events == Inputs(t) && v.ctx.cursor == |Inputs(w.seen)|
    && !v.ctx.checkWrites && v.ctx.divergence.None?
  }

  /** The next thing recorded is a read or the end of the run. */
  predicate Clear(t: seq<Event>, n: nat) {
    n < |t| && (t[n].kind.MmioRead? || t[n].kind.Stop?)
  }

  lemma NextInput(t: seq<Event>, seen: seq<Event>, e: Event)
    requires seen + [e] <= t && !e.kind.MmioWrite?
    ensures |Inputs(seen)| < |Inputs(t)| && Inputs(t)[|Inputs(seen)|] == e
    ensures |Inputs(seen + [e])| == |Inputs(seen)| + 1
  {
    InputsSnoc(seen, e);
    InputsPrefix(seen + [e], t);
  }

  lemma RawReadShadows<D>(t: seq<Event>, ops: HalOps<D>, w: World<D>, v: World<Replay>, addr: u32)
    requires Shadows(t, w, v) && RawRead(ops, w, addr).0.seen <= t
    ensures Shadows(t, RawRead(ops, w, addr).0, RawRead(REPLAY, v, addr).0)
    ensures RawRead(REPLAY, v, addr).1 == RawRead(ops, w, addr).1
  {
    var w1 := RawRead(ops, w, addr).0;
    NextInput(t, w.seen, w1.seen[|w.seen|]);
    hide Inputs;
  }

  lemma IsrShadows<D(!new)>(t: seq<Event>, ops: HalOps<D>, w: World<D>, v: World<Replay>)
    requires Terminating(ops) && Terminating(REPLAY) && Shadows(t, w, v) && Isr(ops, w).seen <= t
    ensures Shadows(t, Isr(ops, w), Isr(REPLAY, v)) && Isr(ops, w).fw.lastStamp == w.fw.lastStamp
    ensures Isr(REPLAY, v).fw.lastStamp == v.fw.lastStamp
  {
    hide Shadows, Terminating;
    RawReadShadows(t, ops, w, v, UART0_SR);
    var (w1, sr) := RawRead(ops, w, UART0_SR);
    var v1 := RawRead(REPLAY, v, UART0_SR).0;
    if sr % 2 == 1 {
      var (w2, dr) := RawRead(ops, w1, UART0_DR);
      RawReadShadows(t, ops, w1, v1, UART0_DR);
      AcceptShadows(t, w2, RawRead(REPLAY, v1, UART0_DR).0, dr % 0x100);
    }
  }

  lemma AcceptShadows<D>(t: seq<Event>, w: World<D>, v: World<Replay>, byte: u8)
    requires Shadows(t, w, v)
    ensures Shadows(t, Accept(w, byte), Accept(v, byte))
  {
  }

  lemma EnterShadows<D>(t: seq<Event>, ops: HalOps<D>, w: World<D>, v: World<Replay>, d: D, vector: u32)
    requires Shadows(t, w, v) && vector != NO_IRQ && EnterIrq(ops, w, d, vector).seen <= t
    ensures var (e, served) := REPLAY.poll(v.ctx, v.fw);
            served == vector && Shadows(t, EnterIrq(ops, w, d, vector), EnterIrq(REPLAY, v, e, vector))
  {
    NextInput(t, w.seen, EnterIrq(ops, w, d, vector).seen[|w.seen|]);
    hide Inputs;
  }

  /** The replay's window serves what the recorded one did, and is still open then: it reaches `u`. */
  lemma {:induction false} PumpLoopServes<D(!new)>(t: seq<Event>, ops: HalOps<D>, w: World<D>, v: World<Replay>)
    returns (u: World<Replay>)
    requires Terminating(ops) && Terminating(REPLAY) && Shadows(t, w, v) && PumpLoop(ops, w).seen <= t
    ensures Shadows(t, PumpLoop(ops, w), u) && PumpLoop(REPLAY, v) == PumpLoop(REPLAY, u)
    ensures PumpLoop(ops, w).fw.lastStamp == w.fw.lastStamp && u.fw.lastStamp == v.fw.lastStamp
    decreases ops.rank(w.ctx, w.fw)
  {
    hide Isr, Inputs;
    var (d, vector) := ops.poll(w.ctx, w.fw);
    if vector == NO_IRQ {
      u := v;
    } else {
      hide Shadows;
      var w1 := EnterIrq(ops, w, d, vector);
      EnterShadows(t, ops, w, v, d, vector);
      var v1 := EnterIrq(REPLAY, v, REPLAY.poll(v.ctx, v.fw).0, vector);
      if vector == IRQ_UART_RX {
        IsrShadows(t, ops, w1, v1);
        u := PumpLoopServes(t, ops, Isr(ops, w1), Isr(REPLAY, v1));
      } else {
        u := PumpLoopServes(t, ops, w1, v1);
      }
    }
  }

  /** The window closes when the next input is an access. */
  lemma WindowCloses<D>(t: seq<Event>, w: World<D>, v: World<Replay>)
    requires Terminating(REPLAY) && Shadows(t, w, v) && w.seen <= t && Clear(t, |w.seen|)
    ensures var r := PumpLoop(REPLAY, v);
            Shadows(t, w, r) && r.fw == v.fw
  {
    NextInput(t, w.seen, t[|w.seen|]);
    hide Inputs, Isr;
  }

  lemma ReadShadows<D(!new)>(t: seq<Event>, ops: HalOps<D>, w: World<D>, v: World<Replay>, addr: u32)
    requires Terminating(ops) && Terminating(REPLAY) && Shadows(t, w, v) && w.mask == 0 && !w.inIsr
    requires var r := ReadRegister(ops, w, addr).0;
             r.seen <= t && Clear(t, |r.seen|)
    ensures Shadows(t, ReadRegister(ops, w, addr).0, ReadRegister(REPLAY, v, addr).0)
    ensures ReadRegister(ops, w, addr).0.fw.lastStamp == w.fw.lastStamp
    ensures ReadRegister(REPLAY, v, addr).0.fw.lastStamp == v.fw.lastStamp
  {
    hide PumpLoop, Inputs;
    RawReadShadows(t, ops, w, v, addr);
    var w1, v1 := RawRead(ops, w, addr).0.(inIsr := true), RawRead(REPLAY, v, addr).0.(inIsr := true);
    var u := PumpLoopServes(t, ops, w1, v1);
    WindowCloses(t, PumpLoop(ops, w1), u);
  }

  /** Interrupts the recording took after the port write are taken before it; the handler touches nothing in between. */
  lemma ConsumeShadows<D(!new)>(t: seq<Event>, ops: HalOps<D>, w: World<D>, v: World<Replay>)
    requires Terminating(ops) && Terminating(REPLAY) && Shadows(t, w, v) && w.mask == 0 && !w.inIsr
    requires var r := ConsumeOne(ops, w);
             r.seen <= t && Clear(t, |r.seen|)
    ensures Shadows(t, ConsumeOne(ops, w), ConsumeOne(REPLAY, v)) && ConsumeOne(REPLAY, v).fw == ConsumeOne(ops, w).fw
  {
    hide PumpLoop, Inputs;
    var w1, v1 := w.(fw := Take(w.fw)), v.(fw := Take(v.fw));
    var (w2, stamp) := RawRead(ops, w1, SYSTICK_CNT);
    var v2 := RawRead(REPLAY, v1, SYSTICK_CNT).0;
    var w3 := Stamp(ops, w1);
    var w4 := RawWrite(ops, w3, GPIO0_ODR, w3.fw.consumed);
    var wEnd := PumpLoop(ops, w4.(inIsr := true));
    assert ConsumeOne(ops, w) == wEnd.(inIsr := false);
    assert w3 == PumpLoop(ops, w2.(inIsr := true)).(inIsr := false, fw := w3.fw);
    RawReadShadows(t, ops, w1, v1, SYSTICK_CNT);
    var a := PumpLoopServes(t, ops, w2.(inIsr := true), v2.(inIsr := true));
    InputsSnoc(w3.seen, w4.seen[|w3.seen|]);
    var b := PumpLoopServes(t, ops, w4.(inIsr := true), a);
    WindowCloses(t, wEnd, b);
    var v3 := Stamp(REPLAY, v1);
    assert v3 == PumpLoop(REPLAY, b).(inIsr := false, fw := v3.fw);
    var v4 := RawWrite(REPLAY, v3, GPIO0_ODR, v3.fw.consumed);
    WindowCloses(t, wEnd, v4.(inIsr := true));
  }

  lemma {:induction false} DrainShadows<D(!new)>(t: seq<Event>, ops: HalOps<D>, w: World<D>, v: World<Replay>, n: nat)
    requires Terminating(ops) && Terminating(REPLAY) && Shadows(t, w, v) && v.fw == w.fw && w.mask == 0 && !w.inIsr
    requires var r := Drain(ops, w, n);
             r.seen <= t && Clear(t, |r.seen|)
    ensures Shadows(t, Drain(ops, w, n), Drain(REPLAY, v, n)) && Drain(REPLAY, v, n).fw == Drain(ops, w, n).fw
    decreases n
  {
    hide ConsumeOne, Shadows, Inputs;
    if n > 0 {
      var before := Drain(ops, w, n - 1);
      ConsumeStartsWithRead(ops, before);
      DrainShadows(t, ops, w, v, n - 1);
      ConsumeShadows(t, ops, before, Drain(REPLAY, v, n - 1));
    }
  }

  lemma ConsumeStartsWithRead<D(!new)>(ops: HalOps<D>, w: World<D>)
    requires Terminating(ops)
    ensures ConsumeOne(ops, w).seen[|w.seen|].kind.MmioRead?
  {
    DrainStartsWithRead(ops, w, 1);
    hide ConsumeOne;
    assert Drain(ops, w, 0) == w;
  }

  lemma IterateShadows<D(!new)>(t: seq<Event>, ops: HalOps<D>, b: Variant, w: World<D>, v: World<Replay>)
    requires Terminating(ops) && Terminating(REPLAY) && Shadows(t, w, v) && v.fw == w.fw && w.mask == 0 && !w.inIsr && !w.draining
    requires var r := Iterate(ops, b, w);
             r.seen <= t && Clear(t, |r.seen|)
    ensures Shadows(t, Iterate(ops, b, w), Iterate(REPLAY, b, v)) && Iterate(REPLAY, b, v).fw == Iterate(ops, b, w).fw
  {
    hide ReadRegister, Drain, Iterate, Inputs;
    IterateCases(ops, b, w);
    IterateCases(REPLAY, b, v);
    if w.fw.pending == 0 {
      ReadShadows(t, ops, w, v, SYSTICK_CNT);
    } else {
      DrainShadows(t, ops, w.(draining := true), v.(draining := true), w.fw.pending);
    }
  }

  /** A replay of the inputs of `t`, with writes unchecked, after `k` passes. */
  function Unchecked(b: Variant, t: seq<Event>, k: nat): (v: World<Replay>)
    ensures !v.draining
  {
    ReplayTerminates();
    Run(REPLAY, b, Boot(Start(Inputs(t), false), 0), k)
  }

  lemma UncheckedStep(b: Variant, t: seq<Event>, k: nat)
    ensures Terminating(REPLAY)
    ensures Unchecked(b, t, k + 1) == Iterate(REPLAY, b, Unchecked(b, t, k))
  {
    ReplayTerminates();
    hide Iterate, Run;
    RunStep(REPLAY, b, Boot(Start(Inputs(t), false), 0), k);
  }

  /**
   * Replay without recorded writes: whatever the backend, the variant and the length of the run, at
   * every pass of the main loop the firmware is in the recorded state and has consumed exactly the
   * inputs recorded up to there.
   */
  lemma {:induction false} UncheckedFollows<D(!new)>(ops: HalOps<D>, b: Variant, ctx: D, iters: nat, k: nat)
    requires Terminating(ops) && k <= iters
    ensures var t := Recording(ops, Recorded(ops, b, ctx, 0, iters));
            var w, v := Recorded(ops, b, ctx, 0, k), Unchecked(b, t, k);
            Shadows(t, w, v) && v.fw == w.fw
    decreases k
  {
    hide Iterate, Run, Inputs, Terminating;
    var t := Recording(ops, Recorded(ops, b, ctx, 0, iters));
    if k == 0 {
      BothBoot(ops, b, ctx, t);
    } else {
      UncheckedFollows(ops, b, ctx, iters, k - 1);
      UncheckedStep(b, t, k - 1);
      RecordedStep(ops, b, ctx, 0, k - 1);
      PassIsClear(ops, b, ctx, iters, k);
      hide Shadows, Recording, Unchecked;
      IterateShadows(t, ops, b, Recorded(ops, b, ctx, 0, k - 1), Unchecked(b, t, k - 1));
    }
  }

  lemma BothBoot<D(!new)>(ops: HalOps<D>, b: Variant, ctx: D, t: seq<Event>)
    requires Terminating(ops)
    ensures var w, v := Recorded(ops, b, ctx, 0, 0), Unchecked(b, t, 0);
            Shadows(t, w, v) && v.fw == w.fw
  {
  }

  /** Between passes the recording goes on with a read, or ends. */
  lemma PassIsClear<D(!new)>(ops: HalOps<D>, b: Variant, ctx: D, iters: nat, k: nat)
    requires Terminating(ops) && k <= iters
    ensures var t := Recording(ops, Recorded(ops, b, ctx, 0, iters));
            var w := Recorded(ops, b, ctx, 0, k);
            w.seen <= t && Clear(t, |w.seen|) && w.mask == 0 && !w.inIsr
  {
    hide Iterate, Terminating;
    RecordedGrows(ops, b, ctx, 0, k, iters);
    ShimKept(ops, b, ctx, k);
    hide Run, Recorded;
    var w, end := Recorded(ops, b, ctx, 0, k), Recorded(ops, b, ctx, 0, iters);
    if k < iters {
      RecordedStep(ops, b, ctx, 0, k);
      PassStartsWithRead(ops, b, w);
      RecordedGrows(ops, b, ctx, 0, k + 1, iters);
    }
  }

  lemma ShimKept<D(!new)>(ops: HalOps<D>, b: Variant, ctx: D, k: nat)
    requires Terminating(ops)
    ensures Recorded(ops, b, ctx, 0, k).mask == 0 && !Recorded(ops, b, ctx, 0, k).inIsr
  {
    hide Iterate, Terminating;
  }
}
