/** The backend that answers the firmware out of a recorded trace. */
module Replaying {
  import opened Basics
  import opened Trace
  import opened TraceReading
  import opened RxPump

  datatype Divergence = PastTheEnd | AfterStop | WrongEvent | WrongAddress | WrongValue

  /** One request of the firmware's, as the backend finds it: this is where a capture can fire. */
  datatype Call = Call(cursor: nat, now: nat, fw: State)

  /** `calls` is a record of all requests; the program keeps only the one it was told to capture. */
  datatype Replay = Replay(
    events: seq<Event>, cursor: nat, now: nat, served: nat, checkWrites: bool,
    divergence: Option<Divergence>, calls: seq<Call>)

  function Start(events: seq<Event>, checkWrites: bool): Replay {
    Replay(events, 0, 0, 0, checkWrites, None, [])
  }

  function Ask(r: Replay, fw: State): Replay {
    r.(calls := r.calls + [Call(r.cursor, r.now, fw)])
  }

  /** Only the first divergence is kept. */
  function Diverge(r: Replay, d: Divergence): Replay {
    if r.divergence.None? then r.(divergence := Some(d)) else r
  }

  function Serve(r: Replay): Replay
    requires r.cursor < |r.events|
  {
    r.(cursor := r.cursor + 1, served := r.served + 1, now := r.events[r.cursor].ts)
  }

  function ReplayRead(r0: Replay, fw: State, addr: u32): (Replay, u32) {
    var r := Ask(r0, fw);
    if r.cursor >= |r.events| then (Diverge(r, PastTheEnd), 0)
    else
      var e := r.events[r.cursor];
      if e.kind.Stop? then (Diverge(r, AfterStop), 0)
      else if !e.kind.MmioRead? then (Diverge(r, WrongEvent), 0)
      else if e.addr != addr then (Diverge(r, WrongAddress), 0)
      else (Serve(r), e.value)
  }

  function ReplayWrite(r0: Replay, fw: State, addr: u32, value: u32): Replay {
    var r := Ask(r0, fw);
    if !r.checkWrites then r
    else if r.cursor >= |r.events| then Diverge(r, PastTheEnd)
    else
      var e := r.events[r.cursor];
      if e.kind.Stop? then Diverge(r, AfterStop)
      else if !e.kind.MmioWrite? then Diverge(r, WrongEvent)
      else if e.addr != addr || e.value != value then Diverge(r, WrongValue)
      else Serve(r)
  }

  function ReplayPoll(r0: Replay, fw: State): (Replay, u32) {
    var r := Ask(r0, fw);
    if r.cursor >= |r.events| || !r.events[r.cursor].kind.IsIrq() then (r, NO_IRQ)
    else (Serve(r), r.events[r.cursor].addr)
  }

  function Remaining(r: Replay): nat {
    if r.cursor < |r.events| then |r.events| - r.cursor else 0
  }

  const REPLAY: HalOps<Replay> := HalOps(
    (r: Replay, fw: State, addr: u32) => ReplayRead(r, fw, addr),
    (r: Replay, fw: State, addr: u32, value: u32) => ReplayWrite(r, fw, addr, value),
    (r: Replay) => r.now,
    (r: Replay, fw: State) => ReplayPoll(r, fw),
    (r: Replay, fw: State) => Remaining(r))

  lemma ReadRemaining(r: Replay, fw: State, addr: u32)
    ensures Remaining(ReplayRead(r, fw, addr).0) <= Remaining(r)
  {
  }

  /** Each interrupt served is one of the trace's events, and the handler puts none back. */
  lemma ReplayTerminates()
    ensures Terminating(REPLAY)
  {
    hide ReplayRead, Receive;
    forall r: Replay, fw: State {:trigger REPLAY.poll(r, fw)} | REPLAY.poll(r, fw).1 != NO_IRQ
      ensures REPLAY.rank(Handled(REPLAY, r, fw).0, Handled(REPLAY, r, fw).1) < REPLAY.rank(r, fw)
    {
      var d := REPLAY.poll(r, fw).0;
      ReadRemaining(d, fw, UART0_SR);
      ReadRemaining(ReplayRead(d, fw, UART0_SR).0, fw, UART0_DR);
    }
  }

  /** A backend's property that no request undoes; see `Preserves`. */
  ghost predicate HasDiverged(s: seq<Event>, d: Replay) {
    d.divergence.Some?
  }

  lemma DivergencePreserved()
    ensures Preserves(REPLAY, HasDiverged)
  {
  }

  datatype Loaded = Refused(error: ReadError) | Ready(header: Header, replay: Replay)

  /** Decodes the whole trace up front, and refuses one with any defect. */
  function Load(data: Bytes): Loaded
    requires |data| < TWO_32
  {
    var opening := OpenBytes(data);
    var (events, r) := ReadTrace(data);
    if r.error.Some? then Refused(r.error.value)
    else Ready(r.header, Start(events, r.header.flags % 2 == 1))
  }

  // ----- a recorded run and its replay, side by side

  /**
   * `v` replays what `w` did: same mask, same record of the run, with the cursor just behind the
   * events `w` has recorded so far of the whole recording `t`. If `same`, the firmware's storage
   * agrees too; the handler touches the same registers either way.
   */
  ghost predicate Tracks<D>(t: seq<Event>, same: bool, w: World<D>, v: World<Replay>) {
    && (same ==> v.fw == w.fw && v.accepted == w.accepted && v.draining == w.draining && v.inWindow == w.inWindow)
    && v.mask == w.mask && v.inIsr == w.inIsr && v.seen == w.seen && v.quiet == w.quiet
    && v.ctx.events == t && v.ctx.cursor == |w.seen| && v.ctx.checkWrites && v.ctx.divergence.None?
  }

  /** The recording still to come agrees with `t`: its events, and its points without interrupts. */
  ghost predicate Foretold<D>(t: seq<Event>, w: World<D>) {
    && w.seen < t
    && (forall i | 0 <= i < |w.seen| :: w.seen[i].kind in {MmioRead, MmioWrite, IrqEnter})
    && (forall m | m in w.quiet :: m < |t| && !t[m].kind.IsIrq())
    && (forall i | 0 <= i < |w.seen| && w.seen[i].kind.IrqEnter? :: w.seen[i].addr != NO_IRQ)
  }

  lemma ForetoldBefore<D>(t: seq<Event>, w: World<D>, r: World<D>)
    requires Extends(w, r) && Foretold(t, r)
    ensures Foretold(t, w)
  {
    forall i | 0 <= i < |w.seen|
      ensures w.seen[i] == r.seen[i]
    {
    }
  }

  lemma RawReadMirrors<D(!new)>(t: seq<Event>, same: bool, ops: HalOps<D>, w: World<D>, v: World<Replay>, addr: u32)
    requires Terminating(ops) && Tracks(t, same, w, v) && Foretold(t, RawRead(ops, w, addr).0)
    ensures Tracks(t, same, RawRead(ops, w, addr).0, RawRead(REPLAY, v, addr).0)
    ensures RawRead(REPLAY, v, addr).1 == RawRead(ops, w, addr).1
  {
    var w1 := RawRead(ops, w, addr).0;
    assert t[|w.seen|] == w1.seen[|w.seen|];
  }

  lemma RawWriteMirrors<D(!new)>(t: seq<Event>, same: bool, ops: HalOps<D>, w: World<D>, v: World<Replay>, addr: u32, value: u32)
    requires Terminating(ops) && Tracks(t, same, w, v) && Foretold(t, RawWrite(ops, w, addr, value))
    ensures Tracks(t, same, RawWrite(ops, w, addr, value), RawWrite(REPLAY, v, addr, value))
  {
    var w1 := RawWrite(ops, w, addr, value);
    assert t[|w.seen|] == w1.seen[|w.seen|];
  }

  lemma AcceptMirrors<D>(t: seq<Event>, same: bool, w: World<D>, v: World<Replay>, byte: u8)
    requires Tracks(t, same, w, v)
    ensures Tracks(t, same, Accept(w, byte), Accept(v, byte))
  {
  }

  lemma IsrMirrors<D(!new)>(t: seq<Event>, same: bool, ops: HalOps<D>, w: World<D>, v: World<Replay>)
    requires Terminating(ops) && Terminating(REPLAY) && Tracks(t, same, w, v) && Foretold(t, Isr(ops, w))
    ensures Tracks(t, same, Isr(ops, w), Isr(REPLAY, v))
  {
    hide Tracks, Foretold, Terminating;
    var (w1, sr) := RawRead(ops, w, UART0_SR);
    ForetoldBefore(t, w1, Isr(ops, w));
    RawReadMirrors(t, same, ops, w, v, UART0_SR);
    if sr % 2 == 1 {
      var (w2, dr) := RawRead(ops, w1, UART0_DR);
      ForetoldBefore(t, w2, Isr(ops, w));
      var v1 := RawRead(REPLAY, v, UART0_SR).0;
      RawReadMirrors(t, same, ops, w1, v1, UART0_DR);
      AcceptMirrors(t, same, w2, RawRead(REPLAY, v1, UART0_DR).0, dr % 0x100);
    }
  }

  lemma PollMirrors<D(!new)>(t: seq<Event>, same: bool, ops: HalOps<D>, w: World<D>, v: World<Replay>)
    requires Terminating(ops) && Tracks(t, same, w, v)
    requires var (d, vector) := ops.poll(w.ctx, w.fw);
             Foretold(t, if vector == NO_IRQ then w.(ctx := d, quiet := w.quiet + {|w.seen|}) else EnterIrq(ops, w, d, vector))
    ensures var (d, vector) := ops.poll(w.ctx, w.fw);
            var (e, served) := REPLAY.poll(v.ctx, v.fw);
            served == vector
            && (vector == NO_IRQ ==> Tracks(t, same, w.(ctx := d, quiet := w.quiet + {|w.seen|}), v.(ctx := e, quiet := v.quiet + {|v.seen|})))
            && (vector != NO_IRQ ==> Tracks(t, same, EnterIrq(ops, w, d, vector), EnterIrq(REPLAY, v, e, vector)))
  {
    var (d, vector) := ops.poll(w.ctx, w.fw);
    if vector == NO_IRQ {
      assert |w.seen| in w.quiet + {|w.seen|};
    } else {
      var w1 := EnterIrq(ops, w, d, vector);
      assert t[|w.seen|] == w1.seen[|w.seen|];
    }
  }

  lemma {:induction false} PumpLoopMirrors<D(!new)>(t: seq<Event>, same: bool, ops: HalOps<D>, w: World<D>, v: World<Replay>)
    requires Terminating(ops) && Terminating(REPLAY) && Tracks(t, same, w, v) && Foretold(t, PumpLoop(ops, w))
    ensures Tracks(t, same, PumpLoop(ops, w), PumpLoop(REPLAY, v))
    decreases ops.rank(w.ctx, w.fw)
  {
    hide Tracks, Foretold, Isr;
    var (d, vector) := ops.poll(w.ctx, w.fw);
    if vector == NO_IRQ {
      PollMirrors(t, same, ops, w, v);
    } else {
      var w1 := EnterIrq(ops, w, d, vector);
      var w2 := if vector == IRQ_UART_RX then Isr(ops, w1) else w1;
      ForetoldBefore(t, w2, PumpLoop(ops, w2));
      ForetoldBefore(t, w1, w2);
      PollMirrors(t, same, ops, w, v);
      var v1 := EnterIrq(REPLAY, v, REPLAY.poll(v.ctx, v.fw).0, vector);
      if vector == IRQ_UART_RX {
        IsrMirrors(t, same, ops, w1, v1);
        PumpLoopMirrors(t, same, ops, w2, Isr(REPLAY, v1));
      } else {
        PumpLoopMirrors(t, same, ops, w2, v1);
      }
    }
  }

  lemma PumpMirrors<D(!new)>(t: seq<Event>, same: bool, ops: HalOps<D>, w: World<D>, v: World<Replay>)
    requires Terminating(ops) && Terminating(REPLAY) && Tracks(t, same, w, v) && Foretold(t, Pump(ops, w))
    ensures Tracks(t, same, Pump(ops, w), Pump(REPLAY, v))
  {
    if !(w.mask > 0 || w.inIsr) {
      PumpLoopMirrors(t, same, ops, w.(inIsr := true), v.(inIsr := true));
    }
  }

  lemma ReadMirrors<D(!new)>(t: seq<Event>, same: bool, ops: HalOps<D>, w: World<D>, v: World<Replay>, addr: u32)
    requires Terminating(ops) && Terminating(REPLAY) && Tracks(t, same, w, v) && Foretold(t, ReadRegister(ops, w, addr).0)
    ensures Tracks(t, same, ReadRegister(ops, w, addr).0, ReadRegister(REPLAY, v, addr).0)
    ensures ReadRegister(REPLAY, v, addr).1 == ReadRegister(ops, w, addr).1
  {
    hide Tracks, Foretold, Pump, RawRead;
    var w1 := RawRead(ops, w, addr).0;
    ForetoldBefore(t, w1, Pump(ops, w1));
    RawReadMirrors(t, same, ops, w, v, addr);
    PumpMirrors(t, same, ops, w1, RawRead(REPLAY, v, addr).0);
  }

  lemma WriteMirrors<D(!new)>(t: seq<Event>, same: bool, ops: HalOps<D>, w: World<D>, v: World<Replay>, addr: u32, value: u32)
    requires Terminating(ops) && Terminating(REPLAY) && Tracks(t, same, w, v) && Foretold(t, WriteRegister(ops, w, addr, value))
    ensures Tracks(t, same, WriteRegister(ops, w, addr, value), WriteRegister(REPLAY, v, addr, value))
  {
    hide Tracks, Foretold, Pump, RawWrite;
    var w1 := RawWrite(ops, w, addr, value);
    ForetoldBefore(t, w1, Pump(ops, w1));
    RawWriteMirrors(t, same, ops, w, v, addr, value);
    PumpMirrors(t, same, ops, w1, RawWrite(REPLAY, v, addr, value));
  }

  /** The replay is in step with the recording, storage included. */
  ghost predicate Mirrors<D>(t: seq<Event>, w: World<D>, v: World<Replay>) {
    Tracks(t, true, w, v)
  }

  lemma ConsumeMirrors<D(!new)>(t: seq<Event>, ops: HalOps<D>, w: World<D>, v: World<Replay>)
    requires Terminating(ops) && Terminating(REPLAY) && Mirrors(t, w, v) && Foretold(t, ConsumeOne(ops, w))
    ensures Mirrors(t, ConsumeOne(ops, w), ConsumeOne(REPLAY, v))
  {
    hide Foretold, ReadRegister, WriteRegister;
    var w1, v1 := w.(fw := Take(w.fw)), v.(fw := Take(v.fw));
    var w2, v2 := Stamp(ops, w1), Stamp(REPLAY, v1);
    ForetoldBefore(t, w2, ConsumeOne(ops, w));
    ForetoldBefore(t, ReadRegister(ops, w1, SYSTICK_CNT).0, w2);
    ReadMirrors(t, true, ops, w1, v1, SYSTICK_CNT);
    WriteMirrors(t, true, ops, w2, v2, GPIO0_ODR, w2.fw.consumed);
  }

  lemma {:induction false} DrainMirrors<D(!new)>(t: seq<Event>, ops: HalOps<D>, w: World<D>, v: World<Replay>, n: nat)
    requires Terminating(ops) && Terminating(REPLAY) && Mirrors(t, w, v) && Foretold(t, Drain(ops, w, n))
    ensures Mirrors(t, Drain(ops, w, n), Drain(REPLAY, v, n))
    decreases n
  {
    hide Mirrors, Foretold, ConsumeOne;
    if n > 0 {
      ForetoldBefore(t, Drain(ops, w, n - 1), Drain(ops, w, n));
      DrainMirrors(t, ops, w, v, n - 1);
      ConsumeMirrors(t, ops, Drain(ops, w, n - 1), Drain(REPLAY, v, n - 1));
    }
  }

  lemma IterateMirrors<D(!new)>(t: seq<Event>, ops: HalOps<D>, b: Variant, w: World<D>, v: World<Replay>)
    requires Terminating(ops) && Terminating(REPLAY) && !w.draining && Mirrors(t, w, v) && Foretold(t, Iterate(ops, b, w))
    ensures Mirrors(t, Iterate(ops, b, w), Iterate(REPLAY, b, v))
  {
    hide Foretold, ReadRegister, Drain, Iterate;
    IterateCases(ops, b, w);
    IterateCases(REPLAY, b, v);
    var n := w.fw.pending;
    if n == 0 {
      ReadMirrors(t, true, ops, w, v, SYSTICK_CNT);
    } else {
      var w0, v0 := w.(draining := true), v.(draining := true);
      SameRecord(t, Drain(ops, w0, n), Iterate(ops, b, w));
      DrainMirrors(t, ops, w0, v0, n);
    }
  }

  lemma SameRecord<D>(t: seq<Event>, w: World<D>, r: World<D>)
    requires r.seen == w.seen && r.quiet == w.quiet && Foretold(t, r)
    ensures Foretold(t, w)
  {
  }

  lemma {:induction false} RunMirrors<D(!new)>(t: seq<Event>, ops: HalOps<D>, b: Variant, w: World<D>, v: World<Replay>, iters: nat)
    requires Terminating(ops) && Terminating(REPLAY) && !w.draining && Mirrors(t, w, v) && Foretold(t, Run(ops, b, w, iters))
    ensures Mirrors(t, Run(ops, b, w, iters), Run(REPLAY, b, v, iters))
    decreases iters
  {
    hide Mirrors, Foretold, Iterate;
    if iters > 0 {
      var before := Run(ops, b, w, iters - 1);
      ForetoldBefore(t, before, Run(ops, b, w, iters));
      assert !v.draining by {
        MirrorsDraining(t, w, v);
      }
      RunMirrors(t, ops, b, w, v, iters - 1);
      IterateMirrors(t, ops, b, before, Run(REPLAY, b, v, iters - 1));
    }
  }

  lemma MirrorsDraining<D>(t: seq<Event>, w: World<D>, v: World<Replay>)
    requires Mirrors(t, w, v)
    ensures v.draining == w.draining
  {
  }
}
