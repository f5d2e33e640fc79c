/**
 * The fixed firmware on the simulator never loses a byte: an invariant over the position in a
 * frame and the time left until the next one.
 */
module FixedTiming {
  import opened Basics
  import opened Trace
  import opened RxPump
  import opened RxAccount
  import opened Simulator

  /** Every byte sent has been accepted, and none is waiting in the receive register. */
  ghost predicate Sync(w: World<Mcu>) {
    && w.mask == 0 && !w.inIsr
    && w.accepted == w.ctx.wire && !w.ctx.rxPending && !w.ctx.irqLatched
    && w.fw.overflows == 0 && w.ctx.txChecksum == FoldAll(w.ctx.wire)
  }

  /**
   * Inside a frame the ring holds at most the bytes of that frame; between frames, if it holds any,
   * the next frame is more than `due` cycles away.
   */
  predicate Timed(m: Mcu, occupancy: nat, due: nat) {
    && m.framePos < FRAME_LEN && occupancy <= FRAME_LEN
    && (m.framePos > 0 ==> occupancy <= m.framePos)
    && (m.framePos == 0 && occupancy > 0 ==> m.nextRx > m.cycles + due)
  }

  /** Two accesses a byte: what emptying the ring still costs, plus `extra` accesses. */
  function Due(s: State, extra: nat): nat {
    2 * MMIO_COST * Occupancy(s) + MMIO_COST * extra
  }

  ghost predicate Live(w: World<Mcu>, extra: nat) {
    Sync(w) && Timed(w.ctx, Occupancy(w.fw), Due(w.fw, extra))
  }

  // ----- one access

  lemma {:induction false} FoldSnoc(bytes: Bytes, b: u8)
    ensures FoldAll(bytes + [b]) == Fold(FoldAll(bytes), b)
  {
    assert (bytes + [b])[..|bytes|] == bytes;
  }

  /** The handler takes the waiting byte out of the register and into the ring. */
  lemma HandlerTakes(w: World<Mcu>)
    requires Terminating(MCU) && w.ctx.rxPending && !Full(w.fw)
    ensures var r := Isr(MCU, w);
            && r.ctx == w.ctx.(cycles := w.ctx.cycles + 2 * MMIO_COST, rxPending := false)
            && r.fw == Receive(w.fw, w.ctx.rxByte) && r.accepted == w.accepted + [w.ctx.rxByte]
  {
    var (w1, sr) := RawRead(MCU, w, UART0_SR);
    assert sr == SR_RXNE + SR_TXE && w1.ctx == w.ctx.(cycles := w.ctx.cycles + MMIO_COST);
    var (w2, dr) := RawRead(MCU, w1, UART0_DR);
    assert dr == w.ctx.rxByte;
  }

  /** The interrupt window right after an arrival: one handler run, then quiet. */
  lemma WindowTakes(w: World<Mcu>)
    requires Terminating(MCU) && w.mask == 0 && !w.inIsr && w.ctx.rxPending && w.ctx.irqLatched && !Full(w.fw)
    ensures var r := Pump(MCU, w);
            && r.ctx == w.ctx.(cycles := w.ctx.cycles + 2 * MMIO_COST, rxPending := false, irqLatched := false)
            && r.fw == Receive(w.fw, w.ctx.rxByte) && r.accepted == w.accepted + [w.ctx.rxByte]
  {
    hide Isr;
    var w0 := w.(inIsr := true);
    var d := w.ctx.(irqLatched := false);
    var w1 := EnterIrq(MCU, w0, d, IRQ_UART_RX);
    HandlerTakes(w1);
    var w2 := Isr(MCU, w1);
    assert PumpLoop(MCU, w0) == PumpLoop(MCU, w2);
    assert PumpLoop(MCU, w2).ctx == w2.ctx;
  }

  lemma WindowQuiet(w: World<Mcu>)
    requires Terminating(MCU) && w.mask == 0 && !w.inIsr && !w.ctx.irqLatched
    ensures var r := Pump(MCU, w);
            r.ctx == w.ctx && r.fw == w.fw && r.accepted == w.accepted
  {
    hide Isr;
  }

  /** What an access did to the clock leaves the invariant with one access less to spare. */
  lemma AfterAccess(w: World<Mcu>, w1: World<Mcu>, k: nat)
    requires Terminating(MCU) && Live(w, k + 1) && k <= 1
    requires w1.fw == w.fw && w1.accepted == w.accepted && w1.mask == 0 && !w1.inIsr
    requires w1.ctx == Tick(w.ctx, MMIO_COST).(odr := w1.ctx.odr)
    ensures Live(Pump(MCU, w1), k)
  {
    hide Pump, FoldAll, Terminating;
    if Arrives(w.ctx.(cycles := w.ctx.cycles + MMIO_COST)) {
      WindowTakes(w1);
      FoldSnoc(w.ctx.wire, w1.ctx.rxByte);
      assert Occupancy(Pump(MCU, w1).fw) == Occupancy(w.fw) + 1;
    } else {
      WindowQuiet(w1);
    }
  }

  lemma ReadLive(w: World<Mcu>, k: nat)
    requires Terminating(MCU) && Live(w, k + 1) && k <= 1
    ensures Live(ReadRegister(MCU, w, SYSTICK_CNT).0, k)
  {
    hide Live, Pump, Terminating;
    var w1 := RawRead(MCU, w, SYSTICK_CNT).0;
    LiveShim(w, k + 1);
    AfterAccess(w, w1, k);
  }

  lemma WriteLive(w: World<Mcu>, value: u32, k: nat)
    requires Terminating(MCU) && Live(w, k + 1) && k <= 1
    ensures Live(WriteRegister(MCU, w, GPIO0_ODR, value), k)
  {
    hide Live, Pump, Terminating;
    var w1 := RawWrite(MCU, w, GPIO0_ODR, value);
    LiveShim(w, k + 1);
    AfterAccess(w, w1, k);
  }

  lemma LiveShim(w: World<Mcu>, k: nat)
    requires Live(w, k)
    ensures w.mask == 0 && !w.inIsr
  {
  }

  // ----- the main loop

  lemma TakeLive(w: World<Mcu>)
    requires Live(w, 0) && Occupancy(w.fw) > 0
    ensures Live(w.(fw := Take(w.fw)), 2)
  {
  }

  lemma StampLive(w: World<Mcu>, stamp: u32, k: nat)
    requires Live(w, k)
    ensures Live(w.(fw := w.fw.(lastStamp := stamp)), k)
  {
  }

  lemma ConsumeLive(w: World<Mcu>)
    requires Terminating(MCU) && Live(w, 0) && Occupancy(w.fw) > 0
    ensures Live(ConsumeOne(MCU, w), 0)
  {
    hide Live, ReadRegister, WriteRegister, Terminating;
    TakeLive(w);
    var w1 := w.(fw := Take(w.fw));
    ReadLive(w1, 1);
    var (w2, stamp) := ReadRegister(MCU, w1, SYSTICK_CNT);
    StampLive(w2, stamp, 1);
    var w3 := Stamp(MCU, w1);
    WriteLive(w3, w3.fw.consumed, 0);
  }

  lemma {:induction false} DrainLive(w: World<Mcu>, n: nat)
    requires Terminating(MCU) && Live(w, 0) && n <= Occupancy(w.fw) && w.fw.pending + 2 * RING_SIZE < TWO_32
    ensures Live(Drain(MCU, w, n), 0)
    decreases n
  {
    hide Live, ConsumeOne, Terminating, Fifo;
    if n > 0 {
      DrainLive(w, n - 1);
      DrainDrained(MCU, w, n - 1);
      ConsumeLive(Drain(MCU, w, n - 1));
    }
  }

  lemma SameLive(w: World<Mcu>, r: World<Mcu>)
    requires Live(w, 0) && r.ctx == w.ctx && r.accepted == w.accepted && r.mask == w.mask && r.inIsr == w.inIsr
    requires r.fw == w.fw.(pending := r.fw.pending)
    ensures Live(r, 0)
  {
  }

  lemma IdleLive(w: World<Mcu>)
    requires Live(w, 0) && Occupancy(w.fw) == 0
    ensures Live(w, 1)
  {
  }

  lemma IterateLive(w: World<Mcu>)
    requires Terminating(MCU) && Live(w, 0) && Boundary(Fixed, w)
    ensures Live(Iterate(MCU, Fixed, w), 0) && Boundary(Fixed, Iterate(MCU, Fixed, w))
  {
    hide Live, ReadRegister, Drain, Iterate, Terminating, Fifo;
    IterateBoundary(MCU, Fixed, w);
    IterateCases(MCU, Fixed, w);
    var n := w.fw.pending;
    if n == 0 {
      IdleLive(w);
      ReadLive(w, 0);
    } else {
      var w0 := w.(draining := true);
      SameLive(w, w0);
      DrainLive(w0, n);
      SameLive(Drain(MCU, w0, n), Iterate(MCU, Fixed, w));
    }
  }

  lemma {:induction false} RunLive(random: nat -> u64, txTotal: u32, iters: nat)
    ensures Terminating(MCU)
    ensures var w := Run(MCU, Fixed, Boot(PowerOn(random, txTotal), 0), iters);
            Live(w, 0) && Boundary(Fixed, w)
    decreases iters
  {
    McuTerminates();
    hide Iterate, Terminating;
    var start := Boot(PowerOn(random, txTotal), 0);
    if iters == 0 {
      BootFifo(PowerOn(random, txTotal), 0);
    } else {
      RunLive(random, txTotal, iters - 1);
      hide Live, Fifo;
      IterateLive(Run(MCU, Fixed, start, iters - 1));
    }
  }

  /**
   * For every seed and every number of bytes, at each pass of the main loop: all bytes sent are
   * consumed or counted in `pending`, the checksum is that of the consumed ones in order, nothing
   * overflowed, and the ring never holds more than one frame.
   */
  lemma FixedNeverLoses(random: nat -> u64, txTotal: u32, iters: nat)
    ensures Terminating(MCU)
    ensures var w := Run(MCU, Fixed, Boot(PowerOn(random, txTotal), 0), iters);
            && |w.ctx.wire| == Consumed(w) + w.fw.pending && 0 <= Consumed(w)
            && w.fw.consumed == Wrap32(Consumed(w)) && w.fw.checksum == FoldAll(w.ctx.wire[..Consumed(w)])
            && w.ctx.txChecksum == FoldAll(w.ctx.wire)
            && w.fw.overflows == 0 && Occupancy(w.fw) <= FRAME_LEN
  {
    RunLive(random, txTotal, iters);
    hide Run;
  }
}
