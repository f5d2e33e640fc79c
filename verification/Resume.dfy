/** A replay picked up at a pass of the main loop behaves as the one that ran from the start. */
module Resuming {
  import opened Basics
  import opened Trace
  import opened RxPump
  import opened Replaying

  /** The shim, the firmware and the backend as restored from a checkpoint. */
  function Install(events: seq<Event>, checkWrites: bool, fw: State, cursor: nat, now: nat): World<Replay> {
    World(fw, Replay(events, cursor, now, 0, checkWrites, None, []), 0, false, [], {}, [], false, 0)
  }

  /**
   * `v` goes the way of `w`, which had made the requests `base` when `v` was picked up: from there on
   * both make the same requests. What else the runs remember, divergence included, steers neither.
   */
  ghost predicate Alike(base: seq<Call>, w: World<Replay>, v: World<Replay>) {
    && v.fw == w.fw && v.mask == w.mask && v.inIsr == w.inIsr && v.draining == w.draining
    && v.ctx.events == w.ctx.events && v.ctx.checkWrites == w.ctx.checkWrites
    && v.ctx.cursor == w.ctx.cursor && v.ctx.now == w.ctx.now
    && w.ctx.calls == base + v.ctx.calls
  }

  lemma RawReadAlike(base: seq<Call>, w: World<Replay>, v: World<Replay>, addr: u32)
    requires Alike(base, w, v)
    ensures Alike(base, RawRead(REPLAY, w, addr).0, RawRead(REPLAY, v, addr).0)
    ensures RawRead(REPLAY, w, addr).1 == RawRead(REPLAY, v, addr).1
  {
  }

  lemma RawWriteAlike(base: seq<Call>, w: World<Replay>, v: World<Replay>, addr: u32, value: u32)
    requires Alike(base, w, v)
    ensures Alike(base, RawWrite(REPLAY, w, addr, value), RawWrite(REPLAY, v, addr, value))
  {
  }

  lemma IsrAlike(base: seq<Call>, w: World<Replay>, v: World<Replay>)
    requires Terminating(REPLAY) && Alike(base, w, v)
    ensures Alike(base, Isr(REPLAY, w), Isr(REPLAY, v))
  {
    hide RawRead;
    RawReadAlike(base, w, v, UART0_SR);
    var (w1, sr) := RawRead(REPLAY, w, UART0_SR);
    if sr % 2 == 1 {
      RawReadAlike(base, w1, RawRead(REPLAY, v, UART0_SR).0, UART0_DR);
    }
  }

  lemma PollAlike(base: seq<Call>, w: World<Replay>, v: World<Replay>)
    requires Alike(base, w, v)
    ensures var (d, vector) := REPLAY.poll(w.ctx, w.fw);
            var (e, same) := REPLAY.poll(v.ctx, v.fw);
            && same == vector
            && Alike(base, w.(ctx := d), v.(ctx := e))
  {
  }

  lemma {:induction false} PumpLoopAlike(base: seq<Call>, w: World<Replay>, v: World<Replay>)
    requires Terminating(REPLAY) && Alike(base, w, v)
    ensures Alike(base, PumpLoop(REPLAY, w), PumpLoop(REPLAY, v))
    decreases REPLAY.rank(w.ctx, w.fw)
  {
    hide Isr;
    PollAlike(base, w, v);
    var (d, vector) := REPLAY.poll(w.ctx, w.fw);
    if vector != NO_IRQ {
      var w1 := EnterIrq(REPLAY, w, d, vector);
      var v1 := EnterIrq(REPLAY, v, REPLAY.poll(v.ctx, v.fw).0, vector);
      if vector == IRQ_UART_RX {
        IsrAlike(base, w1, v1);
        PumpLoopAlike(base, Isr(REPLAY, w1), Isr(REPLAY, v1));
      } else {
        PumpLoopAlike(base, w1, v1);
      }
    }
  }

  lemma PumpAlike(base: seq<Call>, w: World<Replay>, v: World<Replay>)
    requires Terminating(REPLAY) && Alike(base, w, v)
    ensures Alike(base, Pump(REPLAY, w), Pump(REPLAY, v))
  {
    if !(w.mask > 0 || w.inIsr) {
      PumpLoopAlike(base, w.(inIsr := true), v.(inIsr := true));
    }
  }

  lemma ReadAlike(base: seq<Call>, w: World<Replay>, v: World<Replay>, addr: u32)
    requires Terminating(REPLAY) && Alike(base, w, v)
    ensures Alike(base, ReadRegister(REPLAY, w, addr).0, ReadRegister(REPLAY, v, addr).0)
    ensures ReadRegister(REPLAY, w, addr).1 == ReadRegister(REPLAY, v, addr).1
  {
    hide RawRead, Pump;
    RawReadAlike(base, w, v, addr);
    PumpAlike(base, RawRead(REPLAY, w, addr).0, RawRead(REPLAY, v, addr).0);
  }

  lemma WriteAlike(base: seq<Call>, w: World<Replay>, v: World<Replay>, addr: u32, value: u32)
    requires Terminating(REPLAY) && Alike(base, w, v)
    ensures Alike(base, WriteRegister(REPLAY, w, addr, value), WriteRegister(REPLAY, v, addr, value))
  {
    hide RawWrite, Pump;
    RawWriteAlike(base, w, v, addr, value);
    PumpAlike(base, RawWrite(REPLAY, w, addr, value), RawWrite(REPLAY, v, addr, value));
  }

  lemma ConsumeAlike(base: seq<Call>, w: World<Replay>, v: World<Replay>)
    requires Terminating(REPLAY) && Alike(base, w, v)
    ensures Alike(base, ConsumeOne(REPLAY, w), ConsumeOne(REPLAY, v))
  {
    hide ReadRegister, WriteRegister;
    var w1, v1 := w.(fw := Take(w.fw)), v.(fw := Take(v.fw));
    ReadAlike(base, w1, v1, SYSTICK_CNT);
    var w2, v2 := Stamp(REPLAY, w1), Stamp(REPLAY, v1);
    WriteAlike(base, w2, v2, GPIO0_ODR, w2.fw.consumed);
  }

  lemma {:induction false} DrainAlike(base: seq<Call>, w: World<Replay>, v: World<Replay>, n: nat)
    requires Terminating(REPLAY) && Alike(base, w, v)
    ensures Alike(base, Drain(REPLAY, w, n), Drain(REPLAY, v, n))
    decreases n
  {
    hide ConsumeOne, Alike;
    if n > 0 {
      DrainAlike(base, w, v, n - 1);
      ConsumeAlike(base, Drain(REPLAY, w, n - 1), Drain(REPLAY, v, n - 1));
    }
  }

  /** One pass: the same firmware state, the same cursor, the same requests. */
  lemma IterateAlike(base: seq<Call>, b: Variant, w: World<Replay>, v: World<Replay>)
    requires Terminating(REPLAY) && !w.draining && Alike(base, w, v)
    ensures Alike(base, Iterate(REPLAY, b, w), Iterate(REPLAY, b, v))
  {
    hide ReadRegister, Drain, Iterate;
    IterateCases(REPLAY, b, w);
    IterateCases(REPLAY, b, v);
    if w.fw.pending == 0 {
      ReadAlike(base, w, v, SYSTICK_CNT);
    } else {
      DrainAlike(base, w.(draining := true), v.(draining := true), w.fw.pending);
    }
  }
}
