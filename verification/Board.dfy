/** The firmware and the shim as the program has them: static storage, updated in place. */
module Firmware {
  import opened Basics
  import opened Trace
  import opened RxPump

  /** `ctx` is the state of the backend that is attached, `ops` the functions that act on it. */
  class Board<D(!new)> {
    const ops: HalOps<D>
    const ring: array<u8>
    var head: nat
    var tail: nat
    var pending: u32
    var consumed: u32
    var checksum: u32
    var lastStamp: u32
    var overflows: u32
    var ctx: D
    var mask: nat
    var inIsr: bool

    /** The calls made on the writer, in order. */
    var log: seq<Event>

    ghost var quiet: set<nat>
    ghost var accepted: Bytes
    ghost var draining: bool
    ghost var inWindow: nat

    ghost predicate Valid()
      reads this
    {
      ring.Length == RING_SIZE && head < RING_SIZE && tail < RING_SIZE && Terminating(ops)
    }

    /** The firmware's storage as one value, the way it is copied into a snapshot. */
    function Fw(): State
      requires Valid()
      reads this, ring
    {
      Storage(ring[..], head, tail, pending, consumed, checksum, lastStamp, overflows)
    }

    ghost function View(): World<D>
      requires Valid()
      reads this, ring
    {
      World(Fw(), ctx, mask, inIsr, log, quiet, accepted, draining, inWindow)
    }

    constructor (ops: HalOps<D>, ctx: D)
      requires Terminating(ops)
      ensures Valid() && this.ops == ops && View() == Boot(ctx, 0) && fresh(ring)
    {
      this.ops := ops;
      ring := new u8[RING_SIZE](_ => 0);
      head, tail, pending, consumed, checksum, lastStamp, overflows := 0, 0, 0, 0, 0, 0, 0;
      this.ctx, mask, inIsr := ctx, 0, false;
      log, quiet, accepted, draining, inWindow := [], {}, [], false, 0;
      new;
      assert ring[..] == RESET.ring;
    }

    /** Detaches everything and attaches a backend, with the firmware in a given state. */
    method Restore(state: State, d: D)
      requires Valid()
      modifies this, ring
      ensures Valid() && View() == World(state, d, 0, false, [], {}, [], false, 0)
    {
      hide Terminating;
      RestoreRing(state.ring);
      head, tail, pending, consumed := state.head, state.tail, state.pending, state.consumed;
      checksum, lastStamp, overflows := state.checksum, state.lastStamp, state.overflows;
      ResetShim(d);
    }

    method RestoreRing(bytes: Bytes)
      requires ring.Length == |bytes| == RING_SIZE
      modifies ring
      ensures ring[..] == bytes
    {
      for i := 0 to RING_SIZE
        invariant ring[..i] == bytes[..i]
      {
        ring[i] := bytes[i];
      }
      assert ring[..RING_SIZE] == ring[..] && bytes[..RING_SIZE] == bytes;
    }

    method ResetShim(d: D)
      modifies this`ctx, this`mask, this`inIsr, this`log, this`quiet, this`accepted, this`draining, this`inWindow
      ensures ctx == d && mask == 0 && !inIsr && log == [] && quiet == {} && accepted == [] && !draining && inWindow == 0
    {
      ctx, mask, inIsr := d, 0, false;
      log, quiet, accepted, draining, inWindow := [], {}, [], false, 0;
    }

    // ----- the shim

    /** An access as far as it concerns the backend and the writer. */
    method Touch(addr: u32) returns (value: u32)
      requires Valid()
      modifies this`ctx, this`log
      ensures Valid() && (View(), value) == RawRead(ops, old(View()), addr)
    {
      var (d, v) := ops.read(ctx, Fw(), addr);
      ctx := d;
      log := log + [Event(MmioRead, ops.now(d), addr, v)];
      return v;
    }

    method MmioRead32(addr: u32) returns (value: u32)
      requires Valid()
      modifies this, ring
      ensures Valid() && (View(), value) == ReadRegister(ops, old(View()), addr)
    {
      hide Terminating, Pump, RawRead;
      value := Touch(addr);
      PumpIrqs();
    }

    method MmioWrite32(addr: u32, value: u32)
      requires Valid()
      modifies this, ring
      ensures Valid() && View() == WriteRegister(ops, old(View()), addr, value)
    {
      hide Terminating, Pump;
      ctx := ops.write(ctx, Fw(), addr, value);
      log := log + [Event(MmioWrite, ops.now(ctx), addr, value)];
      PumpIrqs();
    }

    /** Runs the handlers of all pending interrupts, unless masked or already in one. */
    method PumpIrqs()
      requires Valid()
      modifies this, ring
      ensures Valid() && View() == Pump(ops, old(View()))
    {
      hide Isr;
      if mask > 0 || inIsr {
        return;
      }
      inIsr := true;
      ghost var window := View();
      while true
        invariant Valid() && PumpLoop(ops, View()) == PumpLoop(ops, window)
        decreases ops.rank(ctx, Fw())
      {
        var (d, vector) := ops.poll(ctx, Fw());
        ctx := d;
        if vector == NO_IRQ {
          quiet := quiet + {|log|};
          break;
        }
        log := log + [Event(IrqEnter, ops.now(d), vector, 0)];
        if vector == IRQ_UART_RX {
          IsrUartRx();
        }
      }
      inIsr := false;
    }

    method IrqDisable()
      requires Valid()
      modifies this`mask
      ensures Valid() && View() == Disable(old(View()))
    {
      mask := mask + 1;
    }

    method IrqEnable()
      requires Valid()
      modifies this`mask
      ensures Valid() && View() == Enable(old(View()))
    {
      if mask > 0 {
        mask := mask - 1;
      }
    }

    // ----- the firmware

    /** The receive handler; the shim runs it with further interrupts held off. */
    method IsrUartRx()
      requires Valid() && inIsr
      modifies this, ring
      ensures Valid() && View() == Isr(ops, old(View()))
    {
      hide Terminating, RawRead, Accept;
      var sr := Touch(UART0_SR);
      if sr % 2 == 0 {
        return;
      }
      var dr := Touch(UART0_DR);
      StoreByte(dr % 0x100);
    }

    method StoreByte(byte: u8)
      requires Valid()
      modifies this, ring
      ensures Valid() && View() == Accept(old(View()), byte)
    {
      hide Terminating, Wrap32;
      var next := (head + 1) % RING_SIZE;
      if next == tail {
        overflows := Wrap32(overflows + 1);
        return;
      }
      ghost var was := ring[..];
      ring[head] := byte;
      assert ring[..] == was[head := byte];
      head := next;
      pending := Wrap32(pending + 1);
      accepted := accepted + [byte];
      inWindow := inWindow + (if draining then 1 else 0);
    }

    method TakeByte()
      requires Valid()
      modifies this`tail, this`checksum, this`consumed
      ensures Valid() && View() == old(View()).(fw := Take(old(Fw())))
    {
      var byte := ring[tail];
      tail := (tail + 1) % RING_SIZE;
      checksum := (checksum * 31 + byte) % TWO_32;
      consumed := Wrap32(consumed + 1);
    }

    method Consume()
      requires Valid()
      modifies this, ring
      ensures Valid() && View() == ConsumeOne(ops, old(View()))
    {
      hide Terminating, Take, ReadRegister, WriteRegister;
      TakeByte();
      var stamp := MmioRead32(SYSTICK_CNT);
      lastStamp := stamp;
      MmioWrite32(GPIO0_ODR, consumed);
    }

    method RxPumpRun(variant: Variant, iters: nat)
      requires Valid() && !draining
      modifies this, ring
      ensures Valid() && View() == Run(ops, variant, old(View()), iters)
    {
      hide Terminating, Iterate;
      ghost var start := View();
      for iter := 0 to iters
        invariant Valid() && View() == Run(ops, variant, start, iter) && !draining
      {
        Pass(variant);
      }
    }

    /** The body of the main loop. */
    method Pass(variant: Variant)
      requires Valid() && !draining
      modifies this, ring
      ensures Valid() && View() == Iterate(ops, variant, old(View())) && !draining
    {
      hide Terminating, ReadRegister, Drain, Iterate, Settle;
      IterateCases(ops, variant, View());
      var n;
      if variant.Fixed? {
        IrqDisable();
        n := pending;
        IrqEnable();
      } else {
        n := pending;
      }
      if n == 0 {
        var idle := MmioRead32(SYSTICK_CNT);
        return;
      }
      DrainAll(n);
      CloseDrain(variant, n);
    }

    method DrainAll(n: u32)
      requires Valid() && !draining
      modifies this, ring
      ensures Valid() && View() == Drain(ops, old(View()).(draining := true), n)
    {
      hide Terminating, ConsumeOne;
      draining := true;
      ghost var start := View();
      for i := 0 to n
        invariant Valid() && View() == Drain(ops, start, i)
      {
        Consume();
      }
    }

    /** The two variants differ here and nowhere else. */
    method CloseDrain(variant: Variant, n: u32)
      requires Valid()
      modifies this`pending, this`mask, this`draining
      ensures Valid() && View() == old(View()).(fw := Settle(variant, old(Fw()), n), draining := false)
    {
      draining := false;
      if variant.Fixed? {
        IrqDisable();
        pending := (pending + TWO_32 - n) % TWO_32;
        IrqEnable();
      } else {
        pending := 0;
      }
    }
  }
}
