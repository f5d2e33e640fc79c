/**
 * What a run's record says about it: which accesses follow which, and the counters, stamps and port
 * values that the firmware's state must agree with. All of it holds for every backend.
 */
module RxRecord {
  import opened Basics
  import opened Trace
  import opened Stream
  import opened RxPump
  import opened RxAccount

  // ----- reading a record

  predicate Reads(e: Event, addr: u32) {
    e.kind.MmioRead? && e.addr == addr
  }

  predicate UartInterrupt(e: Event) {
    e.kind.IrqEnter? && e.addr == IRQ_UART_RX
  }

  predicate BytePending(e: Event) {
    Reads(e, UART0_SR) && e.value % 2 == 1
  }

  /**
   * Whether `e` may come next. The status register is read right after each UART interrupt and at no
   * other time, the data register right after a status that says so and at no other time; the main
   * loop reads the clock and writes the port.
   */
  predicate Follows(s: seq<Event>, e: Event) {
    && (Reads(e, UART0_SR) <==> s != [] && UartInterrupt(Last(s)))
    && (Reads(e, UART0_DR) <==> s != [] && BytePending(Last(s)))
    && match e.kind
       case MmioRead => e.addr in {SYSTICK_CNT, UART0_SR, UART0_DR}
       case MmioWrite => e.addr == GPIO0_ODR
       case IrqEnter => true
       case Stop => false
       case IrqAt => false
  }

  predicate Disciplined(s: seq<Event>) {
    s == [] || (Disciplined(Front(s)) && Follows(Front(s), Last(s)))
  }

  /** No handler is in the middle of its work. */
  predicate Settled(s: seq<Event>) {
    s != [] ==> !UartInterrupt(Last(s)) && !BytePending(Last(s))
  }

  /** The bytes read out of the data register. */
  function Received(s: seq<Event>): Bytes {
    if s == [] then [] else Received(Front(s)) + (if Reads(Last(s), UART0_DR) then [Last(s).value % 0x100] else [])
  }

  /** The values written to the port. */
  function Shown(s: seq<Event>): seq<u32> {
    if s == [] then [] else Shown(Front(s)) + (if Last(s).kind.MmioWrite? then [Last(s).value] else [])
  }

  /** The clock as last read. */
  function LastTick(s: seq<Event>): u32 {
    if s == [] then 0 else if Reads(Last(s), SYSTICK_CNT) then Last(s).value else LastTick(Front(s))
  }

  /** The clock as last read before the last write to the port. */
  function LastStamp(s: seq<Event>): u32 {
    if s == [] then 0 else if Last(s).kind.MmioWrite? then LastTick(Front(s)) else LastStamp(Front(s))
  }

  /** `part` is what is left of `whole` when some of it is dropped. */
  predicate Within(part: Bytes, whole: Bytes) {
    if whole == [] then part == []
    else (part != [] && Last(part) == Last(whole) && Within(Front(part), Front(whole))) || Within(part, Front(whole))
  }

  lemma {:induction false} WithinLength(part: Bytes, whole: Bytes)
    requires Within(part, whole)
    ensures |part| <= |whole| && (|part| == |whole| ==> part == whole)
  {
    if whole != [] {
      if part != [] && Last(part) == Last(whole) && Within(Front(part), Front(whole)) {
        WithinLength(Front(part), Front(whole));
        assert part == Front(part) + [Last(part)] && whole == Front(whole) + [Last(whole)];
      } else {
        WithinLength(part, Front(whole));
      }
    }
  }

  // ----- the invariant

  /** The record is in order, the ring got a part of what was received, and the rest is counted. */
  ghost predicate Logged<D>(w: World<D>) {
    && Disciplined(w.seen) && Within(w.accepted, Received(w.seen))
    && |w.accepted| <= |Received(w.seen)| && w.fw.overflows == Wrap32(|Received(w.seen)| - |w.accepted|)
  }

  /** From `w` to `r` nothing happened but interrupts. */
  ghost predicate Aside<D>(w: World<D>, r: World<D>) {
    && Shown(r.seen) == Shown(w.seen) && LastTick(r.seen) == LastTick(w.seen) && LastStamp(r.seen) == LastStamp(w.seen)
    && r.fw.consumed == w.fw.consumed && r.fw.lastStamp == w.fw.lastStamp
  }

  /** One more event, and nothing else. */
  lemma OneMore<D>(w: World<D>, r: World<D>, e: Event)
    requires Logged(w) && Follows(w.seen, e) && !Reads(e, UART0_DR)
    requires r.seen == w.seen + [e] && r.accepted == w.accepted && r.fw.overflows == w.fw.overflows
    ensures Logged(r)
    ensures e.kind.IrqEnter? || Reads(e, UART0_SR) ==>
              Shown(r.seen) == Shown(w.seen) && LastTick(r.seen) == LastTick(w.seen) && LastStamp(r.seen) == LastStamp(w.seen)
    ensures Reads(e, SYSTICK_CNT) ==> Shown(r.seen) == Shown(w.seen) && LastTick(r.seen) == e.value && LastStamp(r.seen) == LastStamp(w.seen)
    ensures e.kind.MmioWrite? ==> Shown(r.seen) == Shown(w.seen) + [e.value] && LastStamp(r.seen) == LastTick(w.seen)
  {
    Appended(w.seen, e);
    hide Within;
    assert Received(w.seen) + [] == Received(w.seen) && Shown(w.seen) + [] == Shown(w.seen);
  }

  lemma Appended(s: seq<Event>, e: Event)
    ensures Front(s + [e]) == s && Last(s + [e]) == e
  {
  }

  /** A byte read out of the data register, and put into the ring or counted. */
  lemma OneByte<D>(w: World<D>, r: World<D>, e: Event)
    requires Logged(w) && Follows(w.seen, e) && Reads(e, UART0_DR)
    requires r.seen == w.seen + [e]
    requires (r.accepted == w.accepted + [e.value % 0x100] && r.fw.overflows == w.fw.overflows)
             || (r.accepted == w.accepted && r.fw.overflows == Wrap32(w.fw.overflows + 1))
    ensures Logged(r) && Settled(r.seen)
    ensures Shown(r.seen) == Shown(w.seen) && LastTick(r.seen) == LastTick(w.seen) && LastStamp(r.seen) == LastStamp(w.seen)
  {
    Appended(w.seen, e);
    var byte := e.value % 0x100;
    var whole := Received(w.seen) + [byte];
    assert Front(whole) == Received(w.seen) && Last(whole) == byte && Received(r.seen) == whole;
    assert Shown(w.seen) + [] == Shown(w.seen);
    assert Front(w.accepted + [byte]) == w.accepted;
    WrapAdd32(|Received(w.seen)| - |w.accepted|, 1);
  }

  lemma IsrLogged<D(!new)>(ops: HalOps<D>, w: World<D>)
    requires Terminating(ops) && Logged(w) && w.seen != [] && UartInterrupt(Last(w.seen))
    ensures var r := Isr(ops, w);
            Logged(r) && Settled(r.seen) && Aside(w, r)
  {
    hide Logged, Shown, LastTick, LastStamp, Disciplined, Terminating;
    var (w1, sr) := RawRead(ops, w, UART0_SR);
    OneMore(w, w1, w1.seen[|w.seen|]);
    Appended(w.seen, w1.seen[|w.seen|]);
    if sr % 2 == 1 {
      var (w2, dr) := RawRead(ops, w1, UART0_DR);
      Appended(w1.seen, w2.seen[|w1.seen|]);
      OneByte(w1, Accept(w2, dr % 0x100), w2.seen[|w1.seen|]);
    }
  }

  lemma {:induction false} PumpLoopLogged<D(!new)>(ops: HalOps<D>, w: World<D>)
    requires Terminating(ops) && Logged(w) && Settled(w.seen)
    ensures var r := PumpLoop(ops, w);
            Logged(r) && Settled(r.seen) && Aside(w, r)
    decreases ops.rank(w.ctx, w.fw)
  {
    hide Shown, LastTick, LastStamp, Disciplined, Isr, Received, Within, Wrap32;
    var (d, vector) := ops.poll(w.ctx, w.fw);
    if vector != NO_IRQ {
      var w1 := EnterIrq(ops, w, d, vector);
      OneMore(w, w1, w1.seen[|w.seen|]);
      Appended(w.seen, w1.seen[|w.seen|]);
      hide Logged;
      if vector == IRQ_UART_RX {
        IsrLogged(ops, w1);
        PumpLoopLogged(ops, Isr(ops, w1));
      } else {
        PumpLoopLogged(ops, w1);
      }
    }
  }

  lemma PumpLogged<D(!new)>(ops: HalOps<D>, w: World<D>)
    requires Terminating(ops) && Logged(w) && Settled(w.seen)
    ensures var r := Pump(ops, w);
            Logged(r) && Settled(r.seen) && Aside(w, r)
  {
    hide Shown, LastTick, LastStamp, Disciplined, PumpLoop, Received, Within, Wrap32;
    if !(w.mask > 0 || w.inIsr) {
      PumpLoopLogged(ops, w.(inIsr := true));
    }
  }

  lemma ReadLogged<D(!new)>(ops: HalOps<D>, w: World<D>)
    requires Terminating(ops) && Logged(w) && Settled(w.seen)
    ensures var (r, value) := ReadRegister(ops, w, SYSTICK_CNT);
            && Logged(r) && Settled(r.seen) && r.fw.consumed == w.fw.consumed && r.fw.lastStamp == w.fw.lastStamp
            && Shown(r.seen) == Shown(w.seen) && LastTick(r.seen) == value && LastStamp(r.seen) == LastStamp(w.seen)
  {
    hide Shown, LastTick, LastStamp, Disciplined, Pump, Logged;
    var w1 := RawRead(ops, w, SYSTICK_CNT).0;
    OneMore(w, w1, w1.seen[|w.seen|]);
    Appended(w.seen, w1.seen[|w.seen|]);
    PumpLogged(ops, w1);
  }

  lemma WriteLogged<D(!new)>(ops: HalOps<D>, w: World<D>, value: u32)
    requires Terminating(ops) && Logged(w) && Settled(w.seen)
    ensures var r := WriteRegister(ops, w, GPIO0_ODR, value);
            && Logged(r) && Settled(r.seen) && r.fw.consumed == w.fw.consumed && r.fw.lastStamp == w.fw.lastStamp
            && Shown(r.seen) == Shown(w.seen) + [value] && LastStamp(r.seen) == LastTick(w.seen)
  {
    hide Shown, LastTick, LastStamp, Disciplined, Pump, Logged;
    var w1 := RawWrite(ops, w, GPIO0_ODR, value);
    OneMore(w, w1, w1.seen[|w.seen|]);
    Appended(w.seen, w1.seen[|w.seen|]);
    PumpLogged(ops, w1);
  }

  /** The port has shown 1, 2, 3 and so on; the count is the last of these, and the stamp the clock before it. */
  ghost predicate Told<D>(w: World<D>) {
    && Logged(w) && Settled(w.seen)
    && w.fw.consumed == Wrap32(|Shown(w.seen)|) && w.fw.lastStamp == LastStamp(w.seen)
    && forall k :: 0 <= k < |Shown(w.seen)| ==> Shown(w.seen)[k] == Wrap32(k + 1)
  }

  lemma ConsumeTold<D(!new)>(ops: HalOps<D>, w: World<D>)
    requires Terminating(ops) && Told(w)
    ensures Told(ConsumeOne(ops, w))
  {
    hide Shown, LastTick, LastStamp, ReadRegister, WriteRegister, Terminating, Wrap32, Fold;
    var w1 := w.(fw := Take(w.fw));
    SameLogged(w, w1);
    ReadLogged(ops, w1);
    var w2 := Stamp(ops, w1);
    SameLogged(ReadRegister(ops, w1, SYSTICK_CNT).0, w2);
    WriteLogged(ops, w2, w2.fw.consumed);
    hide Logged;
    WrapAdd32(|Shown(w.seen)|, 1);
  }

  lemma SameLogged<D>(w: World<D>, r: World<D>)
    requires Logged(w) && r.seen == w.seen && r.accepted == w.accepted && r.fw.overflows == w.fw.overflows
    ensures Logged(r)
  {
  }

  lemma {:induction false} DrainTold<D(!new)>(ops: HalOps<D>, w: World<D>, n: nat)
    requires Terminating(ops) && Told(w)
    ensures Told(Drain(ops, w, n))
    decreases n
  {
    hide ConsumeOne, Told;
    if n > 0 {
      DrainTold(ops, w, n - 1);
      ConsumeTold(ops, Drain(ops, w, n - 1));
    }
  }

  lemma SameTold<D>(w: World<D>, r: World<D>)
    requires Told(w) && r.seen == w.seen && r.accepted == w.accepted && r.fw == w.fw.(pending := r.fw.pending)
    ensures Told(r)
  {
  }

  lemma IterateTold<D(!new)>(ops: HalOps<D>, v: Variant, w: World<D>)
    requires Terminating(ops) && Told(w) && !w.draining
    ensures Told(Iterate(ops, v, w))
  {
    hide ReadRegister, Drain, Iterate, Logged, Shown, LastStamp, LastTick;
    IterateCases(ops, v, w);
    var n := w.fw.pending;
    if n == 0 {
      ReadLogged(ops, w);
    } else {
      SameTold(w, w.(draining := true));
      hide Told;
      DrainTold(ops, w.(draining := true), n);
      SameTold(Drain(ops, w.(draining := true), n), Iterate(ops, v, w));
    }
  }

  /**
   * The record accounts for the state. After every pass: each handler ran to its end right behind its
   * interrupt; the port has shown 1, 2, 3 and so on up to the count; the stamp is the clock as read
   * before the last of these; and of the bytes received, those missing from the ring's history are
   * exactly the overflows counted.
   */
  lemma {:induction false} RunTold<D(!new)>(ops: HalOps<D>, v: Variant, ctx: D, mask: nat, iters: nat)
    requires Terminating(ops)
    ensures var w := Run(ops, v, Boot(ctx, mask), iters);
            && Disciplined(w.seen) && Settled(w.seen)
            && w.fw.consumed == Wrap32(|Shown(w.seen)|) && w.fw.lastStamp == LastStamp(w.seen)
            && (forall k :: 0 <= k < |Shown(w.seen)| ==> Shown(w.seen)[k] == Wrap32(k + 1))
            && Within(w.accepted, Received(w.seen)) && |w.accepted| <= |Received(w.seen)|
            && w.fw.overflows == Wrap32(|Received(w.seen)| - |w.accepted|)
            && Told(w)
    decreases iters
  {
    hide Iterate;
    if iters > 0 {
      RunTold(ops, v, ctx, mask, iters - 1);
      hide Told;
      IterateTold(ops, v, Run(ops, v, Boot(ctx, mask), iters - 1));
    }
    ToldMeans(Run(ops, v, Boot(ctx, mask), iters));
  }

  lemma ToldMeans<D>(w: World<D>)
    requires Told(w)
    ensures Disciplined(w.seen) && Settled(w.seen)
    ensures w.fw.consumed == Wrap32(|Shown(w.seen)|) && w.fw.lastStamp == LastStamp(w.seen)
    ensures forall k :: 0 <= k < |Shown(w.seen)| ==> Shown(w.seen)[k] == Wrap32(k + 1)
    ensures Within(w.accepted, Received(w.seen)) && |w.accepted| <= |Received(w.seen)|
    ensures w.fw.overflows == Wrap32(|Received(w.seen)| - |w.accepted|)
  {
  }

  /** A byte is dropped when the ring holds 15, and only then. */
  lemma FullMeans(s: State)
    ensures Full(s) <==> Occupancy(s) == RING_SIZE - 1
  {
  }

  // ----- masking

  /**
   * An access while interrupts are masked, or inside a handler, leaves exactly one event; otherwise
   * its window stays open until a poll finds nothing, and that poll is the last thing it does.
   */
  lemma AccessWindow<D(!new)>(ops: HalOps<D>, w: World<D>, addr: u32)
    requires Terminating(ops)
    ensures var (r, value) := ReadRegister(ops, w, addr);
            var e := Event(MmioRead, ops.now(ops.read(w.ctx, w.fw, addr).0), addr, value);
            && w.seen + [e] <= r.seen
            && (w.mask > 0 || w.inIsr ==> r.seen == w.seen + [e] && r.quiet == w.quiet && r.fw == w.fw && r.accepted == w.accepted)
            && (w.mask == 0 && !w.inIsr ==> |r.seen| in r.quiet)
  {
    hide PumpLoop;
  }

  /** A run under a mask takes no interrupt at all: it reads the clock once a pass and stays in the boot state. */
  lemma {:induction false} MaskedRun<D(!new)>(ops: HalOps<D>, v: Variant, ctx: D, mask: nat, iters: nat)
    requires Terminating(ops) && mask > 0
    ensures var w := Run(ops, v, Boot(ctx, mask), iters);
            && w.fw == RESET && w.accepted == [] && w.quiet == {} && w.mask == mask && !w.inIsr
            && |w.seen| == iters && forall i :: 0 <= i < iters ==> Reads(w.seen[i], SYSTICK_CNT)
    decreases iters
  {
    hide Iterate;
    if iters > 0 {
      MaskedRun(ops, v, ctx, mask, iters - 1);
      MaskedPass(ops, v, Run(ops, v, Boot(ctx, mask), iters - 1));
    }
  }

  lemma MaskedPass<D(!new)>(ops: HalOps<D>, v: Variant, w: World<D>)
    requires Terminating(ops) && !w.draining && w.mask > 0 && w.fw.pending == 0
    ensures var r := Iterate(ops, v, w);
            && r.fw == w.fw && r.accepted == w.accepted && r.quiet == w.quiet
            && |r.seen| == |w.seen| + 1 && w.seen <= r.seen && Reads(r.seen[|w.seen|], SYSTICK_CNT)
  {
    hide Iterate, ReadRegister;
    IterateCases(ops, v, w);
    AccessWindow(ops, w, SYSTICK_CNT);
  }
}
