/**
 * What the simulated microcontroller gives a program: registers that mean what they say, bytes from
 * the seed's stream in frames, and with the fixed firmware every one of them consumed in the end.
 */
module Delivery {
  import opened Basics
  import opened Trace
  import opened Stream
  import opened RxPump
  import opened RxAccount
  import opened RxRecord
  import opened Simulator
  import opened FixedTiming

  // ----- registers and wire

  /** What was last written to the port. */
  function LastShown(s: seq<Event>): u32 {
    if s == [] then 0
    else if Last(s).kind.MmioWrite? && Last(s).addr == GPIO0_ODR then Last(s).value
    else LastShown(Front(s))
  }

  /**
   * What a read is answered with: the clock with the time of the read, the port with what was last
   * written, the status with one of its two values, and an address without a register with zero.
   */
  predicate Answered(e: Event, shown: u32) {
    && (Reads(e, SYSTICK_CNT) ==> e.value == Wrap32(e.ts))
    && (Reads(e, GPIO0_ODR) ==> e.value == shown)
    && (Reads(e, UART0_SR) ==> e.value == SR_TXE || e.value == SR_TXE + SR_RXNE)
    && (e.kind.MmioRead? && e.addr != SYSTICK_CNT && e.addr != UART0_SR && e.addr != UART0_DR && e.addr != GPIO0_ODR ==> e.value == 0)
  }

  predicate Truthful(s: seq<Event>) {
    s != [] ==> Truthful(Front(s)) && Answered(Last(s), LastShown(Front(s)))
  }

  /** How many accesses a record holds. */
  function Accesses(s: seq<Event>): nat {
    if s == [] then 0 else Accesses(Front(s)) + (if Last(s).kind.IsMmio() then 1 else 0)
  }

  /** The bytes sent so far come from the even draws of the stream, three to a frame, and no more than asked for. */
  ghost predicate OnWire(random: nat -> u64, txTotal: u32, m: Mcu) {
    && m.random == random && m.txTotal == txTotal && |m.wire| <= txTotal && m.drawn == 2 + 2 * |m.wire|
    && (forall k :: 0 <= k < |m.wire| ==> m.wire[k] == random(2 + 2 * k) % 0x100)
    && m.framePos == |m.wire| % FRAME_LEN && m.txChecksum == FoldAll(m.wire)
    && (m.rxPending ==> m.wire != [] && m.rxByte == m.wire[|m.wire| - 1])
  }

  ghost predicate Sound(random: nat -> u64, txTotal: u32, s: seq<Event>, m: Mcu) {
    OnWire(random, txTotal, m) && Truthful(s) && m.odr == LastShown(s) && m.cycles == 3 * Accesses(s)
  }

  lemma TickOnWire(random: nat -> u64, txTotal: u32, m: Mcu, dt: nat)
    requires OnWire(random, txTotal, m)
    ensures OnWire(random, txTotal, Tick(m, dt)) && Tick(m, dt).odr == m.odr && Tick(m, dt).cycles == m.cycles + dt
  {
    hide Fold, FoldAll;
    FoldSnoc(m.wire, random(m.drawn) % 0x100);
  }

  lemma SoundPreserved(random: nat -> u64, txTotal: u32, inv: (seq<Event>, Mcu) -> bool)
    requires forall s, m {:trigger inv(s, m)} :: inv(s, m) == Sound(random, txTotal, s, m)
    ensures Preserves(MCU, inv)
  {
    forall s, m, fw, a {:trigger inv(s, m), MCU.read(m, fw, a)} | inv(s, m)
      ensures inv(s + [ReadEvent(MCU, m, fw, a)], MCU.read(m, fw, a).0)
    {
      ReadSound(random, txTotal, s, m, fw, a);
    }
    forall s, m, fw, a, v {:trigger inv(s, m), MCU.write(m, fw, a, v)} | inv(s, m)
      ensures inv(s + [WriteEvent(MCU, m, fw, a, v)], MCU.write(m, fw, a, v))
    {
      WriteSound(random, txTotal, s, m, fw, a, v);
    }
    forall s, m, fw {:trigger inv(s, m), MCU.poll(m, fw)} | inv(s, m)
      ensures inv(s + PollEvents(MCU, m, fw), MCU.poll(m, fw).0)
    {
      PollSound(random, txTotal, s, m, fw);
    }
  }

  lemma ReadAnswered(m: Mcu, fw: State, a: u32)
    ensures Answered(ReadEvent(MCU, m, fw, a), m.odr)
  {
    assert Tick(m, MMIO_COST).odr == m.odr;
    hide Tick;
  }

  lemma ReadOnWire(random: nat -> u64, txTotal: u32, m: Mcu, fw: State, a: u32)
    requires OnWire(random, txTotal, m)
    ensures var r := MCU.read(m, fw, a).0;
            OnWire(random, txTotal, r) && r.odr == m.odr && r.cycles == m.cycles + MMIO_COST
  {
    TickOnWire(random, txTotal, m, MMIO_COST);
    hide Tick;
  }

  lemma ReadSound(random: nat -> u64, txTotal: u32, s: seq<Event>, m: Mcu, fw: State, a: u32)
    requires Sound(random, txTotal, s, m)
    ensures Sound(random, txTotal, s + [ReadEvent(MCU, m, fw, a)], MCU.read(m, fw, a).0)
  {
    ReadAnswered(m, fw, a);
    ReadOnWire(random, txTotal, m, fw, a);
    hide McuRead, OnWire, Answered;
    Appended(s, ReadEvent(MCU, m, fw, a));
  }

  lemma WriteSound(random: nat -> u64, txTotal: u32, s: seq<Event>, m: Mcu, fw: State, a: u32, v: u32)
    requires Sound(random, txTotal, s, m)
    ensures Sound(random, txTotal, s + [WriteEvent(MCU, m, fw, a, v)], MCU.write(m, fw, a, v))
  {
    hide Tick;
    TickOnWire(random, txTotal, m, MMIO_COST);
    Appended(s, WriteEvent(MCU, m, fw, a, v));
  }

  lemma PollSound(random: nat -> u64, txTotal: u32, s: seq<Event>, m: Mcu, fw: State)
    requires Sound(random, txTotal, s, m)
    ensures Sound(random, txTotal, s + PollEvents(MCU, m, fw), MCU.poll(m, fw).0)
  {
    if MCU.poll(m, fw).1 == NO_IRQ {
      assert s + PollEvents(MCU, m, fw) == s;
    } else {
      Appended(s, PollEvents(MCU, m, fw)[0]);
    }
  }

  /**
   * Any run of either variant: clock and port reads are truthful, every access takes three cycles, and
   * what is on the wire is determined by the seed's stream alone, however the firmware behaves.
   */
  lemma RunSound(random: nat -> u64, txTotal: u32, v: Variant, mask: nat, iters: nat)
    ensures Terminating(MCU)
    ensures var w := Run(MCU, v, Boot(PowerOn(random, txTotal), mask), iters);
            && OnWire(random, txTotal, w.ctx) && Truthful(w.seen) && w.ctx.odr == LastShown(w.seen)
            && w.ctx.cycles == 3 * Accesses(w.seen)
  {
    McuTerminates();
    var inv := (s: seq<Event>, m: Mcu) => Sound(random, txTotal, s, m);
    SoundPreserved(random, txTotal, inv);
    assert Sound(random, txTotal, [], PowerOn(random, txTotal));
    hide Run, Preserves;
    RunKeeps(MCU, inv, v, Boot(PowerOn(random, txTotal), mask), iters);
  }

  /** The byte in the receive register, if it has not been read. */
  function Waiting(m: Mcu): Bytes {
    if m.rxPending then [m.rxByte] else []
  }

  /** As long as the data register is read when the status says so, and only then, what is read is what was sent. */
  ghost predicate Heard(s: seq<Event>, m: Mcu) {
    Disciplined(s) ==> Received(s) + Waiting(m) == m.wire && (s != [] && BytePending(Last(s)) ==> m.rxPending)
  }

  lemma HeardAccess(s: seq<Event>, m: Mcu, e: Event, r: Mcu)
    requires Heard(s, m) && Follows(s, e) && e.kind != IrqEnter && Disciplined(s)
    requires Reads(e, UART0_SR) ==> (r == Tick(m, MMIO_COST) && (e.value % 2 == 1 <==> r.rxPending))
    requires Reads(e, UART0_DR) ==> r == Tick(m, MMIO_COST).(rxPending := false) && e.value == Tick(m, MMIO_COST).rxByte
    requires !Reads(e, UART0_DR) ==> r.wire == Tick(m, MMIO_COST).wire && Waiting(r) == Waiting(Tick(m, MMIO_COST))
    ensures Heard(s + [e], r)
  {
    Appended(s, e);
    assert Received(s) + [] == Received(s);
    if Arrives(m.(cycles := m.cycles + MMIO_COST)) {
      assert m.wire + [] == m.wire;
    }
  }

  lemma HeardPreserved()
    ensures Preserves(MCU, Heard)
  {
    forall s, m, fw, a {:trigger Heard(s, m), MCU.read(m, fw, a)} | Heard(s, m)
      ensures Heard(s + [ReadEvent(MCU, m, fw, a)], MCU.read(m, fw, a).0)
    {
      Appended(s, ReadEvent(MCU, m, fw, a));
      if Disciplined(s + [ReadEvent(MCU, m, fw, a)]) {
        HeardAccess(s, m, ReadEvent(MCU, m, fw, a), MCU.read(m, fw, a).0);
      }
    }
    forall s, m, fw, a, v {:trigger Heard(s, m), MCU.write(m, fw, a, v)} | Heard(s, m)
      ensures Heard(s + [WriteEvent(MCU, m, fw, a, v)], MCU.write(m, fw, a, v))
    {
      Appended(s, WriteEvent(MCU, m, fw, a, v));
      if Disciplined(s + [WriteEvent(MCU, m, fw, a, v)]) {
        HeardAccess(s, m, WriteEvent(MCU, m, fw, a, v), MCU.write(m, fw, a, v));
      }
    }
    forall s, m, fw {:trigger Heard(s, m), MCU.poll(m, fw)} | Heard(s, m)
      ensures Heard(s + PollEvents(MCU, m, fw), MCU.poll(m, fw).0)
    {
      HeardPoll(s, m, fw);
    }
  }

  lemma HeardPoll(s: seq<Event>, m: Mcu, fw: State)
    requires Heard(s, m)
    ensures Heard(s + PollEvents(MCU, m, fw), MCU.poll(m, fw).0)
  {
    if MCU.poll(m, fw).1 == NO_IRQ {
      assert s + PollEvents(MCU, m, fw) == s;
    } else {
      Appended(s, PollEvents(MCU, m, fw)[0]);
      assert Received(s) + [] == Received(s);
    }
  }

  /**
   * Nothing is lost between wire and handler, in either variant: the bytes read out of the data
   * register are, in order, the bytes sent, but for one that may still be waiting there. What the
   * firmware then fails to put into its ring it counts as overflow.
   */
  lemma WireIsHeard(random: nat -> u64, txTotal: u32, v: Variant, mask: nat, iters: nat)
    ensures Terminating(MCU)
    ensures var w := Run(MCU, v, Boot(PowerOn(random, txTotal), mask), iters);
            && Received(w.seen) + Waiting(w.ctx) == w.ctx.wire && |w.accepted| + |Waiting(w.ctx)| <= |w.ctx.wire|
            && w.fw.overflows == |w.ctx.wire| - |w.accepted| - |Waiting(w.ctx)|
  {
    McuTerminates();
    HeardPreserved();
    RunSound(random, txTotal, v, mask, iters);
    hide Run, Preserves;
    RunKeeps(MCU, Heard, v, Boot(PowerOn(random, txTotal), mask), iters);
    RunTold(MCU, v, PowerOn(random, txTotal), mask, iters);
  }

  /** Between frames the wire is silent for 600 to 899 cycles, between the bytes of one for 6 to 205. */
  lemma Spacing(random: nat -> u64, txTotal: u32, m: Mcu)
    requires OnWire(random, txTotal, m) && Arrives(m)
    ensures var r := Arrive(m);
            && r.wire == m.wire + [random(2 + 2 * |m.wire|) % 0x100] && r.rxPending && r.irqLatched
            && if |r.wire| % 3 == 0 then 600 <= r.nextRx - r.cycles < 900 else 6 <= r.nextRx - r.cycles < 206
  {
  }

  /** The generator never gets stuck: from a state other than zero it never reaches zero, which is why seed zero is replaced. */
  lemma {:induction false} NeverZero(seed: bv64, k: nat)
    ensures Draw(seed, k) != 0
  {
    if k == 0 {
      ShiftKeeps(if seed == 0 then 0x9E37_79B9_7F4A_7C15 else seed);
    } else {
      NeverZero(seed, k - 1);
      ShiftKeeps(Draw(seed, k - 1));
    }
  }

  lemma ShiftByExample()
    ensures XorShift(1) == 0x4082_2041
  {
    assert XorLeft(1, 13) == 0x2001 && XorRight(0x2001, 7) == 0x2041 && XorLeft(0x2041, 17) == 0x4082_2041;
  }

  lemma ShiftKeeps(x: bv64)
    requires x != 0
    ensures XorShift(x) != 0
  {
    LeftKeeps(x, 13);
    RightKeeps(XorLeft(x, 13));
    LeftKeeps(XorRight(XorLeft(x, 13), 7), 17);
  }

  lemma LeftKeeps(x: bv64, n: nat)
    requires x != 0 && (n == 13 || n == 17)
    ensures XorLeft(x, n) != 0
  {
    if n == 13 {
      assert x ^ (x << 13) != 0;
    } else {
      assert x ^ (x << 17) != 0;
    }
  }

  lemma RightKeeps(x: bv64)
    requires x != 0
    ensures XorRight(x, 7) != 0
  {
    assert x ^ (x >> 7) != 0;
  }

  // ----- everything arrives, and is consumed

  /** A bound on how long the wire still takes. */
  function Wait(m: Mcu): nat {
    if |m.wire| >= m.txTotal then 0
    else 900 * (m.txTotal - |m.wire|) + (if m.nextRx > m.cycles then m.nextRx - m.cycles else 0)
  }

  lemma TickWait(m: Mcu)
    ensures Wait(Tick(m, MMIO_COST)) <= Wait(m)
    ensures !m.rxPending && Wait(m) > 0 ==> Wait(Tick(m, MMIO_COST)) < Wait(m)
  {
  }

  lemma WaitPreserved(limit: nat, inv: (seq<Event>, Mcu) -> bool)
    requires forall s, m {:trigger inv(s, m)} :: inv(s, m) == (Wait(m) <= limit)
    ensures Preserves(MCU, inv)
  {
    forall m: Mcu, a: u32
      ensures Wait(McuRead(m, a).0) <= Wait(m)
    {
      ReadWait(m, a);
    }
    forall m: Mcu, a: u32, v: u32
      ensures Wait(McuWrite(m, a, v)) <= Wait(m)
    {
      WriteWait(m, a, v);
    }
    forall m: Mcu
      ensures Wait(McuPoll(m).0) <= Wait(m)
    {
    }
    hide McuRead, McuWrite, McuPoll, Wait;
  }

  lemma ReadWait(m: Mcu, a: u32)
    ensures Wait(McuRead(m, a).0) <= Wait(m)
  {
    TickWait(m);
    hide Tick;
  }

  lemma WriteWait(m: Mcu, a: u32, v: u32)
    ensures Wait(McuWrite(m, a, v)) <= Wait(m)
  {
    TickWait(m);
    hide Tick;
  }

  /** A pass begins with an access that finds nothing in the receive register, and brings the end nearer. */
  lemma IterateWait(v: Variant, w: World<Mcu>)
    requires Terminating(MCU) && !w.draining && !w.ctx.rxPending
    ensures Wait(Iterate(MCU, v, w).ctx) <= (if Wait(w.ctx) > 0 then Wait(w.ctx) - 1 else 0)
  {
    hide ReadRegister, Drain, Iterate, Wait;
    IterateCases(MCU, v, w);
    if w.fw.pending == 0 {
      FirstWait(w);
    } else {
      DrainWait(w.(draining := true), w.fw.pending);
    }
  }

  lemma FirstWait(w: World<Mcu>)
    requires Terminating(MCU) && !w.ctx.rxPending
    ensures Wait(ReadRegister(MCU, w, SYSTICK_CNT).0.ctx) <= (if Wait(w.ctx) > 0 then Wait(w.ctx) - 1 else 0)
  {
    TickWait(w.ctx);
    var w1 := RawRead(MCU, w, SYSTICK_CNT).0;
    assert w1.ctx == Tick(w.ctx, MMIO_COST);
    var inv := (s: seq<Event>, m: Mcu) => Wait(m) <= Wait(w1.ctx);
    WaitPreserved(Wait(w1.ctx), inv);
    hide Pump, Preserves, Wait, Tick;
    PumpKeeps(MCU, inv, w1);
  }

  lemma ConsumeWait(w: World<Mcu>)
    requires Terminating(MCU)
    ensures Wait(ConsumeOne(MCU, w).ctx) <= Wait(w.ctx)
    ensures !w.ctx.rxPending ==> Wait(ConsumeOne(MCU, w).ctx) <= (if Wait(w.ctx) > 0 then Wait(w.ctx) - 1 else 0)
  {
    var w1 := w.(fw := Take(w.fw));
    var w2 := Stamp(MCU, w1);
    var inv := (s: seq<Event>, m: Mcu) => Wait(m) <= Wait(w2.ctx);
    WaitPreserved(Wait(w2.ctx), inv);
    var all := (s: seq<Event>, m: Mcu) => Wait(m) <= Wait(w.ctx);
    WaitPreserved(Wait(w.ctx), all);
    hide Preserves, Wait, ReadRegister, WriteRegister;
    WriteKeeps(MCU, inv, w2, GPIO0_ODR, w2.fw.consumed);
    ReadKeeps(MCU, all, w1, SYSTICK_CNT);
    if !w.ctx.rxPending {
      FirstWait(w1);
    }
  }

  lemma {:induction false} DrainWait(w: World<Mcu>, n: nat)
    requires Terminating(MCU) && !w.ctx.rxPending && n >= 1
    ensures Wait(Drain(MCU, w, n).ctx) <= (if Wait(w.ctx) > 0 then Wait(w.ctx) - 1 else 0)
    decreases n
  {
    hide ConsumeOne, Wait;
    if n == 1 {
      assert Drain(MCU, w, 0) == w;
      ConsumeWait(w);
    } else {
      DrainWait(w, n - 1);
      ConsumeWait(Drain(MCU, w, n - 1));
    }
  }

  /** The fixed run after `iters` passes. */
  function FixedRun(random: nat -> u64, txTotal: u32, iters: nat): (w: World<Mcu>)
    ensures Terminating(MCU) && !w.draining
  {
    McuTerminates();
    Run(MCU, Fixed, Boot(PowerOn(random, txTotal), 0), iters)
  }

  lemma BetweenPasses(random: nat -> u64, txTotal: u32, iters: nat)
    ensures var w := FixedRun(random, txTotal, iters);
            && Boundary(Fixed, w) && !w.ctx.rxPending && w.accepted == w.ctx.wire && |w.ctx.wire| <= txTotal
            && w.ctx.txTotal == txTotal
  {
    RunLive(random, txTotal, iters);
    RunSound(random, txTotal, Fixed, 0, iters);
    hide Run, Fifo;
  }

  lemma NextPass(random: nat -> u64, txTotal: u32, iters: nat)
    ensures FixedRun(random, txTotal, iters + 1) == Iterate(MCU, Fixed, FixedRun(random, txTotal, iters))
    ensures FixedRun(random, txTotal, 0) == Boot(PowerOn(random, txTotal), 0)
  {
    McuTerminates();
    RunStep(MCU, Fixed, Boot(PowerOn(random, txTotal), 0), iters);
    hide Iterate, Terminating;
  }

  lemma FirstByteWait(random: nat -> u64, txTotal: u32)
    ensures Wait(PowerOn(random, txTotal)) <= 900 * (txTotal + 1)
  {
  }

  lemma {:induction false} RunWait(random: nat -> u64, txTotal: u32, iters: nat)
    ensures var w := FixedRun(random, txTotal, iters);
            Wait(w.ctx) + iters <= 900 * (txTotal + 1) || Wait(w.ctx) == 0
    decreases iters
  {
    hide Iterate, Wait, Boundary, FixedRun, Terminating, PowerOn;
    if iters == 0 {
      NextPass(random, txTotal, 0);
      FirstByteWait(random, txTotal);
    } else {
      RunWait(random, txTotal, iters - 1);
      BetweenPasses(random, txTotal, iters - 1);
      NextPass(random, txTotal, iters - 1);
      IterateWait(Fixed, FixedRun(random, txTotal, iters - 1));
    }
  }

  /** After a pass in which nothing arrived, the ring is empty. */
  lemma PassEmpties(w: World<Mcu>)
    requires Terminating(MCU) && Boundary(Fixed, w)
    ensures var r := Iterate(MCU, Fixed, w);
            |r.accepted| == |w.accepted| ==> Occupancy(r.fw) == 0
  {
    hide Fifo, Iterate, Drain, ReadRegister;
    IterateCases(MCU, Fixed, w);
    var n := w.fw.pending;
    if n == 0 {
      ReadGrew(MCU, w, SYSTICK_CNT);
    } else {
      DrainDrained(MCU, w.(draining := true), n);
    }
  }

  /**
   * Delivery: on any seed's stream and for any number of bytes, the fixed firmware run for long enough
   * has consumed every one of them, and its checksum is the sender's.
   */
  lemma FixedDeliversAll(random: nat -> u64, txTotal: u32, iters: nat)
    requires iters > 900 * (txTotal + 1)
    ensures var w := FixedRun(random, txTotal, iters);
            && |w.ctx.wire| == txTotal && w.fw.consumed == txTotal && w.fw.pending == 0
            && w.fw.checksum == w.ctx.txChecksum && w.fw.overflows == 0 && Occupancy(w.fw) == 0
  {
    FixedNeverLoses(random, txTotal, iters);
    hide Run, Iterate, Fifo, FoldAll, Terminating;
    RunWait(random, txTotal, iters - 1);
    BetweenPasses(random, txTotal, iters - 1);
    BetweenPasses(random, txTotal, iters);
    NextPass(random, txTotal, iters - 1);
    var before, w := FixedRun(random, txTotal, iters - 1), FixedRun(random, txTotal, iters);
    PassEmpties(before);
    assert before.accepted <= w.accepted;
    assert w.ctx.wire[..|w.ctx.wire|] == w.ctx.wire;
  }
}
