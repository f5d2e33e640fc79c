/** The toy microcontroller that produces traces: a cycle counter and a UART with framed arrivals. */
module Simulator {
  import opened Basics
  import opened Trace
  import opened RxPump

  const SR_RXNE: u32 := 1
  const SR_TXE: u32 := 2
  const MMIO_COST := 3
  const FRAME_LEN := 3
  const RX_BYTE_GAP := 6
  const RX_BYTE_JITTER := 200
  const RX_FRAME_GAP := 600
  const RX_FRAME_JITTER := 300

  /**
   * `random` is the stream the generator draws from, `drawn` the next position in it; it is
   * arbitrary here, so results hold for every arrival schedule the gaps allow. `wire` lists the
   * bytes delivered so far; their number is the source's `tx_sent`.
   */
  datatype Mcu = Mcu(
    random: nat -> u64, drawn: nat, cycles: nat, nextRx: nat, framePos: nat,
    txTotal: u32, wire: Bytes, txChecksum: u32, odr: u32,
    rxByte: u8, rxPending: bool, irqLatched: bool)

  /** The first draw warms the generator up and is discarded. */
  function PowerOn(random: nat -> u64, txTotal: u32): Mcu {
    Mcu(random, 2, 0, RX_FRAME_GAP + random(1) % RX_FRAME_JITTER, 0, txTotal, [], 0, 0, 0, false, false)
  }

  /** The source's generator, xorshift64, as one such stream. */
  function XorLeft(x: bv64, n: nat): bv64
    requires n < 64
  {
    x ^ (x << n)
  }

  function XorRight(x: bv64, n: nat): bv64
    requires n < 64
  {
    x ^ (x >> n)
  }

  function XorShift(x: bv64): bv64 {
    XorLeft(XorRight(XorLeft(x, 13), 7), 17)
  }

  function Draw(seed: bv64, k: nat): bv64 {
    if k == 0 then XorShift(if seed == 0 then 0x9E37_79B9_7F4A_7C15 else seed) else XorShift(Draw(seed, k - 1))
  }

  lemma DrawNext(seed: bv64, k: nat)
    ensures Draw(seed, k + 1) == XorShift(Draw(seed, k))
  {
    hide XorShift;
  }

  function Stream(seed: bv64): nat -> u64 {
    (k: nat) => Draw(seed, k) as int
  }

  /** A byte is due: the last one has been read, there is one left, and its time has come. */
  predicate Arrives(m: Mcu) {
    !m.rxPending && |m.wire| < m.txTotal && m.cycles >= m.nextRx
  }

  function Arrive(m: Mcu): Mcu {
    var byte := m.random(m.drawn) % 0x100;
    var jitter := m.random(m.drawn + 1);
    var last := m.framePos + 1 >= FRAME_LEN;
    m.(drawn := m.drawn + 2, rxByte := byte, rxPending := true, irqLatched := true,
       wire := m.wire + [byte], txChecksum := Fold(m.txChecksum, byte),
       framePos := if last then 0 else m.framePos + 1,
       nextRx := m.cycles + (if last then RX_FRAME_GAP + jitter % RX_FRAME_JITTER else RX_BYTE_GAP + jitter % RX_BYTE_JITTER))
  }

  function Tick(m: Mcu, dt: nat): Mcu {
    var later := m.(cycles := m.cycles + dt);
    if Arrives(later) then Arrive(later) else later
  }

  function McuRead(m0: Mcu, addr: u32): (Mcu, u32) {
    var m := Tick(m0, MMIO_COST);
    if addr == SYSTICK_CNT then (m, Wrap32(m.cycles))
    else if addr == UART0_SR then (m, (if m.rxPending then SR_RXNE else 0) + SR_TXE)
    else if addr == UART0_DR then (m.(rxPending := false), m.rxByte)
    else if addr == GPIO0_ODR then (m, m.odr)
    else (m, 0)
  }

  function McuWrite(m0: Mcu, addr: u32, value: u32): Mcu {
    var m := Tick(m0, MMIO_COST);
    if addr == GPIO0_ODR then m.(odr := value) else m
  }

  function McuPoll(m: Mcu): (Mcu, u32) {
    if m.irqLatched then (m.(irqLatched := false), IRQ_UART_RX) else (m, NO_IRQ)
  }

  /** Interrupts still possible without further accesses; arrivals use up bytes left to send. */
  function Pending(m: Mcu): nat {
    (if |m.wire| < m.txTotal then 2 * (m.txTotal - |m.wire|) else 0) + (if m.irqLatched then 1 else 0)
  }

  const MCU: HalOps<Mcu> := HalOps(
    (m: Mcu, fw: State, addr: u32) => McuRead(m, addr),
    (m: Mcu, fw: State, addr: u32, value: u32) => McuWrite(m, addr, value),
    (m: Mcu) => m.cycles,
    (m: Mcu, fw: State) => McuPoll(m),
    (m: Mcu, fw: State) => Pending(m))

  lemma TickRank(m: Mcu, dt: nat)
    ensures Pending(Tick(m, dt)) <= Pending(m) && m.cycles <= Tick(m, dt).cycles
  {
  }

  /** An arrival and its interrupt together use up the byte they bring; the clock only moves forward. */
  lemma McuTerminates()
    ensures Terminating(MCU) && Monotone(MCU)
  {
    hide Tick;
    forall m: Mcu, a: u32
      ensures Pending(McuRead(m, a).0) <= Pending(m) && m.cycles <= McuRead(m, a).0.cycles
    {
      TickRank(m, MMIO_COST);
    }
    forall m: Mcu, a: u32, v: u32
      ensures m.cycles <= McuWrite(m, a, v).cycles
    {
      TickRank(m, MMIO_COST);
    }
    hide McuRead, McuWrite;
  }

  /** The device: the fields of `Mcu`, updated in place. */
  class Device {
    const seed: bv64
    var rng: bv64
    var cycles: nat
    var nextRx: nat
    var framePos: nat
    var txTotal: u32
    var txSent: u32
    var txChecksum: u32
    var odr: u32
    var rxByte: u8
    var rxPending: bool
    var irqLatched: bool

    ghost var drawn: nat
    ghost var wire: Bytes

    ghost predicate Valid()
      reads this
    {
      && drawn > 0 && rng == Draw(seed, drawn - 1) && txSent == |wire| && framePos < FRAME_LEN
    }

    ghost function View(): Mcu
      reads this
    {
      Mcu(Stream(seed), drawn, cycles, nextRx, framePos, txTotal, wire, txChecksum, odr, rxByte, rxPending, irqLatched)
    }

    constructor (seed: bv64, txTotal: u32)
      ensures Valid() && View() == PowerOn(Stream(seed), txTotal)
    {
      hide XorShift, Stream;
      this.seed := seed;
      var warm := Shift(if seed == 0 then 0x9E37_79B9_7F4A_7C15 else seed);
      rng := warm;
      cycles, nextRx, framePos, this.txTotal, txSent := 0, 0, 0, txTotal, 0;
      txChecksum, odr, rxByte, rxPending, irqLatched := 0, 0, 0, false, false;
      drawn, wire := 1, [];
      new;
      assert rng == Draw(seed, 0);
      var first := NextRandom();
      nextRx := RX_FRAME_GAP + first % RX_FRAME_JITTER;
    }

    static method Shift(x: bv64) returns (y: bv64)
      ensures y == XorShift(x)
    {
      hide XorLeft, XorRight;
      y := XorLeft(x, 13);
      y := XorRight(y, 7);
      y := XorLeft(y, 17);
    }

    method NextRandom() returns (value: u64)
      requires Valid()
      modifies this`rng, this`drawn
      ensures Valid() && value == Stream(seed)(old(drawn)) && View() == old(View()).(drawn := old(drawn) + 1)
    {
      hide XorShift;
      DrawNext(seed, drawn - 1);
      hide Draw;
      rng := Shift(rng);
      drawn := drawn + 1;
      value := rng as int;
    }

    /** Lets time pass; at most one byte arrives, and only once the last one has been read. */
    method Advance(dt: nat)
      requires Valid()
      modifies this
      ensures Valid() && View() == Tick(old(View()), dt)
    {
      cycles := cycles + dt;
      if !rxPending && txSent < txTotal && cycles >= nextRx {
        Deliver();
      }
    }

    method Deliver()
      requires Valid() && txSent < txTotal
      modifies this
      ensures Valid() && View() == Arrive(old(View()))
    {
      hide Draw, Stream, XorShift;
      var byte := NextRandom();
      rxByte := byte % 0x100;
      rxPending, irqLatched := true, true;
      txChecksum := (txChecksum * 31 + rxByte) % TWO_32;
      txSent := txSent + 1;
      wire := wire + [rxByte];
      var jitter := NextRandom();
      Schedule(jitter);
    }

    method Schedule(jitter: u64)
      requires framePos < FRAME_LEN
      modifies this`framePos, this`nextRx
      ensures framePos == (if old(framePos) + 1 >= FRAME_LEN then 0 else old(framePos) + 1)
      ensures nextRx == cycles + (if old(framePos) + 1 >= FRAME_LEN then RX_FRAME_GAP + jitter % RX_FRAME_JITTER
                                  else RX_BYTE_GAP + jitter % RX_BYTE_JITTER)
    {
      framePos := framePos + 1;
      if framePos >= FRAME_LEN {
        framePos := 0;
        nextRx := cycles + RX_FRAME_GAP + jitter % RX_FRAME_JITTER;
      } else {
        nextRx := cycles + RX_BYTE_GAP + jitter % RX_BYTE_JITTER;
      }
    }

    method Read32(addr: u32) returns (value: u32)
      requires Valid()
      modifies this
      ensures Valid() && (View(), value) == McuRead(old(View()), addr)
    {
      hide Tick, Draw, Stream;
      Advance(MMIO_COST);
      if addr == SYSTICK_CNT {
        return Wrap32(cycles);
      } else if addr == UART0_SR {
        return (if rxPending then SR_RXNE else 0) + SR_TXE;
      } else if addr == UART0_DR {
        value := rxByte;
        rxPending := false;
      } else if addr == GPIO0_ODR {
        return odr;
      } else {
        return 0;
      }
    }

    method Write32(addr: u32, value: u32)
      requires Valid()
      modifies this
      ensures Valid() && View() == McuWrite(old(View()), addr, value)
    {
      hide Tick, Draw, Stream;
      Advance(MMIO_COST);
      if addr == GPIO0_ODR {
        odr := value;
      }
    }

    method PollIrq() returns (vector: u32)
      requires Valid()
      modifies this`irqLatched
      ensures Valid() && (View(), vector) == McuPoll(old(View()))
    {
      if irqLatched {
        irqLatched := false;
        return IRQ_UART_RX;
      }
      return NO_IRQ;
    }
  }
}
