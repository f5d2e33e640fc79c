/**
 * What the example firmware does with its bytes, for every backend: the ring is a queue, and the
 * buggy variant's counter falls behind by exactly the bytes that arrived inside a drain.
 */
module RxAccount {
  import opened Basics
  import opened Trace
  import opened RxPump

  function FoldAll(bytes: Bytes): u32 {
    if bytes == [] then 0 else Fold(FoldAll(bytes[..|bytes| - 1]), bytes[|bytes| - 1])
  }

  function Pow31(k: nat): nat {
    if k == 0 then 1 else 31 * Pow31(k - 1)
  }

  /** The bytes as the digits of a number to the base 31, the first one the most significant. */
  function Polynomial(bytes: Bytes): nat {
    if bytes == [] then 0 else bytes[0] * Pow31(|bytes| - 1) + Polynomial(bytes[1..])
  }

  lemma {:induction false} PolynomialSnoc(bytes: Bytes, b: u8)
    ensures Polynomial(bytes + [b]) == 31 * Polynomial(bytes) + b
  {
    if bytes == [] {
      assert [b][1..] == [] && Pow31(0) == 1;
    } else {
      PolynomialSnoc(bytes[1..], b);
      assert (bytes + [b])[1..] == bytes[1..] + [b];
      assert bytes[0] * (31 * Pow31(|bytes| - 1)) == 31 * (bytes[0] * Pow31(|bytes| - 1));
    }
  }

  /** The checksum is that number's remainder. */
  lemma {:induction false} ChecksumMeans(bytes: Bytes)
    ensures FoldAll(bytes) == Wrap32(Polynomial(bytes))
  {
    if bytes != [] {
      var front, b := bytes[..|bytes| - 1], bytes[|bytes| - 1];
      ChecksumMeans(front);
      PolynomialSnoc(front, b);
      assert front + [b] == bytes;
      var p := Polynomial(front);
      assert p == TWO_32 * (p / TWO_32) + Wrap32(p);
      assert 31 * p + b == TWO_32 * (31 * (p / TWO_32)) + (Wrap32(p) * 31 + b);
      SameWrap(31 * (p / TWO_32), Wrap32(p) * 31 + b, 31 * p + b);
    }
  }

  lemma SameWrap(q: nat, r: nat, n: nat)
    requires n == TWO_32 * q + r
    ensures Wrap32(n) == Wrap32(r)
  {
  }

  /** How many accepted bytes the main loop has taken out of the ring again. */
  function Consumed<D>(w: World<D>): int {
    |w.accepted| - Occupancy(w.fw)
  }

  /** The bytes in the ring, oldest first. */
  function Queue(ring: seq<u8>, head: nat, tail: nat): (q: Bytes)
    requires |ring| == RING_SIZE && head < RING_SIZE && tail < RING_SIZE
    ensures |q| == Gap(head, tail)
    decreases Gap(head, tail)
  {
    if head == tail then [] else [ring[tail]] + Queue(ring, head, Succ(tail))
  }

  /** A byte stored at `head` joins the end of the queue. */
  lemma {:induction false} QueueSnoc(ring: seq<u8>, head: nat, tail: nat, byte: u8)
    requires |ring| == RING_SIZE && head < RING_SIZE && tail < RING_SIZE && Succ(head) != tail
    ensures Queue(ring[head := byte], Succ(head), tail) == Queue(ring, head, tail) + [byte]
    decreases Gap(head, tail)
  {
    if head == tail {
      assert Queue(ring[head := byte], Succ(head), Succ(tail)) == [];
    } else {
      QueueSnoc(ring, head, Succ(tail), byte);
    }
  }

  /** The ring holds the last accepted bytes in order; count and checksum cover the ones before. */
  ghost predicate Fifo<D>(w: World<D>) {
    && 0 <= Consumed(w)
    && w.fw.consumed == Wrap32(Consumed(w)) && w.fw.checksum == FoldAll(w.accepted[..Consumed(w)])
    && Queue(w.fw.ring, w.fw.head, w.fw.tail) == w.accepted[Consumed(w)..]
  }

  /** Bytes in the ring that the counter `pending` does not know about. */
  function Slack(s: State): int {
    Occupancy(s) - s.pending
  }

  /** The counter can count every byte the ring has room for. */
  predicate Room(s: State) {
    s.pending + RING_SIZE - Occupancy(s) < TWO_32
  }

  // ----- interrupts

  /** The effect of any number of interrupts: bytes are added to ring, history and counter alike. */
  ghost predicate Grew<D>(w: World<D>, r: World<D>) {
    var more := |r.accepted| - |w.accepted|;
    && more >= 0 && Occupancy(r.fw) == Occupancy(w.fw) + more && r.fw.pending == w.fw.pending + more
    && r.inWindow == w.inWindow + (if w.draining then more else 0)
    && r.draining == w.draining && r.mask == w.mask && r.inIsr == w.inIsr
    && r.fw.tail == w.fw.tail && r.fw.consumed == w.fw.consumed
    && r.fw.checksum == w.fw.checksum && r.fw.lastStamp == w.fw.lastStamp
    && (Fifo(w) ==> Fifo(r))
  }

  lemma GrewTrans<D>(a: World<D>, b: World<D>, c: World<D>)
    requires Grew(a, b) && Grew(b, c)
    ensures Grew(a, c)
  {
    hide Fifo;
    assert Fifo(a) ==> Fifo(c);
  }

  lemma AcceptFifo<D>(w: World<D>, byte: u8)
    requires Fifo(w) && !Full(w.fw)
    ensures Fifo(Accept(w, byte))
  {
    var r := Accept(w, byte);
    QueueSnoc(w.fw.ring, w.fw.head, w.fw.tail, byte);
    var k := Consumed(w);
    assert r.accepted[..k] == w.accepted[..k] && r.accepted[k..] == w.accepted[k..] + [byte];
  }

  lemma AcceptGrew<D>(w: World<D>, byte: u8)
    requires Room(w.fw)
    ensures Grew(w, Accept(w, byte)) && Room(Accept(w, byte).fw)
  {
    if !Full(w.fw) && Fifo(w) {
      AcceptFifo(w, byte);
    }
    hide Fifo;
    if Full(w.fw) {
      assert Fifo(Accept(w, byte)) == Fifo(w) by {
        SameFifo(w, Accept(w, byte));
      }
    }
  }

  lemma SameFifo<D>(w: World<D>, r: World<D>)
    requires r.accepted == w.accepted && r.fw.ring == w.fw.ring && r.fw.head == w.fw.head && r.fw.tail == w.fw.tail
    requires r.fw.consumed == w.fw.consumed && r.fw.checksum == w.fw.checksum
    ensures Fifo(r) == Fifo(w)
  {
  }

  lemma SameGrew<D>(w: World<D>, r: World<D>)
    requires r.fw == w.fw && r.accepted == w.accepted && r.inWindow == w.inWindow
    requires r.draining == w.draining && r.mask == w.mask && r.inIsr == w.inIsr
    ensures Grew(w, r)
  {
    SameFifo(w, r);
  }

  lemma IsrGrew<D(!new)>(ops: HalOps<D>, w: World<D>)
    requires Terminating(ops) && Room(w.fw)
    ensures Grew(w, Isr(ops, w)) && Room(Isr(ops, w).fw)
  {
    hide Grew, Room;
    var (w1, sr) := RawRead(ops, w, UART0_SR);
    SameGrew(w, w1);
    if sr % 2 == 1 {
      var (w2, dr) := RawRead(ops, w1, UART0_DR);
      SameGrew(w1, w2);
      AcceptGrew(w2, dr % 0x100);
      GrewTrans(w, w1, w2);
      GrewTrans(w, w2, Accept(w2, dr % 0x100));
    }
  }

  lemma {:induction false} PumpLoopGrew<D(!new)>(ops: HalOps<D>, w: World<D>)
    requires Terminating(ops) && Room(w.fw)
    ensures Grew(w, PumpLoop(ops, w)) && Room(PumpLoop(ops, w).fw)
    decreases ops.rank(w.ctx, w.fw)
  {
    hide Grew, Room;
    var (d, vector) := ops.poll(w.ctx, w.fw);
    if vector == NO_IRQ {
      SameGrew(w, PumpLoop(ops, w));
    } else {
      var w1 := EnterIrq(ops, w, d, vector);
      SameGrew(w, w1);
      if vector == IRQ_UART_RX {
        IsrGrew(ops, w1);
        PumpLoopGrew(ops, Isr(ops, w1));
        GrewTrans(w, w1, Isr(ops, w1));
        GrewTrans(w, Isr(ops, w1), PumpLoop(ops, w));
      } else {
        PumpLoopGrew(ops, w1);
        GrewTrans(w, w1, PumpLoop(ops, w));
      }
    }
  }

  lemma PumpGrew<D(!new)>(ops: HalOps<D>, w: World<D>)
    requires Terminating(ops) && Room(w.fw)
    ensures Grew(w, Pump(ops, w)) && Room(Pump(ops, w).fw)
  {
    if w.mask > 0 || w.inIsr {
      SameGrew(w, w);
    } else {
      var w1 := w.(inIsr := true);
      PumpLoopGrew(ops, w1);
      SameFifo(w, w1);
      SameFifo(PumpLoop(ops, w1), Pump(ops, w));
      hide Fifo;
    }
  }

  lemma ReadGrew<D(!new)>(ops: HalOps<D>, w: World<D>, addr: u32)
    requires Terminating(ops) && Room(w.fw)
    ensures Grew(w, ReadRegister(ops, w, addr).0) && Room(ReadRegister(ops, w, addr).0.fw)
  {
    hide Grew, Room;
    var w1 := RawRead(ops, w, addr).0;
    SameGrew(w, w1);
    PumpGrew(ops, w1);
    GrewTrans(w, w1, Pump(ops, w1));
  }

  lemma WriteGrew<D(!new)>(ops: HalOps<D>, w: World<D>, addr: u32, value: u32)
    requires Terminating(ops) && Room(w.fw)
    ensures Grew(w, WriteRegister(ops, w, addr, value)) && Room(WriteRegister(ops, w, addr, value).fw)
  {
    hide Grew, Room;
    var w1 := RawWrite(ops, w, addr, value);
    SameGrew(w, w1);
    PumpGrew(ops, w1);
    GrewTrans(w, w1, Pump(ops, w1));
  }

  // ----- the main loop

  lemma TakeFifo<D>(w: World<D>)
    requires Fifo(w) && Occupancy(w.fw) > 0
    ensures Fifo(w.(fw := Take(w.fw)))
  {
    var k := Consumed(w);
    WrapAdd32(k, 1);
    var next, q := w.accepted[..k + 1], Queue(w.fw.ring, w.fw.head, w.fw.tail);
    assert q[0] == w.accepted[k..][0] == w.accepted[k];
    assert next[..|next| - 1] == w.accepted[..k] && next[|next| - 1] == w.fw.ring[w.fw.tail];
    assert q[1..] == w.accepted[k + 1..];
  }

  /** What draining `n` bytes does, interrupts included. */
  ghost predicate Drained<D>(w: World<D>, r: World<D>, n: nat) {
    var more := |r.accepted| - |w.accepted|;
    && more >= 0 && Occupancy(r.fw) == Occupancy(w.fw) + more - n && r.fw.pending == w.fw.pending + more
    && r.inWindow == w.inWindow + (if w.draining then more else 0)
    && r.draining == w.draining && r.mask == w.mask && r.inIsr == w.inIsr
    && (Fifo(w) ==> Fifo(r))
  }

  lemma ConsumeDrained<D(!new)>(ops: HalOps<D>, w: World<D>)
    requires Terminating(ops) && Occupancy(w.fw) > 0 && Room(Take(w.fw))
    ensures Drained(w, ConsumeOne(ops, w), 1)
  {
    var w1 := w.(fw := Take(w.fw));
    if Fifo(w) {
      TakeFifo(w);
    }
    var w2 := ReadRegister(ops, w1, SYSTICK_CNT).0;
    ReadGrew(ops, w1, SYSTICK_CNT);
    var w3 := Stamp(ops, w1);
    SameFifo(w2, w3);
    WriteGrew(ops, w3, GPIO0_ODR, w3.fw.consumed);
    hide Fifo;
  }

  lemma {:induction false} DrainDrained<D(!new)>(ops: HalOps<D>, w: World<D>, n: nat)
    requires Terminating(ops) && n <= Occupancy(w.fw) && w.fw.pending + 2 * RING_SIZE < TWO_32
    ensures Drained(w, Drain(ops, w, n), n)
    decreases n
  {
    hide Fifo, ConsumeOne;
    if n > 0 {
      DrainDrained(ops, w, n - 1);
      ConsumeDrained(ops, Drain(ops, w, n - 1));
    }
  }

  /** The state between two passes of the main loop. */
  ghost predicate Boundary<D>(v: Variant, w: World<D>) {
    && Fifo(w) && !w.draining
    && Slack(w.fw) == (if v.Fixed? then 0 else w.inWindow)
  }

  lemma IterateBoundary<D(!new)>(ops: HalOps<D>, v: Variant, w: World<D>)
    requires Terminating(ops) && Boundary(v, w)
    ensures Boundary(v, Iterate(ops, v, w))
  {
    hide Fifo, Iterate, Drain, ReadRegister, Occupancy;
    IterateCases(ops, v, w);
    var n := w.fw.pending;
    if n == 0 {
      ReadGrew(ops, w, SYSTICK_CNT);
    } else {
      var w0 := w.(draining := true);
      SameFifo(w, w0);
      DrainDrained(ops, w0, n);
      SettleBoundary(v, w, w0, Drain(ops, w0, n), n);
    }
  }

  lemma SettleBoundary<D>(v: Variant, w: World<D>, w0: World<D>, r: World<D>, n: u32)
    requires Boundary(v, w) && w0 == w.(draining := true) && n == w.fw.pending && Drained(w0, r, n) && Fifo(w0)
    ensures Boundary(v, r.(fw := Settle(v, r.fw, n), draining := false))
  {
    hide Fifo;
    SameFifo(r, r.(fw := Settle(v, r.fw, n), draining := false));
  }

  /**
   * The exact account of the race. In both variants the ring is a queue of the accepted bytes. At
   * every pass of the main loop the fixed variant's counter equals the ring's content; the buggy
   * variant's is short by exactly the bytes accepted inside a drain so far.
   */
  lemma {:induction false} RaceAccount<D(!new)>(ops: HalOps<D>, v: Variant, ctx: D, mask: nat, iters: nat)
    requires Terminating(ops)
    ensures var w := Run(ops, v, Boot(ctx, mask), iters);
            && Fifo(w) && !w.draining && |w.accepted| == Consumed(w) + Occupancy(w.fw)
            && Occupancy(w.fw) == w.fw.pending + (if v.Fixed? then 0 else w.inWindow)
    decreases iters
  {
    hide Fifo, Iterate;
    if iters > 0 {
      RaceAccount(ops, v, ctx, mask, iters - 1);
      IterateBoundary(ops, v, Run(ops, v, Boot(ctx, mask), iters - 1));
    } else {
      BootFifo(ctx, mask);
    }
  }

  lemma BootFifo<D>(ctx: D, mask: nat)
    ensures Fifo(Boot(ctx, mask))
  {
    assert RESET.checksum == FoldAll([]);
  }

  /** No pass ever takes a byte from an empty ring. */
  lemma NeverDrainsEmpty<D(!new)>(ops: HalOps<D>, v: Variant, ctx: D, mask: nat, iters: nat, i: nat)
    requires Terminating(ops) && i < Run(ops, v, Boot(ctx, mask), iters).fw.pending
    ensures Occupancy(Drain(ops, Run(ops, v, Boot(ctx, mask), iters).(draining := true), i).fw) > 0
  {
    RaceAccount(ops, v, ctx, mask, iters);
    DrainDrained(ops, Run(ops, v, Boot(ctx, mask), iters).(draining := true), i);
  }

  /** What is stranded never comes back: the buggy variant's debt only grows. */
  lemma DebtGrows<D(!new)>(ops: HalOps<D>, ctx: D, mask: nat, a: nat, b: nat)
    requires Terminating(ops) && a <= b
    ensures Slack(Run(ops, Buggy, Boot(ctx, mask), a).fw) <= Slack(Run(ops, Buggy, Boot(ctx, mask), b).fw)
  {
    hide Fifo, Iterate, Run;
    RaceAccount(ops, Buggy, ctx, mask, a);
    RaceAccount(ops, Buggy, ctx, mask, b);
    RunSplit(ops, Buggy, Boot(ctx, mask), a, b - a);
  }
}
