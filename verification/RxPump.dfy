/**
 * The register-access shim and the example firmware that runs on it.
 *
 * A run is a function of the backend behind the shim. The backend is arbitrary: the simulator and
 * a recorded trace are two instances.
 */
module RxPump {
  import opened Basics
  import opened Trace

  // ----- the firmware's static storage

  const RING_SIZE := 16

  datatype RawState = Storage(
    ring: seq<u8>, head: nat, tail: nat, pending: u32,
    consumed: u32, checksum: u32, lastStamp: u32, overflows: u32)

  type State = s: RawState | |s.ring| == RING_SIZE && s.head < RING_SIZE && s.tail < RING_SIZE
    witness Storage([0, 0, 0, 0, 0, 0, 0, 0, 0, 0, 0, 0, 0, 0, 0, 0], 0, 0, 0, 0, 0, 0, 0)

  const RESET: State := Storage([0, 0, 0, 0, 0, 0, 0, 0, 0, 0, 0, 0, 0, 0, 0, 0], 0, 0, 0, 0, 0, 0, 0)

  datatype Variant = Buggy | Fixed

  const SYSTICK_CNT: u32 := 0x4000_0000
  const UART0_SR: u32 := 0x4000_1000
  const UART0_DR: u32 := 0x4000_1004
  const GPIO0_ODR: u32 := 0x4000_2000
  const IRQ_UART_RX: u32 := 1
  const NO_IRQ: u32 := 0xFFFF_FFFF

  /** Bytes between two positions of the ring. */
  function Gap(head: nat, tail: nat): (n: nat)
    requires head < RING_SIZE && tail < RING_SIZE
    ensures n < RING_SIZE
  {
    if head >= tail then head - tail else head + RING_SIZE - tail
  }

  /** Bytes in the firmware's ring. */
  function Occupancy(s: State): (n: nat)
    ensures n < RING_SIZE
  {
    Gap(s.head, s.tail)
  }

  function Succ(i: nat): (j: nat)
    requires i < RING_SIZE
    ensures j < RING_SIZE && j == (i + 1) % RING_SIZE
  {
    if i + 1 == RING_SIZE then 0 else i + 1
  }

  predicate Full(s: State) {
    Succ(s.head) == s.tail
  }

  function Fold(checksum: u32, byte: u8): u32 {
    (checksum * 31 + byte) % TWO_32
  }

  /** What the handler does with a received byte. */
  function Receive(s: State, byte: u8): State {
    if Full(s) then s.(overflows := Wrap32(s.overflows + 1))
    else s.(ring := s.ring[s.head := byte], head := Succ(s.head), pending := Wrap32(s.pending + 1))
  }

  /** The first half of consuming a byte, before any register is touched. */
  function Take(s: State): State {
    s.(tail := Succ(s.tail), checksum := Fold(s.checksum, s.ring[s.tail]), consumed := Wrap32(s.consumed + 1))
  }

  /** The closing update of a drain that handled `n` bytes: the one place the variants differ. */
  function Settle(v: Variant, s: State, n: u32): State {
    match v
    case Buggy => s.(pending := 0)
    case Fixed => s.(pending := (s.pending + TWO_32 - n) % TWO_32)
  }

  // ----- the backend

  /**
   * The functions behind the shim and their context. They also see the firmware's storage,
   * which is global: a replay backend may photograph it. `rank` is not part of the program: it
   * bounds how many interrupts are still served before the current window closes.
   */
  datatype HalOps<!D> = HalOps(
    read: (D, State, u32) -> (D, u32),
    write: (D, State, u32, u32) -> D,
    now: D -> nat,
    poll: (D, State) -> (D, u32),
    rank: (D, State) -> nat)

  /** Context and storage after the receive handler has run. */
  function AfterIsr<D>(ops: HalOps<D>, d: D, s: State): (D, State) {
    var (d1, sr) := ops.read(d, s, UART0_SR);
    if sr % 2 == 0 then (d1, s)
    else
      var (d2, dr) := ops.read(d1, s, UART0_DR);
      (d2, Receive(s, dr % 0x100))
  }

  /** Context and storage after a poll and the handler, if there is one, of what it reported. */
  function Handled<D>(ops: HalOps<D>, d: D, s: State): (D, State) {
    var (d1, vector) := ops.poll(d, s);
    if vector == IRQ_UART_RX then AfterIsr(ops, d1, s) else (d1, s)
  }

  /** Every interrupt window closes: serving an interrupt brings its end nearer. */
  ghost predicate Terminating<D(!new)>(ops: HalOps<D>) {
    forall d, s {:trigger ops.poll(d, s)} :: ops.poll(d, s).1 != NO_IRQ ==>
      ops.rank(Handled(ops, d, s).0, Handled(ops, d, s).1) < ops.rank(d, s)
  }

  /** The window opened in this state closes after at most `n` interrupts. */
  ghost predicate Closes<D>(ops: HalOps<D>, d: D, s: State, n: nat)
    decreases n
  {
    ops.poll(d, s).1 == NO_IRQ || (n > 0 && Closes(ops, Handled(ops, d, s).0, Handled(ops, d, s).1, n - 1))
  }

  lemma {:induction false} ClosesLater<D>(ops: HalOps<D>, d: D, s: State, n: nat, m: nat)
    requires Closes(ops, d, s, n) && n <= m
    ensures Closes(ops, d, s, m)
    decreases n
  {
    if ops.poll(d, s).1 != NO_IRQ {
      ClosesLater(ops, Handled(ops, d, s).0, Handled(ops, d, s).1, n - 1, m - 1);
    }
  }

  ghost predicate ClosesSometime<D>(ops: HalOps<D>, d: D, s: State) {
    exists n :: Closes(ops, d, s, n)
  }

  /** How many interrupts the window takes, if it closes at all. */
  ghost function Depth<D(!new)>(ops: HalOps<D>, d: D, s: State): (n: nat)
    ensures ClosesSometime(ops, d, s) ==> Closes(ops, d, s, n) && (n == 0 || !Closes(ops, d, s, n - 1))
  {
    if ClosesSometime(ops, d, s) then
      var k :| Closes(ops, d, s, k);
      Least(ops, d, s, k)
    else 0
  }

  ghost function Least<D(!new)>(ops: HalOps<D>, d: D, s: State, k: nat): (n: nat)
    requires Closes(ops, d, s, k)
    ensures Closes(ops, d, s, n) && (n == 0 || !Closes(ops, d, s, n - 1))
  {
    if k > 0 && Closes(ops, d, s, k - 1) then Least(ops, d, s, k - 1) else k
  }

  lemma {:induction false} TerminatingCloses<D(!new)>(ops: HalOps<D>, d: D, s: State)
    requires Terminating(ops)
    ensures Closes(ops, d, s, ops.rank(d, s))
    decreases ops.rank(d, s)
  {
    if ops.poll(d, s).1 != NO_IRQ {
      var (d1, s1) := Handled(ops, d, s);
      TerminatingCloses(ops, d1, s1);
      ClosesLater(ops, d1, s1, ops.rank(d1, s1), ops.rank(d, s) - 1);
    }
  }

  /** The requirement on backends is no more than that: if all windows close, some `rank` shows it. */
  lemma ClosingTerminates<D(!new)>(ops: HalOps<D>)
    requires forall d, s :: ClosesSometime(ops, d, s)
    ensures Terminating(ops.(rank := (d, s) => Depth(ops, d, s)))
  {
    RankedByDepth(ops, ops.(rank := (d, s) => Depth(ops, d, s)));
  }

  lemma RankedByDepth<D(!new)>(ops: HalOps<D>, ranked: HalOps<D>)
    requires forall d, s :: ClosesSometime(ops, d, s)
    requires ranked == ops.(rank := ranked.rank) && forall d, s :: ranked.rank(d, s) == Depth(ops, d, s)
    ensures Terminating(ranked)
  {
    hide Depth, Receive, ClosesSometime;
    forall d, s {:trigger ranked.poll(d, s)} | ranked.poll(d, s).1 != NO_IRQ
      ensures ranked.rank(Handled(ranked, d, s).0, Handled(ranked, d, s).1) < ranked.rank(d, s)
    {
      assert ClosesSometime(ops, d, s);
      assert Handled(ranked, d, s) == Handled(ops, d, s);
      Nearer(ops, d, s);
    }
  }

  lemma Nearer<D(!new)>(ops: HalOps<D>, d: D, s: State)
    requires ClosesSometime(ops, d, s) && ops.poll(d, s).1 != NO_IRQ
    ensures Depth(ops, Handled(ops, d, s).0, Handled(ops, d, s).1) < Depth(ops, d, s)
  {
    hide Depth;
    var (d1, s1) := Handled(ops, d, s);
    var n := Depth(ops, d, s);
    var m := Depth(ops, d1, s1);
    assert Closes(ops, d1, s1, n - 1) && ClosesSometime(ops, d1, s1);
    if n <= m {
      ClosesLater(ops, d1, s1, n - 1, m - 1);
    }
  }

  /**
   * A run in progress. `fw`, `ctx`, `mask` and `inIsr` are the program's own state. The rest is
   * a record of the run: `seen` lists what crossed the shim (in record mode, the calls made on the
   * writer), `quiet` the points at which a poll found nothing, `accepted` the bytes the handler
   * put into the ring, and `inWindow` how many of those it accepted inside a drain.
   */
  datatype World<D> = World(
    fw: State, ctx: D, mask: nat, inIsr: bool,
    seen: seq<Event>, quiet: set<nat>, accepted: Bytes, draining: bool, inWindow: nat)

  function Boot<D>(ctx: D, mask: nat): World<D> {
    World(RESET, ctx, mask, false, [], {}, [], false, 0)
  }

  /** What every part of a run preserves. */
  ghost predicate Extends<D>(w: World<D>, r: World<D>) {
    && w.seen <= r.seen && w.quiet <= r.quiet && r.mask == w.mask && r.inIsr == w.inIsr
    && r.draining == w.draining && w.accepted <= r.accepted && w.inWindow <= r.inWindow
  }

  // ----- the shim

  /** A register read without the interrupt window after it. */
  function RawRead<D>(ops: HalOps<D>, w: World<D>, addr: u32): (r: (World<D>, u32))
    ensures Extends(w, r.0) && |r.0.seen| == |w.seen| + 1 && r.0.quiet == w.quiet
    ensures r.0.fw == w.fw && r.0.accepted == w.accepted && r.0.inWindow == w.inWindow
  {
    var (d, v) := ops.read(w.ctx, w.fw, addr);
    (w.(ctx := d, seen := w.seen + [Event(MmioRead, ops.now(d), addr, v)]), v)
  }

  function RawWrite<D>(ops: HalOps<D>, w: World<D>, addr: u32, value: u32): (r: World<D>)
    ensures Extends(w, r) && |r.seen| == |w.seen| + 1 && r.quiet == w.quiet
    ensures r.fw == w.fw && r.accepted == w.accepted && r.inWindow == w.inWindow
  {
    var d := ops.write(w.ctx, w.fw, addr, value);
    w.(ctx := d, seen := w.seen + [Event(MmioWrite, ops.now(d), addr, value)])
  }

  function Accept<D>(w: World<D>, byte: u8): (r: World<D>)
    ensures Extends(w, r) && r.seen == w.seen && r.quiet == w.quiet && r.ctx == w.ctx
  {
    if Full(w.fw) then w.(fw := Receive(w.fw, byte))
    else w.(fw := Receive(w.fw, byte), accepted := w.accepted + [byte],
            inWindow := w.inWindow + (if w.draining then 1 else 0))
  }

  /** The receive handler. Inside a handler no access opens an interrupt window. */
  function Isr<D(!new)>(ops: HalOps<D>, w: World<D>): (r: World<D>)
    requires Terminating(ops)
    ensures Extends(w, r) && |w.seen| < |r.seen| && r.quiet == w.quiet
    ensures (r.ctx, r.fw) == AfterIsr(ops, w.ctx, w.fw)
  {
    var (w1, sr) := RawRead(ops, w, UART0_SR);
    if sr % 2 == 0 then w1
    else
      var (w2, dr) := RawRead(ops, w1, UART0_DR);
      Accept(w2, dr % 0x100)
  }

  function EnterIrq<D>(ops: HalOps<D>, w: World<D>, d: D, vector: u32): (r: World<D>)
    ensures Extends(w, r) && |r.seen| == |w.seen| + 1 && r.quiet == w.quiet && r.ctx == d && r.fw == w.fw
  {
    w.(ctx := d, seen := w.seen + [Event(IrqEnter, ops.now(d), vector, 0)])
  }

  /** Polls until nothing is pending; each vector is recorded before its handler runs, if it has one. */
  function PumpLoop<D(!new)>(ops: HalOps<D>, w: World<D>): (r: World<D>)
    requires Terminating(ops)
    ensures Extends(w, r) && |r.seen| in r.quiet
    decreases ops.rank(w.ctx, w.fw)
  {
    var (d, vector) := ops.poll(w.ctx, w.fw);
    if vector == NO_IRQ then w.(ctx := d, quiet := w.quiet + {|w.seen|})
    else
      var w1 := EnterIrq(ops, w, d, vector);
      PumpLoop(ops, if vector == IRQ_UART_RX then Isr(ops, w1) else w1)
  }

  /** The interrupt window after an access: shut while masked or inside a handler. */
  function Pump<D(!new)>(ops: HalOps<D>, w: World<D>): (r: World<D>)
    requires Terminating(ops)
    ensures Extends(w, r)
  {
    if w.mask > 0 || w.inIsr then w else PumpLoop(ops, w.(inIsr := true)).(inIsr := false)
  }

  function ReadRegister<D(!new)>(ops: HalOps<D>, w: World<D>, addr: u32): (r: (World<D>, u32))
    requires Terminating(ops)
    ensures Extends(w, r.0) && |w.seen| < |r.0.seen|
  {
    var (w1, v) := RawRead(ops, w, addr);
    (Pump(ops, w1), v)
  }

  function WriteRegister<D(!new)>(ops: HalOps<D>, w: World<D>, addr: u32, value: u32): (r: World<D>)
    requires Terminating(ops)
    ensures Extends(w, r) && |w.seen| < |r.seen|
  {
    Pump(ops, RawWrite(ops, w, addr, value))
  }

  function Disable<D>(w: World<D>): World<D> {
    w.(mask := w.mask + 1)
  }

  function Enable<D>(w: World<D>): World<D> {
    if w.mask > 0 then w.(mask := w.mask - 1) else w
  }

  // ----- the firmware

  /** Reads the stamp; the interrupt window is over before it is stored. */
  function Stamp<D(!new)>(ops: HalOps<D>, w: World<D>): (r: World<D>)
    requires Terminating(ops)
    ensures Extends(w, r) && |w.seen| < |r.seen|
  {
    var (w1, stamp) := ReadRegister(ops, w, SYSTICK_CNT);
    w1.(fw := w1.fw.(lastStamp := stamp))
  }

  function ConsumeOne<D(!new)>(ops: HalOps<D>, w: World<D>): (r: World<D>)
    requires Terminating(ops)
    ensures Extends(w, r) && |w.seen| < |r.seen|
  {
    var w1 := Stamp(ops, w.(fw := Take(w.fw)));
    WriteRegister(ops, w1, GPIO0_ODR, w1.fw.consumed)
  }

  function Drain<D(!new)>(ops: HalOps<D>, w: World<D>, n: nat): (r: World<D>)
    requires Terminating(ops)
    ensures Extends(w, r) && (n > 0 ==> |w.seen| < |r.seen|)
    decreases n
  {
    if n == 0 then w else ConsumeOne(ops, Drain(ops, w, n - 1))
  }

  function Close<D>(v: Variant, w: World<D>, n: u32): World<D> {
    match v
    case Buggy => w.(fw := Settle(v, w.fw, n), draining := false)
    case Fixed =>
      var masked := Disable(w);
      Enable(masked.(fw := Settle(v, masked.fw, n), draining := false))
  }

  /** One pass of the main loop. */
  function Iterate<D(!new)>(ops: HalOps<D>, v: Variant, w: World<D>): (r: World<D>)
    requires Terminating(ops) && !w.draining
    ensures Extends(w, r) && |w.seen| < |r.seen|
  {
    var n := if v.Fixed? then Disable(w).fw.pending else w.fw.pending;
    var w0 := if v.Fixed? then Enable(Disable(w)) else w;
    if n == 0 then ReadRegister(ops, w0, SYSTICK_CNT).0
    else Close(v, Drain(ops, w0.(draining := true), n), n)
  }

  function Run<D(!new)>(ops: HalOps<D>, v: Variant, w: World<D>, iters: nat): (r: World<D>)
    requires Terminating(ops) && !w.draining
    ensures Extends(w, r) && |r.seen| >= |w.seen| + iters
    decreases iters
  {
    if iters == 0 then w else Iterate(ops, v, Run(ops, v, w, iters - 1))
  }

  /** The critical sections bracket no access, so they leave no mark on a pass. */
  lemma IterateCases<D(!new)>(ops: HalOps<D>, v: Variant, w: World<D>)
    requires Terminating(ops) && !w.draining
    ensures w.fw.pending == 0 ==> Iterate(ops, v, w) == ReadRegister(ops, w, SYSTICK_CNT).0
    ensures w.fw.pending > 0 ==>
              var r := Drain(ops, w.(draining := true), w.fw.pending);
              Iterate(ops, v, w) == r.(fw := Settle(v, r.fw, w.fw.pending), draining := false)
  {
    hide Drain, ReadRegister;
  }

  lemma RunStep<D(!new)>(ops: HalOps<D>, v: Variant, w: World<D>, k: nat)
    requires Terminating(ops) && !w.draining
    ensures Run(ops, v, w, k + 1) == Iterate(ops, v, Run(ops, v, w, k))
  {
    hide Iterate, Terminating;
  }

  lemma {:induction false} RunSplit<D(!new)>(ops: HalOps<D>, v: Variant, w: World<D>, a: nat, b: nat)
    requires Terminating(ops) && !w.draining
    ensures Run(ops, v, w, a + b) == Run(ops, v, Run(ops, v, w, a), b)
    decreases b
  {
    hide Iterate;
    if b > 0 {
      RunSplit(ops, v, w, a, b - 1);
      assert a + b - 1 == a + (b - 1);
    }
  }

  // ----- where polls found nothing

  /** After a quiet poll the next thing to cross the shim is an access, never an interrupt. */
  ghost predicate QuietOk<D>(w: World<D>) {
    forall m | m in w.quiet :: m <= |w.seen| && (m < |w.seen| ==> !w.seen[m].kind.IsIrq())
  }

  lemma RawQuiet<D>(w: World<D>, r: World<D>, e: Event)
    requires QuietOk(w) && r.seen == w.seen + [e] && r.quiet == w.quiet && !e.kind.IsIrq()
    ensures QuietOk(r) && |r.seen| !in r.quiet
  {
  }

  lemma IsrQuiet<D(!new)>(ops: HalOps<D>, w: World<D>)
    requires Terminating(ops) && QuietOk(w)
    ensures QuietOk(Isr(ops, w)) && |Isr(ops, w).seen| !in Isr(ops, w).quiet
  {
    var (w1, sr) := RawRead(ops, w, UART0_SR);
    RawQuiet(w, w1, w1.seen[|w.seen|]);
    if sr % 2 == 1 {
      var (w2, dr) := RawRead(ops, w1, UART0_DR);
      RawQuiet(w1, w2, w2.seen[|w1.seen|]);
    }
  }

  lemma {:induction false} PumpLoopQuiet<D(!new)>(ops: HalOps<D>, w: World<D>)
    requires Terminating(ops) && QuietOk(w) && |w.seen| !in w.quiet
    ensures QuietOk(PumpLoop(ops, w))
    decreases ops.rank(w.ctx, w.fw)
  {
    var (d, vector) := ops.poll(w.ctx, w.fw);
    if vector != NO_IRQ {
      var w1 := EnterIrq(ops, w, d, vector);
      assert QuietOk(w1) && |w1.seen| !in w1.quiet;
      if vector == IRQ_UART_RX {
        IsrQuiet(ops, w1);
        PumpLoopQuiet(ops, Isr(ops, w1));
      } else {
        PumpLoopQuiet(ops, w1);
      }
    }
  }

  lemma PumpQuiet<D(!new)>(ops: HalOps<D>, w: World<D>)
    requires Terminating(ops) && QuietOk(w) && |w.seen| !in w.quiet
    ensures QuietOk(Pump(ops, w))
  {
    if !(w.mask > 0 || w.inIsr) {
      PumpLoopQuiet(ops, w.(inIsr := true));
    }
  }

  lemma ReadQuiet<D(!new)>(ops: HalOps<D>, w: World<D>, addr: u32)
    requires Terminating(ops) && QuietOk(w)
    ensures QuietOk(ReadRegister(ops, w, addr).0)
  {
    var w1 := RawRead(ops, w, addr).0;
    RawQuiet(w, w1, w1.seen[|w.seen|]);
    PumpQuiet(ops, w1);
  }

  lemma WriteQuiet<D(!new)>(ops: HalOps<D>, w: World<D>, addr: u32, value: u32)
    requires Terminating(ops) && QuietOk(w)
    ensures QuietOk(WriteRegister(ops, w, addr, value))
  {
    var w1 := RawWrite(ops, w, addr, value);
    RawQuiet(w, w1, w1.seen[|w.seen|]);
    PumpQuiet(ops, w1);
  }

  lemma ConsumeQuiet<D(!new)>(ops: HalOps<D>, w: World<D>)
    requires Terminating(ops) && QuietOk(w)
    ensures QuietOk(ConsumeOne(ops, w))
  {
    var w1 := w.(fw := Take(w.fw));
    ReadQuiet(ops, w1, SYSTICK_CNT);
    var w2 := Stamp(ops, w1);
    WriteQuiet(ops, w2, GPIO0_ODR, w2.fw.consumed);
  }

  lemma {:induction false} DrainQuiet<D(!new)>(ops: HalOps<D>, w: World<D>, n: nat)
    requires Terminating(ops) && QuietOk(w)
    ensures QuietOk(Drain(ops, w, n))
    decreases n
  {
    hide ConsumeOne;
    if n > 0 {
      DrainQuiet(ops, w, n - 1);
      ConsumeQuiet(ops, Drain(ops, w, n - 1));
    }
  }

  lemma IterateQuiet<D(!new)>(ops: HalOps<D>, v: Variant, w: World<D>)
    requires Terminating(ops) && QuietOk(w) && !w.draining
    ensures QuietOk(Iterate(ops, v, w))
  {
    hide ReadRegister, Drain, Iterate;
    IterateCases(ops, v, w);
    if w.fw.pending == 0 {
      ReadQuiet(ops, w, SYSTICK_CNT);
    } else {
      DrainQuiet(ops, w.(draining := true), w.fw.pending);
    }
  }

  lemma {:induction false} RunQuiet<D(!new)>(ops: HalOps<D>, v: Variant, w: World<D>, iters: nat)
    requires Terminating(ops) && QuietOk(w) && !w.draining
    ensures QuietOk(Run(ops, v, w, iters))
    decreases iters
  {
    hide Iterate, QuietOk;
    if iters > 0 {
      RunQuiet(ops, v, w, iters - 1);
      IterateQuiet(ops, v, Run(ops, v, w, iters - 1));
    }
  }

  // ----- what backends preserve, runs preserve

  /**
   * A property of the record and the backend's context that no access and no poll breaks, whatever
   * the firmware's state and whatever register is touched.
   */
  ghost predicate Preserves<D(!new)>(ops: HalOps<D>, inv: (seq<Event>, D) -> bool) {
    && (forall s, d, fw, a {:trigger inv(s, d), ops.read(d, fw, a)} ::
          inv(s, d) ==> inv(s + [ReadEvent(ops, d, fw, a)], ops.read(d, fw, a).0))
    && (forall s, d, fw, a, v {:trigger inv(s, d), ops.write(d, fw, a, v)} ::
          inv(s, d) ==> inv(s + [WriteEvent(ops, d, fw, a, v)], ops.write(d, fw, a, v)))
    && (forall s, d, fw {:trigger inv(s, d), ops.poll(d, fw)} ::
          inv(s, d) ==> inv(s + PollEvents(ops, d, fw), ops.poll(d, fw).0))
  }

  function ReadEvent<D>(ops: HalOps<D>, d: D, fw: State, a: u32): Event {
    Event(MmioRead, ops.now(ops.read(d, fw, a).0), a, ops.read(d, fw, a).1)
  }

  function WriteEvent<D>(ops: HalOps<D>, d: D, fw: State, a: u32, v: u32): Event {
    Event(MmioWrite, ops.now(ops.write(d, fw, a, v)), a, v)
  }

  function PollEvents<D>(ops: HalOps<D>, d: D, fw: State): seq<Event> {
    if ops.poll(d, fw).1 == NO_IRQ then [] else [Event(IrqEnter, ops.now(ops.poll(d, fw).0), ops.poll(d, fw).1, 0)]
  }

  ghost predicate Keeps<D>(inv: (seq<Event>, D) -> bool, w: World<D>, r: World<D>) {
    inv(w.seen, w.ctx) ==> inv(r.seen, r.ctx)
  }

  lemma IsrKeeps<D(!new)>(ops: HalOps<D>, inv: (seq<Event>, D) -> bool, w: World<D>)
    requires Terminating(ops) && Preserves(ops, inv)
    ensures Keeps(inv, w, Isr(ops, w))
  {
    var (w1, sr) := RawRead(ops, w, UART0_SR);
    assert Keeps(inv, w, w1);
    if sr % 2 == 1 {
      var (w2, dr) := RawRead(ops, w1, UART0_DR);
      assert Keeps(inv, w1, w2);
    }
  }

  lemma {:induction false} PumpLoopKeeps<D(!new)>(ops: HalOps<D>, inv: (seq<Event>, D) -> bool, w: World<D>)
    requires Terminating(ops) && Preserves(ops, inv)
    ensures Keeps(inv, w, PumpLoop(ops, w))
    decreases ops.rank(w.ctx, w.fw)
  {
    var (d, vector) := ops.poll(w.ctx, w.fw);
    if vector == NO_IRQ {
      assert w.seen + PollEvents(ops, w.ctx, w.fw) == w.seen;
    } else {
      var w1 := EnterIrq(ops, w, d, vector);
      assert w1.seen == w.seen + PollEvents(ops, w.ctx, w.fw);
      assert Keeps(inv, w, w1);
      if vector == IRQ_UART_RX {
        IsrKeeps(ops, inv, w1);
        PumpLoopKeeps(ops, inv, Isr(ops, w1));
      } else {
        PumpLoopKeeps(ops, inv, w1);
      }
    }
  }

  lemma PumpKeeps<D(!new)>(ops: HalOps<D>, inv: (seq<Event>, D) -> bool, w: World<D>)
    requires Terminating(ops) && Preserves(ops, inv)
    ensures Keeps(inv, w, Pump(ops, w))
  {
    if !(w.mask > 0 || w.inIsr) {
      PumpLoopKeeps(ops, inv, w.(inIsr := true));
    }
  }

  lemma ReadKeeps<D(!new)>(ops: HalOps<D>, inv: (seq<Event>, D) -> bool, w: World<D>, addr: u32)
    requires Terminating(ops) && Preserves(ops, inv)
    ensures Keeps(inv, w, ReadRegister(ops, w, addr).0)
  {
    PumpKeeps(ops, inv, RawRead(ops, w, addr).0);
  }

  lemma WriteKeeps<D(!new)>(ops: HalOps<D>, inv: (seq<Event>, D) -> bool, w: World<D>, addr: u32, value: u32)
    requires Terminating(ops) && Preserves(ops, inv)
    ensures Keeps(inv, w, WriteRegister(ops, w, addr, value))
  {
    PumpKeeps(ops, inv, RawWrite(ops, w, addr, value));
  }

  lemma ConsumeKeeps<D(!new)>(ops: HalOps<D>, inv: (seq<Event>, D) -> bool, w: World<D>)
    requires Terminating(ops) && Preserves(ops, inv)
    ensures Keeps(inv, w, ConsumeOne(ops, w))
  {
    hide Preserves;
    var w1 := w.(fw := Take(w.fw));
    ReadKeeps(ops, inv, w1, SYSTICK_CNT);
    var w2 := Stamp(ops, w1);
    WriteKeeps(ops, inv, w2, GPIO0_ODR, w2.fw.consumed);
  }

  lemma {:induction false} DrainKeeps<D(!new)>(ops: HalOps<D>, inv: (seq<Event>, D) -> bool, w: World<D>, n: nat)
    requires Terminating(ops) && Preserves(ops, inv)
    ensures Keeps(inv, w, Drain(ops, w, n))
    decreases n
  {
    hide ConsumeOne, Preserves;
    if n > 0 {
      DrainKeeps(ops, inv, w, n - 1);
      ConsumeKeeps(ops, inv, Drain(ops, w, n - 1));
    }
  }

  lemma IterateKeeps<D(!new)>(ops: HalOps<D>, inv: (seq<Event>, D) -> bool, v: Variant, w: World<D>)
    requires Terminating(ops) && Preserves(ops, inv) && !w.draining
    ensures Keeps(inv, w, Iterate(ops, v, w))
  {
    hide ReadRegister, Drain, Iterate, Preserves;
    IterateCases(ops, v, w);
    if w.fw.pending == 0 {
      ReadKeeps(ops, inv, w, SYSTICK_CNT);
    } else {
      DrainKeeps(ops, inv, w.(draining := true), w.fw.pending);
    }
  }

  lemma {:induction false} RunKeeps<D(!new)>(ops: HalOps<D>, inv: (seq<Event>, D) -> bool, v: Variant, w: World<D>, iters: nat)
    requires Terminating(ops) && Preserves(ops, inv) && !w.draining
    ensures Keeps(inv, w, Run(ops, v, w, iters))
    decreases iters
  {
    hide Iterate, Preserves;
    if iters > 0 {
      RunKeeps(ops, inv, v, w, iters - 1);
      IterateKeeps(ops, inv, v, Run(ops, v, w, iters - 1));
    }
  }

  // ----- timestamps

  /** The backend's clock never runs backwards. */
  ghost predicate Monotone<D(!new)>(ops: HalOps<D>) {
    && (forall d, s, a {:trigger ops.read(d, s, a)} :: ops.now(d) <= ops.now(ops.read(d, s, a).0))
    && (forall d, s, a, v {:trigger ops.write(d, s, a, v)} :: ops.now(d) <= ops.now(ops.write(d, s, a, v)))
    && (forall d, s {:trigger ops.poll(d, s)} :: ops.now(d) <= ops.now(ops.poll(d, s).0))
  }

  /** Events in timestamp order, none later than `limit`, each of a kind the shim records. */
  ghost predicate Ordered(p: nat, es: seq<Event>, limit: nat)
    decreases |es|
  {
    p <= limit && (es == [] || (es[0].kind in {MmioRead, MmioWrite, IrqEnter} && (es[0].kind.IrqEnter? ==> es[0].value == 0)
                                && p <= es[0].ts && Ordered(es[0].ts, es[1..], limit)))
  }

  lemma {:induction false} OrderedSnoc(p: nat, es: seq<Event>, limit: nat, e: Event)
    requires Ordered(p, es, limit) && limit <= e.ts
    requires e.kind in {MmioRead, MmioWrite, IrqEnter} && (e.kind.IrqEnter? ==> e.value == 0)
    ensures Ordered(p, es + [e], e.ts)
    decreases |es|
  {
    if es == [] {
      assert [e][1..] == [];
    } else {
      OrderedSnoc(es[0].ts, es[1..], limit, e);
      assert (es + [e])[1..] == es[1..] + [e];
    }
  }

  lemma {:induction false} OrderedLater(p: nat, es: seq<Event>, limit: nat, later: nat)
    requires Ordered(p, es, limit) && limit <= later
    ensures Ordered(p, es, later)
    decreases |es|
  {
    if es != [] {
      OrderedLater(es[0].ts, es[1..], limit, later);
    }
  }

  lemma {:induction false} OrderedRecordable(p: Predictor, es: seq<Event>, limit: nat)
    requires Ordered(p.ts, es, limit) && limit < TWO_64
    ensures Recordable(p, es) && AdvanceAll(p, es).ts <= limit
    decreases |es|
  {
    if es != [] {
      assert Ordered(es[0].ts, es[1..], limit);
      OrderedRecordable(Advance(p, es[0]), es[1..], limit);
    }
  }

  /** Everything a run on a monotone clock records is acceptable to the trace writer. */
  lemma RunOrdered<D(!new)>(ops: HalOps<D>, v: Variant, ctx: D, mask: nat, iters: nat)
    requires Terminating(ops) && Monotone(ops)
    ensures var w := Run(ops, v, Boot(ctx, mask), iters);
            Ordered(0, w.seen, ops.now(w.ctx))
  {
    var inv := (s: seq<Event>, d: D) => Ordered(0, s, ops.now(d));
    MonotonePreserves(ops, inv);
    RunKeeps(ops, inv, v, Boot(ctx, mask), iters);
  }

  lemma MonotonePreserves<D(!new)>(ops: HalOps<D>, inv: (seq<Event>, D) -> bool)
    requires Monotone(ops) && (forall s, d {:trigger inv(s, d)} :: inv(s, d) == Ordered(0, s, ops.now(d)))
    ensures Preserves(ops, inv)
  {
    forall s, d, fw, a {:trigger inv(s, d), ops.read(d, fw, a)} | inv(s, d)
      ensures inv(s + [ReadEvent(ops, d, fw, a)], ops.read(d, fw, a).0)
    {
      OrderedSnoc(0, s, ops.now(d), ReadEvent(ops, d, fw, a));
    }
    forall s, d, fw, a, v {:trigger inv(s, d), ops.write(d, fw, a, v)} | inv(s, d)
      ensures inv(s + [WriteEvent(ops, d, fw, a, v)], ops.write(d, fw, a, v))
    {
      OrderedSnoc(0, s, ops.now(d), WriteEvent(ops, d, fw, a, v));
    }
    forall s, d, fw {:trigger inv(s, d), ops.poll(d, fw)} | inv(s, d)
      ensures inv(s + PollEvents(ops, d, fw), ops.poll(d, fw).0)
    {
      if ops.poll(d, fw).1 == NO_IRQ {
        OrderedLater(0, s, ops.now(d), ops.now(ops.poll(d, fw).0));
        assert s + PollEvents(ops, d, fw) == s;
      } else {
        OrderedSnoc(0, s, ops.now(d), PollEvents(ops, d, fw)[0]);
      }
    }
  }
}
