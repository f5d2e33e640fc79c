/** Along the timeline the count of consumed bytes never falls, so it can be searched by bisection. */
module Progress {
  import opened Basics
  import opened Trace
  import opened RxPump
  import opened Replaying
  import opened Timelines
  import opened Seeking

  // ----- interrupts and accesses consume nothing

  /** Every request from `w` to `r` sees the same count. */
  ghost predicate Steady(w: World<Replay>, r: World<Replay>) {
    && r.fw.consumed == w.fw.consumed && w.ctx.calls <= r.ctx.calls
    && forall i | |w.ctx.calls| <= i < |r.ctx.calls| :: r.ctx.calls[i].fw.consumed == w.fw.consumed
  }

  lemma SteadyTrans(a: World<Replay>, b: World<Replay>, c: World<Replay>)
    requires Steady(a, b) && Steady(b, c)
    ensures Steady(a, c)
  {
    forall i | |a.ctx.calls| <= i < |c.ctx.calls|
      ensures c.ctx.calls[i].fw.consumed == a.fw.consumed
    {
      if i < |b.ctx.calls| {
        assert c.ctx.calls[i] == b.ctx.calls[i];
      }
    }
  }

  /** One request, made in the state `w.fw`. */
  lemma RequestSteady(w: World<Replay>, r: World<Replay>)
    requires r.fw == w.fw && r.ctx.calls == w.ctx.calls + [Call(w.ctx.cursor, w.ctx.now, w.fw)]
    ensures Steady(w, r)
  {
  }

  lemma IsrSteady(w: World<Replay>)
    requires Terminating(REPLAY)
    ensures Steady(w, Isr(REPLAY, w))
  {
    hide Steady;
    var (w1, sr) := RawRead(REPLAY, w, UART0_SR);
    RequestSteady(w, w1);
    if sr % 2 == 1 {
      var (w2, dr) := RawRead(REPLAY, w1, UART0_DR);
      RequestSteady(w1, w2);
      AcceptSteady(w2, dr % 0x100);
      hide RawRead;
      SteadyTrans(w, w1, w2);
      SteadyTrans(w, w2, Accept(w2, dr % 0x100));
    }
  }

  lemma AcceptSteady(w: World<Replay>, byte: u8)
    ensures Steady(w, Accept(w, byte))
  {
  }

  lemma {:induction false} PumpLoopSteady(w: World<Replay>)
    requires Terminating(REPLAY)
    ensures Steady(w, PumpLoop(REPLAY, w))
    decreases REPLAY.rank(w.ctx, w.fw)
  {
    hide Steady, Isr;
    var (d, vector) := REPLAY.poll(w.ctx, w.fw);
    if vector == NO_IRQ {
      RequestSteady(w, PumpLoop(REPLAY, w));
    } else {
      var w1 := EnterIrq(REPLAY, w, d, vector);
      RequestSteady(w, w1);
      var w2 := if vector == IRQ_UART_RX then Isr(REPLAY, w1) else w1;
      if vector == IRQ_UART_RX {
        IsrSteady(w1);
        SteadyTrans(w, w1, w2);
      }
      PumpLoopSteady(w2);
      SteadyTrans(w, w2, PumpLoop(REPLAY, w2));
    }
  }

  lemma PumpSteady(w: World<Replay>)
    requires Terminating(REPLAY)
    ensures Steady(w, Pump(REPLAY, w))
  {
    if !(w.mask > 0 || w.inIsr) {
      PumpLoopSteady(w.(inIsr := true));
    }
  }

  lemma ReadSteady(w: World<Replay>, addr: u32)
    requires Terminating(REPLAY)
    ensures Steady(w, ReadRegister(REPLAY, w, addr).0)
  {
    hide Steady, Pump;
    var w1 := RawRead(REPLAY, w, addr).0;
    RequestSteady(w, w1);
    PumpSteady(w1);
    SteadyTrans(w, w1, Pump(REPLAY, w1));
  }

  lemma WriteSteady(w: World<Replay>, addr: u32, value: u32)
    requires Terminating(REPLAY)
    ensures Steady(w, WriteRegister(REPLAY, w, addr, value))
  {
    hide Steady, Pump;
    var w1 := RawWrite(REPLAY, w, addr, value);
    RequestSteady(w, w1);
    PumpSteady(w1);
    SteadyTrans(w, w1, Pump(REPLAY, w1));
  }

  // ----- the main loop

  /** The requests from `w` to `r` see counts in order, between those at either end. */
  ghost predicate Climbs(w: World<Replay>, r: World<Replay>) {
    && w.fw.consumed <= r.fw.consumed && w.ctx.calls <= r.ctx.calls
    && (forall i | |w.ctx.calls| <= i < |r.ctx.calls| :: w.fw.consumed <= r.ctx.calls[i].fw.consumed <= r.fw.consumed)
    && (forall i, j | |w.ctx.calls| <= i <= j < |r.ctx.calls| :: r.ctx.calls[i].fw.consumed <= r.ctx.calls[j].fw.consumed)
  }

  lemma ClimbsTrans(a: World<Replay>, b: World<Replay>, c: World<Replay>)
    requires Climbs(a, b) && Climbs(b, c)
    ensures Climbs(a, c)
  {
    forall i | |a.ctx.calls| <= i < |c.ctx.calls|
      ensures a.fw.consumed <= c.ctx.calls[i].fw.consumed <= c.fw.consumed
      ensures i < |b.ctx.calls| ==> c.ctx.calls[i] == b.ctx.calls[i]
    {
      if i < |b.ctx.calls| {
        assert c.ctx.calls[i] == b.ctx.calls[i];
      }
    }
  }

  lemma ConsumeClimbs(w: World<Replay>)
    requires Terminating(REPLAY) && w.fw.consumed + 1 < TWO_32
    ensures var r := ConsumeOne(REPLAY, w);
            Climbs(w, r) && r.fw.consumed == w.fw.consumed + 1
  {
    hide ReadRegister, WriteRegister;
    var w1 := w.(fw := Take(w.fw));
    ReadSteady(w1, SYSTICK_CNT);
    var w2 := Stamp(REPLAY, w1);
    WriteSteady(w2, GPIO0_ODR, w2.fw.consumed);
    SteadyTrans(w1, w2, ConsumeOne(REPLAY, w));
  }

  lemma {:induction false} DrainClimbs(w: World<Replay>, n: nat)
    requires Terminating(REPLAY) && w.fw.consumed + n < TWO_32
    ensures var r := Drain(REPLAY, w, n);
            Climbs(w, r) && r.fw.consumed == w.fw.consumed + n
    decreases n
  {
    hide ConsumeOne;
    if n > 0 {
      hide Climbs;
      var before := Drain(REPLAY, w, n - 1);
      DrainClimbs(w, n - 1);
      ConsumeClimbs(before);
      ClimbsTrans(w, before, Drain(REPLAY, w, n));
    }
  }

  lemma {:induction false} DrainCosts(w: World<Replay>, n: nat)
    requires Terminating(REPLAY)
    ensures |Drain(REPLAY, w, n).seen| >= |w.seen| + n
    decreases n
  {
    hide ConsumeOne;
    if n > 0 {
      DrainCosts(w, n - 1);
    }
  }

  /** One pass, if the count does not wrap around in it; each byte consumed costs an access. */
  lemma IterateClimbs(b: Variant, w: World<Replay>)
    requires Terminating(REPLAY) && !w.draining
    ensures var r := Iterate(REPLAY, b, w);
            && |r.seen| >= |w.seen| + w.fw.pending
            && (w.fw.consumed + w.fw.pending < TWO_32 ==> Climbs(w, r) && r.fw.consumed == w.fw.consumed + w.fw.pending)
  {
    hide ReadRegister, Drain, Iterate;
    IterateCases(REPLAY, b, w);
    if w.fw.pending == 0 {
      ReadSteady(w, SYSTICK_CNT);
    } else {
      DrainCosts(w.(draining := true), w.fw.pending);
      if w.fw.consumed + w.fw.pending < TWO_32 {
        DrainClimbs(w.(draining := true), w.fw.pending);
      }
    }
  }

  // ----- the whole run

  ghost predicate InStep(s: seq<Event>, d: Replay) {
    && d.checkWrites && Vectored(d.events) && (d.divergence.None? ==> |s| == d.cursor <= |d.events|)
    && (forall i, j :: 0 <= i <= j < |d.calls| ==> d.calls[i].cursor <= d.calls[j].cursor <= d.cursor)
  }

  lemma InStepRequest(s: seq<Event>, d: Replay, fw: State, es: seq<Event>, r: Replay)
    requires InStep(s, d) && r.events == d.events && r.checkWrites && r.calls == d.calls + [Call(d.cursor, d.now, fw)]
    requires d.cursor <= r.cursor && (r.divergence.None? ==> d.divergence.None? && r.cursor == d.cursor + |es| <= |d.events|)
    ensures InStep(s + es, r)
  {
  }

  lemma InStepPreserved()
    ensures Preserves(REPLAY, InStep)
  {
    assert forall s, d :: InStep(s, d) ==> d.checkWrites && Vectored(d.events) && (d.divergence.None? ==> d.cursor <= |d.events|);
    hide InStep;
    forall s, d, fw, a {:trigger InStep(s, d), REPLAY.read(d, fw, a)} | InStep(s, d)
      ensures InStep(s + [ReadEvent(REPLAY, d, fw, a)], REPLAY.read(d, fw, a).0)
    {
      InStepRequest(s, d, fw, [ReadEvent(REPLAY, d, fw, a)], REPLAY.read(d, fw, a).0);
    }
    forall s, d, fw, a, v {:trigger InStep(s, d), REPLAY.write(d, fw, a, v)} | InStep(s, d)
      ensures InStep(s + [WriteEvent(REPLAY, d, fw, a, v)], REPLAY.write(d, fw, a, v))
    {
      InStepRequest(s, d, fw, [WriteEvent(REPLAY, d, fw, a, v)], REPLAY.write(d, fw, a, v));
    }
    forall s, d, fw {:trigger InStep(s, d), REPLAY.poll(d, fw)} | InStep(s, d)
      ensures InStep(s + PollEvents(REPLAY, d, fw), REPLAY.poll(d, fw).0)
    {
      InStepRequest(s, d, fw, PollEvents(REPLAY, d, fw), REPLAY.poll(d, fw).0);
    }
  }

  /** Without divergence each event replayed is one recorded, and requests come in the order of the trace. */
  lemma PlayedInStep(t: Tape, p: nat)
    requires t.checkWrites && Vectored(t.events)
    ensures InStep(Played(t, p).seen, Played(t, p).ctx)
  {
    ReplayTerminates();
    InStepPreserved();
    hide Run, Preserves;
    RunKeeps(REPLAY, InStep, t.variant, Boot(Start(t.events, t.checkWrites), 0), p);
  }

  lemma {:induction false} PlayedClimbs(t: Tape, iters: nat, p: nat)
    requires Faithful(t, iters) && p <= iters && |t.events| < TWO_32
    ensures Climbs(Played(t, 0), Played(t, p)) && Played(t, p).fw.consumed <= |Played(t, p).seen|
    decreases p
  {
    hide Iterate, Played, Climbs;
    PlayedPoised(t, iters, p);
    PlayedInStep(t, p);
    PlayedOnward(t, 0, p);
    PlayedNone(t);
    if p > 0 {
      PlayedClimbs(t, iters, p - 1);
      PlayedStep(t, p - 1);
      IterateClimbs(t.variant, Played(t, p - 1));
      ClimbsTrans(Played(t, 0), Played(t, p - 1), Played(t, p));
    } else {
      ClimbsSelf(Played(t, 0));
    }
  }

  lemma ClimbsSelf(w: World<Replay>)
    ensures Climbs(w, w)
  {
  }

  /** What was captured was one of the run's requests, or the run had ended. */
  lemma {:induction false} ExecuteSees(t: Tape, p: nat, iters: nat, index: nat)
    requires p <= iters && Cursor(t, p) <= index <= Cursor(t, iters)
    ensures var s, calls := Execute(t, p, iters, index), Played(t, iters).ctx.calls;
            || (index == Cursor(t, iters) && s.fw == Played(t, iters).fw)
            || exists i :: 0 <= i < |calls| && calls[i] == Call(index, s.ts, s.fw)
    decreases iters - p
  {
    hide Played;
    if p < iters {
      PlayedOnward(t, p, p + 1);
      PlayedOnward(t, p + 1, iters);
      match Find(Requests(t, p), index)
      case Some(c) =>
        var i :| 0 <= i < |Requests(t, p)| && Requests(t, p)[i] == c;
        assert Played(t, iters).ctx.calls[|Played(t, p).ctx.calls| + i] == c;
      case None =>
        if Cursor(t, p + 1) > index {
          InTime(t, p, index);
        }
        ExecuteSees(t, p + 1, iters, index);
    }
  }

  /** Requests at later events see higher counts, and none more than the end. */
  ghost predicate CountsInOrder(calls: seq<Call>, end: State) {
    && (forall i :: 0 <= i < |calls| ==> calls[i].fw.consumed <= end.consumed)
    && (forall i, j :: 0 <= i < |calls| && 0 <= j < |calls| && calls[i].cursor < calls[j].cursor
          ==> calls[i].fw.consumed <= calls[j].fw.consumed)
  }

  lemma PlayedInOrder(t: Tape, iters: nat)
    requires Faithful(t, iters) && |t.events| < TWO_32
    ensures CountsInOrder(Played(t, iters).ctx.calls, Played(t, iters).fw)
  {
    hide Played, Faithful, Vectored;
    PlayedClimbs(t, iters, iters);
    PlayedNone(t);
    FaithfulParts(t, iters);
    PlayedInStep(t, iters);
    var calls := Played(t, iters).ctx.calls;
    forall i, j | 0 <= i < |calls| && 0 <= j < |calls| && calls[i].cursor < calls[j].cursor
      ensures calls[i].fw.consumed <= calls[j].fw.consumed
    {
      assert i < j;
    }
  }

  lemma FaithfulParts(t: Tape, iters: nat)
    requires Faithful(t, iters)
    ensures t.checkWrites && Vectored(t.events)
  {
  }

  /** Whether `fw` is the state at a request made with the cursor on `index`, or the one at the end of the run. */
  ghost predicate Witnessed(t: Tape, iters: nat, index: nat, fw: State) {
    || (index == Cursor(t, iters) && fw == Played(t, iters).fw)
    || exists c :: c in Played(t, iters).ctx.calls && c.cursor == index && c.fw == fw
  }

  lemma SeekWitnessed(t: Tape, every: nat, iters: nat, index: nat)
    requires every > 0 && iters > 0 && index <= Cursor(t, iters)
    ensures Witnessed(t, iters, index, SeekTo(t, every, iters, index).fw)
  {
    hide Played, Execute, Nearest;
    NearestFacts(t, every, iters, index);
    ExecuteSees(t, Nearest(t, every, iters, index), iters, index);
  }

  lemma WitnessedInOrder(t: Tape, iters: nat, a: nat, x: State, b: nat, y: State)
    requires CountsInOrder(Played(t, iters).ctx.calls, Played(t, iters).fw)
    requires Witnessed(t, iters, a, x) && Witnessed(t, iters, b, y) && a < b <= Cursor(t, iters)
    ensures x.consumed <= y.consumed
  {
    hide Played;
    var calls := Played(t, iters).ctx.calls;
    var c :| c in calls && c.cursor == a && c.fw == x;
    if y != Played(t, iters).fw {
      var d :| d in calls && d.cursor == b && d.fw == y;
    }
  }

  /**
   * Over the seeks of a complete replay the count of consumed bytes never falls, checkpoints or
   * not: "at least k bytes consumed" is a predicate bisection can search for.
   */
  lemma ConsumedMonotone(t: Tape, every: nat, iters: nat, a: nat, b: nat)
    requires every > 0 && iters > 0 && Faithful(t, iters) && |t.events| < TWO_32
    requires a <= b <= Cursor(t, iters)
    ensures SeekTo(t, every, iters, a).fw.consumed <= SeekTo(t, every, iters, b).fw.consumed
  {
    if a < b {
      hide SeekTo, Played, Faithful, Witnessed, CountsInOrder;
      SeekWitnessed(t, every, iters, a);
      SeekWitnessed(t, every, iters, b);
      PlayedInOrder(t, iters);
      WitnessedInOrder(t, iters, a, SeekTo(t, every, iters, a).fw, b, SeekTo(t, every, iters, b).fw);
    }
  }
}
