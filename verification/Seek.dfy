/** The checkpoint index, and how far a seek through it agrees with plain re-execution. */
module Seeking {
  import opened Basics
  import opened Trace
  import opened RxPump
  import opened Replaying
  import opened Timelines

  datatype Checkpoint = Checkpoint(mainIter: nat, cursor: nat, ts: nat, fw: State)

  function Mark(t: Tape, p: nat): Checkpoint {
    Checkpoint(p, Cursor(t, p), Played(t, p).ctx.now, Played(t, p).fw)
  }

  predicate Due(p: nat, every: nat)
    requires every > 0
  {
    p % every == 0
  }

  lemma DueAgain(p: nat, every: nat)
    requires every > 0
    ensures Due(0, every) && (Due(p, every) ==> Due(p + every, every))
  {
    if Due(p, every) {
      var q := p / every;
      assert p == q * every;
      assert (q + 1) * every == q * every + every;
      DivisionUnique(p + every, every, q + 1, 0);
    }
  }

  /** The checkpoints taken by the first `n` passes, one every `every`. */
  function Marks(t: Tape, every: nat, n: nat): seq<Checkpoint>
    requires every > 0
  {
    if n == 0 then []
    else Marks(t, every, n - 1) + (if Due(n - 1, every) then [Mark(t, n - 1)] else [])
  }

  /** They are in the order of their cursors, and the first one is the start of the run. */
  lemma {:induction false} MarksInOrder(t: Tape, every: nat, n: nat)
    requires every > 0
    ensures var m := Marks(t, every, n);
            && (n > 0 ==> m != [] && m[0] == Mark(t, 0))
            && (forall k :: 0 <= k < |m| ==> m[k].mainIter < n && m[k] == Mark(t, m[k].mainIter))
            && (forall j, k :: 0 <= j <= k < |m| ==> m[j].cursor <= m[k].cursor)
  {
    hide Played;
    if n > 0 {
      MarksInOrder(t, every, n - 1);
      DueAgain(0, every);
      hide Due;
      var m := Marks(t, every, n - 1);
      forall k | 0 <= k < |m|
        ensures m[k].cursor <= Cursor(t, n - 1)
      {
        CursorMonotone(t, m[k].mainIter, n - 1);
      }
    }
  }

  /** The pass of the last checkpoint at or before the target. */
  function Nearest(t: Tape, every: nat, n: nat, index: nat): (p: nat)
    requires every > 0
    ensures n > 0 ==> p < n
  {
    if n == 0 then 0
    else if Due(n - 1, every) && Cursor(t, n - 1) <= index then n - 1
    else Nearest(t, every, n - 1, index)
  }

  /** A scan of the index that stops at the first checkpoint beyond the target finds it. */
  lemma {:induction false} ScanFindsNearest(t: Tape, every: nat, n: nat, index: nat, k: nat)
    requires every > 0
    requires var m := Marks(t, every, n);
             k < |m| && m[k].cursor <= index && (k + 1 < |m| ==> index < m[k + 1].cursor)
    ensures Marks(t, every, n)[k] == Mark(t, Nearest(t, every, n, index))
  {
    hide Played, Due;
    MarksInOrder(t, every, n);
    var m := Marks(t, every, n);
    if Due(n - 1, every) {
      assert m[|m| - 1] == Mark(t, n - 1);
      if k < |m| - 1 {
        assert m[k + 1].cursor <= m[|m| - 1].cursor;
        ScanFindsNearest(t, every, n - 1, index, k);
      }
    } else {
      ScanFindsNearest(t, every, n - 1, index, k);
    }
  }

  /** It is a checkpoint at or before the target, and the next one, if any, lies beyond it. */
  lemma {:induction false} NearestFacts(t: Tape, every: nat, n: nat, index: nat)
    requires every > 0 && n > 0
    ensures var p := Nearest(t, every, n, index);
            && Due(p, every) && Cursor(t, p) <= index
            && (p + every < n ==> index < Cursor(t, p + every))
  {
    hide Played, Due, Cursor;
    StartCursor(t);
    DueAgain(0, every);
    if n > 1 && !(Due(n - 1, every) && Cursor(t, n - 1) <= index) {
      var p := Nearest(t, every, n - 1, index);
      NearestFacts(t, every, n - 1, index);
      DueAgain(p, every);
      assert Nearest(t, every, n, index) == p;
    }
  }

  lemma StartCursor(t: Tape)
    ensures Cursor(t, 0) == 0
  {
  }

  /** What a seek answers: execution from the nearest checkpoint. */
  function SeekTo(t: Tape, every: nat, iters: nat, index: nat): Snapshot
    requires every > 0 && iters > 0
  {
    Execute(t, Nearest(t, every, iters, index), iters, index)
  }

  /**
   * A seek agrees with re-execution from the very start whenever its checkpoint lies strictly
   * before the target, whatever the trace, divergent or not, and whatever the spacing.
   */
  lemma CheckpointsExact(t: Tape, every: nat, iters: nat, index: nat)
    requires every > 0 && iters > 0
    requires var p := Nearest(t, every, iters, index);
             p == 0 || Cursor(t, p) < index
    ensures SeekTo(t, every, iters, index) == Execute(t, 0, iters, index)
  {
    SkipAhead(t, 0, Nearest(t, every, iters, index), iters, index);
  }

  /** A seek runs at most `every` passes. */
  lemma SeekCost(t: Tape, every: nat, iters: nat, index: nat)
    requires every > 0 && iters > 0
    ensures var p, s := Nearest(t, every, iters, index), SeekTo(t, every, iters, index);
            && p <= s.mainIter <= iters && s.index == index
            && (s.mainIter < p + every || s.mainIter == iters == p + every)
  {
    hide Execute, Nearest, Due, Cursor;
    var p := Nearest(t, every, iters, index);
    NearestFacts(t, every, iters, index);
    StopsByTheEnd(t, p, iters, index);
    if p + every < iters {
      StopsInTime(t, p, p + every, iters, index);
    }
  }

  /**
   * When the checkpoint's cursor is the target itself, the two answers are one pass apart.
   * Re-execution captures at the last poll before the checkpoint, where the counter has not been
   * settled; the seek captures at the first request after it, by when a busy pass has taken a byte.
   */
  lemma EqualCursor(t: Tape, iters: nat, p: nat)
    requires Faithful(t, iters) && 0 < p < iters
    ensures var index, n, at := Cursor(t, p), Played(t, p - 1).fw.pending, Played(t, p).fw;
            var full, sought := Execute(t, 0, iters, index), Execute(t, p, iters, index);
            && full.mainIter == p - 1 && sought.mainIter == p && full.ts == sought.ts
            && at == full.fw.(pending := at.pending)
            && sought.fw == AtFirstRequest(at)
            && (sought.fw == full.fw <==> n == 0 && at.pending == 0)
  {
    hide Execute, Played, Faithful, AtLastPoll, Settle, Cursor;
    BeforeCheckpoint(t, iters, p);
    CaptureAtFirstRequest(t, iters, p);
    LastPollSettles(t, iters, p - 1);
    StillCounted(t, p - 1);
    SettledStates(t.variant, AtLastPoll(t.variant, Played(t, p - 1)), Played(t, p - 1).fw.pending, Played(t, p).fw);
  }

  lemma BeforeCheckpoint(t: Tape, iters: nat, p: nat)
    requires Faithful(t, iters) && 0 < p <= iters
    ensures Execute(t, 0, iters, Cursor(t, p))
         == Snapshot(Cursor(t, p), Played(t, p).ctx.now, p - 1, AtLastPoll(t.variant, Played(t, p - 1)))
  {
    hide Execute, Faithful, Played, AtLastPoll;
    PassAdvances(t, iters, p - 1);
    SkipAhead(t, 0, p - 1, iters, Cursor(t, p));
    CaptureAtLastPoll(t, iters, p - 1);
  }

  /** Before and after the closing update, and after the first byte of the next pass. */
  lemma SettledStates(b: Variant, before: State, n: u32, at: State)
    requires before.pending >= n && at == (if n == 0 then before else Settle(b, before, n))
    ensures at == before.(pending := at.pending)
    ensures AtFirstRequest(at) == before <==> n == 0 && at.pending == 0
    ensures at == before <==> n == 0
  {
  }

  /**
   * Checkpoints change no answer exactly when the checkpoint lies strictly before the target or is
   * the start of the run: the comparison that chooses a checkpoint would have to be strict.
   */
  lemma SeekExactness(t: Tape, every: nat, iters: nat, index: nat)
    requires every > 0 && iters > 0 && Faithful(t, iters)
    ensures var p := Nearest(t, every, iters, index);
            SeekTo(t, every, iters, index) == Execute(t, 0, iters, index) <==> p == 0 || Cursor(t, p) < index
  {
    hide Execute, Faithful, Played, Cursor;
    var p := Nearest(t, every, iters, index);
    NearestFacts(t, every, iters, index);
    if p == 0 || Cursor(t, p) < index {
      CheckpointsExact(t, every, iters, index);
    } else {
      EqualCursor(t, iters, p);
    }
  }

  /** Of the two answers' firmware states, which may agree a little more often: between two idle passes. */
  lemma SeekStates(t: Tape, every: nat, iters: nat, index: nat)
    requires every > 0 && iters > 0 && Faithful(t, iters)
    ensures var p := Nearest(t, every, iters, index);
            SeekTo(t, every, iters, index).fw == Execute(t, 0, iters, index).fw
            <==> p == 0 || Cursor(t, p) < index || (Played(t, p - 1).fw.pending == 0 && Played(t, p).fw.pending == 0)
  {
    hide Execute, Faithful, Played, Cursor;
    var p := Nearest(t, every, iters, index);
    NearestFacts(t, every, iters, index);
    if p == 0 || Cursor(t, p) < index {
      CheckpointsExact(t, every, iters, index);
    } else {
      EqualCursor(t, iters, p);
    }
  }

  /**
   * The end of the timeline is captured too: at the last poll of the last pass. It is the final state
   * exactly when that pass was idle, and is otherwise short of the closing update alone.
   */
  lemma SeekEnd(t: Tape, every: nat, iters: nat)
    requires every > 0 && iters > 0 && Faithful(t, iters)
    ensures var s := SeekTo(t, every, iters, Cursor(t, iters));
            && s.mainIter == iters - 1 && s.ts == Played(t, iters).ctx.now
            && Played(t, iters).fw == s.fw.(pending := Played(t, iters).fw.pending)
            && (s.fw == Played(t, iters).fw <==> Played(t, iters - 1).fw.pending == 0)
  {
    hide Execute, Faithful, Played, Cursor, AtLastPoll, Settle;
    var p := Nearest(t, every, iters, Cursor(t, iters));
    PassAdvances(t, iters, iters - 1);
    CursorMonotone(t, p, iters - 1);
    CheckpointsExact(t, every, iters, Cursor(t, iters));
    BeforeCheckpoint(t, iters, iters);
    LastPollSettles(t, iters, iters - 1);
    StillCounted(t, iters - 1);
    SettledStates(t.variant, AtLastPoll(t.variant, Played(t, iters - 1)), Played(t, iters - 1).fw.pending, Played(t, iters).fw);
  }

  /** The start of the timeline is the firmware as booted, at time zero. */
  lemma SeekStart(t: Tape, every: nat, iters: nat)
    requires every > 0 && iters > 0 && Faithful(t, iters)
    ensures SeekTo(t, every, iters, 0) == Snapshot(0, 0, 0, RESET)
  {
    hide Execute, Faithful, Played, Cursor;
    var p := Nearest(t, every, iters, 0);
    NearestFacts(t, every, iters, 0);
    StartCursor(t);
    if p > 0 {
      PassAdvances(t, iters, 0);
      CursorMonotone(t, 1, p);
    }
    PlayedNone(t);
    CaptureAtFirstRequest(t, iters, 0);
  }

  lemma LastPollSettles(t: Tape, iters: nat, p: nat)
    requires Faithful(t, iters) && p < iters
    ensures var s := AtLastPoll(t.variant, Played(t, p));
            Played(t, p + 1).fw == (if Played(t, p).fw.pending == 0 then s else Settle(t.variant, s, Played(t, p).fw.pending))
  {
    hide Iterate, Run, Faithful, Poised, Rests, AtLastPoll;
    PlayedPoised(t, iters, p);
    PlayedPoised(t, iters, p + 1);
    PlayedStep(t, p);
    IterateRests(t.variant, Played(t, p));
  }

  // ----- an input on which a checkpoint changes the answer

  /** One byte arrives in the first pass and is consumed in the second. */
  const ONE_BYTE: Tape := Tape(Buggy, [
    Event(MmioRead, 3, SYSTICK_CNT, 3), Event(IrqEnter, 3, IRQ_UART_RX, 0),
    Event(MmioRead, 6, UART0_SR, 3), Event(MmioRead, 9, UART0_DR, 7),
    Event(MmioRead, 12, SYSTICK_CNT, 12), Event(MmioWrite, 15, GPIO0_ODR, 1), Event(Stop, 15, 0, 0)], true)

  predicate IsRead(t: seq<Event>, n: nat, addr: u32) {
    n < |t| && t[n].kind.MmioRead? && t[n].addr == addr
  }

  lemma RawReadServed(w: World<Replay>, addr: u32)
    requires IsRead(w.ctx.events, w.ctx.cursor, addr)
    ensures var (r, v) := RawRead(REPLAY, w, addr);
            && v == w.ctx.events[w.ctx.cursor].value && r.fw == w.fw && r.mask == w.mask && r.inIsr == w.inIsr
            && r.ctx.cursor == w.ctx.cursor + 1 && r.ctx.events == w.ctx.events
            && r.ctx.divergence == w.ctx.divergence && r.ctx.checkWrites == w.ctx.checkWrites
  {
  }

  /** A handler run that finds a byte. */
  lemma HandlerServed(w: World<Replay>)
    requires Terminating(REPLAY) && IsRead(w.ctx.events, w.ctx.cursor, UART0_SR) && IsRead(w.ctx.events, w.ctx.cursor + 1, UART0_DR)
    requires w.ctx.events[w.ctx.cursor].value % 2 == 1
    ensures var r := Isr(REPLAY, w);
            && r.fw == Receive(w.fw, w.ctx.events[w.ctx.cursor + 1].value % 0x100) && r.mask == w.mask && r.inIsr == w.inIsr
            && r.ctx.cursor == w.ctx.cursor + 2 && r.ctx.events == w.ctx.events
            && r.ctx.divergence == w.ctx.divergence && r.ctx.checkWrites == w.ctx.checkWrites
  {
    hide RawRead, Receive;
    RawReadServed(w, UART0_SR);
    RawReadServed(RawRead(REPLAY, w, UART0_SR).0, UART0_DR);
  }

  lemma NothingPending(w: World<Replay>)
    requires Terminating(REPLAY) && w.ctx.cursor < |w.ctx.events| && !w.ctx.events[w.ctx.cursor].kind.IsIrq()
    ensures var r := PumpLoop(REPLAY, w);
            && r.fw == w.fw && r.ctx.cursor == w.ctx.cursor && r.ctx.events == w.ctx.events
            && r.ctx.divergence == w.ctx.divergence && r.ctx.checkWrites == w.ctx.checkWrites
  {
    hide Isr;
  }

  /** An interrupt window with one byte in it. */
  lemma WindowServed(w: World<Replay>)
    requires Terminating(REPLAY) && w.ctx.cursor + 3 < |w.ctx.events|
    requires var e := w.ctx.events[w.ctx.cursor];
             e.kind.IrqEnter? && e.addr == IRQ_UART_RX
    requires IsRead(w.ctx.events, w.ctx.cursor + 1, UART0_SR) && IsRead(w.ctx.events, w.ctx.cursor + 2, UART0_DR)
    requires w.ctx.events[w.ctx.cursor + 1].value % 2 == 1 && !w.ctx.events[w.ctx.cursor + 3].kind.IsIrq()
    ensures var r := PumpLoop(REPLAY, w);
            && r.fw == Receive(w.fw, w.ctx.events[w.ctx.cursor + 2].value % 0x100)
            && r.ctx.cursor == w.ctx.cursor + 3 && r.ctx.events == w.ctx.events
            && r.ctx.divergence == w.ctx.divergence && r.ctx.checkWrites == w.ctx.checkWrites
  {
    hide Isr, Receive;
    var w1 := EnterIrq(REPLAY, w, REPLAY.poll(w.ctx, w.fw).0, IRQ_UART_RX);
    HandlerServed(w1);
    NothingPending(Isr(REPLAY, w1));
  }

  lemma OneByteArrives()
    ensures Cursor(ONE_BYTE, 1) == 4 && Played(ONE_BYTE, 1).fw == Receive(RESET, 7)
    ensures Played(ONE_BYTE, 1).ctx.events == ONE_BYTE.events && Played(ONE_BYTE, 1).ctx.checkWrites
    ensures Played(ONE_BYTE, 1).ctx.divergence.None?
  {
    hide Iterate, RawRead, PumpLoop, Run, Receive;
    ReplayTerminates();
    PlayedStep(ONE_BYTE, 0);
    PlayedNone(ONE_BYTE);
    var w := Boot(Start(ONE_BYTE.events, true), 0);
    IterateCases(REPLAY, Buggy, w);
    RawReadServed(w, SYSTICK_CNT);
    WindowServed(RawRead(REPLAY, w, SYSTICK_CNT).0.(inIsr := true));
  }

  /** An access the trace does not follow with an interrupt. */
  lemma ReadServed(w: World<Replay>, addr: u32)
    requires Terminating(REPLAY) && w.mask == 0 && !w.inIsr && w.ctx.cursor + 1 < |w.ctx.events|
    requires w.ctx.events[w.ctx.cursor].kind.MmioRead? && w.ctx.events[w.ctx.cursor].addr == addr
    requires !w.ctx.events[w.ctx.cursor + 1].kind.IsIrq()
    ensures var r := ReadRegister(REPLAY, w, addr).0;
            && r.fw == w.fw && r.mask == 0 && !r.inIsr && r.ctx.cursor == w.ctx.cursor + 1
            && r.ctx.events == w.ctx.events && r.ctx.divergence == w.ctx.divergence && r.ctx.checkWrites == w.ctx.checkWrites
  {
  }

  lemma WriteServed(w: World<Replay>, addr: u32, value: u32)
    requires Terminating(REPLAY) && w.mask == 0 && !w.inIsr && w.ctx.cursor + 1 < |w.ctx.events|
    requires w.ctx.events[w.ctx.cursor].kind.MmioWrite?
    requires w.ctx.events[w.ctx.cursor].addr == addr && w.ctx.events[w.ctx.cursor].value == value
    requires !w.ctx.events[w.ctx.cursor + 1].kind.IsIrq()
    ensures WriteRegister(REPLAY, w, addr, value).ctx.divergence == w.ctx.divergence
  {
  }

  lemma ByteServed(w: World<Replay>)
    requires Terminating(REPLAY) && !w.draining && w.mask == 0 && !w.inIsr && w.fw.pending == 1
    requires w.ctx.cursor + 2 < |w.ctx.events|
    requires var e := w.ctx.events[w.ctx.cursor];
             e.kind.MmioRead? && e.addr == SYSTICK_CNT
    requires var e := w.ctx.events[w.ctx.cursor + 1];
             e.kind.MmioWrite? && e.addr == GPIO0_ODR && e.value == Wrap32(w.fw.consumed + 1)
    requires !w.ctx.events[w.ctx.cursor + 2].kind.IsIrq()
    ensures Iterate(REPLAY, Buggy, w).ctx.divergence == w.ctx.divergence
  {
    hide ReadRegister, WriteRegister, Iterate;
    IterateCases(REPLAY, Buggy, w);
    var w0 := w.(draining := true, fw := Take(w.fw));
    ReadServed(w0, SYSTICK_CNT);
    var w1 := Stamp(REPLAY, w0);
    WriteServed(w1, GPIO0_ODR, w1.fw.consumed);
    assert Drain(REPLAY, w.(draining := true), 1) == ConsumeOne(REPLAY, w.(draining := true));
  }

  lemma OneByteConsumed()
    ensures Faithful(ONE_BYTE, 2)
  {
    hide Played, Iterate;
    OneByteArrives();
    PlayedStep(ONE_BYTE, 1);
    assert Vectored(ONE_BYTE.events);
    ByteServed(Played(ONE_BYTE, 1));
  }

  /** With a checkpoint at every pass, event 4 is seen after the byte was taken; without, before. */
  lemma SeekDiffers()
    ensures SeekTo(ONE_BYTE, 1, 2, 4).fw.consumed == 1 && Execute(ONE_BYTE, 0, 2, 4).fw.consumed == 0
  {
    OneByteArrives();
    OneByteConsumed();
    hide Execute, Faithful, Played, Cursor;
    assert Nearest(ONE_BYTE, 1, 2, 4) == 1;
    EqualCursor(ONE_BYTE, 2, 1);
  }

  /** On that tape, too, the end of the timeline still counts a byte that the end of the run has settled. */
  lemma EndDiffers()
    ensures SeekTo(ONE_BYTE, 1, 2, Cursor(ONE_BYTE, 2)).fw != Played(ONE_BYTE, 2).fw
  {
    hide SeekTo, Faithful, Played, Cursor;
    OneByteArrives();
    OneByteConsumed();
    SeekEnd(ONE_BYTE, 1, 2);
  }
}
