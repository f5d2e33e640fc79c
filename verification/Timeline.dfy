/** Moving to any point of a recorded run: what a snapshot is, and when a checkpoint gives the same one. */
module Timelines {
  import opened Basics
  import opened Trace
  import opened RxPump
  import opened RxAccount
  import opened Replaying
  import opened Resuming

  /** What is being navigated: the decoded trace and the build that replays it. */
  datatype Tape = Tape(variant: Variant, events: seq<Event>, checkWrites: bool)

  datatype Snapshot = Snapshot(index: nat, ts: nat, mainIter: nat, fw: State)

  /** The replay from the start, after `p` passes of the main loop. */
  function Played(t: Tape, p: nat): (w: World<Replay>)
    ensures !w.draining && w.mask == 0 && !w.inIsr
  {
    ReplayTerminates();
    Run(REPLAY, t.variant, Boot(Start(t.events, t.checkWrites), 0), p)
  }

  /** The cursor after `p` passes. */
  function Cursor(t: Tape, p: nat): nat {
    Played(t, p).ctx.cursor
  }

  lemma PlayedStep(t: Tape, p: nat)
    ensures Terminating(REPLAY)
    ensures Played(t, p + 1) == Iterate(REPLAY, t.variant, Played(t, p))
  {
    ReplayTerminates();
    hide Iterate, Run;
    RunStep(REPLAY, t.variant, Boot(Start(t.events, t.checkWrites), 0), p);
  }

  // ----- what the backend's requests look like

  /**
   * From `d0` to `d` the cursor only advances, it passes no event without a request made at it, and
   * no request is made outside the stretch it covers.
   */
  ghost predicate Onward(d0: Replay, d: Replay) {
    && d.events == d0.events && d.checkWrites == d0.checkWrites
    && d0.calls <= d.calls && d0.cursor <= d.cursor && d.served - d0.served == d.cursor - d0.cursor
    && (forall i | |d0.calls| <= i < |d.calls| :: d0.cursor <= d.calls[i].cursor <= d.cursor)
    && (forall c | d0.cursor <= c < d.cursor :: AskedAt(d.calls[|d0.calls|..], c))
  }

  predicate AskedAt(calls: seq<Call>, cursor: nat) {
    exists i :: 0 <= i < |calls| && calls[i].cursor == cursor
  }

  lemma OnwardSelf(d: Replay)
    ensures Onward(d, d)
  {
  }

  lemma AskedMore(a: seq<Call>, b: seq<Call>, cursor: nat)
    requires AskedAt(a, cursor) || AskedAt(b, cursor)
    ensures AskedAt(a + b, cursor)
  {
    if AskedAt(a, cursor) {
      var i :| 0 <= i < |a| && a[i].cursor == cursor;
      assert (a + b)[i].cursor == cursor;
    } else {
      var i :| 0 <= i < |b| && b[i].cursor == cursor;
      assert (a + b)[|a| + i].cursor == cursor;
    }
  }

  lemma OnwardTrans(a: Replay, b: Replay, c: Replay)
    requires Onward(a, b) && Onward(b, c)
    ensures Onward(a, c)
  {
    hide AskedAt;
    assert c.calls[|a.calls|..] == b.calls[|a.calls|..] + c.calls[|b.calls|..];
    forall i | |a.calls| <= i < |c.calls|
      ensures a.cursor <= c.calls[i].cursor <= c.cursor
    {
      if i < |b.calls| {
        assert c.calls[i] == b.calls[i];
      }
    }
    forall k | a.cursor <= k < c.cursor
      ensures AskedAt(c.calls[|a.calls|..], k)
    {
      AskedMore(b.calls[|a.calls|..], c.calls[|b.calls|..], k);
    }
  }

  /** One request that is then served, or not. */
  lemma OneRequest(d: Replay, fw: State, r: Replay)
    requires r.calls == d.calls + [Call(d.cursor, d.now, fw)]
    requires r.events == d.events && r.checkWrites == d.checkWrites && d.cursor <= r.cursor <= d.cursor + 1
    requires r.served - d.served == r.cursor - d.cursor
    ensures Onward(d, r)
  {
    assert r.calls[|d.calls|..][0].cursor == d.cursor;
  }

  lemma OnwardPreserved(d0: Replay, inv: (seq<Event>, Replay) -> bool)
    requires forall s, d {:trigger inv(s, d)} :: inv(s, d) == Onward(d0, d)
    ensures Preserves(REPLAY, inv)
  {
    hide Onward;
    forall s, d, fw, a {:trigger inv(s, d), REPLAY.read(d, fw, a)} | inv(s, d)
      ensures inv(s + [ReadEvent(REPLAY, d, fw, a)], REPLAY.read(d, fw, a).0)
    {
      OneRequest(d, fw, REPLAY.read(d, fw, a).0);
      OnwardTrans(d0, d, REPLAY.read(d, fw, a).0);
    }
    forall s, d, fw, a, v {:trigger inv(s, d), REPLAY.write(d, fw, a, v)} | inv(s, d)
      ensures inv(s + [WriteEvent(REPLAY, d, fw, a, v)], REPLAY.write(d, fw, a, v))
    {
      OneRequest(d, fw, REPLAY.write(d, fw, a, v));
      OnwardTrans(d0, d, REPLAY.write(d, fw, a, v));
    }
    forall s, d, fw {:trigger inv(s, d), REPLAY.poll(d, fw)} | inv(s, d)
      ensures inv(s + PollEvents(REPLAY, d, fw), REPLAY.poll(d, fw).0)
    {
      OneRequest(d, fw, REPLAY.poll(d, fw).0);
      OnwardTrans(d0, d, REPLAY.poll(d, fw).0);
    }
  }

  lemma PassOnward(b: Variant, w: World<Replay>)
    requires Terminating(REPLAY) && !w.draining
    ensures Onward(w.ctx, Iterate(REPLAY, b, w).ctx)
  {
    var inv := (s: seq<Event>, d: Replay) => Onward(w.ctx, d);
    hide Iterate, Onward, Preserves;
    OnwardPreserved(w.ctx, inv);
    OnwardSelf(w.ctx);
    IterateKeeps(REPLAY, inv, b, w);
  }

  lemma {:induction false} PlayedOnward(t: Tape, p: nat, q: nat)
    requires p <= q
    ensures Onward(Played(t, p).ctx, Played(t, q).ctx)
    decreases q
  {
    hide Onward, Played, Iterate;
    if p == q {
      OnwardSelf(Played(t, p).ctx);
    } else {
      PlayedOnward(t, p, q - 1);
      PlayedStep(t, q - 1);
      PassOnward(t.variant, Played(t, q - 1));
      OnwardTrans(Played(t, p).ctx, Played(t, q - 1).ctx, Played(t, q).ctx);
    }
  }

  /** The timestamp of the last event before `cursor`. */
  function Before(events: seq<Event>, cursor: nat): nat
    requires cursor <= |events|
  {
    if cursor == 0 then 0 else events[cursor - 1].ts
  }

  /** The clock, now and at every request, is the timestamp of the last event served. */
  ghost predicate Clocked(events: seq<Event>, d: Replay) {
    && d.events == events && d.cursor <= |events| && d.now == Before(events, d.cursor)
    && forall i | 0 <= i < |d.calls| :: d.calls[i].cursor <= |events| && d.calls[i].now == Before(events, d.calls[i].cursor)
  }

  lemma ClockedRequest(events: seq<Event>, d: Replay, fw: State, r: Replay)
    requires Clocked(events, d) && r.events == events && r.calls == d.calls + [Call(d.cursor, d.now, fw)]
    requires (r.cursor == d.cursor && r.now == d.now) || (d.cursor < |events| && r.cursor == d.cursor + 1 && r.now == events[d.cursor].ts)
    ensures Clocked(events, r)
  {
  }

  lemma ClockedPreserved(events: seq<Event>, inv: (seq<Event>, Replay) -> bool)
    requires forall s, d {:trigger inv(s, d)} :: inv(s, d) == Clocked(events, d)
    ensures Preserves(REPLAY, inv)
  {
    assert forall d :: Clocked(events, d) ==> d.events == events && d.cursor <= |events|;
    hide Clocked;
    forall s, d, fw, a {:trigger inv(s, d), REPLAY.read(d, fw, a)} | inv(s, d)
      ensures inv(s + [ReadEvent(REPLAY, d, fw, a)], REPLAY.read(d, fw, a).0)
    {
      ClockedRequest(events, d, fw, REPLAY.read(d, fw, a).0);
    }
    forall s, d, fw, a, v {:trigger inv(s, d), REPLAY.write(d, fw, a, v)} | inv(s, d)
      ensures inv(s + [WriteEvent(REPLAY, d, fw, a, v)], REPLAY.write(d, fw, a, v))
    {
      ClockedRequest(events, d, fw, REPLAY.write(d, fw, a, v));
    }
    forall s, d, fw {:trigger inv(s, d), REPLAY.poll(d, fw)} | inv(s, d)
      ensures inv(s + PollEvents(REPLAY, d, fw), REPLAY.poll(d, fw).0)
    {
      ClockedRequest(events, d, fw, REPLAY.poll(d, fw).0);
    }
  }

  lemma PlayedClocked(t: Tape, p: nat)
    ensures Clocked(t.events, Played(t, p).ctx)
  {
    ReplayTerminates();
    var inv := (s: seq<Event>, d: Replay) => Clocked(t.events, d);
    hide Run, Preserves;
    ClockedPreserved(t.events, inv);
    RunKeeps(REPLAY, inv, t.variant, Boot(Start(t.events, t.checkWrites), 0), p);
  }

  // ----- seeking

  /** The first request made with the cursor on `index`: where a capture fires. */
  function Find(calls: seq<Call>, index: nat): (c: Option<Call>)
    ensures c.Some? <==> AskedAt(calls, index)
    ensures c.Some? ==> c.value in calls && c.value.cursor == index
  {
    if calls == [] then None
    else if calls[0].cursor == index then Some(calls[0])
    else
      assert AskedAt(calls, index) <==> AskedAt(calls[1..], index) by {
        AskedRest(calls, index);
      }
      Find(calls[1..], index)
  }

  lemma AskedRest(calls: seq<Call>, index: nat)
    requires calls != [] && calls[0].cursor != index
    ensures AskedAt(calls, index) <==> AskedAt(calls[1..], index)
  {
    if AskedAt(calls[1..], index) {
      var i :| 0 <= i < |calls[1..]| && calls[1..][i].cursor == index;
      assert calls[i + 1].cursor == index;
    }
    if AskedAt(calls, index) {
      var i :| 0 <= i < |calls| && calls[i].cursor == index;
      assert calls[1..][i - 1].cursor == index;
    }
  }

  /** The requests made in pass `p`. */
  function Requests(t: Tape, p: nat): seq<Call> {
    PlayedOnward(t, p, p + 1);
    Played(t, p + 1).ctx.calls[|Played(t, p).ctx.calls|..]
  }

  /**
   * Execution from pass `p` to the end of the run, captured at the first request with the cursor on
   * `index`; if there is none, the final state. From pass 0 this is plain re-execution.
   */
  function Execute(t: Tape, p: nat, iters: nat, index: nat): Snapshot
    requires p <= iters
    decreases iters - p
  {
    if p == iters then Snapshot(index, Played(t, iters).ctx.now, iters, Played(t, iters).fw)
    else
      match Find(Requests(t, p), index)
      case Some(c) => Snapshot(index, c.now, p, c.fw)
      case None => Execute(t, p + 1, iters, index)
  }

  lemma CursorMonotone(t: Tape, p: nat, q: nat)
    requires p <= q
    ensures Cursor(t, p) <= Cursor(t, q)
  {
    PlayedOnward(t, p, q);
  }

  /** No capture fires in a pass that ends before the target. */
  lemma TooEarly(t: Tape, p: nat, index: nat)
    requires Cursor(t, p + 1) < index
    ensures Find(Requests(t, p), index) == None
  {
    hide Played;
    PlayedOnward(t, p, p + 1);
  }

  /** A capture fires in a pass that steps over the target. */
  lemma InTime(t: Tape, p: nat, index: nat)
    requires Cursor(t, p) <= index < Cursor(t, p + 1)
    ensures Find(Requests(t, p), index).Some?
  {
    hide Played, AskedAt;
    PlayedOnward(t, p, p + 1);
  }

  /** Passes that end before the target may be skipped. */
  lemma {:induction false} SkipAhead(t: Tape, p: nat, i: nat, iters: nat, index: nat)
    requires p <= i <= iters && (p == i || Cursor(t, i) < index)
    ensures Execute(t, p, iters, index) == Execute(t, i, iters, index)
    decreases i - p
  {
    hide Find, Requests, Played;
    if p < i {
      CursorMonotone(t, p + 1, i);
      TooEarly(t, p, index);
      SkipAhead(t, p + 1, i, iters, index);
    }
  }

  /** Wherever it starts, execution stops at the latest in the pass that steps over the target. */
  lemma {:induction false} StopsInTime(t: Tape, p: nat, q: nat, iters: nat, index: nat)
    requires p < q <= iters && Cursor(t, p) <= index < Cursor(t, q)
    ensures p <= Execute(t, p, iters, index).mainIter < q
    decreases q - p
  {
    hide Find, Requests, Played;
    if index < Cursor(t, p + 1) {
      InTime(t, p, index);
    } else if Find(Requests(t, p), index).None? {
      StopsInTime(t, p + 1, q, iters, index);
    }
  }

  lemma {:induction false} StopsByTheEnd(t: Tape, p: nat, iters: nat, index: nat)
    requires p <= iters
    ensures p <= Execute(t, p, iters, index).mainIter <= iters && Execute(t, p, iters, index).index == index
    decreases iters - p
  {
    hide Find, Requests, Played;
    if p < iters && Find(Requests(t, p), index).None? {
      StopsByTheEnd(t, p + 1, iters, index);
    }
  }

  /** A snapshot's time is that of the last event before the target: it is taken between the two. */
  lemma {:induction false} SeekWindow(t: Tape, p: nat, iters: nat, index: nat)
    requires p <= iters && Cursor(t, p) <= index <= Cursor(t, iters)
    ensures index <= |t.events| && Execute(t, p, iters, index).ts == Before(t.events, index)
    decreases iters - p
  {
    hide Find, Played, Onward;
    PlayedClocked(t, iters);
    if p < iters {
      match Find(Requests(t, p), index)
      case Some(c) =>
        PlayedClocked(t, p + 1);
      case None =>
        if Cursor(t, p + 1) > index {
          InTime(t, p, index);
        }
        SeekWindow(t, p + 1, iters, index);
    }
  }

  // ----- replays that do not diverge

  /** No interrupt was recorded with the number that stands for "none". */
  predicate Vectored(events: seq<Event>) {
    forall i :: 0 <= i < |events| && events[i].kind.IsIrq() ==> events[i].addr != NO_IRQ
  }

  predicate AtMost(d: Replay) {
    forall i :: 0 <= i < |d.calls| ==> d.calls[i].cursor <= d.cursor
  }

  predicate Behind(d: Replay) {
    forall i :: 0 <= i < |d.calls| ==> d.calls[i].cursor < d.cursor
  }

  /** The last request found nothing to serve, and is the only one at the cursor. */
  predicate Rests(d: Replay, fw: State) {
    var n := |d.calls|;
    && n > 0 && d.calls[n - 1] == Call(d.cursor, d.now, fw)
    && forall i :: 0 <= i < n - 1 ==> d.calls[i].cursor < d.cursor
  }

  lemma RawReadBehind(w: World<Replay>, addr: u32)
    requires AtMost(w.ctx) && RawRead(REPLAY, w, addr).0.ctx.divergence.None?
    ensures var r := RawRead(REPLAY, w, addr).0.ctx;
            Behind(r) && r.cursor == w.ctx.cursor + 1 && r.events == w.ctx.events && r.checkWrites == w.ctx.checkWrites
  {
  }

  lemma RawWriteBehind(w: World<Replay>, addr: u32, value: u32)
    requires AtMost(w.ctx) && w.ctx.checkWrites && RawWrite(REPLAY, w, addr, value).ctx.divergence.None?
    ensures var r := RawWrite(REPLAY, w, addr, value).ctx;
            Behind(r) && r.cursor == w.ctx.cursor + 1 && r.events == w.ctx.events && r.checkWrites == w.ctx.checkWrites
  {
  }

  lemma RawReadDiverged(w: World<Replay>, addr: u32)
    requires w.ctx.divergence.Some?
    ensures RawRead(REPLAY, w, addr).0.ctx.divergence.Some?
  {
  }

  lemma IsrBehind(w: World<Replay>)
    requires Terminating(REPLAY) && Behind(w.ctx) && Isr(REPLAY, w).ctx.divergence.None?
    ensures var r := Isr(REPLAY, w).ctx;
            Behind(r) && r.cursor > w.ctx.cursor && r.events == w.ctx.events && r.checkWrites == w.ctx.checkWrites
  {
    hide RawRead;
    var (w1, sr) := RawRead(REPLAY, w, UART0_SR);
    if sr % 2 == 1 {
      if w1.ctx.divergence.Some? {
        RawReadDiverged(w1, UART0_DR);
      }
      RawReadBehind(w, UART0_SR);
      RawReadBehind(w1, UART0_DR);
    } else {
      RawReadBehind(w, UART0_SR);
    }
  }

  lemma PollBehind(w: World<Replay>)
    requires Behind(w.ctx) && Vectored(w.ctx.events)
    ensures var (d, vector) := REPLAY.poll(w.ctx, w.fw);
            && d.events == w.ctx.events && d.checkWrites == w.ctx.checkWrites
            && (if vector == NO_IRQ then Rests(d, w.fw) && d.cursor == w.ctx.cursor else Behind(d) && d.cursor > w.ctx.cursor)
  {
  }

  lemma {:induction false} PumpLoopRests(w: World<Replay>)
    requires Terminating(REPLAY) && Behind(w.ctx) && Vectored(w.ctx.events) && PumpLoop(REPLAY, w).ctx.divergence.None?
    ensures var r := PumpLoop(REPLAY, w);
            && Rests(r.ctx, r.fw) && r.ctx.cursor >= w.ctx.cursor
            && r.ctx.events == w.ctx.events && r.ctx.checkWrites == w.ctx.checkWrites
    decreases REPLAY.rank(w.ctx, w.fw)
  {
    hide Isr, Behind, Rests, Vectored, Preserves;
    PollBehind(w);
    var (d, vector) := REPLAY.poll(w.ctx, w.fw);
    if vector != NO_IRQ {
      var w1 := EnterIrq(REPLAY, w, d, vector);
      DivergencePreserved();
      if vector == IRQ_UART_RX {
        PumpLoopKeeps(REPLAY, HasDiverged, Isr(REPLAY, w1));
        IsrBehind(w1);
        PumpLoopRests(Isr(REPLAY, w1));
      } else {
        PumpLoopRests(w1);
      }
    }
  }

  lemma PumpRests(w: World<Replay>)
    requires Terminating(REPLAY) && Behind(w.ctx) && Vectored(w.ctx.events) && w.mask == 0 && !w.inIsr
    requires Pump(REPLAY, w).ctx.divergence.None?
    ensures var r := Pump(REPLAY, w);
            && Rests(r.ctx, r.fw) && r.ctx.cursor >= w.ctx.cursor
            && r.ctx.events == w.ctx.events && r.ctx.checkWrites == w.ctx.checkWrites
    ensures w.ctx.divergence.None?
  {
    hide Preserves;
    PumpLoopRests(w.(inIsr := true));
    DivergencePreserved();
    PumpKeeps(REPLAY, HasDiverged, w);
  }

  /** The state at which one of the firmware's accesses is made: nothing asked beyond the cursor. */
  predicate Poised(w: World<Replay>) {
    AtMost(w.ctx) && Vectored(w.ctx.events) && w.ctx.checkWrites && w.mask == 0 && !w.inIsr
  }

  lemma RestsPoised(w: World<Replay>, fw: State)
    requires Rests(w.ctx, fw) && Vectored(w.ctx.events) && w.ctx.checkWrites && w.mask == 0 && !w.inIsr
    ensures Poised(w)
  {
  }

  lemma PumpDiverged(w: World<Replay>)
    requires Terminating(REPLAY) && Pump(REPLAY, w).ctx.divergence.None?
    ensures w.ctx.divergence.None?
  {
    hide Preserves;
    DivergencePreserved();
    PumpKeeps(REPLAY, HasDiverged, w);
  }

  lemma ReadRests(w: World<Replay>, addr: u32)
    requires Terminating(REPLAY) && Poised(w) && ReadRegister(REPLAY, w, addr).0.ctx.divergence.None?
    ensures var r := ReadRegister(REPLAY, w, addr).0;
            Rests(r.ctx, r.fw) && r.ctx.cursor > w.ctx.cursor && Poised(r)
  {
    hide RawRead, Pump, Rests, Behind, Vectored, AtMost;
    var w1 := RawRead(REPLAY, w, addr).0;
    PumpDiverged(w1);
    RawReadBehind(w, addr);
    PumpRests(w1);
    RestsPoised(Pump(REPLAY, w1), Pump(REPLAY, w1).fw);
  }

  lemma WriteRests(w: World<Replay>, addr: u32, value: u32)
    requires Terminating(REPLAY) && Poised(w) && WriteRegister(REPLAY, w, addr, value).ctx.divergence.None?
    ensures var r := WriteRegister(REPLAY, w, addr, value);
            Rests(r.ctx, r.fw) && r.ctx.cursor > w.ctx.cursor && Poised(r)
  {
    hide RawWrite, Pump, Rests, Behind, Vectored, AtMost;
    var w1 := RawWrite(REPLAY, w, addr, value);
    PumpDiverged(w1);
    RawWriteBehind(w, addr, value);
    PumpRests(w1);
    RestsPoised(Pump(REPLAY, w1), Pump(REPLAY, w1).fw);
  }

  lemma ConsumeRests(w: World<Replay>)
    requires Terminating(REPLAY) && Poised(w) && ConsumeOne(REPLAY, w).ctx.divergence.None?
    ensures var r := ConsumeOne(REPLAY, w);
            Rests(r.ctx, r.fw) && r.ctx.cursor > w.ctx.cursor && Poised(r)
    ensures w.ctx.divergence.None?
  {
    hide ReadRegister, WriteRegister, Rests, Vectored, AtMost, Preserves;
    DivergencePreserved();
    var w1 := w.(fw := Take(w.fw));
    var w2 := Stamp(REPLAY, w1);
    WriteKeeps(REPLAY, HasDiverged, w2, GPIO0_ODR, w2.fw.consumed);
    ReadKeeps(REPLAY, HasDiverged, w1, SYSTICK_CNT);
    ReadRests(w1, SYSTICK_CNT);
    WriteRests(w2, GPIO0_ODR, w2.fw.consumed);
  }

  lemma {:induction false} DrainRests(w: World<Replay>, n: nat)
    requires Terminating(REPLAY) && Poised(w) && n >= 1 && Drain(REPLAY, w, n).ctx.divergence.None?
    ensures var r := Drain(REPLAY, w, n);
            Rests(r.ctx, r.fw) && r.ctx.cursor > w.ctx.cursor && Poised(r)
    decreases n
  {
    hide ConsumeOne, Rests, Poised;
    if n == 1 {
      assert Drain(REPLAY, w, 0) == w;
      ConsumeRests(w);
    } else {
      var before := Drain(REPLAY, w, n - 1);
      assert before.ctx.divergence.None? by {
        hide Preserves;
        DivergencePreserved();
        ConsumeKeeps(REPLAY, HasDiverged, before);
      }
      DrainRests(w, n - 1);
      ConsumeRests(before);
    }
  }

  /** The firmware's state when the last poll of a pass finds nothing: the closing update comes after it. */
  function AtLastPoll(b: Variant, w: World<Replay>): State
    requires !w.draining
  {
    ReplayTerminates();
    if w.fw.pending == 0 then Iterate(REPLAY, b, w).fw else Drain(REPLAY, w.(draining := true), w.fw.pending).fw
  }

  lemma IterateRests(b: Variant, w: World<Replay>)
    requires Terminating(REPLAY) && !w.draining && Poised(w) && Iterate(REPLAY, b, w).ctx.divergence.None?
    ensures var r := Iterate(REPLAY, b, w);
            && Rests(r.ctx, AtLastPoll(b, w)) && r.ctx.cursor > w.ctx.cursor && Poised(r)
            && r.fw == (if w.fw.pending == 0 then AtLastPoll(b, w) else Settle(b, AtLastPoll(b, w), w.fw.pending))
  {
    hide ReadRegister, Drain, Iterate, Rests, Poised;
    IterateCases(REPLAY, b, w);
    if w.fw.pending == 0 {
      ReadRests(w, SYSTICK_CNT);
    } else {
      SamePoised(w, w.(draining := true));
      DrainRests(w.(draining := true), w.fw.pending);
      SamePoised(Drain(REPLAY, w.(draining := true), w.fw.pending), Iterate(REPLAY, b, w));
    }
  }

  lemma SamePoised(w: World<Replay>, r: World<Replay>)
    requires Poised(w) && r.ctx == w.ctx && r.mask == w.mask && r.inIsr == w.inIsr
    ensures Poised(r)
  {
  }

  // ----- the first request of a pass

  lemma PumpOnward(w: World<Replay>)
    requires Terminating(REPLAY)
    ensures Onward(w.ctx, Pump(REPLAY, w).ctx)
  {
    var inv := (s: seq<Event>, d: Replay) => Onward(w.ctx, d);
    hide Pump, Onward, Preserves;
    OnwardPreserved(w.ctx, inv);
    OnwardSelf(w.ctx);
    PumpKeeps(REPLAY, inv, w);
  }

  lemma WriteOnward(w: World<Replay>, addr: u32, value: u32)
    requires Terminating(REPLAY)
    ensures Onward(w.ctx, WriteRegister(REPLAY, w, addr, value).ctx)
  {
    var inv := (s: seq<Event>, d: Replay) => Onward(w.ctx, d);
    hide WriteRegister, Onward, Preserves;
    OnwardPreserved(w.ctx, inv);
    OnwardSelf(w.ctx);
    WriteKeeps(REPLAY, inv, w, addr, value);
  }

  lemma ConsumeOnward(w: World<Replay>)
    requires Terminating(REPLAY)
    ensures Onward(w.ctx, ConsumeOne(REPLAY, w).ctx)
  {
    var inv := (s: seq<Event>, d: Replay) => Onward(w.ctx, d);
    hide ConsumeOne, Onward, Preserves;
    OnwardPreserved(w.ctx, inv);
    OnwardSelf(w.ctx);
    ConsumeKeeps(REPLAY, inv, w);
  }

  predicate FirstIs(w: Replay, r: Replay, fw: State) {
    w.calls + [Call(w.cursor, w.now, fw)] <= r.calls
  }

  lemma ReadAsks(w: World<Replay>, addr: u32)
    requires Terminating(REPLAY)
    ensures FirstIs(w.ctx, ReadRegister(REPLAY, w, addr).0.ctx, w.fw)
  {
    var w1 := RawRead(REPLAY, w, addr).0;
    assert w1.ctx.calls == w.ctx.calls + [Call(w.ctx.cursor, w.ctx.now, w.fw)];
    hide RawRead, Pump;
    PumpOnward(w1);
  }

  lemma {:induction false} DrainAsks(w: World<Replay>, n: nat)
    requires Terminating(REPLAY) && n >= 1
    ensures FirstIs(w.ctx, Drain(REPLAY, w, n).ctx, Take(w.fw))
    decreases n
  {
    hide ReadRegister, WriteRegister;
    if n == 1 {
      var w1 := w.(fw := Take(w.fw));
      ReadAsks(w1, SYSTICK_CNT);
      var w2 := Stamp(REPLAY, w1);
      WriteOnward(w2, GPIO0_ODR, w2.fw.consumed);
      assert Drain(REPLAY, w, 0) == w;
    } else {
      DrainAsks(w, n - 1);
      ConsumeOnward(Drain(REPLAY, w, n - 1));
      hide ConsumeOne;
    }
  }

  /** What a capture at the very start of a pass sees: an idle pass reads first, a busy one takes a byte first. */
  function AtFirstRequest(s: State): State {
    if s.pending == 0 then s else Take(s)
  }

  lemma IterateAsks(b: Variant, w: World<Replay>)
    requires Terminating(REPLAY) && !w.draining
    ensures FirstIs(w.ctx, Iterate(REPLAY, b, w).ctx, AtFirstRequest(w.fw))
  {
    hide ReadRegister, Drain, Iterate;
    IterateCases(REPLAY, b, w);
    if w.fw.pending == 0 {
      ReadAsks(w, SYSTICK_CNT);
    } else {
      DrainAsks(w.(draining := true), w.fw.pending);
    }
  }

  // ----- where a checkpoint gives a different answer

  /** A complete replay: `iters` passes without divergence, of a trace with writes. */
  ghost predicate Faithful(t: Tape, iters: nat) {
    Played(t, iters).ctx.divergence.None? && t.checkWrites && Vectored(t.events)
  }

  lemma PlayedNone(t: Tape)
    ensures Played(t, 0) == Boot(Start(t.events, t.checkWrites), 0)
  {
  }

  lemma {:induction false} PlayedPoised(t: Tape, iters: nat, p: nat)
    requires Faithful(t, iters) && p <= iters
    ensures Played(t, p).ctx.divergence.None? && Poised(Played(t, p))
    decreases iters - p
  {
    hide Iterate, Played;
    PlayedNone(t);
    var w := Played(t, p);
    if p < iters {
      PlayedPoised(t, iters, p + 1);
      PlayedStep(t, p);
      DivergencePreserved();
      hide Preserves;
      IterateKeeps(REPLAY, HasDiverged, t.variant, w);
    }
    PlayedOnward(t, 0, p);
  }

  /** Every pass of such a replay serves something. */
  lemma PassAdvances(t: Tape, iters: nat, p: nat)
    requires Faithful(t, iters) && p < iters
    ensures Cursor(t, p) < Cursor(t, p + 1)
    ensures Rests(Played(t, p + 1).ctx, AtLastPoll(t.variant, Played(t, p)))
  {
    hide Iterate, Run, Faithful, Poised, Rests;
    PlayedPoised(t, iters, p);
    PlayedPoised(t, iters, p + 1);
    PlayedStep(t, p);
    IterateRests(t.variant, Played(t, p));
  }

  lemma {:induction false} FindLast(calls: seq<Call>, index: nat)
    requires calls != [] && calls[|calls| - 1].cursor == index && forall i :: 0 <= i < |calls| - 1 ==> calls[i].cursor < index
    ensures Find(calls, index) == Some(calls[|calls| - 1])
  {
    if |calls| > 1 {
      FindLast(calls[1..], index);
    }
  }

  /** Execution that meets the end of a pass captures there, before the closing update. */
  lemma CaptureAtLastPoll(t: Tape, iters: nat, p: nat)
    requires Faithful(t, iters) && p < iters
    ensures Execute(t, p, iters, Cursor(t, p + 1))
         == Snapshot(Cursor(t, p + 1), Played(t, p + 1).ctx.now, p, AtLastPoll(t.variant, Played(t, p)))
  {
    hide Iterate, Played, Faithful, Find, AtLastPoll;
    PassAdvances(t, iters, p);
    PlayedOnward(t, p, p + 1);
    hide Onward;
    var calls := Played(t, p + 1).ctx.calls;
    assert |Requests(t, p)| > 0 by {
      PassAsks(t, p);
    }
    assert Requests(t, p)[|Requests(t, p)| - 1] == calls[|calls| - 1];
    FindLast(Requests(t, p), Cursor(t, p + 1));
  }

  lemma PassAsks(t: Tape, p: nat)
    ensures Requests(t, p) != []
    ensures Requests(t, p)[0] == Call(Cursor(t, p), Played(t, p).ctx.now, AtFirstRequest(Played(t, p).fw))
  {
    hide Iterate, Run, AtFirstRequest;
    PlayedStep(t, p);
    IterateAsks(t.variant, Played(t, p));
  }

  /** Execution that begins at the target captures at the first request, before anything is served. */
  lemma CaptureAtFirstRequest(t: Tape, iters: nat, p: nat)
    requires p < iters
    ensures Execute(t, p, iters, Cursor(t, p))
         == Snapshot(Cursor(t, p), Played(t, p).ctx.now, p, AtFirstRequest(Played(t, p).fw))
  {
    hide AtFirstRequest, Played;
    PassAsks(t, p);
  }

  lemma RingCoversCounter(t: Tape, p: nat)
    ensures Played(t, p).fw.pending <= Occupancy(Played(t, p).fw)
  {
    ReplayTerminates();
    RaceAccount(REPLAY, t.variant, Start(t.events, t.checkWrites), 0, p);
    hide Run, Fifo, Occupancy;
  }

  lemma DrainKeepsCount(b: Variant, w: World<Replay>)
    requires !w.draining && 0 < w.fw.pending <= Occupancy(w.fw)
    ensures AtLastPoll(b, w).pending >= w.fw.pending
  {
    ReplayTerminates();
    DrainDrained(REPLAY, w.(draining := true), w.fw.pending);
    hide Drain, Fifo, Occupancy, Iterate;
  }

  /** A pass that drained leaves its work in the counter until the closing update. */
  lemma StillCounted(t: Tape, p: nat)
    ensures AtLastPoll(t.variant, Played(t, p)).pending >= Played(t, p).fw.pending
  {
    hide Played, AtLastPoll;
    RingCoversCounter(t, p);
    if Played(t, p).fw.pending > 0 {
      DrainKeepsCount(t.variant, Played(t, p));
    }
  }
}
