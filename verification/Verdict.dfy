/**
 * When a replay diverges, and on what: the verdict is a function of what the firmware did and of
 * the trace, and a replay that did not diverge did what the trace says, event for event.
 */
module Verdicts {
  import opened Basics
  import opened Trace
  import opened Stream
  import opened RxPump
  import opened Replaying
  import opened Session
  import opened Timelines

  /** What of a run is held against the trace: without recorded writes, its inputs alone. */
  function Heard(s: seq<Event>, checkWrites: bool): seq<Event> {
    if checkWrites then s else Inputs(s)
  }

  /** What crossed the shim is what the trace says; an interrupt with a return address is served like any other. */
  predicate Matches(e: Event, t: Event) {
    && e.ts == t.ts && e.addr == t.addr
    && (if t.kind.IsIrq() then e.kind.IrqEnter? else e.kind == t.kind && e.value == t.value)
  }

  /** What there is to object to in `e` as number `i` of a run, if anything. */
  function Objection(e: Event, events: seq<Event>, i: nat): Option<Divergence> {
    if i >= |events| then Some(PastTheEnd)
    else if events[i].kind.Stop? then Some(AfterStop)
    else if e.kind.IrqEnter? != events[i].kind.IsIrq() then Some(WrongEvent)
    else if e.kind.MmioRead? && !events[i].kind.MmioRead? then Some(WrongEvent)
    else if e.kind.MmioWrite? && !events[i].kind.MmioWrite? then Some(WrongEvent)
    else if e.kind.MmioRead? && e.addr != events[i].addr then Some(WrongAddress)
    else if e.kind.MmioWrite? && (e.addr != events[i].addr || e.value != events[i].value) then Some(WrongValue)
    else None
  }

  /** The objection to the first event that has one. */
  function FirstObjection(s: seq<Event>, events: seq<Event>): Option<Divergence> {
    if s == [] then None
    else if FirstObjection(Front(s), events).Some? then FirstObjection(Front(s), events)
    else Objection(Last(s), events, |s| - 1)
  }

  lemma ObjectionSnoc(s: seq<Event>, e: Event, events: seq<Event>)
    ensures FirstObjection(s + [e], events)
         == if FirstObjection(s, events).Some? then FirstObjection(s, events) else Objection(e, events, |s|)
  {
    assert Front(s + [e]) == s && Last(s + [e]) == e;
  }

  lemma {:induction false} FirstStays(a: seq<Event>, b: seq<Event>, events: seq<Event>)
    requires a <= b && FirstObjection(a, events).Some?
    ensures FirstObjection(b, events) == FirstObjection(a, events)
    decreases |b|
  {
    if a != b {
      FirstStays(a, Front(b), events);
    }
  }

  /**
   * The backend's divergence is the first objection to what it heard. There is none exactly if each
   * request consumed an event; then each matches the one it consumed.
   */
  ghost predicate Judged(s: seq<Event>, d: Replay) {
    var heard := Heard(s, d.checkWrites);
    && Vectored(d.events) && d.divergence == FirstObjection(heard, d.events)
    && d.cursor <= |heard| && d.cursor <= |d.events| && (d.divergence.None? <==> d.cursor == |heard|)
    && (d.divergence.None? ==> forall i :: 0 <= i < |heard| ==> Matches(heard[i], d.events[i]))
  }

  lemma HeardSnoc(s: seq<Event>, e: Event, checkWrites: bool)
    ensures Heard(s + [e], checkWrites)
         == Heard(s, checkWrites) + (if e.kind.MmioWrite? && !checkWrites then [] else [e])
  {
    InputsSnoc(s, e);
    assert Inputs(s) + [] == Inputs(s);
  }

  /** A request that is held against the trace. */
  lemma JudgedRequest(s: seq<Event>, d: Replay, e: Event, r: Replay)
    requires Judged(s, d) && (e.kind.MmioWrite? ==> d.checkWrites) && r.events == d.events && r.checkWrites == d.checkWrites
    requires d.cursor <= r.cursor <= d.cursor + 1 && r.cursor <= |d.events|
    requires d.divergence.Some? ==> r.divergence == d.divergence
    requires d.divergence.None? ==> r.divergence == Objection(e, d.events, d.cursor)
    requires d.divergence.None? ==> (r.divergence.None? <==> r.cursor == d.cursor + 1)
    requires r.divergence.None? ==> Matches(e, d.events[d.cursor])
    ensures Judged(s + [e], r)
  {
    HeardSnoc(s, e, d.checkWrites);
    ObjectionSnoc(Heard(s, d.checkWrites), e, d.events);
    hide Objection, Heard, FirstObjection, Matches, Vectored;
  }

  lemma JudgedPreserved()
    ensures Preserves(REPLAY, Judged)
  {
    assert forall s, d :: Judged(s, d) ==> Vectored(d.events) && d.cursor <= |d.events|;
    forall s, d, fw, a, v {:trigger Judged(s, d), REPLAY.write(d, fw, a, v)} | Judged(s, d)
      ensures Judged(s + [WriteEvent(REPLAY, d, fw, a, v)], REPLAY.write(d, fw, a, v))
    {
      JudgedWrite(s, d, fw, a, v);
    }
    hide Judged, Matches, Objection;
    forall s, d, fw, a {:trigger Judged(s, d), REPLAY.read(d, fw, a)} | Judged(s, d)
      ensures Judged(s + [ReadEvent(REPLAY, d, fw, a)], REPLAY.read(d, fw, a).0)
    {
      JudgedRead(s, d, fw, a);
    }
    forall s, d, fw {:trigger Judged(s, d), REPLAY.poll(d, fw)} | Judged(s, d)
      ensures Judged(s + PollEvents(REPLAY, d, fw), REPLAY.poll(d, fw).0)
    {
      JudgedPoll(s, d, fw);
    }
  }

  lemma JudgedRead(s: seq<Event>, d: Replay, fw: State, a: u32)
    requires Judged(s, d)
    ensures Judged(s + [ReadEvent(REPLAY, d, fw, a)], REPLAY.read(d, fw, a).0)
  {
    hide Heard, FirstObjection;
    JudgedRequest(s, d, ReadEvent(REPLAY, d, fw, a), REPLAY.read(d, fw, a).0);
  }

  lemma JudgedWrite(s: seq<Event>, d: Replay, fw: State, a: u32, v: u32)
    requires Judged(s, d)
    ensures Judged(s + [WriteEvent(REPLAY, d, fw, a, v)], REPLAY.write(d, fw, a, v))
  {
    hide FirstObjection;
    if d.checkWrites {
      JudgedRequest(s, d, WriteEvent(REPLAY, d, fw, a, v), REPLAY.write(d, fw, a, v));
    } else {
      HeardSnoc(s, WriteEvent(REPLAY, d, fw, a, v), false);
      assert Heard(s, false) + [] == Heard(s, false);
    }
  }

  lemma JudgedPoll(s: seq<Event>, d: Replay, fw: State)
    requires Judged(s, d)
    ensures Judged(s + PollEvents(REPLAY, d, fw), REPLAY.poll(d, fw).0)
  {
    hide Heard, FirstObjection;
    if REPLAY.poll(d, fw).1 == NO_IRQ {
      assert s + PollEvents(REPLAY, d, fw) == s;
    } else {
      JudgedRequest(s, d, PollEvents(REPLAY, d, fw)[0], REPLAY.poll(d, fw).0);
    }
  }

  /** Any trace, either build, at any pass: whether and why the replay has diverged, and what it did if not. */
  lemma PlayedJudged(t: Tape, p: nat)
    requires Vectored(t.events)
    ensures Played(t, p).ctx.events == t.events && Played(t, p).ctx.checkWrites == t.checkWrites
    ensures Judged(Played(t, p).seen, Played(t, p).ctx)
  {
    ReplayTerminates();
    JudgedPreserved();
    TapeStays(t, p);
    hide Run, Preserves;
    RunKeeps(REPLAY, Judged, t.variant, Boot(Start(t.events, t.checkWrites), 0), p);
  }

  lemma TapeStays(t: Tape, p: nat)
    ensures Played(t, p).ctx.events == t.events && Played(t, p).ctx.checkWrites == t.checkWrites
  {
    hide Run, AskedAt;
    PlayedOnward(t, 0, p);
    PlayedNone(t);
    assert Played(t, 0).ctx.events == t.events;
  }

  /**
   * In particular: a replay has diverged exactly if some request of the firmware's went unanswered;
   * otherwise it did, and was told, what the trace says up to its cursor.
   */
  lemma Undiverged(t: Tape, p: nat)
    requires Vectored(t.events)
    ensures var w := Played(t, p);
            var heard := Heard(w.seen, t.checkWrites);
            && (w.ctx.divergence.None? <==> w.ctx.cursor == |heard|)
            && (w.ctx.divergence.None? ==>
                  |heard| <= |t.events| && forall i :: 0 <= i < |heard| ==> Matches(heard[i], t.events[i]))
  {
    hide Played, Matches;
    PlayedJudged(t, p);
  }

  // ----- where the trace has no read for the next pass

  lemma {:induction false} PlayedGrows(t: Tape, p: nat, q: nat)
    requires p <= q
    ensures Played(t, p).seen <= Played(t, q).seen
    decreases q
  {
    hide Played, Iterate;
    if p < q {
      PlayedGrows(t, p, q - 1);
      PlayedStep(t, q - 1);
    }
  }

  /** A replay that has not diverged and finds no read at its cursor diverges in the next pass, over that, for good. */
  lemma NoReadNext(t: Tape, p: nat, q: nat)
    requires Vectored(t.events) && p < q && Played(t, p).ctx.divergence.None?
    requires var c := Cursor(t, p);
             c < |t.events| ==> !t.events[c].kind.MmioRead?
    ensures var c := Cursor(t, p);
            Played(t, q).ctx.divergence
            == Some(if c >= |t.events| then PastTheEnd else if t.events[c].kind.Stop? then AfterStop else WrongEvent)
  {
    hide Played, Iterate, Matches, Vectored;
    PlayedJudged(t, p);
    PlayedJudged(t, q);
    PlayedStep(t, p);
    PassStartsWithRead(REPLAY, t.variant, Played(t, p));
    PlayedGrows(t, p + 1, q);
    var before, all := Played(t, p).seen, Played(t, q).seen;
    var e := all[|before|];
    assert before + [e] <= all;
    HeardSnoc(before, e, t.checkWrites);
    InputsPrefix(before + [e], all);
    ObjectionSnoc(Heard(before, t.checkWrites), e, t.events);
    FirstStays(Heard(before + [e], t.checkWrites), Heard(all, t.checkWrites), t.events);
  }

  // ----- nothing is made up, and nothing held back

  /** Some event of the trace that `e` may have been answered with. */
  predicate FoundIn(e: Event, events: seq<Event>) {
    exists j :: 0 <= j < |events| && e.addr == events[j].addr
             && if e.kind.MmioRead? then events[j].kind.MmioRead? && e.value == events[j].value else events[j].kind.IsIrq()
  }

  /** Every read was answered out of the trace, or with zero; every interrupt taken is in the trace. */
  ghost predicate Founded(s: seq<Event>, d: Replay) {
    forall e | e in s ::
      && (e.kind.MmioRead? ==> e.value == 0 || FoundIn(e, d.events))
      && (e.kind.IrqEnter? ==> FoundIn(e, d.events))
  }

  lemma FoundedSnoc(s: seq<Event>, d: Replay, e: Event, r: Replay)
    requires Founded(s, d) && r.events == d.events
    requires (e.kind.MmioRead? && e.value == 0) || e.kind.MmioWrite? || FoundIn(e, d.events)
    ensures Founded(s + [e], r)
  {
    hide FoundIn;
  }

  lemma FoundedPreserved()
    ensures Preserves(REPLAY, Founded)
  {
    hide Founded;
    forall s, d, fw, a {:trigger Founded(s, d), REPLAY.read(d, fw, a)} | Founded(s, d)
      ensures Founded(s + [ReadEvent(REPLAY, d, fw, a)], REPLAY.read(d, fw, a).0)
    {
      FoundedSnoc(s, d, ReadEvent(REPLAY, d, fw, a), REPLAY.read(d, fw, a).0);
    }
    forall s, d, fw, a, v {:trigger Founded(s, d), REPLAY.write(d, fw, a, v)} | Founded(s, d)
      ensures Founded(s + [WriteEvent(REPLAY, d, fw, a, v)], REPLAY.write(d, fw, a, v))
    {
      FoundedSnoc(s, d, WriteEvent(REPLAY, d, fw, a, v), REPLAY.write(d, fw, a, v));
    }
    forall s, d, fw {:trigger Founded(s, d), REPLAY.poll(d, fw)} | Founded(s, d)
      ensures Founded(s + PollEvents(REPLAY, d, fw), REPLAY.poll(d, fw).0)
    {
      FoundedPoll(s, d, fw);
    }
  }

  lemma FoundedPoll(s: seq<Event>, d: Replay, fw: State)
    requires Founded(s, d)
    ensures Founded(s + PollEvents(REPLAY, d, fw), REPLAY.poll(d, fw).0)
  {
    if REPLAY.poll(d, fw).1 == NO_IRQ {
      assert s + PollEvents(REPLAY, d, fw) == s;
    } else {
      FoundedSnoc(s, d, PollEvents(REPLAY, d, fw)[0], REPLAY.poll(d, fw).0);
    }
  }

  /** A replay makes nothing up, not even after it has diverged. */
  lemma PlayedFounded(t: Tape, p: nat, e: Event)
    requires e in Played(t, p).seen
    ensures e.kind.MmioRead? ==> e.value == 0 || FoundIn(e, t.events)
    ensures e.kind.IrqEnter? ==> FoundIn(e, t.events)
  {
    ReplayTerminates();
    FoundedPreserved();
    TapeStays(t, p);
    hide Run, Preserves, FoundIn;
    RunKeeps(REPLAY, Founded, t.variant, Boot(Start(t.events, t.checkWrites), 0), p);
  }

  /** The trace does not go on with an interrupt, of either kind. */
  predicate NoneDue(d: Replay) {
    d.cursor < |d.events| ==> !d.events[d.cursor].kind.IsIrq()
  }

  lemma {:induction false} WindowServesAll(w: World<Replay>)
    requires Terminating(REPLAY) && Vectored(w.ctx.events)
    ensures NoneDue(PumpLoop(REPLAY, w).ctx)
    decreases REPLAY.rank(w.ctx, w.fw)
  {
    hide Isr;
    var (d, vector) := REPLAY.poll(w.ctx, w.fw);
    if vector != NO_IRQ {
      var w1 := EnterIrq(REPLAY, w, d, vector);
      if vector == IRQ_UART_RX {
        HandlerKeepsTape(w1);
        WindowServesAll(Isr(REPLAY, w1));
      } else {
        WindowServesAll(w1);
      }
    }
  }

  lemma HandlerKeepsTape(w: World<Replay>)
    requires Terminating(REPLAY)
    ensures Isr(REPLAY, w).ctx.events == w.ctx.events
  {
  }

  lemma AccessServesAll(w: World<Replay>)
    requires Terminating(REPLAY) && Vectored(w.ctx.events) && w.mask == 0 && !w.inIsr
    ensures NoneDue(Pump(REPLAY, w).ctx)
  {
    hide PumpLoop;
    WindowServesAll(w.(inIsr := true));
  }

  lemma ReadServesAll(w: World<Replay>, addr: u32)
    requires Terminating(REPLAY) && Vectored(w.ctx.events) && w.mask == 0 && !w.inIsr
    ensures NoneDue(ReadRegister(REPLAY, w, addr).0.ctx)
  {
    hide Pump;
    AccessServesAll(RawRead(REPLAY, w, addr).0);
  }

  lemma ConsumeServesAll(w: World<Replay>)
    requires Terminating(REPLAY) && Vectored(w.ctx.events) && w.mask == 0 && !w.inIsr
    ensures NoneDue(ConsumeOne(REPLAY, w).ctx)
  {
    hide Pump, Onward;
    var w1 := Stamp(REPLAY, w.(fw := Take(w.fw)));
    var inv := (s: seq<Event>, d: Replay) => Onward(w.ctx, d);
    OnwardPreserved(w.ctx, inv);
    OnwardSelf(w.ctx);
    hide Preserves;
    ReadKeeps(REPLAY, inv, w.(fw := Take(w.fw)), SYSTICK_CNT);
    OnwardTape(w.ctx, w1.ctx);
    AccessServesAll(RawWrite(REPLAY, w1, GPIO0_ODR, w1.fw.consumed));
  }

  lemma OnwardTape(d0: Replay, d: Replay)
    requires Onward(d0, d)
    ensures d.events == d0.events
  {
  }

  lemma DrainServesAll(w: World<Replay>, n: nat)
    requires Terminating(REPLAY) && Vectored(w.ctx.events) && w.mask == 0 && !w.inIsr && n >= 1
    ensures NoneDue(Drain(REPLAY, w, n).ctx)
  {
    hide ConsumeOne, Preserves, Onward;
    var before := Drain(REPLAY, w, n - 1);
    var inv := (s: seq<Event>, d: Replay) => Onward(w.ctx, d);
    OnwardPreserved(w.ctx, inv);
    OnwardSelf(w.ctx);
    DrainKeeps(REPLAY, inv, w, n - 1);
    OnwardTape(w.ctx, before.ctx);
    ConsumeServesAll(before);
  }

  /** No recorded interrupt is held back: between passes the trace never goes on with one. */
  lemma NoneHeldBack(t: Tape, p: nat)
    requires Vectored(t.events) && p > 0
    ensures NoneDue(Played(t, p).ctx)
  {
    hide Played, Iterate, ReadRegister, Drain, NoneDue, Vectored;
    PlayedStep(t, p - 1);
    TapeStays(t, p - 1);
    var w := Played(t, p - 1);
    IterateCases(REPLAY, t.variant, w);
    if w.fw.pending == 0 {
      ReadServesAll(w, SYSTICK_CNT);
    } else {
      DrainServesAll(w.(draining := true), w.fw.pending);
    }
  }
}
