/** Whole traces through the writer: any calls, any buffer, any sink, and what reading them back gives. */
module Transcript {
  import opened Basics
  import opened Trace
  import opened Stream
  import opened TraceReading
  import opened TraceWriting
  import Codec

  // ----- which calls are taken

  /** A call on one of the four entry points for events. */
  predicate Callable(e: Event) {
    WellFormed(e) && !e.kind.Stop?
  }

  /** What a writer has taken: its events, the time of the last one, and whether it is still healthy. */
  datatype Intake = Intake(events: seq<Event>, last: nat, ok: bool)

  const OPENED := Intake([], 0, true)

  function Offer(i: Intake, e: Event, flags: u16): Intake {
    if (e.kind.MmioWrite? && flags % 2 == 0) || !i.ok then i
    else if e.ts < i.last then i.(ok := false)
    else Intake(i.events + [e], e.ts, true)
  }

  function OfferAll(i: Intake, es: seq<Event>, flags: u16): Intake {
    if es == [] then i else Offer(OfferAll(i, Front(es), flags), Last(es), flags)
  }

  lemma OfferSnoc(i: Intake, es: seq<Event>, e: Event, flags: u16)
    ensures OfferAll(i, es + [e], flags) == Offer(OfferAll(i, es, flags), e, flags)
  {
    assert Front(es + [e]) == es && Last(es + [e]) == e;
  }

  lemma {:induction false} OfferConcat(i: Intake, a: seq<Event>, b: seq<Event>, flags: u16)
    ensures OfferAll(i, a + b, flags) == OfferAll(OfferAll(i, a, flags), b, flags)
    decreases |b|
  {
    hide Offer;
    if b == [] {
      assert a + b == a;
    } else {
      assert Front(a + b) == a + Front(b) && Last(a + b) == Last(b);
      OfferConcat(i, a, Front(b), flags);
    }
  }

  /** What is taken is never EV_STOP. */
  lemma {:induction false} OffersNoStop(es: seq<Event>, flags: u16)
    requires forall e | e in es :: Callable(e)
    ensures forall e | e in OfferAll(OPENED, es, flags).events :: !e.kind.Stop?
  {
    if es != [] {
      assert forall e | e in Front(es) :: e in es;
      OffersNoStop(Front(es), flags);
      assert Last(es) in es;
    }
  }

  ghost function Taken(w: TraceWriter): Intake
    reads w
  {
    Intake(w.History(), w.lastTs, w.ok)
  }

  /** A writer in the middle of a trace. */
  ghost predicate Writing(w: TraceWriter)
    reads w, w.buf, Footprint(w.sink)
  {
    w.Valid() && w.started && !w.finished
  }

  /** One call, by the kind of the event. Before a trace and after it, nothing is taken. */
  method Feed(w: TraceWriter, e: Event)
    requires w.Valid() && Callable(e)
    modifies w, w.buf, Footprint(w.sink)
    ensures w.Valid() && w.Wiring() && Writing(w) == old(Writing(w))
    ensures Taken(w) == if old(Writing(w)) then Offer(old(Taken(w)), e, w.flags) else old(Taken(w))
    ensures old(w.Lossless()) ==> w.Lossless()
  {
    hide Sound, Frames, Books, Flatten, Wrap32, Wrap64, CountLost;
    var taken;
    match e.kind
    case MmioRead => taken := w.MmioRead(e.ts, e.addr, e.value);
    case MmioWrite => taken := w.MmioWrite(e.ts, e.addr, e.value);
    case IrqEnter => taken := w.IrqEnter(e.ts, e.addr);
    case IrqAt => taken := w.IrqEnterAt(e.ts, e.addr, e.value);
  }

  method FeedAll(w: TraceWriter, es: seq<Event>)
    requires w.Valid() && forall e | e in es :: Callable(e)
    modifies w, w.buf, Footprint(w.sink)
    ensures w.Valid() && w.Wiring() && Writing(w) == old(Writing(w))
    ensures Taken(w) == if old(Writing(w)) then OfferAll(old(Taken(w)), es, w.flags) else old(Taken(w))
    ensures old(w.Lossless()) ==> w.Lossless()
  {
    hide Callable, Offer, Sound, Frames, Books, Flatten, Wrap32, Wrap64, CountLost;
    ghost var start := Taken(w);
    for i := 0 to |es|
      invariant w.Valid() && w.Wiring() && Writing(w) == old(Writing(w))
      invariant Taken(w) == if old(Writing(w)) then OfferAll(start, es[..i], w.flags) else start
      invariant old(w.Lossless()) ==> w.Lossless()
    {
      OfferSnoc(start, es[..i], es[i], w.flags);
      assert es[..i + 1] == es[..i] + [es[i]];
      Feed(w, es[i]);
    }
    assert es[..|es|] == es;
  }

  // ----- reading back

  /**
   * What reading `data` gives of `blocks`: the events before the first lost one, and the length of
   * the lost run if a later block arrived.
   */
  predicate Delivers(data: Bytes, blocks: seq<Block>) {
    var (events, r) := ReadTrace(data);
    var j := Codec.Leading(blocks);
    var m := Codec.NextAccepted(blocks, j);
    && events == Flatten(blocks[..j]) && r.done
    && (m < |blocks| && m < TWO_32 ==> r.error == Some(GapInTrace) && r.blocksLost == m - j)
    && (m == |blocks| ==> r.error.None? && r.blocksLost == 0)
  }

  lemma DeliversAll(data: Bytes, blocks: seq<Block>)
    requires Delivers(data, blocks) && AllAccepted(blocks)
    ensures ReadTrace(data).0 == Flatten(blocks) && ReadTrace(data).1.error.None?
  {
    hide ReadTrace, Flatten;
    assert blocks[..|blocks|] == blocks;
  }

  lemma AllAcceptedVisible(blocks: seq<Block>)
    requires AllAccepted(blocks)
    ensures Codec.Visible(blocks)
  {
  }

  /** A header, the accepted frames, and the terminator or not: what a writer leaves behind reads back. */
  lemma LeftBehind(data: Bytes, h: Header, blocks: seq<Block>, terminated: bool)
    requires h.version == VERSION && Sound(blocks) && |data| < TWO_32 && Codec.Visible(blocks)
    requires data == EncodeHeader(h.flags, h.buildId, h.seed) + Frames(blocks) + (if terminated then PutU32(0) else [])
    ensures Delivers(data, blocks)
  {
    hide EncodeHeader, Frames, Sound, Codec.Visible, ReadTrace;
    Codec.LossyRead(data, h, blocks, if terminated then PutU32(0) else []);
  }

  /** Whether every call for the trace was taken, EV_STOP included. */
  predicate Complete(i: Intake, end: u64) {
    i.ok && i.last <= end
  }

  predicate HasStop(es: seq<Event>) {
    exists e :: e in es && e.kind.Stop?
  }

  /**
   * What there is to say of a finished trace in terms of the calls made for it. A writer that had to
   * refuse a call drops what was staged and never records EV_STOP: then the blocks hold a front part
   * of what was taken. EV_STOP is read exactly if no call was refused and no block was lost.
   */
  ghost predicate ReadsBack(data: Bytes, blocks: seq<Block>, i: Intake, end: u64) {
    var all := i.events + [Event(Stop, end, 0, 0)];
    && (Complete(i, end) ==> Flatten(blocks) == all)
    && (!Complete(i, end) ==> Flatten(blocks) <= i.events)
    && (|data| < TWO_32 && Codec.Visible(blocks) ==>
          && Delivers(data, blocks) && ReadTrace(data).0 <= all
          && (HasStop(ReadTrace(data).0) <==> Complete(i, end) && AllAccepted(blocks)))
    && (|data| < TWO_32 && AllAccepted(blocks) ==>
          ReadTrace(data).0 == Flatten(blocks) && ReadTrace(data).1.error.None?)
  }

  lemma NoStopBefore(es: seq<Event>, all: seq<Event>)
    requires es <= all && forall e | e in all :: !e.kind.Stop?
    ensures !HasStop(es)
  {
    forall e | e in es
      ensures e in all
    {
      var k :| 0 <= k < |es| && es[k] == e;
      assert all[k] == e;
    }
  }

  /** The part of the blocks that is delivered, with or without EV_STOP. */
  lemma DeliveredPart(data: Bytes, h: Header, blocks: seq<Block>, terminated: bool, i: Intake, end: u64)
    requires h.version == VERSION && Sound(blocks) && |data| < TWO_32 && Codec.Visible(blocks)
    requires data == EncodeHeader(h.flags, h.buildId, h.seed) + Frames(blocks) + (if terminated then PutU32(0) else [])
    requires Complete(i, end) ==> Flatten(blocks) == i.events + [Event(Stop, end, 0, 0)]
    requires !Complete(i, end) ==> Flatten(blocks) <= i.events
    requires forall e | e in i.events :: !e.kind.Stop?
    ensures ReadTrace(data).0 <= i.events + [Event(Stop, end, 0, 0)]
    ensures HasStop(ReadTrace(data).0) <==> Complete(i, end) && AllAccepted(blocks)
  {
    hide EncodeHeader, Frames, Sound, Codec.Visible, ReadTrace, Flatten, HasStop;
    LeftBehind(data, h, blocks, terminated);
    var j := Codec.Leading(blocks);
    if j < |blocks| {
      Codec.FlattenPrefix(blocks, j);
    } else {
      assert blocks[..j] == blocks;
    }
    if Complete(i, end) {
      var tail := if terminated then PutU32(0) else [];
      Codec.StopCertifiesCompleteness(data, h, blocks, i.events, Event(Stop, end, 0, 0), tail);
      StopAmong(ReadTrace(data).0);
    } else {
      NoStopBefore(ReadTrace(data).0, i.events);
    }
  }

  lemma StopAmong(es: seq<Event>)
    ensures HasStop(es) <==> exists e | e in es :: e.kind.Stop?
  {
  }

  lemma FinishedReadsBack(data: Bytes, h: Header, blocks: seq<Block>, terminated: bool, i: Intake, end: u64)
    requires h.version == VERSION && Sound(blocks)
    requires data == EncodeHeader(h.flags, h.buildId, h.seed) + Frames(blocks) + (if terminated then PutU32(0) else [])
    requires Complete(i, end) ==> Flatten(blocks) == i.events + [Event(Stop, end, 0, 0)]
    requires !Complete(i, end) ==> Flatten(blocks) <= i.events
    requires forall e | e in i.events :: !e.kind.Stop?
    ensures ReadsBack(data, blocks, i, end)
  {
    hide EncodeHeader, Frames, Sound, Codec.Visible, ReadTrace, Flatten, Delivers, HasStop;
    if |data| < TWO_32 {
      if AllAccepted(blocks) {
        AllAcceptedVisible(blocks);
      }
      if Codec.Visible(blocks) {
        LeftBehind(data, h, blocks, terminated);
        DeliveredPart(data, h, blocks, terminated, i, end);
        if AllAccepted(blocks) {
          DeliversAll(data, blocks);
        }
      }
    }
  }

  /**
   * A whole trace, whatever the buffer, the sink and the calls: once the header is through, reading
   * what the sink accepted gives the events taken before the first lost block, and EV_STOP behind
   * all of them exactly if no call was refused and no block was lost.
   */
  method Transcribe(sink: Sink, buffer: array<u8>, calls: seq<Event>, end: u64, h: Header)
    returns (ok: bool, ghost blocks: seq<Block>)
    requires sink.Consistent() && sink.out == [] && buffer != sink.store && h.version == VERSION
    requires MIN_BLOCK_BUFFER <= buffer.Length <= MAX_BLOCK_BUFFER && forall e | e in calls :: Callable(e)
    modifies buffer, Footprint(sink)
    ensures !old(sink.Takes(HEADER_SIZE)) ==> !ok && sink.out == []
    ensures old(sink.Takes(HEADER_SIZE)) ==>
              && Sound(blocks) && ReadsBack(sink.out, blocks, OfferAll(OPENED, calls, h.flags), end)
              && sink.out == EncodeHeader(h.flags, h.buildId, h.seed) + Frames(blocks) + (if ok then PutU32(0) else [])
    ensures sink.ring == null && (forall k :: sink.verdicts(k)) ==> AllAccepted(blocks)
    ensures sink.ring == null && (forall k :: sink.verdicts(k)) ==>
              var i := OfferAll(OPENED, calls, h.flags);
              Complete(i, end) ==> ok
  {
    hide Callable, Offer, OfferAll, EncodeHeader, PutU32, Sound, Frames, Books, Flatten, Wrap32, Wrap64, CountLost, ReadsBack;
    var w := new TraceWriter();
    ok := w.Begin(sink, buffer, h.buildId, h.seed, h.flags);
    if !ok {
      return false, [];
    }
    Nothing(EncodeHeader(h.flags, h.buildId, h.seed));
    assert Taken(w) == OPENED;
    FeedAll(w, calls);
    ghost var i := Taken(w);
    OffersNoStop(calls, h.flags);
    ok := w.Finish(end);
    blocks := w.blocks;
    FinishedReadsBack(sink.out, h, blocks, ok, i, end);
  }

  lemma Nothing(s: Bytes)
    ensures [] + s == s
  {
  }
}
