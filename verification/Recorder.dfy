/** The recorder of a device: a writer whose sink is a ring, and a ring drained into a transport. */
module Pipeline {
  import opened Basics
  import opened Trace
  import opened Stream
  import opened TraceReading
  import opened TraceWriting
  import opened Ring
  import opened Transcript
  import Codec

  /** A transport that takes what it likes of each chunk; `takes` is arbitrary, even larger than offered. */
  class Link {
    const takes: nat -> u32
    var calls: nat
    var received: Bytes

    constructor (takes: nat -> u32)
      ensures this.takes == takes && calls == 0 && received == []
    {
      this.takes := takes;
      calls := 0;
      received := [];
    }

    method Send(chunk: Bytes) returns (taken: u32)
      modifies this
      ensures taken == takes(old(calls)) && calls == old(calls) + 1
      ensures received == old(received) + chunk[..Min(taken, |chunk|)]
    {
      taken := takes(calls);
      calls := calls + 1;
      received := received + chunk[..Min(taken, |chunk|)];
    }
  }

  /** One chunk: what is readable in one piece, as far as the limit and the link allow. */
  method MoveChunk(ring: RingBuffer, link: Link, limit: nat) returns (moved: nat)
    requires ring.Valid() && limit < TWO_32
    modifies ring`tail, ring`popped, link
    ensures ring.Valid() && moved <= limit && moved <= |old(ring.Contents())|
    ensures ring.Contents() == old(ring.Contents())[moved..]
    ensures link.received == old(link.received) + old(ring.Contents())[..moved]
    ensures moved == 0 ==> ring.store == null || ring.Contents() == [] || limit == 0 || link.takes(old(link.calls)) == 0
    ensures ring.store == null ==> moved == 0
  {
    hide Holds, PowerOfTwo, Contiguous, Wrap32, Distance;
    var chunk := ring.Peek();
    if chunk == [] {
      return 0;
    }
    ring.UsedIsLength();
    var avail := Min(|chunk|, limit);
    var taken := link.Send(chunk[..avail]);
    moved := Min(taken, avail);
    assert chunk[..avail][..moved] == ring.Contents()[..moved];
    var released := ring.Consume(moved);
  }

  /** Moves up to `maxBytes` from the ring to the link, in order and without loss. */
  method Drain(ring: RingBuffer, link: Link?, maxBytes: u32) returns (sent: nat)
    requires ring.Valid()
    modifies ring`tail, ring`popped, link
    ensures ring.Valid() && sent <= maxBytes && sent <= |old(ring.Contents())|
    ensures ring.Contents() == old(ring.Contents())[sent..]
    ensures link != null ==> link.received == old(link.received) + old(ring.Contents())[..sent]
    ensures link == null || ring.store == null ==> sent == 0
    ensures sent == 0 && link != null && ring.store != null && maxBytes > 0 && (forall k :: link.takes(k) > 0) ==> ring.Contents() == []
  {
    sent := 0;
    if link == null {
      return;
    }
    ghost var all, before := ring.Contents(), link.received;
    hide Holds, PowerOfTwo, Wrap32;
    while sent < maxBytes
      invariant ring.Valid() && sent <= maxBytes && sent <= |all|
      invariant ring.Contents() == all[sent..] && link.received == before + all[..sent]
      invariant ring.store == null ==> sent == 0
      decreases maxBytes - sent
    {
      var moved := MoveChunk(ring, link, maxBytes - sent);
      if moved == 0 {
        break;
      }
      Rejoin(all, sent, moved);
      sent := sent + moved;
    }
  }

  lemma Rejoin(all: Bytes, sent: nat, moved: nat)
    requires sent + moved <= |all|
    ensures all[..sent] + all[sent..][..moved] == all[..sent + moved]
    ensures all[sent..][moved..] == all[sent + moved..]
  {
  }

  /** A drain leaves the writer on the ring as it was. */
  method DrainUnder(w: TraceWriter, ring: RingBuffer, link: Link?, maxBytes: u32) returns (sent: nat)
    requires ring.Valid() && w.Valid() && (w.started ==> w.sink != null && w.sink.ring == ring)
    modifies ring`tail, ring`popped, link
    ensures ring.Valid() && w.Valid() && sent <= maxBytes && sent <= |old(ring.Contents())|
    ensures ring.Contents() == old(ring.Contents())[sent..] && ring.popped == old(ring.popped) + sent <= |ring.pushed|
    ensures link != null ==> link.received == old(link.received) + old(ring.Contents())[..sent]
    ensures sent == 0 && link != null && ring.store != null && maxBytes > 0 && (forall k :: link.takes(k) > 0) ==> ring.Contents() == []
  {
    hide Sound, Books, Frames, Flatten, Wrap32, Wrap64, CountLost, Holds, PowerOfTwo;
    sent := Drain(ring, link, maxBytes);
    assert |ring.Contents()| == |old(ring.Contents())| - sent;
  }

  // ----- the recorder

  class Recorder {
    const ring: RingBuffer
    const writer: TraceWriter
    var started: bool

    /** Every byte handed to a transport so far. */
    ghost var drained: Bytes

    ghost predicate Valid()
      reads this, ring, ring.store, writer, writer.buf, Footprint(writer.sink)
    {
      && ring.Valid() && writer.Valid()
      && (writer.started ==> writer.sink != null && writer.sink.ring == ring && writer.base == 0)
      && (!writer.started ==> writer.sink == null && ring.pushed == [])
      && (writer.started && writer.ok && AllAccepted(writer.blocks) ==> ring.drops == 0)
      && drained == ring.pushed[..ring.popped]
    }

    /** Every byte on its way or gone, in order. */
    ghost function Carried(): Bytes
      reads this, ring
      requires ring.popped <= |ring.pushed|
    {
      drained + ring.Contents()
    }

    constructor ()
      ensures Valid() && !writer.started && drained == [] && fresh(ring) && fresh(writer)
    {
      ring := new RingBuffer();
      writer := new TraceWriter();
      started := false;
      drained := [];
    }

    /** Sets up the ring and then the writer on it; the header is the first thing pushed. */
    method Begin(storage: array?<u8>, capacity: u32, block: array?<u8>, buildId: u64, seed: u64, flags: u16)
      returns (ok: bool)
      requires Valid() && !writer.started && drained == []
      requires storage != null ==> capacity <= storage.Length && block != storage
      requires block != null ==> block.Length <= MAX_BLOCK_BUFFER
      modifies ring, writer, storage
      ensures Valid() && drained == []
      ensures ok <==> (storage != null && HEADER_SIZE <= capacity <= MAX_CAPACITY && PowerOfTwo(capacity)
                       && block != null && MIN_BLOCK_BUFFER <= block.Length)
      ensures ok ==> Writing(writer) && Taken(writer) == OPENED && writer.flags == flags && ring.cap == capacity
      ensures ok ==> writer.prefix == EncodeHeader(flags, buildId, seed) && writer.buf == block && ring.store == storage
      ensures ok ==> fresh(writer.sink)
    {
      hide EncodeHeader, Sound, Books, Frames, Flatten, Wrap32, Wrap64, CountLost, PowerOfTwo;
      Capacities(capacity);
      ok := ring.Init(storage, capacity);
      if !ok {
        return;
      }
      var sink := new Sink.Into(ring);
      ok := writer.Begin(sink, block, buildId, seed, flags);
      Nothing(EncodeHeader(flags, buildId, seed));
    }

    /** A call of the firmware on the writer. */
    method Note(e: Event)
      requires Valid() && Callable(e)
      modifies writer, writer.buf, Footprint(writer.sink)
      ensures Valid() && writer.Wiring() && Writing(writer) == old(Writing(writer))
      ensures Taken(writer) == if old(Writing(writer)) then Offer(old(Taken(writer)), e, writer.flags) else old(Taken(writer))
    {
      hide Callable, Offer, Sound, Books, Frames, Flatten, Wrap32, Wrap64, CountLost, PowerOfTwo;
      Feed(writer, e);
      SamePrefix(old(ring.pushed), ring.pushed, ring.popped);
    }

    method NoteAll(es: seq<Event>)
      requires Valid() && forall e | e in es :: Callable(e)
      modifies writer, writer.buf, Footprint(writer.sink)
      ensures Valid() && writer.Wiring() && Writing(writer) == old(Writing(writer))
      ensures Taken(writer) == if old(Writing(writer)) then OfferAll(old(Taken(writer)), es, writer.flags) else old(Taken(writer))
    {
      hide Callable, Offer, Sound, Books, Frames, Flatten, Wrap32, Wrap64, CountLost, PowerOfTwo;
      FeedAll(writer, es);
      SamePrefix(old(ring.pushed), ring.pushed, ring.popped);
    }

    /** Passes up to `maxBytes` on; what the writer did is not affected. */
    method DrainInto(link: Link?, maxBytes: u32) returns (sent: nat)
      requires Valid()
      modifies this`drained, ring`tail, ring`popped, link
      ensures Valid() && Carried() == old(Carried()) && sent <= maxBytes
      ensures sent <= |old(ring.Contents())| && drained == old(drained) + old(ring.Contents())[..sent]
      ensures ring.Contents() == old(ring.Contents())[sent..]
      ensures link != null ==> link.received == old(link.received) + old(ring.Contents())[..sent]
      ensures sent == 0 && link != null && ring.store != null && maxBytes > 0 && (forall k :: link.takes(k) > 0) ==> ring.Contents() == []
    {
      AllCarried();
      hide RingBuffer.Valid, TraceWriter.Valid, Frames, AllAccepted, Carried;
      ghost var all, before, front := ring.pushed, ring.popped, ring.Contents();
      assert drained == all[..before] && front == all[before..];
      hide RingBuffer.Contents;
      sent := DrainUnder(writer, ring, link, maxBytes);
      FrontMoves(all, before, sent, front);
      MarkDrained(front[..sent]);
      AllCarried();
    }

    method MarkDrained(ghost bytes: Bytes)
      requires ring.Valid() && writer.Valid() && ring.popped <= |ring.pushed|
      requires writer.started ==> writer.sink != null && writer.sink.ring == ring && writer.base == 0
      requires !writer.started ==> writer.sink == null && ring.pushed == []
      requires writer.started && writer.ok && AllAccepted(writer.blocks) ==> ring.drops == 0
      requires drained + bytes == ring.pushed[..ring.popped]
      modifies this`drained
      ensures Valid() && drained == old(drained) + bytes
    {
      hide Sound, Books, Frames, Flatten, Wrap32, Wrap64, CountLost, PowerOfTwo, Holds, AllAccepted;
      drained := drained + bytes;
    }

    /** Ends the trace. Nothing is drained here. */
    method Stop(ts: u64) returns (ok: bool)
      requires Valid()
      modifies this`started, writer, writer.buf, Footprint(writer.sink)
      ensures Valid() && !Writing(writer) && writer.Wiring() && drained == old(drained)
      ensures !old(Writing(writer)) ==> !ok && Taken(writer) == old(Taken(writer)) && Carried() == old(Carried())
      ensures old(Writing(writer)) ==>
                && ok == writer.ok && Sound(writer.blocks)
                && Carried() == writer.prefix + Frames(writer.blocks) + (if ok then PutU32(0) else [])
      ensures var i := old(Taken(writer));
              old(Writing(writer)) ==>
                if Complete(i, ts) then Flatten(writer.blocks) == i.events + [Event(Kind.Stop, ts, 0, 0)]
                else !ok && Flatten(writer.blocks) <= i.events
    {
      hide Sound, Books, Frames, Flatten, Wrap32, Wrap64, CountLost, PowerOfTwo, PutU32;
      ok := writer.Finish(ts);
      started := false;
      SamePrefix(old(ring.pushed), ring.pushed, ring.popped);
      AllCarried();
    }

    /** No block was lost, and neither header nor terminator was refused. */
    method Healthy() returns (healthy: bool)
      requires Valid()
      ensures healthy ==> writer.ok && ring.drops == 0
      ensures writer.started && |writer.blocks| < TWO_32 ==> (healthy <==> writer.ok && AllAccepted(writer.blocks))
    {
      hide Sound, Books, Frames, Flatten, PowerOfTwo, Holds;
      healthy := writer.ok && writer.blocksLost == 0 && ring.drops == 0;
      NoneLost(writer.blocks);
    }

    /** Nothing is lost between the writer and the end of the link, whatever was refused or still waits. */
    lemma AllCarried()
      requires Valid()
      ensures Carried() == ring.pushed
      ensures writer.started ==> Carried() == writer.sink.out && writer.bytes == Wrap64(|drained| + |ring.Contents()|)
      ensures Writing(writer) ==> Carried() == writer.prefix + Frames(writer.blocks)
    {
      hide Sound, Books, Frames, Flatten, Wrap32, Wrap64, CountLost, PowerOfTwo, Holds;
      assert ring.pushed == ring.pushed[..ring.popped] + ring.pushed[ring.popped..];
    }
  }

  /** A front part of the queue changes sides. */
  lemma FrontMoves(all: Bytes, before: nat, sent: nat, front: Bytes)
    requires before + sent <= |all| && front == all[before..]
    ensures all[..before] + front[..sent] == all[..before + sent]
  {
  }

  /** What calls and drains leave as it was. */
  twostate predicate Wired(r: Recorder)
    reads r.ring, r.writer
  {
    && r.writer.buf == old(r.writer.buf) && r.writer.sink == old(r.writer.sink) && r.ring.store == old(r.ring.store)
    && r.writer.prefix == old(r.writer.prefix) && r.writer.flags == old(r.writer.flags)
  }

  lemma SamePrefix(a: Bytes, b: Bytes, n: nat)
    requires a <= b && n <= |a|
    ensures b[..n] == a[..n]
  {
  }

  lemma {:induction false} NoneLost(blocks: seq<Block>)
    ensures CountLost(blocks) <= |blocks| && (CountLost(blocks) == 0 <==> AllAccepted(blocks))
  {
    if blocks != [] {
      NoneLost(Front(blocks));
    }
  }

  // ----- any schedule

  /** What a program with a recorder does: calls on the writer, and now and then a drain. */
  datatype Step = Call(event: Event) | Move(budget: u32)

  function Calls(schedule: seq<Step>): seq<Event> {
    if schedule == [] then []
    else Calls(Front(schedule)) + (match Last(schedule) case Call(e) => [e] case Move(_) => [])
  }

  lemma CallsSnoc(schedule: seq<Step>, s: Step)
    ensures Calls(schedule + [s]) == Calls(schedule) + (match s case Call(e) => [e] case Move(_) => [])
  {
    assert Front(schedule + [s]) == schedule && Last(schedule + [s]) == s;
  }

  lemma {:induction false} CallsCallable(schedule: seq<Step>)
    requires forall s | s in schedule :: s.Call? ==> Callable(s.event)
    ensures forall e | e in Calls(schedule) :: Callable(e)
  {
    hide Callable;
    if schedule != [] {
      assert forall s | s in Front(schedule) :: s in schedule;
      CallsCallable(Front(schedule));
      assert Last(schedule) in schedule;
    }
  }

  /**
   * Conservation along the whole path, for every schedule of calls and drains and every transport:
   * what the link received and what still waits in the ring are the header and the accepted frames,
   * whole and in order, then the terminator if it was accepted. The writer counts exactly these
   * bytes, and reading them gives what `Transcribe` promises of any sink.
   */
  method Session(r: Recorder, link: Link, schedule: seq<Step>, end: u64, ghost h: Header) returns (ok: bool)
    requires r.Valid() && Writing(r.writer) && Taken(r.writer) == OPENED && r.drained == [] && link.received == []
    requires r.writer.prefix == EncodeHeader(h.flags, h.buildId, h.seed) && r.writer.flags == h.flags && h.version == VERSION
    requires forall s | s in schedule :: s.Call? ==> Callable(s.event)
    modifies r, r.ring`tail, r.ring`popped, r.writer, r.writer.buf, Footprint(r.writer.sink), link
    ensures r.Valid() && Sound(r.writer.blocks)
    ensures link.received + r.ring.Contents()
         == EncodeHeader(h.flags, h.buildId, h.seed) + Frames(r.writer.blocks) + (if ok then PutU32(0) else [])
    ensures r.writer.bytes == Wrap64(|link.received| + |r.ring.Contents()|)
    ensures ReadsBack(link.received + r.ring.Contents(), r.writer.blocks, OfferAll(OPENED, Calls(schedule), h.flags), end)
  {
    hide Callable, Offer, OfferAll, EncodeHeader, PutU32, Sound, Frames, Books, Flatten, Wrap32, Wrap64, CountLost, ReadsBack, PowerOfTwo;
    Act(r, link, schedule, h.flags);
    ghost var i := Taken(r.writer);
    CallsCallable(schedule);
    OffersNoStop(Calls(schedule), h.flags);
    ok := r.Stop(end);
    FinishedReadsBack(r.Carried(), h, r.writer.blocks, ok, i, end);
    r.AllCarried();
  }

  method Act(r: Recorder, link: Link, schedule: seq<Step>, ghost flags: u16)
    requires r.Valid() && Writing(r.writer) && Taken(r.writer) == OPENED && r.drained == link.received
    requires r.writer.flags == flags && forall s | s in schedule :: s.Call? ==> Callable(s.event)
    modifies r`drained, r.ring`tail, r.ring`popped, r.writer, r.writer.buf, Footprint(r.writer.sink), link
    ensures r.Valid() && Writing(r.writer) && r.drained == link.received
    ensures Taken(r.writer) == OfferAll(OPENED, Calls(schedule), flags)
    ensures Wired(r)
  {
    hide Callable, Offer, OfferAll, Sound, Frames, Books, Flatten, Wrap32, Wrap64, CountLost, PowerOfTwo, Calls;
    NoCalls(flags);
    for i := 0 to |schedule|
      invariant r.Valid() && Writing(r.writer) && r.drained == link.received
      invariant Taken(r.writer) == OfferAll(OPENED, Calls(schedule[..i]), flags)
      invariant Wired(r)
    {
      CallsSnoc(schedule[..i], schedule[i]);
      assert schedule[..i + 1] == schedule[..i] + [schedule[i]];
      match schedule[i]
      case Call(e) =>
        OfferSnoc(OPENED, Calls(schedule[..i]), e, flags);
        r.Note(e);
      case Move(budget) =>
        var sent := r.DrainInto(link, budget);
        assert Calls(schedule[..i]) + [] == Calls(schedule[..i]);
    }
    assert schedule[..|schedule|] == schedule;
  }

  lemma NoCalls(flags: u16)
    ensures OfferAll(OPENED, Calls([]), flags) == OPENED
  {
  }
}
