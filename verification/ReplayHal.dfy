/** The replaying backend as an object: a cursor over decoded events, and one capture point. */
module Playback {
  import opened Basics
  import opened Trace
  import opened TraceReading
  import opened RxPump
  import opened Replaying
  import opened Timelines

  lemma {:induction false} FindSnoc(calls: seq<Call>, c: Call, index: nat)
    ensures Find(calls + [c], index)
         == if Find(calls, index).Some? then Find(calls, index) else if c.cursor == index then Some(c) else None
  {
    if calls == [] {
      assert calls + [c] == [c] && [c][1..] == [];
    } else if calls[0].cursor != index {
      FindSnoc(calls[1..], c, index);
      assert (calls + [c])[1..] == calls[1..] + [c];
    }
  }

  datatype LoadError = TooLarge | Unreadable(reason: ReadError)

  class ReplayHal {
    var header: Header
    var events: seq<Event>
    var cursor: nat
    var now: nat
    var captureAt: nat
    var armed: bool
    /** What the capture callback took down, once it has run. */
    var shot: Option<Call>
    var served: nat
    var checkWrites: bool
    var divergence: Option<Divergence>
    var error: Option<LoadError>

    /** Every request so far, and how many there were when the capture point was set. */
    ghost var calls: seq<Call>
    ghost var since: nat

    ghost function View(): Replay
      reads this
    {
      Replay(events, cursor, now, served, checkWrites, divergence, calls)
    }

    /** A capture has fired exactly if a request was made at the chosen event since then: on the first one. */
    ghost predicate Valid()
      reads this
    {
      since <= |calls| && (armed ==> shot == Find(calls[since..], captureAt)) && (!armed ==> shot.None?)
    }

    constructor ()
      ensures Valid() && View() == Start([], false) && !armed && error.None?
    {
      header, events, cursor, now := Header(0, 0, 0, 0), [], 0, 0;
      captureAt, armed, shot, served, checkWrites := 0, false, None, 0, false;
      divergence, error, calls, since := None, None, [], 0;
    }

    /**
     * Decodes the whole trace; on success the cursor is on its first event. A trace refused for
     * what follows its header has already replaced the events of the one before.
     */
    method Load(data: Bytes) returns (ok: bool)
      requires Valid()
      modifies this`header, this`events, this`checkWrites, this`cursor, this`now, this`error
      ensures Valid() && (ok <==> |data| < TWO_32 && Replaying.Load(data).Ready?)
      ensures ok ==> header == Replaying.Load(data).header
      ensures ok ==> View() == Replaying.Load(data).replay.(served := old(served), divergence := old(divergence), calls := old(calls))
      ensures !ok ==> error == Some(if |data| < TWO_32 then Unreadable(Replaying.Load(data).error) else TooLarge)
      ensures !ok ==> cursor == old(cursor) && now == old(now)
      ensures !ok ==> if |data| < TWO_32 && OpenBytes(data).isOpen
                      then header == OpenBytes(data).header && events == ReadTrace(data).0 && checkWrites == (header.flags % 2 == 1)
                      else header == old(header) && events == old(events) && checkWrites == old(checkWrites)
    {
      hide Find, ReadTrace, OpenBytes;
      if |data| > 0xFFFF_FFFF {
        error := Some(TooLarge);
        return false;
      }
      var decoded, first, last := DecodeAll(data);
      HeaderStays(data);
      if !first.isOpen {
        error := Some(Unreadable(first.error.value));
        return false;
      }
      header := first.header;
      events, checkWrites := decoded, header.flags % 2 == 1;
      if last.error.Some? {
        error := Some(Unreadable(last.error.value));
        return false;
      }
      cursor, now := 0, 0;
      return true;
    }

    /** Opens a trace and pulls events until there are no more; `first` and `last` are the reader then and now. */
    static method DecodeAll(data: Bytes) returns (decoded: seq<Event>, first: Reader, last: Reader)
      requires |data| < TWO_32
      ensures first == OpenBytes(data) && (decoded, last) == ReadTrace(data)
    {
      hide Next, ReadAll, OpenBytes;
      decoded := [];
      var reader := new TraceReader();
      var usable := reader.OpenTrace(Some(data));
      first := reader.View();
      if !usable {
        return decoded, first, first;
      }
      var start := OpenBytes(data);
      var more := true;
      assert [] + ReadAll(data, start).0 == ReadAll(data, start).0;
      while more
        invariant fresh(reader) && reader.Valid() && reader.data == data
        invariant more ==> reader.isOpen && ReadAll(data, start) == Prepend(decoded, ReadAll(data, reader.View()))
        invariant !more ==> ReadAll(data, start) == (decoded, reader.View())
        decreases more, Budget(data, reader.View())
      {
        StepAll(data, reader.View(), decoded);
        var before := Budget(data, reader.View());
        var event := reader.NextEvent();
        match event
        case Some(e) => decoded := decoded + [e];
        case None => more := false;
      }
      last := reader.View();
    }

    method SetCapturePoint(index: nat)
      modifies this`captureAt, this`armed, this`shot, this`since
      ensures Valid() && View() == old(View()) && armed && captureAt == index && shot.None? && since == |calls|
    {
      captureAt, armed, shot := index, true, None;
      since := |calls|;
    }

    method ClearCapturePoint()
      requires Valid()
      modifies this`armed, this`shot
      ensures Valid() && View() == old(View()) && !armed
    {
      armed, shot := false, None;
    }

    /** Takes up a run at another place in the trace, with a clean record. */
    method SetCursor(index: nat, ts: nat)
      requires Valid()
      modifies this`cursor, this`now, this`divergence
      ensures Valid() && View() == old(View()).(cursor := index, now := ts, divergence := None)
    {
      cursor, now := index, ts;
      divergence := None;
    }

    /** Takes down the first request at the capture point, and no later one; `fw` is the firmware's storage. */
    method MaybeCapture(fw: State)
      requires Valid()
      modifies this`shot, this`calls
      ensures Valid() && View() == Ask(old(View()), fw)
      ensures old(shot).Some? ==> shot == old(shot)
    {
      hide Find;
      FindSnoc(calls[since..], Call(cursor, now, fw), captureAt);
      assert (calls + [Call(cursor, now, fw)])[since..] == calls[since..] + [Call(cursor, now, fw)];
      if armed && shot.None? && cursor == captureAt {
        shot := Some(Call(cursor, now, fw));
      }
      calls := calls + [Call(cursor, now, fw)];
    }

    /** Only the first divergence is kept. */
    method Note(d: Divergence)
      requires Valid()
      modifies this`divergence
      ensures Valid() && View() == Diverge(old(View()), d)
    {
      if divergence.None? {
        divergence := Some(d);
      }
    }

    method Advance()
      requires Valid() && cursor < |events|
      modifies this`cursor, this`served, this`now
      ensures Valid() && View() == Serve(old(View()))
    {
      now := events[cursor].ts;
      cursor := cursor + 1;
      served := served + 1;
    }

    method Read32(fw: State, addr: u32) returns (value: u32)
      requires Valid()
      modifies this
      ensures Valid() && (View(), value) == ReplayRead(old(View()), fw, addr)
      ensures armed == old(armed) && captureAt == old(captureAt) && since == old(since)
    {
      hide Find;
      MaybeCapture(fw);
      if cursor >= |events| {
        Note(PastTheEnd);
        return 0;
      }
      var event := events[cursor];
      if event.kind.Stop? {
        Note(AfterStop);
        return 0;
      }
      if !event.kind.MmioRead? {
        Note(WrongEvent);
        return 0;
      }
      if event.addr != addr {
        Note(WrongAddress);
        return 0;
      }
      Advance();
      return event.value;
    }

    method Write32(fw: State, addr: u32, value: u32)
      requires Valid()
      modifies this
      ensures Valid() && View() == ReplayWrite(old(View()), fw, addr, value)
      ensures armed == old(armed) && captureAt == old(captureAt) && since == old(since)
    {
      hide Find;
      MaybeCapture(fw);
      if !checkWrites {
        return;
      }
      if cursor >= |events| {
        Note(PastTheEnd);
        return;
      }
      var event := events[cursor];
      if event.kind.Stop? {
        Note(AfterStop);
        return;
      }
      if !event.kind.MmioWrite? {
        Note(WrongEvent);
        return;
      }
      if event.addr != addr || event.value != value {
        Note(WrongValue);
        return;
      }
      Advance();
    }

    method PollIrq(fw: State) returns (vector: u32)
      requires Valid()
      modifies this
      ensures Valid() && (View(), vector) == ReplayPoll(old(View()), fw)
      ensures armed == old(armed) && captureAt == old(captureAt) && since == old(since)
    {
      hide Find;
      MaybeCapture(fw);
      if cursor >= |events| {
        return NO_IRQ;
      }
      var event := events[cursor];
      if !event.kind.IsIrq() {
        return NO_IRQ;
      }
      Advance();
      return event.addr;
    }
  }

  /** Reading never touches the header, and a refused trace is an unopened one. */
  lemma HeaderStays(data: Bytes)
    requires |data| < TWO_32
    ensures OpenBytes(data).isOpen ==> ReadTrace(data).1.header == OpenBytes(data).header
    ensures !OpenBytes(data).isOpen ==> ReadTrace(data) == ([], OpenBytes(data)) && OpenBytes(data).error.Some?
  {
    if OpenBytes(data).isOpen {
      ReadAllHeader(data, OpenBytes(data));
    }
  }

  function Prepend(es: seq<Event>, rest: (seq<Event>, Reader)): (seq<Event>, Reader) {
    (es + rest.0, rest.1)
  }

  lemma StepAll(data: Bytes, r: Reader, before: seq<Event>)
    requires r.isOpen && InBounds(data, r)
    ensures var (q, e) := Next(data, r);
            && (e.None? ==> Prepend(before, ReadAll(data, r)) == (before, q))
            && (e.Some? ==> Prepend(before, ReadAll(data, r)) == Prepend(before + [e.value], ReadAll(data, q)))
  {
    var (q, e) := Next(data, r);
    if e.Some? {
      assert before + ([e.value] + ReadAll(data, q).0) == before + [e.value] + ReadAll(data, q).0;
    } else {
      assert before + [] == before;
    }
  }
}
