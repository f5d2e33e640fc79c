/** The timeline as an object: opening a trace, seeking in it, and searching it by bisection. */
module Navigation {
  import opened Basics
  import opened Trace
  import opened TraceReading
  import opened RxPump
  import opened Replaying
  import opened Resuming
  import opened Timelines
  import opened Seeking
  import opened Progress
  import opened Firmware
  import opened Playback
  import opened Session

  /** What a trace that loads and names a known build has for navigation. */
  function TapeOf(data: Bytes): (t: Option<Tape>) {
    if |data| >= TWO_32 then None
    else
      match Replaying.Load(data)
      case Refused(_) => None
      case Ready(header, replay) =>
        match VariantFor(header.buildId)
        case None => None
        case Some(v) => Some(Tape(v, replay.events, replay.checkWrites))
  }

  /** The number of halvings that bring `n` down to one. */
  function Log2(n: nat): nat
    requires n > 0
  {
    if n == 1 then 0 else 1 + Log2(n / 2)
  }

  lemma {:induction false} LogMeans(n: nat)
    requires n > 0
    ensures Pow2(Log2(n)) <= n < 2 * Pow2(Log2(n))
  {
    if n > 1 {
      LogMeans(n / 2);
    }
  }

  /** How many probes a search over `n` candidates left to rule out may need. */
  function Probes(n: nat): nat {
    if n == 0 then 0 else Log2(n) + 1
  }

  lemma {:induction false} LogMonotone(a: nat, b: nat)
    requires 0 < a <= b
    ensures Log2(a) <= Log2(b)
    decreases b
  {
    if a > 1 {
      LogMonotone(a / 2, b / 2);
    }
  }

  /** Either half of an interval needs a probe less. */
  lemma Halves(n: nat, m: nat)
    requires n > 0 && m <= n / 2
    ensures Probes(m) + 1 <= Probes(n)
  {
    if m > 0 {
      LogMonotone(m, n / 2);
    }
  }

  lemma {:induction false} FindConcat(a: seq<Call>, b: seq<Call>, index: nat)
    ensures Find(a + b, index) == if Find(a, index).Some? then Find(a, index) else Find(b, index)
  {
    if a == [] {
      assert a + b == b;
    } else if a[0].cursor != index {
      FindConcat(a[1..], b, index);
      assert (a + b)[1..] == a[1..] + b;
    }
  }

  /** A checkpoint holds all that steers the run from there. */
  lemma InstallAlike(t: Tape, p: nat)
    ensures var c := Mark(t, p);
            Alike(Played(t, p).ctx.calls, Played(t, p), Install(t.events, t.checkWrites, c.fw, c.cursor, c.ts))
  {
    PlayedOnward(t, 0, p);
    PlayedNone(t);
    hide Played;
  }

  /** One pass of a resumed run, seen by a capture that has not fired yet. */
  lemma PassAlike(t: Tape, base: seq<Call>, p: nat, v: World<Replay>)
    requires Alike(base, Played(t, p), v) && !v.draining
    ensures Terminating(REPLAY)
    ensures var r := Iterate(REPLAY, t.variant, v);
            Alike(base, Played(t, p + 1), r) && r.ctx.calls == v.ctx.calls + Requests(t, p)
  {
    hide Iterate, Played;
    PlayedStep(t, p);
    IterateAlike(base, t.variant, Played(t, p), v);
    PlayedOnward(t, p, p + 1);
    AddedCalls(base, v.ctx.calls, Iterate(REPLAY, t.variant, v).ctx.calls);
  }

  lemma AddedCalls(base: seq<Call>, a: seq<Call>, b: seq<Call>)
    requires base + a <= base + b
    ensures b == a + (base + b)[|base + a|..]
  {
    assert (base + b)[|base|..|base + a|] == (base + a)[|base|..];
    assert b[..|a|] == a;
    assert b[|a|..] == (base + b)[|base + a|..];
  }

  lemma StartAlike(t: Tape)
    ensures Alike([], Played(t, 0), Install(t.events, t.checkWrites, RESET, 0, 0))
  {
    PlayedNone(t);
    hide Played;
  }

  lemma RunOnce(b: Variant, w: World<Replay>)
    requires Terminating(REPLAY) && !w.draining
    ensures Run(REPLAY, b, w, 1) == Iterate(REPLAY, b, w)
  {
    hide Iterate;
    assert Run(REPLAY, b, w, 0) == w;
  }

  /** No trace has more events than its bytes allow. */
  lemma FewEvents(data: Bytes, t: Tape, p: nat)
    requires |data| < TWO_32 && Replaying.Load(data).Ready? && t.events == Replaying.Load(data).replay.events
    ensures Cursor(t, p) < TWO_32
  {
    hide ReadTrace, Played;
    PlayedClocked(t, p);
  }

  class Timeline {
    const board: Board<Replay>
    const hal: ReplayHal
    var tape: Tape
    var mainIters: nat
    var every: nat
    var checkpoints: seq<Checkpoint>
    var eventCount: nat
    var position: nat
    var lastSearchSeeks: nat
    var isOpen: bool

    ghost predicate Valid()
      reads this, board, hal
    {
      && board.Valid() && board.ops == REPLAY && hal.Valid()
      && (isOpen ==> every > 0 && checkpoints == Marks(tape, every, mainIters) && eventCount == Cursor(tape, mainIters) && position <= eventCount < TWO_32)
    }

    constructor ()
      ensures Valid() && !isOpen && fresh(board) && fresh(board.ring) && fresh(hal)
    {
      ReplayTerminates();
      board := new Board(REPLAY, Start([], false));
      hal := new ReplayHal();
      tape, mainIters, every, checkpoints := Tape(Buggy, [], false), 0, 128, [];
      eventCount, position, lastSearchSeeks, isOpen := 0, 0, 0, false;
    }

    /** A fresh shim on the replaying backend, with storage and place in the trace as they were at a checkpoint. */
    method InstallAt(state: State, cursor: nat, ts: nat)
      requires board.Valid()
      modifies board, board.ring
      ensures board.Valid() && board.View() == Install(tape.events, tape.checkWrites, state, cursor, ts)
    {
      board.Restore(state, Replay(tape.events, cursor, ts, 0, tape.checkWrites, None, []));
    }

    /** Loads a trace, plays it once and takes a checkpoint before every `interval`-th pass. */
    method Open(trace: Bytes, iters: nat, interval: nat) returns (ok: bool)
      requires Valid()
      modifies this, board, board.ring, hal
      ensures Valid() && isOpen == ok == TapeOf(trace).Some?
      ensures ok ==> tape == TapeOf(trace).value && mainIters == iters && every == (if interval == 0 then 1 else interval)
      ensures ok ==> position == 0
    {
      hide Cursor, Marks, Replaying.Load;
      isOpen := false;
      checkpoints := [];
      ok := hal.Load(trace);
      if !ok {
        return;
      }
      var variant := VariantFor(hal.header.buildId);
      if variant.None? {
        return false;
      }
      tape := Tape(variant.value, hal.events, hal.checkWrites);
      mainIters := iters;
      every := if interval == 0 then 1 else interval;
      BuildIndex();
      FewEvents(trace, tape, iters);
      position, isOpen := 0, true;
    }

    method BuildIndex()
      requires board.Valid() && board.ops == REPLAY && every > 0 && checkpoints == []
      modifies this`checkpoints, this`eventCount, board, board.ring
      ensures board.Valid() && checkpoints == Marks(tape, every, mainIters) && eventCount == Cursor(tape, mainIters)
    {
      hide Played, Iterate, Install;
      InstallAt(RESET, 0, 0);
      StartAlike(tape);
      for iter := 0 to mainIters
        invariant board.Valid() && !board.draining && Alike([], Played(tape, iter), board.View())
        invariant checkpoints == Marks(tape, every, iter)
      {
        if Due(iter, every) {
          checkpoints := checkpoints + [Checkpoint(iter, board.ctx.cursor, board.ctx.now, board.Fw())];
        }
        PassAlike(tape, [], iter, board.View());
        RunOnce(tape.variant, board.View());
        board.RxPumpRun(tape.variant, 1);
      }
      eventCount := board.ctx.cursor;
    }

    /** The last checkpoint before the first one beyond the target, if there is any. */
    method NearestTo(index: nat) returns (best: Option<Checkpoint>)
      requires Valid() && isOpen
      ensures best == if mainIters == 0 then None else Some(Mark(tape, Nearest(tape, every, mainIters, index)))
    {
      hide Cursor, Due, Nearest, Played, Mark;
      MarksInOrder(tape, every, mainIters);
      StartCursor(tape);
      assert Mark(tape, 0).cursor == Cursor(tape, 0) by {
        MarkCursor(tape, 0);
      }
      best := None;
      for i := 0 to |checkpoints|
        invariant i == 0 ==> best == None
        invariant i > 0 ==> best == Some(checkpoints[i - 1]) && checkpoints[i - 1].cursor <= index
      {
        if checkpoints[i].cursor <= index {
          best := Some(checkpoints[i]);
        } else {
          ScanFindsNearest(tape, every, mainIters, index, i - 1);
          return;
        }
      }
      if |checkpoints| > 0 {
        ScanFindsNearest(tape, every, mainIters, index, |checkpoints| - 1);
      }
    }

    /**
     * Moves to an event, or to the end if it lies beyond it, and reports the state there. The answer
     * depends on the trace and the target alone, never on where the timeline was before.
     */
    method Seek(target: nat) returns (r: Option<Snapshot>, ghost passes: nat)
      requires Valid()
      modifies this`position, board, board.ring
      ensures Valid() && (isOpen ==> passes <= every)
      ensures !isOpen || mainIters == 0 ==> r == None && position == old(position)
      ensures isOpen && mainIters > 0 ==> r == Some(SeekTo(tape, every, mainIters, position)) && r.value.index == position
      ensures isOpen && mainIters > 0 ==> if target <= eventCount then position == target else position == eventCount
    {
      hide Cursor, Nearest, Played, Mark, Execute;
      passes := 0;
      if !isOpen {
        return None, 0;
      }
      var index := if target > eventCount then eventCount else target;
      var found := NearestTo(index);
      if found.None? {
        return None, 0;
      }
      SeekCost(tape, every, mainIters, index);
      var snapshot;
      snapshot, passes := Rerun(found.value, index, Nearest(tape, every, mainIters, index));
      position := index;
      r := Some(snapshot);
    }

    /**
     * Forward from a checkpoint, one pass at a time, until the capture has fired. The board then
     * stands `passes` passes further on.
     */
    method Rerun(from: Checkpoint, index: nat, ghost p: nat) returns (snapshot: Snapshot, ghost passes: nat)
      requires board.Valid() && board.ops == REPLAY && from == Mark(tape, p) && p < mainIters
      modifies board, board.ring
      ensures board.Valid() && snapshot == Execute(tape, p, mainIters, index)
      ensures Alike(Played(tape, p).ctx.calls, Played(tape, p + passes), board.View())
      ensures p + passes == if snapshot.mainIter < mainIters then snapshot.mainIter + 1 else mainIters
    {
      hide Played, Iterate, Install, Cursor, Requests, Find;
      MarkFields(tape, p);
      InstallAlike(tape, p);
      InstallAt(from.fw, from.cursor, from.ts);
      ghost var base := Played(tape, p).ctx.calls;
      assert board.View().ctx.calls == [];
      var iter := from.mainIter;
      var shot: Option<Call> := None;
      passes := 0;
      while iter < mainIters && shot.None?
        invariant p <= iter <= mainIters && iter == p + passes && board.Valid() && !board.draining
        invariant Alike(base, Played(tape, iter), board.View()) && shot == Find(board.ctx.calls, index)
        invariant shot.None? ==> Execute(tape, p, mainIters, index) == Execute(tape, iter, mainIters, index)
        invariant shot.Some? ==>
                    iter > p && Execute(tape, p, mainIters, index) == Snapshot(index, shot.value.now, iter - 1, shot.value.fw)
        decreases mainIters - iter, shot.None?
      {
        PassAlike(tape, base, iter, board.View());
        FindConcat(board.ctx.calls, Requests(tape, iter), index);
        RunOnce(tape.variant, board.View());
        board.RxPumpRun(tape.variant, 1);
        shot := Find(board.ctx.calls, index);
        iter := iter + 1;
        passes := passes + 1;
      }
      match shot
      case Some(c) => snapshot := Snapshot(index, c.now, iter - 1, c.fw);
      case None => snapshot := Snapshot(index, board.ctx.now, mainIters, board.Fw());
    }

    /** Moves back by `n` events, or to the start. */
    method StepBack(n: nat) returns (r: Option<Snapshot>)
      requires Valid()
      modifies this`position, board, board.ring
      ensures Valid()
      ensures isOpen && mainIters > 0 ==>
                && (n <= old(position) ==> position + n == old(position)) && (n > old(position) ==> position == 0)
                && r == Some(SeekTo(tape, every, mainIters, position)) && r.value.index == position
    {
      hide SeekTo, Cursor, Marks;
      var target := if n > position then 0 else position - n;
      ghost var passes;
      r, passes := Seek(target);
    }

    /**
     * Moves forward by `n` events, or to the end, unless the sum wraps around 64 bits. Only then it
     * moves back: by what is missing to 2^64.
     */
    method StepForward(n: u64) returns (r: Option<Snapshot>)
      requires Valid()
      modifies this`position, board, board.ring
      ensures Valid()
      ensures isOpen && mainIters > 0 ==> r == Some(SeekTo(tape, every, mainIters, position)) && r.value.index == position
      ensures isOpen && mainIters > 0 && old(position) + n < TWO_64 ==>
                position >= old(position) && (position == old(position) + n || position == eventCount < old(position) + n)
      ensures isOpen && mainIters > 0 && old(position) + n >= TWO_64 ==> position == old(position) + n - TWO_64 < old(position)
    {
      hide SeekTo, Cursor, Marks;
      ghost var passes;
      r, passes := Seek(Wrap64(position + n));
    }

    /** A step back undoes a step forward that does not run into the end. */
    method ThereAndBack(n: u64) returns (there: Option<Snapshot>, back: Option<Snapshot>)
      requires Valid() && isOpen && mainIters > 0 && position + n <= eventCount
      modifies this`position, board, board.ring
      ensures Valid() && position == old(position)
      ensures there == Some(SeekTo(tape, every, mainIters, old(position) + n)) && back == Some(SeekTo(tape, every, mainIters, old(position)))
    {
      hide SeekTo, Cursor, Marks;
      there := StepForward(n);
      back := StepBack(n);
    }

    /**
     * Bisection. The predicate is arbitrary: if it holds at the end, what is returned is a point where
     * it holds and does not hold one event earlier. The number of seeks is logarithmic, and one if
     * it does not hold at the end.
     */
    method FindFirst(pred: Snapshot -> bool) returns (r: Option<Snapshot>)
      requires Valid()
      modifies this`position, this`lastSearchSeeks, board, board.ring
      ensures Valid()
      ensures !isOpen || mainIters == 0 ==> r == None
      ensures isOpen && mainIters > 0 ==> Found(tape, every, mainIters, eventCount, pred, r)
      ensures isOpen && mainIters > 0 && r == None ==> lastSearchSeeks == 1
      ensures isOpen && mainIters > 0 ==> lastSearchSeeks <= Probes(eventCount) + 2
    {
      hide SeekTo, Cursor, Marks, Log2;
      if !isOpen {
        return None;
      }
      lastSearchSeeks := 1;
      ghost var passes;
      var probe;
      probe, passes := Seek(eventCount);
      if probe.None? {
        return None;
      }
      if !pred(probe.value) {
        return None;
      }
      var lo := Bisect(pred);
      lastSearchSeeks := lastSearchSeeks + 1;
      SeekCost(tape, every, mainIters, lo);
      r, passes := Seek(lo);
    }

    /** A point where the predicate holds and does not one event earlier, given that it holds at the end. */
    method Bisect(pred: Snapshot -> bool) returns (lo: nat)
      requires Valid() && isOpen && mainIters > 0 && pred(SeekTo(tape, every, mainIters, eventCount))
      modifies this`position, this`lastSearchSeeks, board, board.ring
      ensures Valid() && lo <= eventCount
      ensures pred(SeekTo(tape, every, mainIters, lo)) && (lo == 0 || !pred(SeekTo(tape, every, mainIters, lo - 1)))
      ensures lastSearchSeeks <= old(lastSearchSeeks) + Probes(eventCount)
    {
      hide SeekTo, Cursor, Marks, Log2, Due;
      var hi;
      lo, hi := 0, eventCount;
      while lo < hi
        invariant 0 <= lo <= hi <= eventCount && Valid()
        invariant pred(SeekTo(tape, every, mainIters, hi))
        invariant lo == 0 || !pred(SeekTo(tape, every, mainIters, lo - 1))
        invariant lastSearchSeeks + Probes(hi - lo) <= old(lastSearchSeeks) + Probes(eventCount)
      {
        var mid := lo + (hi - lo) / 2;
        Halves(hi - lo, mid - lo);
        Halves(hi - lo, hi - (mid + 1));
        lastSearchSeeks := lastSearchSeeks + 1;
        var probe;
        ghost var passes;
        probe, passes := Seek(mid);
        if pred(probe.value) {
          hi := mid;
        } else {
          lo := mid + 1;
        }
      }
    }
  }

  /** What a search may answer. */
  predicate Found(t: Tape, every: nat, iters: nat, end: nat, pred: Snapshot -> bool, r: Option<Snapshot>)
    requires every > 0 && iters > 0
  {
    match r
    case None => !pred(SeekTo(t, every, iters, end))
    case Some(s) =>
      && s.index <= end && s == SeekTo(t, every, iters, s.index) && pred(s)
      && (s.index == 0 || !pred(SeekTo(t, every, iters, s.index - 1)))
  }

  lemma MarkCursor(t: Tape, p: nat)
    ensures Mark(t, p).cursor == Cursor(t, p)
  {
  }

  lemma MarkFields(t: Tape, p: nat)
    ensures Mark(t, p) == Checkpoint(p, Cursor(t, p), Played(t, p).ctx.now, Played(t, p).fw)
  {
  }

  /** Of a predicate that never turns false again along the timeline, a search finds the first point. */
  lemma FirstOfMonotone(t: Tape, every: nat, iters: nat, end: nat, pred: Snapshot -> bool, s: Snapshot, i: nat)
    requires every > 0 && iters > 0 && Found(t, every, iters, end, pred, Some(s))
    requires forall a, b :: 0 <= a <= b <= end && pred(SeekTo(t, every, iters, a)) ==> pred(SeekTo(t, every, iters, b))
    ensures pred(s) && (i < s.index ==> !pred(SeekTo(t, every, iters, i)))
  {
    hide SeekTo;
    if i < s.index {
      ghost var before := SeekTo(t, every, iters, s.index - 1);
      assert !pred(before);
    }
  }

  /** Searching a complete replay for "at least k bytes consumed" finds the first such point. */
  lemma FirstConsumed(t: Tape, every: nat, iters: nat, k: nat, s: Snapshot, i: nat)
    requires every > 0 && iters > 0 && Faithful(t, iters) && |t.events| < TWO_32
    requires Found(t, every, iters, Cursor(t, iters), (x: Snapshot) => x.fw.consumed >= k, Some(s))
    ensures s.fw.consumed >= k && (i < s.index ==> SeekTo(t, every, iters, i).fw.consumed < k)
  {
    hide SeekTo, Faithful, Cursor;
    if i < s.index {
      ConsumedMonotone(t, every, iters, i, s.index - 1);
    }
  }
}
