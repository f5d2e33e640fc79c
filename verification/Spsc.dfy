/**
 * The ring shared by one producer and one consumer, one load, byte copy or store at a time.
 * Each side may be stopped between any two steps while the other runs on.
 */
module Spsc {
  import opened Basics
  import opened Ring

  /** Where `push` is: before the call, with `head_` loaded, or copying towards its publishing store. */
  datatype Producer =
    | Idle
    | Checking(data: Bytes, at: u32)
    | Copying(data: Bytes, at: u32, done: nat)

  /**
   * Where the draining side is. `seen` is not part of the program: it is the number of bytes
   * published when the index it loaded was current.
   */
  datatype Consumer =
    | Resting
    | HeadLoaded(head: u32, seen: nat)
    | Reading(size: nat, got: Bytes)
    | Releasing(count: u32, got: Bytes, head: u32, seen: nat)

  /** The shared words and store, both program counters, and the bytes published and released so far. */
  datatype Shared = Shared(
    cap: nat, store: Bytes, head: u32, tail: u32,
    producer: Producer, consumer: Consumer,
    published: Bytes, released: Bytes)

  datatype Action =
    | BeginPush(data: Bytes) | CheckSpace | CopyByte | Publish
    | LoadHead | MeasureRegion | ReadByte | BeginConsume(size: u32) | Release

  function Step(s: Shared, a: Action): (r: Shared)
    requires 0 < s.cap <= |s.store|
    ensures r.cap == s.cap && |r.store| == |s.store|
  {
    match a
    case BeginPush(data) =>
      if s.producer.Idle? && data != [] then s.(producer := Checking(data, s.head)) else s
    case CheckSpace =>
      if !s.producer.Checking? then s
      else if |s.producer.data| > s.cap - Distance(s.producer.at, s.tail) then s.(producer := Idle)
      else s.(producer := Copying(s.producer.data, s.producer.at, 0))
    case CopyByte =>
      if s.producer.Copying? && s.producer.done < |s.producer.data| then
        var slot := (s.producer.at + s.producer.done) % TWO_32 % s.cap;
        s.(store := s.store[slot := s.producer.data[s.producer.done]],
           producer := s.producer.(done := s.producer.done + 1))
      else s
    case Publish =>
      if s.producer.Copying? && s.producer.done == |s.producer.data| then
        s.(head := Wrap32(s.producer.at + |s.producer.data|), producer := Idle, published := s.published + s.producer.data)
      else s
    case LoadHead =>
      if s.consumer.Resting? then s.(consumer := HeadLoaded(s.head, |s.published|)) else s
    case MeasureRegion =>
      if !s.consumer.HeadLoaded? then s
      else
        var filled := Distance(s.consumer.head, s.tail);
        if filled == 0 then s.(consumer := Resting)
        else s.(consumer := Reading(Min(s.cap - s.tail % s.cap, filled), []))
    case ReadByte =>
      if s.consumer.Reading? && |s.consumer.got| < s.consumer.size && s.tail % s.cap + |s.consumer.got| < |s.store| then
        s.(consumer := Reading(s.consumer.size, s.consumer.got + [s.store[s.tail % s.cap + |s.consumer.got|]]))
      else s
    case BeginConsume(size) =>
      if s.consumer.Reading? && size <= |s.consumer.got| then
        s.(consumer := Releasing(size, s.consumer.got, s.head, |s.published|))
      else s
    case Release =>
      if !s.consumer.Releasing? || s.consumer.count > |s.consumer.got| then s
      else if s.consumer.count > Distance(s.consumer.head, s.tail) then s.(consumer := Resting)
      else s.(tail := Wrap32(s.tail + s.consumer.count), consumer := Resting,
              released := s.released + s.consumer.got[..s.consumer.count])
  }

  /** The shared state: wrapped counters, live bytes in their slots, and output a prefix of input. */
  ghost predicate SharedOk(s: Shared) {
    && 2 <= s.cap <= MAX_CAPACITY && PowerOfTwo(s.cap)
    && s.head == Wrap32(|s.published|) && s.tail == Wrap32(|s.released|)
    && s.released <= s.published
    && Holds(s.store, s.cap, s.published, |s.released|)
  }

  /** What the producer copied so far lies beyond every byte the consumer may still read. */
  ghost predicate ProducerOk(s: Shared)
    requires 0 < s.cap <= |s.store|
  {
    match s.producer
    case Idle => true
    case Checking(data, at) => at == s.head
    case Copying(data, at, done) =>
      && at == s.head && done <= |data| && |s.published| + |data| <= |s.released| + s.cap
      && Copied(s.store, s.cap, |s.published|, data[..done])
  }

  /** `data` lies in the slots from index `n` on. */
  ghost predicate Copied(store: Bytes, cap: nat, n: nat, data: Bytes)
    requires 0 < cap <= |store|
  {
    forall j :: 0 <= j < |data| ==> store[(n + j) % cap] == data[j]
  }

  /** What the consumer read are the next published bytes, and it never counts more than are published. */
  ghost predicate ConsumerOk(s: Shared)
    requires s.cap > 0
  {
    match s.consumer
    case Resting => true
    case HeadLoaded(head, seen) => head == Wrap32(seen) && |s.released| <= seen <= |s.published|
    case Reading(size, got) =>
      && |got| <= size && |s.released| + size <= |s.published| && s.tail % s.cap + size <= s.cap
      && got == s.published[|s.released|..|s.released| + |got|]
    case Releasing(count, got, head, seen) =>
      && count <= |got| && head == Wrap32(seen) && |s.released| + |got| <= seen <= |s.published|
      && got == s.published[|s.released|..|s.released| + |got|]
  }

  ghost predicate Inv(s: Shared) {
    SharedOk(s) && ProducerOk(s) && ConsumerOk(s)
  }

  // ----- every step keeps the invariant

  lemma SlotsDiffer(i: nat, k: nat, cap: nat)
    requires cap > 0 && i < k < i + cap
    ensures i % cap != k % cap
  {
    SlotStep(i, k - i, cap);
  }

  lemma SlotOfCounter(n: nat, d: nat, cap: nat)
    requires PowerOfTwo(cap) && cap <= MAX_CAPACITY
    ensures (Wrap32(n) + d) % TWO_32 % cap == (n + d) % cap
  {
    WrapAdd32(n, d);
    WrapSlot(n + d, cap);
  }

  /** Writing to a free slot leaves the live bytes alone. */
  lemma HoldsUpdate(store: Bytes, cap: nat, pushed: Bytes, t: nat, k: nat, b: u8)
    requires Holds(store, cap, pushed, t) && |pushed| <= k < t + cap
    ensures Holds(store[k % cap := b], cap, pushed, t)
  {
    forall i | t <= i < |pushed|
      ensures store[k % cap := b][i % cap] == pushed[i]
    {
      SlotsDiffer(i, k, cap);
    }
  }

  lemma CopiedUpdate(store: Bytes, cap: nat, n: nat, data: Bytes, done: nat)
    requires 0 < cap <= |store| && done < |data| <= cap && Copied(store, cap, n, data[..done])
    ensures Copied(store[(n + done) % cap := data[done]], cap, n, data[..done + 1])
  {
    var s, copied := store[(n + done) % cap := data[done]], data[..done + 1];
    forall j | 0 <= j < done + 1
      ensures s[(n + j) % cap] == copied[j]
    {
      if j < done {
        SlotsDiffer(n + j, n + done, cap);
        assert data[..done][j] == data[j];
      }
    }
  }

  lemma CopyKeeps(s: Shared)
    requires Inv(s) && s.producer.Copying? && s.producer.done < |s.producer.data|
    ensures Inv(Step(s, CopyByte))
  {
    hide PowerOfTwo, Wrap32, Holds, Copied;
    var h, done, data := |s.published|, s.producer.done, s.producer.data;
    assert 0 < s.cap <= |s.store| && h + |data| <= |s.released| + s.cap by {
      HoldsBounds(s.store, s.cap, s.published, |s.released|);
    }
    SlotOfCounter(h, done, s.cap);
    HoldsUpdate(s.store, s.cap, s.published, |s.released|, h + done, data[done]);
    CopiedUpdate(s.store, s.cap, h, data, done);
  }

  lemma HoldsBounds(store: Bytes, cap: nat, pushed: Bytes, t: nat)
    requires Holds(store, cap, pushed, t)
    ensures 0 < cap <= |store| && t <= |pushed| <= t + cap
  {
  }

  lemma PublishKeeps(s: Shared)
    requires Inv(s) && s.producer.Copying? && s.producer.done == |s.producer.data|
    ensures Inv(Step(s, Publish))
  {
    var data := s.producer.data;
    WrapAdd32(|s.published|, |data|);
    var all := s.published + data;
    forall i | |s.released| <= i < |all|
      ensures s.store[i % s.cap] == all[i]
    {
      if i >= |s.published| {
        var j := i - |s.published|;
        assert s.store[(|s.published| + j) % s.cap] == data[..|data|][j];
      }
    }
    assert s.consumer.Reading? || s.consumer.Releasing? ==>
        all[|s.released|..|s.released| + |s.consumer.got|] == s.published[|s.released|..|s.released| + |s.consumer.got|];
  }

  lemma MeasureKeeps(s: Shared)
    requires Inv(s) && s.consumer.HeadLoaded?
    ensures Inv(Step(s, MeasureRegion))
  {
    DistanceOfWrapped(s.consumer.seen, |s.released|);
  }

  /** A byte the consumer reads is the next published byte: not stale, not overwritten. */
  lemma ReadIsPublished(s: Shared)
    requires Inv(s) && s.consumer.Reading? && |s.consumer.got| < s.consumer.size
    ensures s.tail % s.cap + |s.consumer.got| < s.cap
    ensures s.store[s.tail % s.cap + |s.consumer.got|] == s.published[|s.released| + |s.consumer.got|]
  {
    WrapSlot(|s.released|, s.cap);
    SlotStep(|s.released|, |s.consumer.got|, s.cap);
  }

  lemma ReadKeeps(s: Shared)
    requires Inv(s)
    ensures Inv(Step(s, ReadByte))
  {
    hide PowerOfTwo, Wrap32, Copied;
    if s.consumer.Reading? && |s.consumer.got| < s.consumer.size {
      ReadIsPublished(s);
    }
  }

  lemma CheckKeeps(s: Shared)
    requires Inv(s)
    ensures Inv(Step(s, CheckSpace))
  {
    hide PowerOfTwo, Wrap32;
    DistanceOfWrapped(|s.published|, |s.released|);
  }

  lemma ReleaseKeeps(s: Shared)
    requires Inv(s) && s.consumer.Releasing?
    ensures Inv(Step(s, Release))
  {
    var size, got := s.consumer.count, s.consumer.got;
    DistanceOfWrapped(s.consumer.seen, |s.released|);
    WrapAdd32(|s.released|, size);
    assert got[..size] == s.published[|s.released|..|s.released| + size];
  }

  lemma StepKeeps(s: Shared, a: Action)
    requires Inv(s)
    ensures Inv(Step(s, a))
  {
    hide PowerOfTwo, Wrap32, Holds, Distance;
    assert s.cap > 0 && |s.released| <= |s.published| by {
      HoldsBounds(s.store, s.cap, s.published, |s.released|);
    }
    match a
    case BeginPush(data) =>
    case CheckSpace =>
      CheckKeeps(s);
    case CopyByte =>
      if s.producer.Copying? && s.producer.done < |s.producer.data| {
        CopyKeeps(s);
      }
    case Publish =>
      if s.producer.Copying? && s.producer.done == |s.producer.data| {
        PublishKeeps(s);
      }
    case LoadHead =>
    case MeasureRegion =>
      if s.consumer.HeadLoaded? {
        MeasureKeeps(s);
      }
    case ReadByte =>
      ReadKeeps(s);
    case BeginConsume(size) =>
    case Release =>
      if s.consumer.Releasing? {
        ReleaseKeeps(s);
      }
  }

  // ----- whole runs

  function Run(s: Shared, actions: seq<Action>): (r: Shared)
    requires 0 < s.cap <= |s.store|
    ensures r.cap == s.cap && |r.store| == |s.store|
    decreases |actions|
  {
    if actions == [] then s else Run(Step(s, actions[0]), actions[1..])
  }

  /** Every interleaving, of any length and across counter wrap-around, keeps the invariant. */
  lemma {:induction false} RunKeeps(s: Shared, actions: seq<Action>)
    requires Inv(s)
    ensures Inv(Run(s, actions))
    decreases |actions|
  {
    if actions != [] {
      StepKeeps(s, actions[0]);
      RunKeeps(Step(s, actions[0]), actions[1..]);
    }
  }

  lemma SafeViews(s: Shared)
    requires Inv(s)
    ensures s.consumer.HeadLoaded? || s.consumer.Releasing? ==>
              Distance(s.consumer.head, s.tail) <= |s.published| - |s.released|
    ensures s.producer.Checking? ==> Distance(s.producer.at, s.tail) == |s.published| - |s.released|
  {
    HoldsBounds(s.store, s.cap, s.published, |s.released|);
    hide Holds, Wrap32, Distance;
    DistanceOfWrapped(|s.published|, |s.released|);
    if s.consumer.HeadLoaded? || s.consumer.Releasing? {
      DistanceOfWrapped(s.consumer.seen, |s.released|);
    }
  }

  function Fresh(store: Bytes): Shared {
    Shared(|store|, store, 0, 0, Idle, Resting, [], [])
  }

  /**
   * From an empty ring, under every interleaving: the output is a prefix of the input, the ring
   * never holds more than its capacity, what the consumer has in hand are the next published
   * bytes, and the room the producer reserved is still free. What either side makes of the counters
   * it loaded is on the safe side: the consumer never counts more bytes, and the producer never
   * more room, than there is.
   */
  lemma Safety(store: Bytes, actions: seq<Action>)
    requires 2 <= |store| <= MAX_CAPACITY && PowerOfTwo(|store|)
    ensures var s := Run(Fresh(store), actions);
            && s.released <= s.published && |s.published| - |s.released| <= |store|
            && (s.consumer.Reading? ==> s.released + s.consumer.got <= s.published)
            && (s.producer.Copying? ==> |s.published| + |s.producer.data| <= |s.released| + |store|)
            && (s.consumer.HeadLoaded? || s.consumer.Releasing? ==>
                  Distance(s.consumer.head, s.tail) <= |s.published| - |s.released|)
            && (s.consumer.Reading? ==> s.consumer.size <= |s.published| - |s.released|)
            && (s.producer.Checking? ==>
                  |store| - Distance(s.producer.at, s.tail) <= |store| - (|s.published| - |s.released|))
  {
    assert Inv(Fresh(store));
    RunKeeps(Fresh(store), actions);
    var s := Run(Fresh(store), actions);
    SafeViews(s);
    if s.consumer.Reading? {
      var k := |s.released|;
      assert s.published[..k] + s.published[k..k + |s.consumer.got|] == s.published[..k + |s.consumer.got|];
    }
  }

  // ----- a call that is not interrupted

  lemma {:induction false} RunConcat(s: Shared, a: seq<Action>, b: seq<Action>)
    requires 0 < s.cap <= |s.store|
    ensures Run(s, a + b) == Run(Run(s, a), b)
    decreases |a|
  {
    hide Step;
    if a == [] {
      assert a + b == b;
    } else {
      RunConcat(Step(s, a[0]), a[1..], b);
      assert (a + b)[1..] == a[1..] + b;
    }
  }

  lemma OneStep(s: Shared, a: Action)
    requires 0 < s.cap <= |s.store|
    ensures Run(s, [a]) == Step(s, a)
  {
    hide Step;
    assert [a][1..] == [];
    assert Run(Step(s, a), []) == Step(s, a);
  }

  function Times(a: Action, n: nat): seq<Action> {
    if n == 0 then [] else Times(a, n - 1) + [a]
  }

  lemma TimesNext(s: Shared, a: Action, n: nat)
    requires 0 < s.cap <= |s.store|
    ensures Run(s, Times(a, n + 1)) == Step(Run(s, Times(a, n)), a)
  {
    hide Step;
    RunConcat(s, Times(a, n), [a]);
    OneStep(Run(s, Times(a, n)), a);
  }

  /** The two shared words, the other side, and what has gone through, all as they were. */
  predicate OnlyCopied(s: Shared, r: Shared) {
    && r.head == s.head && r.tail == s.tail && r.cap == s.cap && |r.store| == |s.store|
    && r.consumer == s.consumer && r.published == s.published && r.released == s.released
  }

  lemma {:induction false} CopyAll(s: Shared, n: nat)
    requires 0 < s.cap <= |s.store| && s.producer.Copying? && s.producer.done + n <= |s.producer.data|
    ensures var r := Run(s, Times(CopyByte, n));
            OnlyCopied(s, r) && r.producer == s.producer.(done := s.producer.done + n)
  {
    if n > 0 {
      CopyAll(s, n - 1);
      TimesNext(s, CopyByte, n - 1);
      hide Run;
    }
  }

  lemma {:induction false} CopyNothing(s: Shared, n: nat)
    requires 0 < s.cap <= |s.store| && s.producer.Idle?
    ensures Run(s, Times(CopyByte, n)) == s
  {
    if n > 0 {
      CopyNothing(s, n - 1);
      TimesNext(s, CopyByte, n - 1);
    }
  }

  /** A call of `push`, step by step. */
  function Pushing(data: Bytes): seq<Action> {
    [BeginPush(data)] + ([CheckSpace] + (Times(CopyByte, |data|) + [Publish]))
  }

  /** A push that runs alone publishes all of its bytes exactly if they fit, and otherwise changes nothing. */
  lemma PushAlone(s: Shared, data: Bytes)
    requires Inv(s) && s.producer.Idle? && data != []
    ensures 0 < s.cap <= |s.store|
    ensures var r := Run(s, Pushing(data));
            var fits := |s.published| - |s.released| + |data| <= s.cap;
            && r.producer.Idle? && r.consumer == s.consumer && r.released == s.released && r.tail == s.tail
            && r.published == s.published + (if fits then data else []) && (!fits ==> r == s)
  {
    hide Run, Wrap32, Holds, Distance, PowerOfTwo, Inv, Times, Pushing;
    InvBounds(s);
    var s1 := Step(s, BeginPush(data));
    var s2 := Step(s1, CheckSpace);
    CheckAlone(s, data);
    PushingSteps(s, s1, s2, data);
    if s2.producer.Copying? {
      CopyAll(s2, |data|);
    } else {
      CopyNothing(s2, |data|);
      assert s.published + [] == s.published;
    }
  }

  lemma CheckAlone(s: Shared, data: Bytes)
    requires Inv(s) && s.producer.Idle? && data != []
    ensures 0 < s.cap <= |s.store|
    ensures Step(Step(s, BeginPush(data)), CheckSpace)
         == if |s.published| - |s.released| + |data| <= s.cap then s.(producer := Copying(data, s.head, 0)) else s
  {
    HoldsBounds(s.store, s.cap, s.published, |s.released|);
    hide Wrap32, Holds, Distance, PowerOfTwo;
    DistanceOfWrapped(|s.published|, |s.released|);
  }

  lemma PushingSteps(s: Shared, s1: Shared, s2: Shared, data: Bytes)
    requires 0 < s.cap <= |s.store| && s1 == Step(s, BeginPush(data)) && s2 == Step(s1, CheckSpace)
    ensures Run(s, Pushing(data)) == Step(Run(s2, Times(CopyByte, |data|)), Publish)
  {
    hide Step, Run, Times;
    var rest := Times(CopyByte, |data|) + [Publish];
    RunConcat(s, [BeginPush(data)], [CheckSpace] + rest);
    RunConcat(s1, [CheckSpace], rest);
    OneStep(s, BeginPush(data));
    OneStep(s1, CheckSpace);
    RunConcat(s2, Times(CopyByte, |data|), [Publish]);
    OneStep(Run(s2, Times(CopyByte, |data|)), Publish);
  }

  lemma {:induction false} ReadAllOf(s: Shared, n: nat)
    requires 0 < s.cap <= |s.store| && s.consumer.Reading? && |s.consumer.got| == 0 && n <= s.consumer.size
    requires s.tail % s.cap + s.consumer.size <= |s.store|
    ensures Run(s, Times(ReadByte, n)) == s.(consumer := Reading(s.consumer.size, s.store[s.tail % s.cap..s.tail % s.cap + n]))
  {
    if n > 0 {
      ReadAllOf(s, n - 1);
      TimesNext(s, ReadByte, n - 1);
      var k := s.tail % s.cap;
      assert s.store[k..k + n - 1] + [s.store[k + n - 1]] == s.store[k..k + n];
    } else {
      assert s.store[s.tail % s.cap..s.tail % s.cap + 0] == s.consumer.got;
    }
  }

  /** Draining what is readable in one piece, step by step. */
  function Taking(n: nat): seq<Action>
    requires n < TWO_32
  {
    [LoadHead] + ([MeasureRegion] + (Times(ReadByte, n) + ([BeginConsume(n)] + [Release])))
  }

  /** A drain that runs alone releases, in order, all that is published up to where the store wraps. */
  lemma TakeAlone(s: Shared)
    requires Inv(s) && s.consumer.Resting?
    ensures 0 < s.cap <= |s.store| && |s.released| <= |s.published| <= |s.released| + s.cap
    ensures var n := Contiguous(|s.released|, |s.published| - |s.released|, s.cap);
            && n < TWO_32 && (n > 0 <==> |s.published| > |s.released|)
            && var r := Run(s, Taking(n));
               r.consumer.Resting? && r.producer == s.producer && r.released == s.published[..|s.released| + n] && r.published == s.published
  {
    hide Step, Run, Wrap32, Holds, PowerOfTwo, Inv, Taking, Times, Contiguous, Distance;
    InvBounds(s);
    var t := |s.released|;
    var n := Contiguous(t, |s.published| - t, s.cap);
    MeasureAlone(s, n);
    var s1 := Step(s, LoadHead);
    var s2 := Step(s1, MeasureRegion);
    TakingSteps(s, s1, s2, n);
    if n > 0 {
      ReadAllOf(s2, n);
      ReleaseAlone(s, n);
    } else {
      NothingRead(s);
    }
  }

  lemma InvBounds(s: Shared)
    requires Inv(s)
    ensures 0 < s.cap <= |s.store| && |s.released| <= |s.published| <= |s.released| + s.cap
    ensures s.released == s.published[..|s.released|]
  {
    HoldsBounds(s.store, s.cap, s.published, |s.released|);
  }

  lemma MeasureAlone(s: Shared, n: nat)
    requires Inv(s) && s.consumer.Resting?
    requires 0 < s.cap <= |s.store| && |s.released| <= |s.published| <= |s.released| + s.cap
    requires n == Contiguous(|s.released|, |s.published| - |s.released|, s.cap)
    ensures n < TWO_32 && (n > 0 <==> |s.published| > |s.released|) && s.tail % s.cap + n <= |s.store|
    ensures |s.released| + n <= |s.published|
    ensures s.store[s.tail % s.cap..s.tail % s.cap + n] == s.published[|s.released|..|s.released| + n]
    ensures Step(Step(s, LoadHead), MeasureRegion) == if n > 0 then s.(consumer := Reading(n, [])) else s
  {
    WrapSlot(|s.released|, s.cap);
    HoldsPeek(s.store, s.cap, s.published, |s.released|);
    hide Wrap32, Holds, PowerOfTwo, Distance;
    DistanceOfWrapped(|s.published|, |s.released|);
  }

  lemma ReleaseAlone(s: Shared, n: nat)
    requires Inv(s) && s.consumer.Resting? && 0 < s.cap <= |s.store| && 0 < n < TWO_32
    requires |s.released| + n <= |s.published| <= |s.released| + s.cap
    ensures var got := s.published[|s.released|..|s.released| + n];
            var r := Step(Step(s.(consumer := Reading(n, got)), BeginConsume(n)), Release);
            r.consumer.Resting? && r.producer == s.producer && r.released == s.published[..|s.released| + n] && r.published == s.published
  {
    hide Wrap32, Holds, PowerOfTwo, Distance;
    DistanceOfWrapped(|s.published|, |s.released|);
    var t := |s.released|;
    var got := s.published[t..t + n];
    assert got[..n] == got && s.published[..t] + got == s.published[..t + n];
  }

  lemma NothingRead(s: Shared)
    requires 0 < s.cap <= |s.store| && s.consumer.Resting?
    ensures Step(Step(Run(s, Times(ReadByte, 0)), BeginConsume(0)), Release) == s
  {
  }

  lemma TakingSteps(s: Shared, s1: Shared, s2: Shared, n: nat)
    requires 0 < s.cap <= |s.store| && n < TWO_32 && s1 == Step(s, LoadHead) && s2 == Step(s1, MeasureRegion)
    ensures Run(s, Taking(n)) == Step(Step(Run(s2, Times(ReadByte, n)), BeginConsume(n)), Release)
  {
    hide Step;
    var last := [BeginConsume(n)] + [Release];
    RunConcat(s, [LoadHead], [MeasureRegion] + (Times(ReadByte, n) + last));
    RunConcat(s1, [MeasureRegion], Times(ReadByte, n) + last);
    OneStep(s, LoadHead);
    OneStep(s1, MeasureRegion);
    var s3 := Run(s2, Times(ReadByte, n));
    RunConcat(s2, Times(ReadByte, n), last);
    RunConcat(s3, [BeginConsume(n)], [Release]);
    OneStep(s3, BeginConsume(n));
    OneStep(Step(s3, BeginConsume(n)), Release);
  }
}
