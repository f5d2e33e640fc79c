/** The block writer: events are staged in one buffer and handed to a sink a frame at a time. */
module TraceWriting {
  import opened Basics
  import opened Trace
  import opened Ring
  import opened Stream
  import Crc32
  import Varint

  const MIN_BLOCK_BUFFER := 64
  /** Larger buffers would let the staging comparison wrap around 32 bits. */
  const MAX_BLOCK_BUFFER := 0xFFFF_FFF6
  const MAX_EVENT_BYTES := 31

  /**
   * The callback frames go to: a push into a ring, or, without one, any callback that takes each
   * chunk whole or not at all. `verdicts` says which calls the latter accepts; it is arbitrary.
   */
  class Sink {
    const ring: RingBuffer?
    const store: array?<u8>
    const verdicts: nat -> bool
    var calls: nat

    /** Everything accepted so far. */
    var out: Bytes

    /** What a ring has accepted is what this sink has. */
    ghost predicate Consistent()
      reads Footprint(this)
    {
      ring != null ==> ring.store == store && ring.Valid() && out == ring.pushed
    }

    /** Whether a chunk of `n` bytes would be accepted now. */
    ghost predicate Takes(n: nat)
      reads this, ring
    {
      if ring == null then verdicts(calls)
      else ring.store != null && |ring.pushed| - ring.popped + n <= ring.cap
    }

    constructor Callback(verdicts: nat -> bool)
      ensures Consistent() && this.verdicts == verdicts && ring == null && store == null && calls == 0 && out == []
    {
      this.verdicts := verdicts;
      ring, store, calls, out := null, null, 0, [];
    }

    constructor Into(ring: RingBuffer)
      requires ring.Valid() && ring.pushed == []
      ensures Consistent() && this.ring == ring && store == ring.store && out == []
    {
      this.ring, store := ring, ring.store;
      verdicts := _ => false;
      calls, out := 0, [];
    }

    method Write(data: Bytes) returns (ok: bool)
      requires Consistent() && 0 < |data| < TWO_32
      modifies Footprint(this)
      ensures Consistent() && ok == old(Takes(|data|)) && out == old(out) + (if ok then data else [])
      ensures Undrained(this) && (ring != null && ok ==> ring.drops == old(ring.drops))
    {
      if ring == null {
        ok := verdicts(calls);
      } else {
        ok := ring.Push(Some(data), |data|);
        assert data[..|data|] == data;
      }
      calls := calls + 1;
      out := if ok then out + data else out;
    }
  }

  ghost function Footprint(s: Sink?): set<object?> {
    if s == null then {} else {s, s.ring, s.store}
  }

  /** Writing takes nothing back, and nothing out of a ring. */
  twostate predicate Undrained(s: Sink?)
    reads Footprint(s)
  {
    s != null ==>
      && old(s.out) <= s.out
      && (s.ring != null ==> s.ring.popped == old(s.ring.popped) && s.ring.cap == old(s.ring.cap) && s.ring.store == old(s.ring.store))
  }

  datatype WriteError = BegunTwice | NullSinkOrBuffer | BufferTooSmall | SinkRejected | NonMonotonic

  /** Whether `payload`, the bytes in the buffer, and the predictor account for the staged events. */
  ghost predicate Books(blocks: seq<Block>, staged: seq<Event>, payload: Bytes, last: Predictor) {
    && Sound(blocks) && Recordable(Predict(blocks), staged)
    && payload == EncodeEvents(Predict(blocks), staged)
    && last == AdvanceAll(Predict(blocks), staged)
  }

  /** A payload that stays inside a block buffer fits its length field. */
  lemma BooksFlush(blocks: seq<Block>, staged: seq<Event>, payload: Bytes, last: Predictor, accepted: bool)
    requires Books(blocks, staged, payload, last) && payload != [] && |payload| + BLOCK_OVERHEAD < TWO_32
    ensures staged != [] && FitsFrame(Predict(blocks), staged)
    ensures Books(blocks + [Block(staged, accepted)], [], [], last)
    ensures Flatten(blocks + [Block(staged, accepted)]) == Flatten(blocks) + staged
    ensures Frames(blocks + [Block(staged, accepted)]) == Frames(blocks) + (if accepted then Frame(Wrap32(|blocks|), payload) else [])
    ensures CountLost(blocks + [Block(staged, accepted)]) == CountLost(blocks) + (if accepted then 0 else 1)
  {
    hide Frame, EncodeEvent;
    Snoc(blocks, Block(staged, accepted));
    assert Frames(blocks) + [] == Frames(blocks);
  }

  lemma BooksStage(blocks: seq<Block>, staged: seq<Event>, payload: Bytes, last: Predictor, e: Event)
    requires Books(blocks, staged, payload, last) && WellFormed(e) && last.ts <= e.ts
    ensures Books(blocks, staged + [e], payload + EncodeEvent(last, e), Advance(last, e))
  {
    hide EncodeEvent, EncodeEvents;
    EventsSnoc(Predict(blocks), staged, e);
  }

  lemma BooksEmpty(blocks: seq<Block>, staged: seq<Event>, payload: Bytes, last: Predictor)
    requires Books(blocks, staged, payload, last)
    ensures payload == [] <==> staged == []
  {
    if staged != [] {
      EventSize(Predict(blocks), staged[0]);
    }
  }

  /** The buffer after the length, the number and the checksum have been written around a payload. */
  lemma FrameInBuffer(b0: Bytes, b1: Bytes, b2: Bytes, b3: Bytes, used: nat, number: u32)
    requires 8 + used + 4 <= |b0| && used < TWO_32
    requires b1 == Overwrite(b0, 0, PutU32(used)) && b2 == Overwrite(b1, 4, PutU32(number))
    requires b3 == Overwrite(b2, 8 + used, Trailer(b2[4..8 + used]))
    ensures b3[..12 + used] == Frame(number, b0[8..8 + used])
  {
    hide PutU32, Trailer;
    var payload := b0[8..8 + used];
    assert b2[4..8 + used] == PutU32(number) + payload;
    OverwritePrefix(b2, 8 + used, Trailer(b2[4..8 + used]));
    assert b2[..8 + used] == PutU32(used) + (PutU32(number) + payload);
  }

  lemma Nest(a: Bytes, b: Bytes, c: Bytes, d: Bytes)
    ensures a + b + c + d == a + (b + (c + d))
    ensures a + b + c + [] == a + b + c && b + [] == b && c + [] == c && a + b + [] == a + b
  {
  }

  lemma EmptyBooks()
    ensures Books([], [], [], START) && Sound([]) && Flatten([]) == [] && CountLost([]) == 0 && Frames([]) == []
    ensures Wrap32(0) == 0 && Wrap64(0) == 0
  {
  }

  lemma StopWellFormed(ts: u64)
    ensures WellFormed(Event(Stop, ts, 0, 0))
  {
  }

  class TraceWriter {
    var sink: Sink?
    var buf: array?<u8>
    var cap: nat
    var used: nat
    var lastTs: nat
    var lastAddr: u32
    var blockSeq: u32
    var blocksLost: u32
    var events: u32
    var bytes: u64
    var flags: u16
    var ok: bool
    var started: bool
    var finished: bool
    var error: Option<WriteError>

    /** What the sink held before the first block: the header, if it was accepted. */
    ghost var prefix: Bytes
    /** How many bytes the sink held before this writer began. */
    ghost var base: nat
    ghost var blocks: seq<Block>
    ghost var staged: seq<Event>

    /** Every event handed over so far, in order. */
    ghost function History(): seq<Event>
      reads this
    {
      Flatten(blocks) + staged
    }

    ghost function Last(): Predictor
      reads this
    {
      Predictor(lastTs, lastAddr)
    }

    /** The buffer and the counters match the blocks; so does the sink until the trace is finished. */
    ghost predicate Shape()
      reads this, buf, Footprint(sink)
    {
      && sink != null && sink.Consistent() && buf != null && buf != sink.store && cap == buf.Length && MIN_BLOCK_BUFFER <= cap <= MAX_BLOCK_BUFFER
      && used + BLOCK_OVERHEAD <= cap
      && Sound(blocks) && blockSeq == Wrap32(|blocks|) && blocksLost == Wrap32(CountLost(blocks))
      && events == Wrap32(|Flatten(blocks)| + |staged|)
      && (!finished ==> sink.out == prefix + Frames(blocks))
      && base <= |sink.out| && bytes == Wrap64(|sink.out| - base)
    }

    ghost predicate Valid()
      reads this, buf, Footprint(sink)
    {
      started ==> Shape() && Books(blocks, staged, buf[8..8 + used], Last())
    }

    /** If nothing at all was refused, the ring has nothing to count. */
    twostate predicate Undropped()
      reads this, Footprint(sink)
    {
      sink == old(sink) && (sink != null && sink.ring != null && ok && AllAccepted(blocks) ==> sink.ring.drops == old(sink.ring.drops))
    }

    /** Everything that blocks and staging leave alone. */
    twostate predicate Wiring()
      reads this, Footprint(sink)
    {
      && sink == old(sink) && buf == old(buf) && cap == old(cap) && flags == old(flags)
      && started == old(started) && prefix == old(prefix) && base == old(base) && Undrained(sink) && Undropped()
      && old(blocks) <= blocks && (ok ==> old(ok))
    }

    /** Nothing was lost so far, and the sink is one that never refuses. */
    ghost predicate Lossless()
      reads this
    {
      sink != null && sink.ring == null && (forall k :: sink.verdicts(k)) && AllAccepted(blocks)
    }

    constructor ()
      ensures Valid() && !started && !ok && !finished && error.None? && blocks == [] && staged == [] && sink == null
    {
      sink, buf, cap, used := null, null, 0, 0;
      lastTs, lastAddr, blockSeq, blocksLost, events, bytes, flags := 0, 0, 0, 0, 0, 0, 0;
      ok, started, finished, error := false, false, false, None;
      prefix, base, blocks, staged := [], 0, [], [];
    }

    method Fail(e: WriteError)
      modifies this`error, this`ok
      ensures !ok && error == (if old(error).None? then Some(e) else old(error))
    {
      if error.None? {
        error := Some(e);
      }
      ok := false;
    }

    /** Installs the sink and the buffer and emits the trace header. */
    method Begin(s: Sink?, buffer: array?<u8>, buildId: u64, seed: u64, f: u16) returns (r: bool)
      requires Valid() && (buffer != null ==> buffer.Length <= MAX_BLOCK_BUFFER)
      requires s != null ==> s.Consistent() && buffer != s.store
      modifies this, Footprint(s)
      ensures r && s != null && s.ring != null ==> s.ring.drops == old(s.ring.drops)
      ensures Undrained(s)
      ensures s != null ==> s.Consistent()
      ensures !started ==> sink == old(sink)
      ensures !old(started) && started ==> s != null && sink == s && base == |old(s.out)| && !finished
      ensures Valid()
      ensures r <==> (!old(started) && s != null && buffer != null && buffer.Length >= MIN_BLOCK_BUFFER
                    && old(s.Takes(HEADER_SIZE)))
      ensures r ==> started && ok && !finished && sink == s && buf == buffer && flags == f && History() == [] && blocks == []
      ensures r ==> lastTs == 0
      ensures r ==> prefix == old(s.out) + EncodeHeader(f, buildId, seed) && sink.out == prefix && bytes == HEADER_SIZE
      ensures !r ==> !ok && (s != null ==> s.out == old(s.out))
    {
      hide EncodeHeader, Sound, CountLost, EncodeEvents, Recordable, Predict, Wrap32, Wrap64, Frames, Books;
      if started {
        Fail(BegunTwice);
        return false;
      }
      if s == null || buffer == null {
        Fail(NullSinkOrBuffer);
        return false;
      }
      if buffer.Length < MIN_BLOCK_BUFFER {
        Fail(BufferTooSmall);
        return false;
      }
      r := StartTrace(s, buffer, buildId, seed, f);
    }

    method StartTrace(s: Sink, buffer: array<u8>, buildId: u64, seed: u64, f: u16) returns (r: bool)
      requires s.Consistent() && buffer != s.store
      requires MIN_BLOCK_BUFFER <= buffer.Length <= MAX_BLOCK_BUFFER
      modifies this, Footprint(s)
      ensures r && s.ring != null ==> s.ring.drops == old(s.ring.drops)
      ensures Undrained(s)
      ensures Valid() && started && !finished && sink == s && buf == buffer && flags == f && blocks == [] && staged == []
      ensures base == |old(s.out)|
      ensures r == ok == old(s.Takes(HEADER_SIZE))
      ensures prefix == s.out == old(s.out) + (if r then EncodeHeader(f, buildId, seed) else [])
      ensures lastTs == 0
      ensures r ==> bytes == HEADER_SIZE
    {
      hide Sink.Consistent, Sink.Takes;
      hide EncodeHeader, Sound, CountLost, Flatten, EncodeEvents, Recordable, Predict, Wrap32, Frames, Books;
      Arm(s, buffer, f);
      r := EmitHeader(EncodeHeader(f, buildId, seed));
    }

    method EmitHeader(header: Bytes) returns (r: bool)
      requires Valid() && Accepting() && blocks == [] && staged == [] && bytes == 0 && base == |sink.out|
      requires |header| == HEADER_SIZE
      modifies this`error, this`ok, this`bytes, this`prefix, Footprint(sink)
      ensures Valid() && r == ok == old(sink.Takes(HEADER_SIZE)) && Undrained(sink)
      ensures r && sink.ring != null ==> sink.ring.drops == old(sink.ring.drops)
      ensures prefix == sink.out == old(sink.out) + (if r then header else []) && (r ==> bytes == HEADER_SIZE)
    {
      hide Sink.Takes, Sound, CountLost, Flatten, EncodeEvents, Recordable, Predict, Wrap32, Frames, Books;
      EmptyBooks();
      r := Emit(header);
      prefix := sink.out;
    }

    method Arm(s: Sink, buffer: array<u8>, f: u16)
      requires s.Consistent() && buffer != s.store
      requires MIN_BLOCK_BUFFER <= buffer.Length <= MAX_BLOCK_BUFFER
      modifies this
      ensures sink == s && buf == buffer && flags == f && started && ok && !finished && bytes == 0
      ensures lastTs == 0
      ensures blocks == [] && staged == [] && prefix == s.out && base == |s.out| && Valid()
    {
      hide Sound, CountLost, Flatten, EncodeEvents, Recordable, Predict, Wrap32, Wrap64, Frames, Books;
      EmptyBooks();
      ClearCounters();
      Connect(s, buffer, f);
      prefix, base, blocks, staged := s.out, |s.out|, [], [];
      assert buf[8..8 + used] == [];
    }

    method Connect(s: Sink, buffer: array<u8>, f: u16)
      modifies this`sink, this`buf, this`cap, this`flags, this`ok, this`started, this`finished
      ensures sink == s && buf == buffer && cap == buffer.Length && flags == f && ok && started && !finished
    {
      sink, buf, cap, flags := s, buffer, buffer.Length, f;
      ok, started, finished := true, true, false;
    }

    method ClearCounters()
      modifies this`used, this`lastTs, this`lastAddr, this`blockSeq, this`blocksLost, this`events, this`bytes
      ensures used == lastTs == lastAddr == blockSeq == blocksLost == events == bytes == 0
    {
      used, lastTs, lastAddr, blockSeq, blocksLost, events, bytes := 0, 0, 0, 0, 0, 0, 0;
    }

    /** Hands the header or the terminator to the sink; here a refusal is fatal. */
    method Emit(data: Bytes) returns (r: bool)
      requires sink != null && sink.Consistent() && 0 < |data| < TWO_32
      modifies this`error, this`ok, this`bytes, Footprint(sink)
      ensures r && sink.ring != null ==> sink.ring.drops == old(sink.ring.drops)
      ensures Undrained(sink)
      ensures sink.Consistent() && r == old(sink.Takes(|data|))
      ensures sink.out == old(sink.out) + (if r then data else [])
      ensures ok == (old(ok) && r) && bytes == (if r then Wrap64(old(bytes) + |data|) else old(bytes))
    {
      r := sink.Write(data);
      if !r {
        Fail(SinkRejected);
        return;
      }
      bytes := Wrap64(bytes + |data|);
    }

    /** Frames what is staged and hands it to the sink; a refused block is counted, not an error. */
    method FlushBlock()
      requires Valid() && started && !finished
      modifies this`used, this`blockSeq, this`blocksLost, this`bytes, this`blocks, this`staged, buf, Footprint(sink)
      ensures Undropped() && old(blocks) <= blocks
      ensures Undrained(sink)
      ensures Valid() && Flatten(blocks) == old(History()) && staged == []
      ensures old(staged) == [] ==> blocks == old(blocks) && sink.out == old(sink.out)
      ensures old(staged) != [] ==> blocks == old(blocks) + [Block(old(staged), old(sink.Takes(BLOCK_OVERHEAD + used)))]
    {
      hide Sink.Consistent, Sink.Takes;
      hide Frame, EncodeEvents, Flatten, Recordable, CountLost, Sound, Frames, Wrap32, Wrap64;
      BooksEmpty(blocks, staged, buf[8..8 + used], Last());
      if used == 0 {
        return;
      }
      ghost var payload := buf[8..8 + used];
      var total := BLOCK_OVERHEAD + used;
      var accepted := OfferFrame(payload);
      CloseBlock(total, accepted, payload);
    }

    /** Completes the frame in the buffer and offers it to the sink. */
    method OfferFrame(ghost payload: Bytes) returns (accepted: bool)
      requires sink != null && sink.Consistent() && buf != null && buf != sink.store
      requires 0 < used && used + BLOCK_OVERHEAD <= buf.Length <= MAX_BLOCK_BUFFER && payload == buf[8..8 + used]
      modifies buf, Footprint(sink)
      ensures sink.Consistent() && Undrained(sink) && accepted == old(sink.Takes(BLOCK_OVERHEAD + used))
      ensures sink.out == old(sink.out) + (if accepted then Frame(blockSeq, payload) else [])
      ensures sink.ring != null && accepted ==> sink.ring.drops == old(sink.ring.drops)
    {
      hide Frame, Sink.Consistent, Sink.Takes;
      BuildFrame(buf, used, blockSeq);
      accepted := sink.Write(buf[..BLOCK_OVERHEAD + used]);
    }

    /** The books after the frame around `payload` went to the sink. */
    method CloseBlock(total: nat, accepted: bool, ghost payload: Bytes)
      requires started && !finished && sink != null && sink.Consistent() && buf != null && buf != sink.store && cap == buf.Length
      requires MIN_BLOCK_BUFFER <= cap <= MAX_BLOCK_BUFFER && used + BLOCK_OVERHEAD <= cap
      requires payload != [] && |payload| == used && total == BLOCK_OVERHEAD + used
      requires Books(blocks, staged, payload, Last())
      requires blockSeq == Wrap32(|blocks|) && blocksLost == Wrap32(CountLost(blocks))
      requires events == Wrap32(|Flatten(blocks)| + |staged|)
      requires sink.out == prefix + Frames(blocks) + (if accepted then Frame(blockSeq, payload) else [])
      requires base <= |sink.out| - (if accepted then total else 0)
      requires bytes == Wrap64(|sink.out| - (if accepted then total else 0) - base)
      modifies this`used, this`blockSeq, this`blocksLost, this`bytes, this`blocks, this`staged
      ensures Valid() && Flatten(blocks) == old(History())
      ensures blocks == old(blocks) + [Block(old(staged), accepted)] && staged == []
    {
      hide Frame, Frames, Sound, Predict, EncodeEvents, Flatten, Recordable, CountLost, Wrap32, Wrap64;
      WrapAdd32(|blocks|, 1);
      WrapAdd32(CountLost(blocks), 1);
      WrapAdd64(|sink.out| - (if accepted then total else 0) - base, total);
      BooksFlush(blocks, staged, payload, Last(), accepted);
      Associate(Frames(blocks + [Block(staged, accepted)]), prefix, Frames(blocks), if accepted then Frame(blockSeq, payload) else []);
      CountBlock(total, accepted);
      blocks := blocks + [Block(staged, accepted)];
      staged := [];
      assert buf[8..8 + used] == [];
    }

    method CountBlock(total: nat, accepted: bool)
      modifies this`used, this`blockSeq, this`blocksLost, this`bytes
      ensures used == 0 && blockSeq == Wrap32(old(blockSeq) + 1)
      ensures bytes == (if accepted then Wrap64(old(bytes) + total) else old(bytes))
      ensures blocksLost == (if accepted then old(blocksLost) else Wrap32(old(blocksLost) + 1))
    {
      if accepted {
        bytes := Wrap64(bytes + total);
      } else {
        blocksLost := Wrap32(blocksLost + 1);
      }
      blockSeq := Wrap32(blockSeq + 1);
      used := 0;
    }

    /** Completes the frame around a payload that already lies in the buffer. */
    static method BuildFrame(b: array<u8>, used: nat, number: u32)
      requires 8 + used + 4 <= b.Length && used < TWO_32
      modifies b
      ensures b[..BLOCK_OVERHEAD + used] == Frame(number, old(b[8..8 + used]))
    {
      hide Frame, PutU32, Trailer, Overwrite;
      ghost var b0 := b[..];
      PutU32Le(b, 0, used);
      ghost var b1 := b[..];
      PutU32Le(b, 4, number);
      ghost var b2 := b[..];
      PutChecksum(b, used);
      FrameInBuffer(b0, b1, b2, b[..], used, number);
      assert b0[8..8 + used] == old(b[8..8 + used]);
    }

    /** The checksum covers the sequence number and the payload. */
    static method PutChecksum(b: array<u8>, used: nat)
      requires 8 + used + 4 <= b.Length
      modifies b
      ensures b[..] == Overwrite(old(b[..]), 8 + used, Trailer(old(b[..])[4..8 + used]))
    {
      var crc := Crc32.UpdateLoop(Crc32.INIT, b[4..8 + used]);
      var word := Crc32.PutWord(Crc32.Final(crc));
      assert word == Trailer(b[4..8 + used]);
      CopyBytes(b, 8 + used, word);
    }

    /** The bytes of one event, varint by varint into a scratch buffer. */
    static method EncodeScratch(e: Event, last: Predictor) returns (s: Bytes)
      requires WellFormed(e) && last.ts <= e.ts
      ensures s == EncodeEvent(last, e)
    {
      hide Varint.Encode, Varint.Zigzag;
      var scratch := new u8[MAX_EVENT_BYTES](_ => 0);
      scratch[0] := Code(e.kind);
      var head := [Code(e.kind)];
      assert scratch[..1] == head;
      ghost var delta := Varint.Encode(e.ts - last.ts);
      var n := Append(scratch, 1, e.ts - last.ts);
      if e.kind.IsMmio() {
        ghost var addr := Varint.Encode(Varint.Zigzag(e.addr - last.addr));
        n := Append(scratch, n, Varint.Zigzag(e.addr - last.addr));
        n := Append(scratch, n, e.value);
        Nest(head, delta, addr, Varint.Encode(e.value));
      } else if !e.kind.Stop? {
        n := Append(scratch, n, e.addr);
        if e.kind.IrqAt? {
          n := Append(scratch, n, e.value);
          Nest(head, delta, Varint.Encode(e.addr), Varint.Encode(e.value));
        } else {
          Nest(head, delta, Varint.Encode(e.addr), []);
        }
      } else {
        Nest(head, delta, [], []);
      }
      s := scratch[..n];
    }

    static method Append(scratch: array<u8>, n: nat, v: u64) returns (m: nat)
      requires n + Varint.MAX_BYTES <= scratch.Length
      modifies scratch
      ensures m == n + |Varint.Encode(v)| <= n + Varint.MAX_BYTES
      ensures scratch[..m] == old(scratch[..n]) + Varint.Encode(v)
    {
      hide Varint.Encode;
      ghost var start := scratch[..];
      var k := Varint.EncodeInto(v, scratch, n);
      m := n + k;
      OverwritePrefix(start, n, Varint.Encode(v));
      assert start[..n] == old(scratch[..n]);
    }

    /** One more encoded event behind the staged ones; if the block would overflow, they go out before it. */
    method Stage(s: Bytes, ghost e: Event)
      requires Valid() && started && !finished && WellFormed(e) && lastTs <= e.ts && s == EncodeEvent(Last(), e)
      modifies this`used, this`blockSeq, this`blocksLost, this`bytes, this`blocks, this`staged, this`events, buf, Footprint(sink)
      ensures Undropped() && old(blocks) <= blocks
      ensures Undrained(sink)
      ensures Shape() && Books(blocks, staged, buf[8..8 + used], Advance(Last(), e))
      ensures History() == old(History()) + [e]
      ensures if old(used) + |s| > old(cap) - BLOCK_OVERHEAD
              then blocks == old(blocks) + [Block(old(staged), old(sink.Takes(BLOCK_OVERHEAD + used)))] && staged == [e]
              else blocks == old(blocks) && staged == old(staged) + [e] && sink.out == old(sink.out)
    {
      hide Sink.Consistent, Sink.Takes;
      hide EncodeEvent, EncodeEvents, Frames, Sound, Flatten, CountLost, Wrap32, Wrap64, Recordable, Books;
      EventSize(Last(), e);
      BooksEmpty(blocks, staged, buf[8..8 + used], Last());
      if used + |s| > cap - BLOCK_OVERHEAD {
        FlushBlock();
        BooksEmpty(blocks, staged, buf[8..8 + used], Last());
      }
      ghost var before := History();
      StageBytes(s, e);
      assert History() == before + [e];
    }

    method StageBytes(s: Bytes, ghost e: Event)
      requires Valid() && started && !finished && WellFormed(e) && lastTs <= e.ts && s == EncodeEvent(Last(), e)
      requires used + |s| <= cap - BLOCK_OVERHEAD
      modifies this`used, this`staged, this`events, buf
      ensures Shape() && Books(blocks, staged, buf[8..8 + used], Advance(Last(), e))
      ensures staged == old(staged) + [e]
    {
      hide EncodeEvent, EncodeEvents, Frames, Sound, Flatten, CountLost, Wrap32, Wrap64, Recordable;
      ghost var payload, start := buf[8..8 + used], buf[..];
      CopyBytes(buf, 8 + used, s);
      OverwritePrefix(start, 8 + used, s);
      assert buf[8..8 + used + |s|] == payload + s;
      BooksStage(blocks, staged, payload, Last(), e);
      WrapAdd32(|Flatten(blocks)| + |staged|, 1);
      used := used + |s|;
      events := Wrap32(events + 1);
      staged := staged + [e];
    }

    /** Whether another event would be taken at all. */
    predicate Accepting()
      reads this
    {
      ok && started && !finished
    }

    /** The common part of all event entry points. */
    method Record(e: Event) returns (r: bool)
      requires Valid() && WellFormed(e)
      modifies this, buf, Footprint(sink)
      ensures Valid() && Wiring() && finished == old(finished)
      ensures r == (old(Accepting()) && old(lastTs) <= e.ts)
      ensures ok == (if old(Accepting()) then r else old(ok))
      ensures lastTs == (if r then e.ts else old(lastTs))
      ensures r ==> History() == old(History()) + [e]
      ensures !r ==> History() == old(History()) && blocks == old(blocks) && (sink != null ==> sink.out == old(sink.out))
      ensures r ==> if old(used) + |EncodeEvent(old(Last()), e)| > cap - BLOCK_OVERHEAD
                    then blocks == old(blocks) + [Block(old(staged), old(sink.Takes(BLOCK_OVERHEAD + used)))]
                    else blocks == old(blocks)
    {
      hide Sink.Takes, EncodeEvent, EncodeEvents, Frames, Sound, CountLost, Wrap32, Wrap64, Books, Flatten, WellFormed;
      if !ok || !started || finished {
        return false;
      }
      if e.ts < lastTs {
        Fail(NonMonotonic);
        return false;
      }
      RecordInTime(e);
      r := true;
    }

    /** An event that is not earlier than the last one. */
    method RecordInTime(e: Event)
      requires Valid() && Accepting() && WellFormed(e) && lastTs <= e.ts
      modifies this`used, this`blockSeq, this`blocksLost, this`bytes, this`blocks, this`staged, this`events
      modifies this`lastTs, this`lastAddr, buf, Footprint(sink)
      ensures Valid() && Undrained(sink) && Undropped() && old(blocks) <= blocks
      ensures lastTs == e.ts && History() == old(History()) + [e]
      ensures if old(used) + |EncodeEvent(old(Last()), e)| > cap - BLOCK_OVERHEAD
              then blocks == old(blocks) + [Block(old(staged), old(sink.Takes(BLOCK_OVERHEAD + used)))]
              else blocks == old(blocks)
    {
      hide Sink.Consistent, Sink.Takes;
      hide EncodeEvent, EncodeEvents, Frames, Sound, CountLost, Wrap32, Wrap64, Recordable, Predict, Flatten, WellFormed;
      var s := EncodeScratch(e, Predictor(lastTs, lastAddr));
      Stage(s, e);
      Remember(e);
    }

    /** Moves the predictor past an event that has been staged. */
    method Remember(e: Event)
      requires started && Shape() && Books(blocks, staged, buf[8..8 + used], Advance(Last(), e))
      modifies this`lastTs, this`lastAddr
      ensures Valid() && lastTs == e.ts
    {
      hide EncodeEvents, Frames, Sound, CountLost, Wrap32, Wrap64, Recordable, Predict, Flatten, Books;
      lastTs := e.ts;
      if e.kind.IsMmio() {
        lastAddr := e.addr;
      }
    }

    method MmioRead(ts: u64, addr: u32, value: u32) returns (r: bool)
      requires Valid()
      modifies this, buf, Footprint(sink)
      ensures old(Lossless()) ==> Lossless()
      ensures Valid() && Wiring() && finished == old(finished) && r == (old(Accepting()) && old(lastTs) <= ts)
      ensures ok == (if old(Accepting()) then r else old(ok))
      ensures lastTs == (if r then ts else old(lastTs))
      ensures History() == old(History()) + (if r then [Event(Kind.MmioRead, ts, addr, value)] else [])
    {
      hide EncodeEvent, EncodeEvents, Frames, Sound, CountLost, Wrap32, Wrap64, Recordable, Predict, Flatten, Books;
      r := Record(Event(Kind.MmioRead, ts, addr, value));
    }

    /** Writes are output: without the flag they are dropped here, and the call still succeeds. */
    method MmioWrite(ts: u64, addr: u32, value: u32) returns (r: bool)
      requires Valid()
      modifies this, buf, Footprint(sink)
      ensures old(Lossless()) ==> Lossless()
      ensures Valid() && Wiring() && finished == old(finished)
      ensures flags % 2 == 0 ==> r == ok == old(ok) && History() == old(History())
      ensures flags % 2 == 1 ==> r == (old(Accepting()) && old(lastTs) <= ts)
      ensures flags % 2 == 1 ==> ok == (if old(Accepting()) then r else old(ok))
      ensures lastTs == (if flags % 2 == 1 && r then ts else old(lastTs))
      ensures flags % 2 == 1 ==> History() == old(History()) + (if r then [Event(Kind.MmioWrite, ts, addr, value)] else [])
    {
      hide EncodeEvent, EncodeEvents, Frames, Sound, CountLost, Wrap32, Wrap64, Recordable, Predict, Flatten, Books;
      if flags % 2 == 0 {
        return ok;
      }
      r := Record(Event(Kind.MmioWrite, ts, addr, value));
    }

    method IrqEnter(ts: u64, vector: u32) returns (r: bool)
      requires Valid()
      modifies this, buf, Footprint(sink)
      ensures old(Lossless()) ==> Lossless()
      ensures Valid() && Wiring() && finished == old(finished) && r == (old(Accepting()) && old(lastTs) <= ts)
      ensures ok == (if old(Accepting()) then r else old(ok))
      ensures lastTs == (if r then ts else old(lastTs))
      ensures History() == old(History()) + (if r then [Event(Kind.IrqEnter, ts, vector, 0)] else [])
    {
      hide EncodeEvent, EncodeEvents, Frames, Sound, CountLost, Wrap32, Wrap64, Recordable, Predict, Flatten, Books;
      r := Record(Event(Kind.IrqEnter, ts, vector, 0));
    }

    method IrqEnterAt(ts: u64, vector: u32, returnPc: u32) returns (r: bool)
      requires Valid()
      modifies this, buf, Footprint(sink)
      ensures old(Lossless()) ==> Lossless()
      ensures Valid() && Wiring() && finished == old(finished) && r == (old(Accepting()) && old(lastTs) <= ts)
      ensures ok == (if old(Accepting()) then r else old(ok))
      ensures lastTs == (if r then ts else old(lastTs))
      ensures History() == old(History()) + (if r then [Event(Kind.IrqAt, ts, vector, returnPc)] else [])
    {
      hide EncodeEvent, EncodeEvents, Frames, Sound, CountLost, Wrap32, Wrap64, Recordable, Predict, Flatten, Books;
      r := Record(Event(Kind.IrqAt, ts, vector, returnPc));
    }

    /** Records the end of the run, flushes what is staged and writes the terminator. */
    method Finish(ts: u64) returns (r: bool)
      requires Valid()
      modifies this, buf, Footprint(sink)
      ensures old(Lossless()) ==> Lossless()
      ensures old(Accepting()) && old(lastTs) <= ts && old(Lossless()) ==> r
      ensures Valid() && Wiring() && finished == (old(finished) || started)
      ensures !started || old(finished) ==>
                History() == old(History()) && lastTs == old(lastTs) && ok == old(ok) && (sink != null ==> sink.out == old(sink.out))
      ensures started && !old(finished) ==>
                Sound(blocks) && sink.out == prefix + Frames(blocks) + (if r then PutU32(0) else [])
      ensures old(Accepting()) && old(lastTs) <= ts ==> Flatten(blocks) == old(History()) + [Event(Stop, ts, 0, 0)]
      ensures !(old(Accepting()) && old(lastTs) <= ts) ==> !r && blocks == old(blocks)
      ensures started && !old(finished) ==> r == ok
    {
      hide Sink.Consistent;
      hide Frames, Sound, Wrap32, Wrap64, Books, CountLost, PutU32, Flatten;
      if !started || finished {
        return false;
      }
      if ok {
        r := FinishHealthy(ts);
      } else {
        CloseUnfinished();
        r := false;
      }
    }

    /** What is staged stays behind, and there is no terminator. */
    method CloseUnfinished()
      requires Valid() && started && !finished
      modifies this`finished
      ensures Valid() && finished && Sound(blocks) && sink.out == prefix + Frames(blocks)
    {
      hide Sound, Frames, Wrap32, Wrap64, CountLost, Books, Flatten;
      finished := true;
    }

    method FinishHealthy(ts: u64) returns (r: bool)
      requires Valid() && Accepting()
      modifies this, buf, Footprint(sink)
      ensures old(Lossless()) ==> Lossless()
      ensures old(lastTs) <= ts && old(Lossless()) ==> r
      ensures Valid() && Wiring() && finished && r == ok
      ensures Sound(blocks) && sink.out == prefix + Frames(blocks) + (if r then PutU32(0) else [])
      ensures old(lastTs) <= ts ==> Flatten(blocks) == old(History()) + [Event(Stop, ts, 0, 0)]
      ensures old(lastTs) > ts ==> !r && blocks == old(blocks)
    {
      hide Sink.Consistent;
      hide Frame, Frames, Sound, Wrap32, Wrap64, Books, CountLost, PutU32, Flatten, WellFormed, EncodeEvent, Predict;
      StopWellFormed(ts);
      r := Record(Event(Stop, ts, 0, 0));
      if r {
        r := FlushAndTerminate();
      } else {
        CloseUnfinished();
      }
    }

    method FlushAndTerminate() returns (r: bool)
      requires Valid() && Accepting()
      modifies this`used, this`blockSeq, this`blocksLost, this`bytes, this`blocks, this`staged, buf, Footprint(sink)
      modifies this`error, this`ok, this`finished
      ensures old(Lossless()) ==> Lossless()
      ensures old(Lossless()) ==> r
      ensures Undropped() && old(blocks) <= blocks
      ensures Undrained(sink)
      ensures Valid() && finished && r == ok
      ensures Flatten(blocks) == old(History()) && staged == []
      ensures sink.out == prefix + Frames(blocks) + (if r then PutU32(0) else [])
    {
      hide Frames, Sound, CountLost, PutU32, Books, Flatten;
      FlushBlock();
      r := Terminate();
    }

    method Terminate() returns (r: bool)
      requires Valid() && started && !finished && ok
      modifies this`error, this`ok, this`bytes, this`finished, Footprint(sink)
      ensures r == old(sink.Takes(4))
      ensures Undropped() && old(blocks) <= blocks
      ensures Undrained(sink)
      ensures Valid() && finished && r == ok
      ensures sink.out == prefix + Frames(blocks) + (if r then PutU32(0) else [])
    {
      hide Frames, Sound, Wrap32, Wrap64, CountLost, PutU32, Books;
      WrapAdd64(|sink.out| - base, 4);
      finished := true;
      r := Emit(PutU32(0));
    }
  }
}
