/** The trace format: events, blocks and the header. */
module Trace {
  import opened Basics
  import Crc32
  import Varint

  const MAGIC: u32 := 0x444E_5752
  const VERSION: u16 := 3
  const MIN_VERSION: u16 := 2
  const HEADER_SIZE := 32
  const BLOCK_OVERHEAD := 12
  const FLAG_RECORD_WRITES: u16 := 1

  datatype Kind = MmioRead | MmioWrite | IrqEnter | Stop | IrqAt {
    predicate IsMmio() {
      MmioRead? || MmioWrite?
    }

    predicate IsIrq() {
      IrqEnter? || IrqAt?
    }
  }

  function Code(k: Kind): u8 {
    match k
    case MmioRead => 1
    case MmioWrite => 2
    case IrqEnter => 3
    case Stop => 4
    case IrqAt => 5
  }

  /** `addr` is the vector number of an interrupt; `value` its return address, if it was recorded. */
  datatype Event = Event(kind: Kind, ts: nat, addr: u32, value: u32)

  /** An event one of the writer's entry points can produce. */
  predicate WellFormed(e: Event) {
    && e.ts < TWO_64
    && (e.kind.IrqEnter? ==> e.value == 0)
    && (e.kind.Stop? ==> e.addr == 0 && e.value == 0)
  }

  /** What both ends of the delta coding remember: the last timestamp and the last MMIO address. */
  datatype Predictor = Predictor(ts: nat, addr: u32)

  const START := Predictor(0, 0)

  function Advance(p: Predictor, e: Event): Predictor {
    Predictor(e.ts, if e.kind.IsMmio() then e.addr else p.addr)
  }

  function Arguments(p: Predictor, e: Event): Bytes {
    match e.kind
    case MmioRead => Varint.Encode(Varint.Zigzag(e.addr - p.addr)) + Varint.Encode(e.value)
    case MmioWrite => Varint.Encode(Varint.Zigzag(e.addr - p.addr)) + Varint.Encode(e.value)
    case IrqEnter => Varint.Encode(e.addr)
    case Stop => []
    case IrqAt => Varint.Encode(e.addr) + Varint.Encode(e.value)
  }

  function EncodeEvent(p: Predictor, e: Event): Bytes
    requires p.ts <= e.ts
  {
    [Code(e.kind)] + (Varint.Encode(e.ts - p.ts) + Arguments(p, e))
  }

  /** Every staged event is at most 21 bytes, well inside the 31 the format reserves for one. */
  lemma EventSize(p: Predictor, e: Event)
    requires WellFormed(e) && p.ts <= e.ts
    ensures 2 <= |EncodeEvent(p, e)| <= 21
  {
    Varint.EncodeSizes(e.ts - p.ts);
    Varint.EncodeSizes(Varint.Zigzag(e.addr - p.addr));
    Varint.EncodeSizes(e.addr);
    Varint.EncodeSizes(e.value);
  }

  // ----- sequences of events

  /** Events in the order of their timestamps, each of a kind the writer produces. */
  predicate Recordable(p: Predictor, es: seq<Event>)
    decreases |es|
  {
    es == [] || (WellFormed(es[0]) && p.ts <= es[0].ts && Recordable(Advance(p, es[0]), es[1..]))
  }

  function AdvanceAll(p: Predictor, es: seq<Event>): Predictor
    decreases |es|
  {
    if es == [] then p else AdvanceAll(Advance(p, es[0]), es[1..])
  }

  function EncodeEvents(p: Predictor, es: seq<Event>): Bytes
    requires Recordable(p, es)
    decreases |es|
  {
    if es == [] then [] else EncodeEvent(p, es[0]) + EncodeEvents(Advance(p, es[0]), es[1..])
  }

  lemma {:induction false} RecordableConcat(p: Predictor, a: seq<Event>, b: seq<Event>)
    requires Recordable(p, a) && Recordable(AdvanceAll(p, a), b)
    ensures Recordable(p, a + b)
    ensures AdvanceAll(p, a + b) == AdvanceAll(AdvanceAll(p, a), b)
    decreases |a|
  {
    if a == [] {
      assert a + b == b;
    } else {
      assert (a + b)[1..] == a[1..] + b;
      RecordableConcat(Advance(p, a[0]), a[1..], b);
    }
  }

  lemma Associate(s: Bytes, x: Bytes, y: Bytes, z: Bytes)
    requires s == y + z
    ensures x + s == (x + y) + z
  {
  }

  lemma {:induction false} EventsConcat(p: Predictor, a: seq<Event>, b: seq<Event>)
    requires Recordable(p, a) && Recordable(AdvanceAll(p, a), b) && Recordable(p, a + b)
    ensures EncodeEvents(p, a + b) == EncodeEvents(p, a) + EncodeEvents(AdvanceAll(p, a), b)
    decreases |a|
  {
    if a == [] {
      assert a + b == b;
    } else {
      var p', a' := Advance(p, a[0]), a[1..];
      assert (a + b)[1..] == a' + b && (a + b)[0] == a[0];
      EventsConcat(p', a', b);
      var rest := EncodeEvents(AdvanceAll(p', a'), b);
      Associate(EncodeEvents(p', a' + b), EncodeEvent(p, a[0]), EncodeEvents(p', a'), rest);
    }
  }

  lemma {:induction false} RecordableSplit(p: Predictor, a: seq<Event>, b: seq<Event>)
    requires Recordable(p, a + b)
    ensures Recordable(p, a) && Recordable(AdvanceAll(p, a), b)
    decreases |a|
  {
    if a == [] {
      assert a + b == b;
    } else {
      assert (a + b)[1..] == a[1..] + b;
      RecordableSplit(Advance(p, a[0]), a[1..], b);
    }
  }

  lemma EventsSnoc(p: Predictor, es: seq<Event>, e: Event)
    requires Recordable(p, es) && WellFormed(e) && AdvanceAll(p, es).ts <= e.ts
    ensures Recordable(p, es + [e])
    ensures AdvanceAll(p, es + [e]) == Advance(AdvanceAll(p, es), e)
    ensures EncodeEvents(p, es + [e]) == EncodeEvents(p, es) + EncodeEvent(AdvanceAll(p, es), e)
  {
    var q := AdvanceAll(p, es);
    assert [e][1..] == [];
    assert EncodeEvents(q, [e]) == EncodeEvent(q, e) + [];
    RecordableConcat(p, es, [e]);
    EventsConcat(p, es, [e]);
  }

  // ----- framing

  function Body(number: u32, payload: Bytes): Bytes {
    PutU32(number) + payload
  }

  function Trailer(body: Bytes): (s: Bytes)
    ensures |s| == 4
  {
    Crc32.PutWord(Crc32.Crc(body))
  }

  function Frame(number: u32, payload: Bytes): (s: Bytes)
    requires |payload| < TWO_32
    ensures |s| == |payload| + BLOCK_OVERHEAD
  {
    PutU32(|payload|) + (Body(number, payload) + Trailer(Body(number, payload)))
  }

  lemma TrailerIntact(body: Bytes)
    ensures Crc32.Intact(body + Trailer(body))
  {
    var frame := body + Trailer(body);
    assert frame[..|frame| - 4] == body && frame[|frame| - 4..] == Trailer(body);
    Crc32.GetPutWord(Crc32.Crc(body));
  }

  datatype Header = Header(version: u16, flags: u16, buildId: u64, seed: u64)

  function EncodeHeader(flags: u16, buildId: u64, seed: u64): (s: Bytes)
    ensures |s| == HEADER_SIZE
  {
    PutU32(MAGIC) + PutU16(VERSION) + PutU16(flags) + PutU64(buildId) + PutU64(seed) + PutU64(0)
  }

  // ----- the format, byte by byte

  /** One event of each kind, after an event at time 10 and with 4 as the last address. */
  lemma EventsByExample()
    ensures var p := Predictor(10, 4);
            && EncodeEvent(p, Event(MmioRead, 13, 2, 200)) == [0x01, 0x03, 0x03, 0xC8, 0x01]
            && EncodeEvent(p, Event(MmioWrite, 13, 6, 5)) == [0x02, 0x03, 0x04, 0x05]
            && EncodeEvent(p, Event(IrqEnter, 10, 1, 0)) == [0x03, 0x00, 0x01]
            && EncodeEvent(p, Event(Stop, 138, 0, 0)) == [0x04, 0x80, 0x01]
            && EncodeEvent(p, Event(IrqAt, 11, 2, 300)) == [0x05, 0x01, 0x02, 0xAC, 0x02]
  {
    assert Varint.Encode(200) == [0xC8] + [0x01] && Varint.Encode(128) == [0x80] + [0x01] && Varint.Encode(300) == [0xAC] + [0x02];
  }

  /** A header: the letters RWND, version and flags, then build, seed, and eight reserved bytes. */
  lemma HeaderByExample()
    ensures var s := EncodeHeader(0x0102, 0x1122_3344_5566_7788, 9);
            && s[..8] == [0x52, 0x57, 0x4E, 0x44, 0x03, 0x00, 0x02, 0x01]
            && s[8..16] == [0x88, 0x77, 0x66, 0x55, 0x44, 0x33, 0x22, 0x11]
            && s[16..24] == [9, 0, 0, 0, 0, 0, 0, 0] && s[24..] == [0, 0, 0, 0, 0, 0, 0, 0]
  {
    WordsByExample();
    hide PutU16, PutU32, PutU64;
    assert [0x52, 0x57, 0x4E, 0x44] + [0x03, 0x00] + [0x02, 0x01] == [0x52, 0x57, 0x4E, 0x44, 0x03, 0x00, 0x02, 0x01];
  }

  lemma WordsByExample()
    ensures PutU32(MAGIC) == [0x52, 0x57, 0x4E, 0x44] && PutU16(VERSION) == [0x03, 0x00] && PutU16(0x0102) == [0x02, 0x01]
    ensures PutU64(0x1122_3344_5566_7788) == [0x88, 0x77, 0x66, 0x55, 0x44, 0x33, 0x22, 0x11]
    ensures PutU64(9) == [9, 0, 0, 0, 0, 0, 0, 0] && PutU64(0) == [0, 0, 0, 0, 0, 0, 0, 0]
  {
    assert PutU32(0x5566_7788) == [0x88, 0x77, 0x66, 0x55] && PutU32(0x1122_3344) == [0x44, 0x33, 0x22, 0x11];
    assert PutU32(9) == [9, 0, 0, 0] && PutU32(0) == [0, 0, 0, 0];
    hide PutU32;
  }
}
