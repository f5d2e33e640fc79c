/** The pull-style trace reader: bounds-checked blocks, then events. */
module TraceReading {
  import opened Basics
  import opened Trace
  import Crc32
  import Varint

  datatype ReadError =
    | NotOpened | NullBuffer | ShorterThanHeader | BadMagic | UnsupportedVersion
    | TruncatedBlock | CrcMismatch | WentBackwards | GapInTrace
    | UnknownEvent | MalformedTimestamp | MalformedArgument | DeltaOutOfRange | WideArgument
    | MalformedReturnAddress | WideReturnAddress | MalformedValue | WideValue

  /** The fields of the reader between two calls. */
  datatype Reader = Reader(
    header: Header, pos: nat, blockEnd: nat, nextOff: nat, last: Predictor,
    expectSeq: u32, blocksRead: nat, blocksLost: nat, isOpen: bool, done: bool, error: Option<ReadError>)

  const CLOSED := Reader(Header(0, 0, 0, 0), 0, 0, 0, START, 0, 0, 0, false, false, None)

  /** The first failure latches. */
  function Fail(r: Reader, e: ReadError): Reader {
    if r.error.None? then r.(error := Some(e)) else r
  }

  function Abort(r: Reader, e: ReadError): Reader {
    Fail(r.(done := true), e)
  }

  function Open(data: Option<Bytes>): Reader {
    if data.None? then Fail(CLOSED, NullBuffer)
    else OpenBytes(data.value)
  }

  function DecodeHeader(d: Bytes): Header
    requires |d| >= HEADER_SIZE
  {
    Header(GetU16(d[4..]), GetU16(d[6..]), GetU64(d[8..]), GetU64(d[16..]))
  }

  function OpenBytes(d: Bytes): Reader {
    if |d| < HEADER_SIZE then Fail(CLOSED, ShorterThanHeader)
    else if GetU32(d) != MAGIC then Fail(CLOSED, BadMagic)
    else
      var version := GetU16(d[4..]);
      if version < MIN_VERSION || version > VERSION then
        Fail(CLOSED.(header := Header(version, 0, 0, 0)), UnsupportedVersion)
      else CLOSED.(header := DecodeHeader(d), nextOff := HEADER_SIZE, isOpen := true)
  }

  /** Offsets stay in bounds; a block in progress lies before the next one. */
  predicate InBounds(data: Bytes, r: Reader) {
    && HEADER_SIZE <= |data| < TWO_32
    && r.pos <= r.blockEnd && r.blockEnd + 4 <= r.nextOff <= |data|
  }

  datatype Extent = EndOfStream | CutShort | Whole(len: nat)

  /** What the length word at the front of `rest` announces, and whether all of it is there. */
  function Measure(rest: Bytes): (e: Extent)
    ensures e.Whole? ==> 1 <= e.len && e.len + 12 <= |rest|
  {
    if |rest| < 4 then EndOfStream
    else
      var len := GetU32(rest);
      if len == 0 then EndOfStream
      else if |rest| - 4 < 4 || len > |rest| - 8 || |rest| - 8 - len < 4 then CutShort
      else Whole(len)
  }

  /** Steps into the next block, or ends the stream, or fails. */
  function LoadBlock(data: Bytes, r: Reader): (q: Reader)
    requires InBounds(data, r)
    ensures InBounds(data, q)
    ensures !q.done && r.error.None? && !r.done ==> q.error.None? && q.pos < q.blockEnd && q.pos > r.nextOff
    ensures q.error.Some? && r.error.None? ==> q.done
  {
    hide Crc32.Intact, GetU32;
    var rest := data[r.nextOff..];
    match Measure(rest)
    case EndOfStream => r.(done := true)
    case CutShort => Abort(r, TruncatedBlock)
    case Whole(len) => EnterBlock(r, rest[4..len + 12])
  }

  /** Checks the frame behind a length word (sequence number, payload, checksum) and steps into it. */
  function EnterBlock(r: Reader, frame: Bytes): Reader
    requires |frame| > 8
  {
    if Crc32.Intact(frame) then Admit(r, GetU32(frame), |frame| - 8) else Abort(r, CrcMismatch)
  }

  function Admit(r: Reader, number: u32, len: nat): Reader {
    if number < r.expectSeq then Abort(r, WentBackwards)
    else if number > r.expectSeq then Abort(r.(blocksLost := number - r.expectSeq), GapInTrace)
    else r.(expectSeq := Wrap32(number + 1), blocksRead := r.blocksRead + 1,
            pos := r.nextOff + 8, blockEnd := r.nextOff + 8 + len, nextOff := r.nextOff + 12 + len)
  }

  /** The outcome of decoding one event; a failure may already have moved the address predictor. */
  datatype Parsed = Parsed(event: Event, size: nat, last: Predictor) | Bad(error: ReadError, last: Predictor)

  function KindOf(code: u8, version: u16): Option<Kind> {
    if code == 1 then Some(MmioRead) else if code == 2 then Some(MmioWrite)
    else if code == 3 then Some(IrqEnter) else if code == 4 then Some(Stop)
    else if code == 5 && version >= 3 then Some(IrqAt) else None
  }

  function ParseEvent(s: Bytes, last: Predictor, version: u16): (r: Parsed)
    requires |s| >= 1
    ensures r.Parsed? ==> 2 <= r.size <= |s|
    ensures r.Parsed? ==> r.event.ts == r.last.ts
  {
    var kind := KindOf(s[0], version);
    if kind.None? then Bad(UnknownEvent, last)
    else
      match Varint.Decode(s[1..])
      case Malformed => Bad(MalformedTimestamp, last)
      case Decoded(delta, n) =>
        ParseArguments(s, 1 + n, Event(kind.value, Wrap64(last.ts + delta), 0, 0), last)
  }

  function ParseArguments(s: Bytes, off: nat, e: Event, last: Predictor): (r: Parsed)
    requires 2 <= off <= |s|
    ensures r.Parsed? ==> off <= r.size <= |s|
    ensures r.Parsed? ==> r.event.ts == r.last.ts == e.ts && r.event.kind == e.kind
  {
    if e.kind.Stop? then Parsed(e, off, last.(ts := e.ts))
    else
      match Varint.Decode(s[off..])
      case Malformed => Bad(MalformedArgument, last)
      case Decoded(raw, n) =>
        if e.kind.IsMmio() then
          var addr := last.addr + Varint.Unzigzag(raw);
          if addr < 0 || addr >= TWO_32 then Bad(DeltaOutOfRange, last)
          else ParseLast(s, off + n, e.(addr := addr), last.(addr := addr), MalformedValue, WideValue)
        else if raw >= TWO_32 then Bad(WideArgument, last)
        else if e.kind.IrqEnter? then Parsed(e.(addr := raw), off + n, last.(ts := e.ts))
        else ParseLast(s, off + n, e.(addr := raw), last, MalformedReturnAddress, WideReturnAddress)
  }

  function ParseLast(s: Bytes, off: nat, e: Event, last: Predictor, malformed: ReadError, wide: ReadError): (r: Parsed)
    requires off <= |s|
    ensures r.Parsed? ==> off <= r.size <= |s|
    ensures r.Parsed? ==> r.event.ts == r.last.ts == e.ts && r.event.kind == e.kind
  {
    match Varint.Decode(s[off..])
    case Malformed => Bad(malformed, last)
    case Decoded(raw, n) =>
      if raw >= TWO_32 then Bad(wide, last)
      else Parsed(e.(value := raw), off + n, last.(ts := e.ts))
  }

  /** One call of `next`: the reader afterwards, and the event if there was one. */
  function Next(data: Bytes, r: Reader): (res: (Reader, Option<Event>))
    requires r.isOpen ==> InBounds(data, r)
    ensures r.isOpen ==> InBounds(data, res.0)
    ensures res.1.Some? ==> r.isOpen && res.0.isOpen && !res.0.done && res.0.error.None?
    ensures res.1.Some? ==> Budget(data, res.0) + 2 <= Budget(data, r)
  {
    if !r.isOpen then (Fail(r, NotOpened), None)
    else if r.done || r.error.Some? then (r, None)
    else
      var q := if r.pos >= r.blockEnd then LoadBlock(data, r) else r;
      if q.done then (q, None) else Deliver(data, q)
  }

  /** Decodes the event at the reader's position in its block. */
  function Deliver(data: Bytes, r: Reader): (Reader, Option<Event>)
    requires r.pos < r.blockEnd <= |data|
  {
    match ParseEvent(data[r.pos..r.blockEnd], r.last, r.header.version)
    case Bad(e, last) => (Abort(r.(last := last), e), None)
    case Parsed(e, n, last) => (r.(pos := r.pos + n, last := last), Some(e))
  }

  /** Bytes that can still hold events: the rest of the block and what follows it. */
  function Budget(data: Bytes, r: Reader): int {
    (r.blockEnd - r.pos) + (|data| - r.nextOff)
  }

  /** Everything `next` delivers until it returns false, and the reader it leaves. */
  function ReadAll(data: Bytes, r: Reader): (res: (seq<Event>, Reader))
    requires r.isOpen && InBounds(data, r)
    ensures 2 * |res.0| <= Budget(data, r)
    decreases Budget(data, r)
  {
    var (q, e) := Next(data, r);
    if e.None? then ([], q)
    else
      var (es, last) := ReadAll(data, q);
      ([e.value] + es, last)
  }

  /** A trace opened and read to its end. */
  function ReadTrace(data: Bytes): (res: (seq<Event>, Reader))
    ensures 2 * |res.0| <= |data| - HEADER_SIZE || res.0 == []
  {
    var r := OpenBytes(data);
    if r.isOpen && |data| < TWO_32 then ReadAll(data, r) else ([], r)
  }

  /** The reader object: the fields of `Reader`, updated in place. */
  class TraceReader {
    var data: Bytes
    var header: Header
    var pos: nat
    var blockEnd: nat
    var nextOff: nat
    var lastTs: nat
    var lastAddr: u32
    var expectSeq: u32
    var blocksRead: nat
    var blocksLost: nat
    var isOpen: bool
    var done: bool
    var error: Option<ReadError>

    function View(): Reader
      reads this
    {
      Reader(header, pos, blockEnd, nextOff, Predictor(lastTs, lastAddr), expectSeq, blocksRead, blocksLost,
             isOpen, done, error)
    }

    ghost predicate Valid()
      reads this
    {
      isOpen ==> InBounds(data, View())
    }

    constructor ()
      ensures Valid() && View() == CLOSED
    {
      data := [];
      header := Header(0, 0, 0, 0);
      pos, blockEnd, nextOff := 0, 0, 0;
      lastTs, lastAddr := 0, 0;
      expectSeq, blocksRead, blocksLost := 0, 0, 0;
      isOpen, done, error := false, false, None;
    }

    method Latch(e: ReadError)
      modifies this`error
      ensures View() == Fail(old(View()), e)
    {
      if error.None? {
        error := Some(e);
      }
    }

    /** Forgets everything about a previous trace. */
    method Clear()
      modifies this
      ensures View() == CLOSED
    {
      data := [];
      header := Header(0, 0, 0, 0);
      pos, blockEnd, nextOff := 0, 0, 0;
      lastTs, lastAddr := 0, 0;
      expectSeq, blocksRead, blocksLost := 0, 0, 0;
      isOpen, done, error := false, false, None;
    }

    method OpenTrace(input: Option<Bytes>) returns (ok: bool)
      requires input.Some? ==> |input.value| < TWO_32
      modifies this
      ensures Valid() && View() == Open(input) && ok == View().isOpen
      ensures ok ==> input.Some? && data == input.value
    {
      Clear();
      if input.None? {
        Latch(NullBuffer);
        return false;
      }
      var d := input.value;
      if |d| < HEADER_SIZE {
        Latch(ShorterThanHeader);
        return false;
      }
      if GetU32(d) != MAGIC {
        Latch(BadMagic);
        return false;
      }
      var version := GetU16(d[4..]);
      header := Header(version, 0, 0, 0);
      if version < MIN_VERSION || version > VERSION {
        Latch(UnsupportedVersion);
        return false;
      }
      header := DecodeHeader(d);
      data := d;
      nextOff := HEADER_SIZE;
      isOpen := true;
      return true;
    }

    /** The checksum covers the sequence number, then the payload; its stored value follows. */
    static method CheckFrame(frame: Bytes, payloadLen: nat) returns (intact: bool)
      requires |frame| == payloadLen + 8
      ensures intact == Crc32.Intact(frame)
    {
      var crc := Crc32.UpdateLoop(Crc32.INIT, frame[..4]);
      crc := Crc32.UpdateLoop(crc, frame[4..4 + payloadLen]);
      Crc32.UpdateConcat(Crc32.INIT, frame[..4], frame[4..4 + payloadLen]);
      assert frame[..|frame| - 4] == frame[..4] + frame[4..4 + payloadLen];
      var want := Crc32.GetWord(frame[|frame| - 4..]);
      intact := want == Crc32.Final(crc);
    }

    method LoadNextBlock() returns (ok: bool)
      requires Valid() && isOpen && error.None? && !done
      modifies this
      ensures data == old(data) && Valid() && isOpen
      ensures View() == LoadBlock(data, old(View())) && ok == !done
    {
      hide EnterBlock;
      ghost var next := LoadBlock(data, View());
      assert InBounds(data, next);
      var extent := MeasureBlock(data, nextOff);
      match extent
      case EndOfStream =>
        done := true;
        return false;
      case CutShort =>
        Abandon(TruncatedBlock);
        return false;
      case Whole(len) =>
        ok := StepInto(data[nextOff..][4..len + 12], len);
        assert View() == next;
    }

    static method MeasureBlock(data: Bytes, nextOff: nat) returns (e: Extent)
      requires HEADER_SIZE <= |data| && nextOff <= |data|
      ensures e == Measure(data[nextOff..])
    {
      if nextOff > |data| - 4 {
        return EndOfStream;
      }
      var payloadLen := GetU32(data[nextOff..]);
      if payloadLen == 0 {
        return EndOfStream;
      }
      var remaining := |data| - nextOff - 4;
      if remaining < 4 {
        return CutShort;
      }
      remaining := remaining - 4;
      if payloadLen > remaining || remaining - payloadLen < 4 {
        return CutShort;
      }
      return Whole(payloadLen);
    }

    method StepInto(frame: Bytes, payloadLen: nat) returns (ok: bool)
      requires isOpen && error.None? && !done && payloadLen >= 1 && |frame| == payloadLen + 8
      modifies this
      ensures data == old(data) && isOpen
      ensures View() == EnterBlock(old(View()), frame) && ok == !done
    {
      var intact := CheckFrame(frame, payloadLen);
      if !intact {
        Abandon(CrcMismatch);
        return false;
      }
      ok := AdmitBlock(GetU32(frame), payloadLen);
    }

    method AdmitBlock(number: u32, payloadLen: nat) returns (ok: bool)
      requires error.None? && !done
      modifies this
      ensures data == old(data) && View() == Admit(old(View()), number, payloadLen) && ok == !done
    {
      if number < expectSeq {
        Abandon(WentBackwards);
        return false;
      }
      if number > expectSeq {
        blocksLost := number - expectSeq;
        Abandon(GapInTrace);
        return false;
      }
      expectSeq := Wrap32(number + 1);
      blocksRead := blocksRead + 1;
      pos := nextOff + 8;
      blockEnd := pos + payloadLen;
      nextOff := blockEnd + 4;
      return true;
    }

    method Abandon(e: ReadError)
      requires error.None?
      modifies this`error, this`done
      ensures View() == Abort(old(View()), e)
    {
      done := true;
      Latch(e);
    }

    /** Delivers the next event, or none at the end of the stream and after a failure. */
    method NextEvent() returns (event: Option<Event>)
      requires Valid()
      modifies this
      ensures data == old(data) && Valid()
      ensures (View(), event) == Next(data, old(View()))
    {
      event := None;
      if !isOpen {
        Latch(NotOpened);
        return;
      }
      if done || error.Some? {
        return;
      }
      if pos >= blockEnd {
        var loaded := LoadNextBlock();
        if !loaded {
          return;
        }
      }
      event := DecodeCurrent();
    }

    /** Decodes the event at `pos`, inside the current block. */
    method DecodeCurrent() returns (event: Option<Event>)
      requires Valid() && isOpen && error.None? && !done && pos < blockEnd
      modifies this
      ensures data == old(data) && Valid()
      ensures (View(), event) == Deliver(data, old(View()))
    {
      var parsed := Decode(data[pos..blockEnd], Predictor(lastTs, lastAddr), header.version);
      lastTs, lastAddr := parsed.last.ts, parsed.last.addr;
      if parsed.Bad? {
        Abandon(parsed.error);
        return None;
      }
      pos := pos + parsed.size;
      return Some(parsed.event);
    }

    static method Decode(s: Bytes, last: Predictor, version: u16) returns (parsed: Parsed)
      requires |s| >= 1
      ensures parsed == ParseEvent(s, last, version)
    {
      var kind := KindOf(s[0], version);
      if kind.None? {
        return Bad(UnknownEvent, last);
      }
      var off := 1;
      var n, delta := Varint.DecodeFrom(s[off..]);
      if n == 0 {
        return Bad(MalformedTimestamp, last);
      }
      off := off + n;
      var isMmio, hasArg, hasPc := kind.value.IsMmio(), !kind.value.Stop?, kind.value.IrqAt?;
      var lastAddr := last.addr;
      var addr: u32, value: u32, raw: u64 := 0, 0, 0;
      if hasArg {
        n, raw := Varint.DecodeFrom(s[off..]);
        if n == 0 {
          return Bad(MalformedArgument, last);
        }
        off := off + n;
        if isMmio {
          var change := Varint.Unzigzag(raw);
          if change < -(lastAddr as int) || change > 0xFFFF_FFFF - (lastAddr as int) {
            return Bad(DeltaOutOfRange, last);
          }
          addr := lastAddr + change;
          lastAddr := addr;
        } else {
          if raw > 0xFFFF_FFFF {
            return Bad(WideArgument, last);
          }
          addr := raw;
        }
      }
      if hasPc || isMmio {
        var malformed, wide :=
          if hasPc then MalformedReturnAddress else MalformedValue, if hasPc then WideReturnAddress else WideValue;
        n, raw := Varint.DecodeFrom(s[off..]);
        if n == 0 {
          return Bad(malformed, last.(addr := lastAddr));
        }
        if raw > 0xFFFF_FFFF {
          return Bad(wide, last.(addr := lastAddr));
        }
        off := off + n;
        value := raw;
      }
      var ts := Wrap64(last.ts + delta);
      return Parsed(Event(kind.value, ts, addr, value), off, Predictor(ts, lastAddr));
    }
  }

  // ----- reading never touches the header

  lemma {:induction false} ReadAllHeader(data: Bytes, r: Reader)
    requires r.isOpen && InBounds(data, r)
    ensures ReadAll(data, r).1.header == r.header
    decreases Budget(data, r)
  {
    NextHeader(data, r);
    hide Next;
    var (q, e) := Next(data, r);
    if e.Some? {
      ReadAllHeader(data, q);
    }
  }

  lemma NextHeader(data: Bytes, r: Reader)
    requires r.isOpen && InBounds(data, r)
    ensures Next(data, r).0.header == r.header
  {
    hide ParseEvent;
    LoadHeader(data, r);
    hide LoadBlock;
  }

  lemma LoadHeader(data: Bytes, r: Reader)
    requires InBounds(data, r)
    ensures LoadBlock(data, r).header == r.header
  {
  }

  // ----- errors latch

  /** After an error, reading on changes nothing: the first one stays, and there are no more events. */
  lemma FirstErrorStays(data: Bytes, r: Reader)
    requires r.isOpen ==> InBounds(data, r)
    ensures r.error.Some? ==> Next(data, r) == (r, None)
    ensures r.error.None? && Next(data, r).1.None? ==> Next(data, r).0.error.Some? || Next(data, r).0.done
    ensures Next(data, Next(data, r).0).1.Some? ==> Next(data, r).1.Some?
  {
    hide ParseEvent, LoadBlock;
  }
}
