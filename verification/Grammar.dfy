/**
 * What a trace is: the loader accepts exactly a header, then whole intact frames numbered in
 * sequence, each full of decodable events, up to a terminator or the end.
 */
module Grammar {
  import opened Basics
  import opened Trace
  import opened Stream
  import opened TraceReading
  import opened Codec
  import Crc32
  import Varint

  // ----- one event

  /** A number as a decoder takes it: up to ten bytes, the last one marked as such, not always the fewest. */
  predicate Denotes(s: Bytes, v: int) {
    1 <= |s| <= Varint.MAX_BYTES && Varint.Terminator(s) == |s| && Varint.Value(s) == v < TWO_64
  }

  /** The event code, then the time since the last event, then what the kind of event calls for. */
  predicate EventSpelled(s: Bytes, last: Predictor, e: Event, delta: nat, d: Bytes, a: Bytes, b: Bytes) {
    && s == [Code(e.kind)] + d + a + b && Denotes(d, delta) && e.ts == Wrap64(last.ts + delta)
    && ArgumentsSpelled(last, e, a, b)
  }

  predicate ArgumentsSpelled(last: Predictor, e: Event, a: Bytes, b: Bytes) {
    match e.kind
    case MmioRead => Denotes(a, Varint.Zigzag(e.addr - last.addr)) && Denotes(b, e.value)
    case MmioWrite => Denotes(a, Varint.Zigzag(e.addr - last.addr)) && Denotes(b, e.value)
    case IrqEnter => Denotes(a, e.addr) && b == [] && e.value == 0
    case Stop => a == [] && b == [] && e.addr == 0 && e.value == 0
    case IrqAt => Denotes(a, e.addr) && Denotes(b, e.value)
  }

  lemma {:induction false} TerminatorBefore(s: Bytes, rest: Bytes)
    requires Varint.Terminator(s) == |s| && s != []
    ensures Varint.Terminator(s + rest) == |s|
  {
    assert (s + rest)[0] == s[0] && (s + rest)[1..] == s[1..] + rest;
    if s[0] >= 0x80 {
      TerminatorBefore(s[1..], rest);
    } else {
      assert |s| == 1;
    }
  }

  lemma {:induction false} TerminatorOfFront(s: Bytes)
    requires Varint.Terminator(s) > 0
    ensures Varint.Terminator(s[..Varint.Terminator(s)]) == Varint.Terminator(s)
  {
    var n := Varint.Terminator(s);
    if s[0] >= 0x80 {
      TerminatorOfFront(s[1..]);
      assert s[..n][1..] == s[1..][..n - 1];
    }
  }

  lemma DenotedDecodes(s: Bytes, v: nat, rest: Bytes)
    requires Denotes(s, v)
    ensures |s| >= 1 && v < TWO_64 && Varint.Decode(s + rest) == Varint.Decoded(v, |s|)
  {
    TerminatorBefore(s, rest);
    assert (s + rest)[..|s|] == s;
  }

  lemma DecodedDenotes(s: Bytes)
    requires Varint.Decode(s).Decoded?
    ensures var r := Varint.Decode(s);
            r.size <= |s| && Denotes(s[..r.size], r.value)
  {
    TerminatorOfFront(s);
  }

  /** Whatever parses is such a string, and the parser read off it what it says. */
  lemma ParsedIsSpelled(s: Bytes, last: Predictor, version: u16) returns (delta: nat, d: Bytes, a: Bytes, b: Bytes)
    requires |s| >= 1 && ParseEvent(s, last, version).Parsed?
    ensures var r := ParseEvent(s, last, version);
            && EventSpelled(s[..r.size], last, r.event, delta, d, a, b) && r.last == Advance(last, r.event)
            && (version < 3 ==> !r.event.kind.IrqAt?)
  {
    hide Denotes, Varint.Zigzag, Varint.Unzigzag, Varint.Decode;
    var r := ParseEvent(s, last, version);
    DecodedDenotes(s[1..]);
    var head := Varint.Decode(s[1..]);
    delta, d, a, b := head.value, s[1..1 + head.size], [], [];
    var off := 1 + head.size;
    assert s[1..][..head.size] == d && s[..off] == [s[0]] + d;
    if !r.event.kind.Stop? {
      DecodedDenotes(s[off..]);
      var arg := Varint.Decode(s[off..]);
      a := s[off..off + arg.size];
      assert s[off..][..arg.size] == a;
      if r.event.kind.IsMmio() {
        Varint.ZigzagOnto(arg.value);
      }
      if !r.event.kind.IrqEnter? {
        var next := off + arg.size;
        DecodedDenotes(s[next..]);
        var more := Varint.Decode(s[next..]);
        b := s[next..next + more.size];
        assert s[next..][..more.size] == b;
      }
    }
    assert s[..r.size] == [s[0]] + d + a + b;
  }

  /** And every such string parses as the event it says, whatever follows it. */
  lemma SpelledParses(s: Bytes, last: Predictor, e: Event, delta: nat, d: Bytes, a: Bytes, b: Bytes, rest: Bytes, version: u16)
    requires EventSpelled(s, last, e, delta, d, a, b) && (version >= 3 || !e.kind.IrqAt?)
    ensures ParseEvent(s + rest, last, version) == Parsed(e, |s|, Advance(last, e))
  {
    hide Denotes, Varint.Zigzag, Varint.Unzigzag, Varint.Decode, ParseArguments;
    var all, off := s + rest, 1 + |d|;
    assert all[1..] == d + (a + b + rest) && all[0] == Code(e.kind);
    DenotedDecodes(d, delta, a + b + rest);
    assert all[off..] == a + b + rest;
    SpelledArguments(all, off, last, e, a, b, rest);
  }

  lemma SpelledArguments(s: Bytes, off: nat, last: Predictor, e: Event, a: Bytes, b: Bytes, rest: Bytes)
    requires 2 <= off <= |s| && s[off..] == a + b + rest
    requires ArgumentsSpelled(last, e, a, b)
    ensures ParseArguments(s, off, Event(e.kind, e.ts, 0, 0), last) == Parsed(e, off + |a| + |b|, Advance(last, e))
  {
    hide Denotes, Varint.Zigzag, Varint.Unzigzag, Varint.Decode;
    if !e.kind.Stop? {
      var next := off + |a|;
      assert s[off..] == a + (b + rest) && s[next..] == b + rest;
      DenotedDecodes(a, if e.kind.IsMmio() then Varint.Zigzag(e.addr - last.addr) else e.addr, b + rest);
      if !e.kind.IrqEnter? {
        DenotedDecodes(b, e.value, rest);
      }
    }
  }

  // ----- what does not parse, and why

  lemma {:induction false} CutNumber(v: nat, k: nat)
    requires k < |Varint.Encode(v)|
    ensures Varint.Decode(Varint.Encode(v)[..k]) == Varint.Malformed
    decreases v
  {
    if v < 0x80 || k == 0 {
      assert Varint.Encode(v)[..k] == [];
    } else {
      CutNumber(v / 0x80, k - 1);
      UnterminatedCut(v / 0x80, k - 1);
      assert Varint.Encode(v)[..k][1..] == Varint.Encode(v / 0x80)[..k - 1];
    }
  }

  lemma {:induction false} UnterminatedCut(v: nat, k: nat)
    requires k < |Varint.Encode(v)|
    ensures Varint.Terminator(Varint.Encode(v)[..k]) == 0
    decreases v
  {
    if v >= 0x80 && k > 0 {
      UnterminatedCut(v / 0x80, k - 1);
      assert Varint.Encode(v)[..k][1..] == Varint.Encode(v / 0x80)[..k - 1];
    }
  }

  /** Which complaint a cut event draws: that of the field the cut goes through. */
  function CutComplaint(p: Predictor, e: Event, k: nat): ReadError
    requires p.ts <= e.ts
  {
    var head := 1 + |Varint.Encode(e.ts - p.ts)|;
    var argument := if e.kind.IsMmio() then Varint.Encode(Varint.Zigzag(e.addr - p.addr)) else Varint.Encode(e.addr);
    if k < head then MalformedTimestamp
    else if k < head + |argument| then MalformedArgument
    else if e.kind.IsMmio() then MalformedValue else MalformedReturnAddress
  }

  /** No event parses from less than all of its bytes. */
  lemma CutEvent(p: Predictor, e: Event, k: nat)
    requires WellFormed(e) && p.ts <= e.ts && 0 < k < |EncodeEvent(p, e)|
    ensures var r := ParseEvent(EncodeEvent(p, e)[..k], p, VERSION);
            r.Bad? && r.error == CutComplaint(p, e, k)
  {
    hide Varint.Encode, Varint.Decode, Varint.Zigzag, Varint.Unzigzag, Arguments, ParseArguments;
    var delta, args := Varint.Encode(e.ts - p.ts), Arguments(p, e);
    var s := EncodeEvent(p, e)[..k];
    var off := 1 + |delta|;
    if k < off {
      CutNumber(e.ts - p.ts, k - 1);
      assert s[1..] == delta[..k - 1];
    } else {
      assert s[1..] == delta + args[..k - off] && s[off..] == args[..k - off];
      Varint.RoundTrip(e.ts - p.ts, args[..k - off]);
      CutArguments(s, off, p, e, k - off);
    }
  }

  lemma CutArguments(s: Bytes, off: nat, p: Predictor, e: Event, k: nat)
    requires WellFormed(e) && p.ts <= e.ts && k < |Arguments(p, e)| && 2 <= off <= |s| && s[off..] == Arguments(p, e)[..k]
    requires off == 1 + |Varint.Encode(e.ts - p.ts)|
    ensures var r := ParseArguments(s, off, Event(e.kind, e.ts, 0, 0), p);
            r.Bad? && r.error == CutComplaint(p, e, off + k)
  {
    hide Varint.Encode, Varint.Decode, Varint.Zigzag, Varint.Unzigzag;
    var raw := if e.kind.IsMmio() then Varint.Zigzag(e.addr - p.addr) else e.addr;
    var a, b := Varint.Encode(raw), Varint.Encode(e.value);
    if k < |a| {
      CutNumber(raw, k);
      assert s[off..] == a[..k];
    } else {
      assert s[off..] == a + b[..k - |a|] && s[off + |a|..] == b[..k - |a|];
      Varint.RoundTrip(raw, b[..k - |a|]);
      CutNumber(e.value, k - |a|);
    }
  }

  /** A number too large for its field, or a step that leaves the address space, is refused as that. */
  lemma OutOfRange(s: Bytes, off: nat, last: Predictor, e: Event, raw: u64, more: u64, a: Bytes, b: Bytes, rest: Bytes)
    requires 2 <= off <= |s| && s[off..] == a + b + rest && Denotes(a, raw) && !e.kind.Stop?
    requires !e.kind.IrqEnter? ==> Denotes(b, more)
    ensures var r := ParseArguments(s, off, e, last);
            var addr := last.addr + Varint.Unzigzag(raw);
            && (e.kind.IsMmio() && !(0 <= addr < TWO_32) ==> r == Bad(DeltaOutOfRange, last))
            && (e.kind.IsMmio() && 0 <= addr < TWO_32 <= more ==> r == Bad(WideValue, last.(addr := addr)))
            && (e.kind.IsIrq() && raw >= TWO_32 ==> r == Bad(WideArgument, last))
            && (e.kind.IrqAt? && raw < TWO_32 <= more ==> r == Bad(WideReturnAddress, last))
  {
    hide Denotes, Varint.Unzigzag, Varint.Decode;
    var next := off + |a|;
    assert s[off..] == a + (b + rest) && s[next..] == b + rest;
    DenotedDecodes(a, raw, b + rest);
    if !e.kind.IrqEnter? {
      DenotedDecodes(b, more, rest);
    }
  }

  // ----- the shape

  /** The fields of a header, where the format puts them. The last eight bytes are reserved. */
  predicate Headed(data: Bytes, h: Header) {
    && |data| >= HEADER_SIZE && MIN_VERSION <= h.version <= VERSION
    && data[..4] == PutU32(MAGIC) && data[4..6] == PutU16(h.version) && data[6..8] == PutU16(h.flags)
    && data[8..16] == PutU64(h.buildId) && data[16..24] == PutU64(h.seed)
  }

  predicate Sized(payloads: seq<Bytes>) {
    forall i :: 0 <= i < |payloads| ==> 0 < |payloads[i]| < TWO_32
  }

  /** Their frames one after the other, numbered from `n` on. */
  function Stack(n: u32, payloads: seq<Bytes>): Bytes
    requires Sized(payloads)
    decreases |payloads|
  {
    if payloads == [] then [] else Frame(n, payloads[0]) + Stack(Wrap32(n + 1), payloads[1..])
  }

  /**
   * A payload, or several, decoded to the very end: the events, and what the delta coding remembers
   * after them. If something does not decode, the events before it, and why not.
   */
  datatype Decoding = Text(events: seq<Event>, last: Predictor) | Broken(events: seq<Event>, error: ReadError)

  function After(before: seq<Event>, d: Decoding): Decoding {
    d.(events := before + d.events)
  }

  function Decoded(payload: Bytes, p: Predictor, version: u16): Decoding
    decreases |payload|
  {
    if payload == [] then Text([], p)
    else
      match ParseEvent(payload, p, version)
      case Bad(e, _) => Broken([], e)
      case Parsed(e, n, q) => After([e], Decoded(payload[n..], q, version))
  }

  function DecodedAll(payloads: seq<Bytes>, p: Predictor, version: u16): Decoding
    decreases |payloads|
  {
    if payloads == [] then Text([], p)
    else
      var d := Decoded(payloads[0], p, version);
      if d.Broken? then d else After(d.events, DecodedAll(payloads[1..], d.last, version))
  }

  // ----- the header

  lemma PutGetU16(s: Bytes)
    requires |s| == 2
    ensures PutU16(GetU16(s)) == s
  {
    var v := GetU16(s);
    var a: int, b: int := s[0], s[1];
    assert v == a + 0x100 * b;
  }

  lemma PutGetU64(s: Bytes)
    requires |s| == 8
    ensures PutU64(GetU64(s)) == s
  {
    hide PutU32, GetU32;
    PutGetU32(s[..4]);
    PutGetU32(s[4..8]);
    assert s == s[..4] + s[4..8];
  }

  /** A trace opens exactly if it has a header of a version from 2 to 3, and that is the header read. */
  lemma OpensExactly(data: Bytes, h: Header)
    ensures Headed(data, h) <==> OpenBytes(data).isOpen && OpenBytes(data).header == h
    ensures OpenBytes(data).isOpen ==> OpenBytes(data) == CLOSED.(header := h, nextOff := HEADER_SIZE, isOpen := true).(header := OpenBytes(data).header)
    ensures OpenBytes(data).isOpen <==> OpenBytes(data).error.None?
  {
    if |data| >= HEADER_SIZE {
      FieldsAt(data);
      hide PutU32, PutU16, PutU64, GetU32, GetU16, GetU64;
      PutGetU32(data[..4]);
      PutGetU16(data[4..6]);
      PutGetU16(data[6..8]);
      PutGetU64(data[8..16]);
      PutGetU64(data[16..24]);
    }
  }

  lemma FieldsAt(data: Bytes)
    requires |data| >= HEADER_SIZE
    ensures GetU32(data) == GetU32(data[..4]) && GetU16(data[4..]) == GetU16(data[4..6]) && GetU16(data[6..]) == GetU16(data[6..8])
    ensures GetU64(data[8..]) == GetU64(data[8..16]) && GetU64(data[16..]) == GetU64(data[16..24])
  {
    FrontWords(data[8..]);
    FrontWords(data[16..]);
    assert data[8..][..8] == data[8..16] && data[16..][..8] == data[16..24];
  }

  lemma FrontWords(s: Bytes)
    requires |s| >= 8
    ensures GetU64(s) == GetU64(s[..8])
  {
    assert s[..8][..4] == s[..4] && s[..8][4..8] == s[4..8];
  }

  // ----- one block

  lemma NextInBlock(data: Bytes, r: Reader)
    requires Sane(data, r) && r.pos < r.blockEnd
    ensures var p := ParseEvent(data[r.pos..r.blockEnd], r.last, r.header.version);
            if p.Bad? then ReadAll(data, r).0 == [] && ReadAll(data, r).1.error == Some(p.error)
            else
              var q := r.(pos := r.pos + p.size, last := p.last);
              Reaches(data, r, [p.event], q) && Sane(data, q)
  {
    hide ParseEvent;
    assert Next(data, r) == Deliver(data, r);
  }

  /** Reading on in a block delivers its events, or fails if they do not decode. */
  lemma {:induction false} InBlock(data: Bytes, r: Reader)
    requires Sane(data, r)
    ensures var d := Decoded(data[r.pos..r.blockEnd], r.last, r.header.version);
            if d.Broken? then ReadAll(data, r).0 == d.events && ReadAll(data, r).1.error == Some(d.error)
            else Reaches(data, r, d.events, r.(pos := r.blockEnd, last := d.last))
    decreases r.blockEnd - r.pos
  {
    hide ParseEvent, Reaches;
    var payload := data[r.pos..r.blockEnd];
    if r.pos == r.blockEnd {
      ReachesSelf(data, r);
    } else {
      NextInBlock(data, r);
      match ParseEvent(payload, r.last, r.header.version)
      case Bad(_, _) =>
      case Parsed(e, n, q) =>
        var m := r.(pos := r.pos + n, last := q);
        assert payload[n..] == data[m.pos..m.blockEnd];
        InBlock(data, m);
        match Decoded(payload[n..], q, r.header.version)
        case Broken(_, _) =>
          ReachesMeans(data, r, [e], m);
        case Text(es, last) =>
          ReachesTrans(data, r, [e], m, es, r.(pos := r.blockEnd, last := last));
    }
  }

  lemma IntactTrailer(frame: Bytes)
    requires Crc32.Intact(frame)
    ensures frame[|frame| - 4..] == Trailer(frame[..|frame| - 4])
  {
    hide Crc32.Crc, Crc32.GetWord, Crc32.PutWord;
    var crc := Crc32.Crc(frame[..|frame| - 4]);
    Crc32.GetPutWord(crc);
    Crc32.GetWordInjective(frame[|frame| - 4..], Crc32.PutWord(crc));
  }

  /** A frame whose checksum is intact is one the writer's framing makes of its parts. */
  lemma IntactIsFrame(rest: Bytes, len: nat)
    requires 1 <= len && len + 12 <= |rest| && GetU32(rest) == len && Crc32.Intact(rest[4..len + 12])
    ensures len < TWO_32 && |rest[8..8 + len]| == len
    ensures rest == Frame(GetU32(rest[4..len + 12]), rest[8..8 + len]) + rest[len + 12..]
  {
    hide PutU32, GetU32, Trailer, Crc32.Intact;
    var frame := rest[4..len + 12];
    IntactTrailer(frame);
    WordFirst(rest);
    WordFirst(frame);
    FrameOf(rest, len, PutU32(len), PutU32(GetU32(frame)), Trailer(frame[..|frame| - 4]));
  }

  lemma WordFirst(s: Bytes)
    requires |s| >= 4
    ensures s[..4] == PutU32(GetU32(s))
  {
    hide PutU32, GetU32;
    PutGetU32(s[..4]);
    GetU32Prefix(s[..4], s[4..]);
    assert s == s[..4] + s[4..];
  }

  lemma FrameOf(rest: Bytes, len: nat, word: Bytes, number: Bytes, trailer: Bytes)
    requires len + 12 <= |rest| && |word| == |number| == |trailer| == 4
    requires rest[..4] == word && rest[4..len + 12][..4] == number && rest[4..len + 12][len + 4..] == trailer
    ensures rest[4..len + 12][..len + 4] == number + rest[8..8 + len]
    ensures rest == word + ((number + rest[8..8 + len]) + trailer) + rest[len + 12..]
  {
    var frame := rest[4..len + 12];
    assert frame[..len + 4] == number + rest[8..8 + len];
    assert frame == frame[..len + 4] + frame[len + 4..];
    assert rest == rest[..4] + frame + rest[len + 12..];
  }

  // ----- the whole stream

  /** What the reader steps into is the next frame in sequence. */
  lemma LoadedIsFrame(data: Bytes, r: Reader) returns (payload: Bytes, more: Bytes)
    requires Sane(data, r) && !LoadBlock(data, r).done
    ensures 0 < |payload| < TWO_32 && data[r.nextOff..] == Frame(r.expectSeq, payload) + more
    ensures LoadBlock(data, r) == Admit(r, r.expectSeq, |payload|)
  {
    hide Crc32.Intact, Frame, GetU32;
    var rest := data[r.nextOff..];
    var len := Measure(rest).len;
    payload, more := rest[8..8 + len], rest[len + 12..];
    IntactIsFrame(rest, len);
  }

  /** Between blocks, either the stream ends or goes on with the block stepped into. */
  lemma AtBoundary(data: Bytes, r: Reader)
    requires Sane(data, r) && r.pos == r.blockEnd
    ensures var q := LoadBlock(data, r);
            if q.done then ReadAll(data, r) == ([], q) else Sane(data, q) && Reaches(data, r, [], q) && q.header == r.header && q.last == r.last
  {
    hide LoadBlock, Reaches;
    var q := LoadBlock(data, r);
    if q.done {
      StopHere(data, r, q);
    } else {
      LoadThenRead(data, r, q);
      var payload, more := LoadedIsFrame(data, r);
    }
  }

  lemma EndMeans(data: Bytes, r: Reader)
    requires Sane(data, r) && LoadBlock(data, r).done
    ensures LoadBlock(data, r).error.None? <==> Closes(data[r.nextOff..])
    ensures LoadBlock(data, r).error.None? ==> LoadBlock(data, r) == r.(done := true)
  {
    hide Crc32.Intact, GetU32;
  }

  /** The reader with the block of `payload`, next in the trace, read to its end. */
  lemma OneBlock(data: Bytes, r: Reader, payload: Bytes, more: Bytes) returns (q: Reader)
    requires Sane(data, r) && r.pos == r.blockEnd && 0 < |payload| < TWO_32
    requires data[r.nextOff..] == Frame(r.expectSeq, payload) + more
    ensures var d := Decoded(payload, r.last, r.header.version);
            if d.Broken? then ReadAll(data, r).0 == d.events && ReadAll(data, r).1.error == Some(d.error)
            else
              && Sane(data, q) && q.pos == q.blockEnd && Reaches(data, r, d.events, q) && data[q.nextOff..] == more
              && q.header == r.header && q.last == d.last && q.expectSeq == Wrap32(r.expectSeq + 1) && r.nextOff < q.nextOff
  {
    var m := StepIn(data, r, payload, more);
    hide Frame, Reaches;
    InBlock(data, m);
    match Decoded(payload, r.last, r.header.version)
    case Broken(es, _) =>
      ReachesMeans(data, r, [], m);
      assert [] + es == es;
      q := m;
    case Text(es, last) =>
      q := m.(pos := m.blockEnd, last := last);
      ReachesTrans(data, r, [], m, es, q);
      assert [] + es == es;
  }

  lemma StepIn(data: Bytes, r: Reader, payload: Bytes, more: Bytes) returns (m: Reader)
    requires Sane(data, r) && r.pos == r.blockEnd && 0 < |payload| < TWO_32
    requires data[r.nextOff..] == Frame(r.expectSeq, payload) + more
    ensures Sane(data, m) && Reaches(data, r, [], m) && data[m.pos..m.blockEnd] == payload && data[m.nextOff..] == more
    ensures m.header == r.header && m.last == r.last && m.expectSeq == Wrap32(r.expectSeq + 1) && r.nextOff < m.nextOff
  {
    hide Reaches, Frame, LoadBlock;
    LoadFrame(data, r, r.expectSeq, payload, more);
    AtBoundary(data, r);
    PayloadInFrame(data, r.nextOff, r.expectSeq, payload, more);
    AfterFrame(data, r.nextOff, Frame(r.expectSeq, payload), more);
    m := LoadBlock(data, r);
  }

  lemma AfterFrame(data: Bytes, off: nat, frame: Bytes, more: Bytes)
    requires off <= |data| && data[off..] == frame + more
    ensures off + |frame| <= |data| && data[off + |frame|..] == more
  {
    assert data[off + |frame|..] == data[off..][|frame|..];
  }

  /** Whatever the reader gets through without error is such a stream, and it delivers what the frames say. */
  lemma {:induction false} Accepted(data: Bytes, r: Reader) returns (payloads: seq<Bytes>, tail: Bytes)
    requires Sane(data, r) && r.pos == r.blockEnd && ReadAll(data, r).1.error.None?
    ensures Sized(payloads) && data[r.nextOff..] == Stack(r.expectSeq, payloads) + tail && Closes(tail)
    ensures DecodedAll(payloads, r.last, r.header.version).Text?
    ensures DecodedAll(payloads, r.last, r.header.version).events == ReadAll(data, r).0
    decreases |data| - r.nextOff
  {
    hide LoadBlock, Reaches, Frame, Closes, Decoded, ReadAll, Admit, Wrap32;
    AtBoundary(data, r);
    if LoadBlock(data, r).done {
      EndMeans(data, r);
      payloads, tail := [], data[r.nextOff..];
      assert [] + tail == tail;
    } else {
      var payload, more := LoadedIsFrame(data, r);
      var q := OneBlock(data, r, payload, more);
      ReachesMeans(data, r, Decoded(payload, r.last, r.header.version).events, q);
      var rest;
      rest, tail := Accepted(data, q);
      payloads := [payload] + rest;
      assert payloads[1..] == rest;
      FrameFirst(Frame(r.expectSeq, payload), Stack(q.expectSeq, rest), tail);
    }
  }

  lemma FrameFirst(frame: Bytes, others: Bytes, tail: Bytes)
    ensures frame + (others + tail) == (frame + others) + tail
  {
  }

  /** And of every such stream it delivers what the frames say, and fails where one of them does not decode. */
  lemma {:induction false} Delivered(data: Bytes, r: Reader, payloads: seq<Bytes>, tail: Bytes)
    requires Sane(data, r) && r.pos == r.blockEnd && Sized(payloads)
    requires data[r.nextOff..] == Stack(r.expectSeq, payloads) + tail && Closes(tail)
    ensures var d := DecodedAll(payloads, r.last, r.header.version);
            && ReadAll(data, r).0 == d.events
            && ReadAll(data, r).1.error == (if d.Broken? then Some(d.error) else None)
    decreases |payloads|
  {
    hide LoadBlock, Reaches, Frame, Closes, Decoded, ReadAll, Admit, Wrap32;
    if payloads == [] {
      assert [] + tail == tail;
      LoadEnd(data, r);
      AtBoundary(data, r);
    } else {
      FrameFirst(Frame(r.expectSeq, payloads[0]), Stack(Wrap32(r.expectSeq + 1), payloads[1..]), tail);
      var q := OneBlock(data, r, payloads[0], Stack(Wrap32(r.expectSeq + 1), payloads[1..]) + tail);
      match Decoded(payloads[0], r.last, r.header.version)
      case Broken(_, _) =>
      case Text(es, _) =>
        ReachesMeans(data, r, es, q);
        Delivered(data, q, payloads[1..], tail);
    }
  }

  /** A trace of these events. */
  ghost predicate Spells(data: Bytes, h: Header, es: seq<Event>) {
    Headed(data, h) && exists payloads, tail :: Carried(data, h, payloads, tail, es)
  }

  ghost predicate Carried(data: Bytes, h: Header, payloads: seq<Bytes>, tail: Bytes, es: seq<Event>) {
    && |data| >= HEADER_SIZE && Sized(payloads) && data[HEADER_SIZE..] == Stack(0, payloads) + tail && Closes(tail)
    && DecodedAll(payloads, START, h.version).Text? && DecodedAll(payloads, START, h.version).events == es
  }

  /** Reading ends without error exactly on the traces of some events, and these are the events read. */
  lemma ReadsExactly(data: Bytes, h: Header, es: seq<Event>)
    requires |data| < TWO_32
    ensures Spells(data, h, es) <==> ReadTrace(data).0 == es && ReadTrace(data).1.error.None? && ReadTrace(data).1.header == h
  {
    OpensExactly(data, h);
    assert OpenBytes(data).isOpen ==> Sane(data, OpenBytes(data)) && OpenBytes(data).nextOff == HEADER_SIZE
                                      && OpenBytes(data).last == START && OpenBytes(data).expectSeq == 0;
    hide OpenBytes, Headed, Closes, Stack, DecodedAll, LoadBlock;
    var r := OpenBytes(data);
    if r.isOpen {
      ReadAllHeader(data, r);
      if ReadTrace(data).0 == es && ReadTrace(data).1.error.None? && ReadTrace(data).1.header == h {
        var payloads, tail := Accepted(data, r);
        assert Carried(data, h, payloads, tail, es);
      }
      if Spells(data, h, es) {
        var payloads, tail :| Carried(data, h, payloads, tail, es);
        Delivered(data, r, payloads, tail);
      }
    }
  }

  // ----- both versions of the format

  function Payloads(blocks: seq<Block>): (payloads: seq<Bytes>)
    requires Sound(blocks)
    ensures |payloads| == |blocks| && Sized(payloads)
  {
    if blocks == [] then []
    else
      EventSizeAt(Predict(Front(blocks)), Last(blocks).events);
      Payloads(Front(blocks)) + [EncodeEvents(Predict(Front(blocks)), Last(blocks).events)]
  }

  lemma {:induction false} StackSnoc(n: u32, payloads: seq<Bytes>, p: Bytes)
    requires Sized(payloads + [p]) && Sized(payloads) && 0 < |p| < TWO_32
    ensures Stack(n, payloads + [p]) == Stack(n, payloads) + Frame(Wrap32(n + |payloads|), p)
    decreases |payloads|
  {
    hide Frame, Wrap32;
    if payloads == [] {
      assert ([p])[1..] == [] && Frame(n, p) + [] == Frame(n, p);
      WrapSmall(n);
    } else {
      WrapAdd32(n + 1, |payloads| - 1);
      assert (payloads + [p])[1..] == payloads[1..] + [p];
      StackSnoc(Wrap32(n + 1), payloads[1..], p);
    }
  }

  lemma {:induction false} FramesAreStack(blocks: seq<Block>)
    requires Sound(blocks) && AllAccepted(blocks)
    ensures Frames(blocks) == Stack(0, Payloads(blocks))
  {
    hide Frame, EncodeEvents, Predict, Recordable;
    if blocks != [] {
      FramesAreStack(Front(blocks));
      EventSizeAt(Predict(Front(blocks)), Last(blocks).events);
      StackSnoc(0, Payloads(Front(blocks)), EncodeEvents(Predict(Front(blocks)), Last(blocks).events));
    }
  }

  /** The events before the first that version 2 does not have. */
  function OldPart(es: seq<Event>): (r: seq<Event>)
    ensures r <= es
  {
    if es == [] || es[0].kind.IrqAt? then [] else [es[0]] + OldPart(es[1..])
  }

  /** How far a reader gets that goes by `version`. */
  function Legible(es: seq<Event>, version: u16): seq<Event> {
    if version >= 3 then es else OldPart(es)
  }

  lemma {:induction false} OldPartConcat(a: seq<Event>, b: seq<Event>)
    ensures OldPart(a + b) == if OldPart(a) == a then a + OldPart(b) else OldPart(a)
  {
    if a == [] {
      assert a + b == b;
    } else {
      OldPartConcat(a[1..], b);
      assert (a + b)[1..] == a[1..] + b;
    }
  }

  /** The versions differ in one event code. */
  lemma CodeByVersion(s: Bytes, last: Predictor, version: u16)
    requires |s| >= 1 && MIN_VERSION <= version <= VERSION
    ensures version >= 3 || s[0] != Code(IrqAt) ==> ParseEvent(s, last, version) == ParseEvent(s, last, VERSION)
    ensures version < 3 && s[0] == Code(IrqAt) ==> ParseEvent(s, last, version) == Bad(UnknownEvent, last)
  {
    hide ParseArguments;
  }

  lemma FirstParsed(p: Predictor, e: Event, rest: Bytes, version: u16)
    requires WellFormed(e) && p.ts <= e.ts && MIN_VERSION <= version <= VERSION
    ensures ParseEvent(EncodeEvent(p, e) + rest, p, version)
         == if version >= 3 || !e.kind.IrqAt? then Parsed(e, |EncodeEvent(p, e)|, Advance(p, e)) else Bad(UnknownEvent, p)
  {
    assert (EncodeEvent(p, e) + rest)[0] == Code(e.kind);
    hide EncodeEvent, ParseEvent;
    CodeByVersion(EncodeEvent(p, e) + rest, p, version);
    ParseEncoded(p, e, rest);
  }

  lemma {:induction false} DecodedEncoded(p: Predictor, es: seq<Event>, version: u16)
    requires Recordable(p, es) && MIN_VERSION <= version <= VERSION
    ensures Decoded(EncodeEvents(p, es), p, version)
         == if Legible(es, version) == es then Text(es, AdvanceAll(p, es)) else Broken(Legible(es, version), UnknownEvent)
    decreases |es|
  {
    hide EncodeEvent, ParseEvent;
    if es != [] {
      var code, rest := EncodeEvent(p, es[0]), EncodeEvents(Advance(p, es[0]), es[1..]);
      FirstParsed(p, es[0], rest, version);
      EventSize(p, es[0]);
      assert (code + rest)[|code|..] == rest;
      DecodedEncoded(Advance(p, es[0]), es[1..], version);
      assert [es[0]] + es[1..] == es;
    }
  }

  lemma {:induction false} DecodedSnoc(payloads: seq<Bytes>, payload: Bytes, p: Predictor, version: u16)
    ensures var d := DecodedAll(payloads, p, version);
            DecodedAll(payloads + [payload], p, version)
            == if d.Broken? then d else After(d.events, Decoded(payload, d.last, version))
    decreases |payloads|
  {
    hide Decoded;
    var all := payloads + [payload];
    if payloads == [] {
      assert all[1..] == [];
      var d := Decoded(payload, p, version);
      assert d.events + [] == d.events && [] + d.events == d.events;
    } else {
      assert all[1..] == payloads[1..] + [payload];
      var d := Decoded(payloads[0], p, version);
      if d.Text? {
        DecodedSnoc(payloads[1..], payload, d.last, version);
        var rest := DecodedAll(payloads[1..], d.last, version);
        if rest.Text? {
          var more := Decoded(payload, rest.last, version).events;
          assert d.events + (rest.events + more) == (d.events + rest.events) + more;
        }
      }
    }
  }

  lemma {:induction false} PayloadsDecode(blocks: seq<Block>, version: u16)
    requires Sound(blocks) && MIN_VERSION <= version <= VERSION
    ensures var es := Flatten(blocks);
            DecodedAll(Payloads(blocks), START, version)
            == if Legible(es, version) == es then Text(es, Predict(blocks)) else Broken(Legible(es, version), UnknownEvent)
  {
    hide DecodedAll, Decoded, EncodeEvents, Legible, Recordable;
    if blocks == [] {
      NothingDecodes(version);
    } else {
      var before, es := Front(blocks), Last(blocks).events;
      PayloadsDecode(before, version);
      DecodedSnoc(Payloads(before), EncodeEvents(Predict(before), es), START, version);
      DecodedEncoded(Predict(before), es, version);
      LegibleConcat(Flatten(before), es, version);
    }
  }

  lemma LegibleConcat(a: seq<Event>, b: seq<Event>, version: u16)
    ensures Legible(a, version) == a ==> Legible(a + b, version) == a + Legible(b, version)
    ensures Legible(a, version) == a ==> (Legible(a + b, version) == a + b <==> Legible(b, version) == b)
    ensures Legible(a, version) != a ==> Legible(a + b, version) == Legible(a, version) != a + b
  {
    hide OldPart;
    OldPartConcat(a, b);
    if OldPart(a) == a {
      assert (a + OldPart(b))[|a|..] == OldPart(b) && (a + b)[|a|..] == b;
    }
  }

  lemma NothingDecodes(version: u16)
    ensures DecodedAll([], START, version) == Text([], START) && Legible([], version) == []
  {
  }

  /**
   * Round trip in every version the reader accepts: a trace stamped with version 3 reads back whole;
   * one stamped with version 2 exactly if it holds no interrupt with a return address, and otherwise
   * up to the first of these, which is an unknown event there.
   */
  lemma VersionRoundTrip(data: Bytes, h: Header, blocks: seq<Block>, tail: Bytes)
    requires |data| < TWO_32 && Headed(data, h) && Sound(blocks) && AllAccepted(blocks)
    requires data[HEADER_SIZE..] == Frames(blocks) + tail && Closes(tail)
    ensures var (events, r) := ReadTrace(data);
            && events == Legible(Flatten(blocks), h.version) && r.header == h
            && r.error == (if events == Flatten(blocks) then None else Some(UnknownEvent))
  {
    OpensExactly(data, h);
    var r := OpenBytes(data);
    assert Sane(data, r) && r.nextOff == HEADER_SIZE && r.last == START && r.expectSeq == 0;
    hide OpenBytes, Headed, Closes, Stack, DecodedAll, LoadBlock, Frames, Sound, Flatten, Legible;
    FramesAreStack(blocks);
    PayloadsDecode(blocks, h.version);
    Delivered(data, r, Payloads(blocks), tail);
    ReadAllHeader(data, r);
  }
}
