/** Reading back what a writer emitted: round trip, losses, cuts and damage. */
module Codec {
  import opened Basics
  import opened Trace
  import opened Stream
  import opened TraceReading
  import Crc32
  import Varint

  // ----- one event

  lemma DecodeAt(s: Bytes, off: nat, v: u64, rest: Bytes)
    requires off <= |s| && s[off..] == Varint.Encode(v) + rest
    ensures Varint.Decode(s[off..]) == Varint.Decoded(v, |Varint.Encode(v)|)
    ensures s[off + |Varint.Encode(v)|..] == rest
  {
    Varint.RoundTrip(v, rest);
  }

  lemma ParseLastField(s: Bytes, off: nat, e: Event, v: u32, rest: Bytes, last: Predictor, m: ReadError, w: ReadError)
    requires off <= |s| && s[off..] == Varint.Encode(v) + rest
    ensures ParseLast(s, off, e, last, m, w) == Parsed(e.(value := v), |s| - |rest|, last.(ts := e.ts))
  {
    DecodeAt(s, off, v, rest);
  }

  lemma ParseMmio(s: Bytes, off: nat, p: Predictor, e: Event, rest: Bytes)
    requires 2 <= off <= |s| && s[off..] == Arguments(p, e) + rest && e.kind.IsMmio()
    ensures ParseArguments(s, off, Event(e.kind, e.ts, 0, 0), p) == Parsed(e, |s| - |rest|, Advance(p, e))
  {
    hide Varint.Encode, Varint.Decode, Varint.Zigzag, Varint.Unzigzag;
    var z := Varint.Encode(Varint.Zigzag(e.addr - p.addr));
    var v := Varint.Encode(e.value);
    assert s[off..] == z + (v + rest);
    DecodeAt(s, off, Varint.Zigzag(e.addr - p.addr), v + rest);
    var e1 := Event(e.kind, e.ts, e.addr, 0);
    ParseLastField(s, off + |z|, e1, e.value, rest, Predictor(p.ts, e.addr), MalformedValue, WideValue);
  }

  lemma ParseIrq(s: Bytes, off: nat, p: Predictor, e: Event, rest: Bytes)
    requires 2 <= off <= |s| && s[off..] == Arguments(p, e) + rest && e.kind.IsIrq() && WellFormed(e)
    ensures ParseArguments(s, off, Event(e.kind, e.ts, 0, 0), p) == Parsed(e, |s| - |rest|, Advance(p, e))
  {
    if e.kind.IrqEnter? {
      DecodeAt(s, off, e.addr, rest);
    } else {
      var a, v := Varint.Encode(e.addr), Varint.Encode(e.value);
      assert s[off..] == a + (v + rest);
      DecodeAt(s, off, e.addr, v + rest);
      var e1 := Event(e.kind, e.ts, e.addr, 0);
      ParseLastField(s, off + |a|, e1, e.value, rest, p, MalformedReturnAddress, WideReturnAddress);
    }
  }

  lemma ParseArgumentFields(s: Bytes, off: nat, p: Predictor, e: Event, rest: Bytes)
    requires 2 <= off <= |s| && s[off..] == Arguments(p, e) + rest && WellFormed(e)
    ensures ParseArguments(s, off, Event(e.kind, e.ts, 0, 0), p) == Parsed(e, |s| - |rest|, Advance(p, e))
  {
    if e.kind.IsMmio() {
      ParseMmio(s, off, p, e, rest);
    } else if e.kind.IsIrq() {
      ParseIrq(s, off, p, e, rest);
    } else {
      assert s[off..] == rest;
    }
  }

  /** The parser undoes the event encoding, whatever follows it. */
  lemma ParseEncoded(p: Predictor, e: Event, rest: Bytes)
    requires WellFormed(e) && p.ts <= e.ts
    ensures ParseEvent(EncodeEvent(p, e) + rest, p, VERSION) == Parsed(e, |EncodeEvent(p, e)|, Advance(p, e))
  {
    hide Varint.Encode, Varint.Decode, Arguments, ParseArguments;
    var delta, args := e.ts - p.ts, Arguments(p, e);
    ParseHead(Code(e.kind), delta, args, rest, EncodeEvent(p, e) + rest);
    ParseArgumentFields(EncodeEvent(p, e) + rest, 1 + |Varint.Encode(delta)|, p, e, rest);
  }

  lemma ParseHead(code: u8, delta: u64, args: Bytes, rest: Bytes, s: Bytes)
    requires s == [code] + (Varint.Encode(delta) + args) + rest
    ensures Varint.Decode(s[1..]) == Varint.Decoded(delta, |Varint.Encode(delta)|)
    ensures s[0] == code && s[1 + |Varint.Encode(delta)|..] == args + rest
  {
    assert s[1..] == Varint.Encode(delta) + (args + rest);
    DecodeAt(s, 1, delta, args + rest);
  }

  // ----- steps of a whole reading

  /** Reading on from `r` delivers `es` and then whatever reading on from `q` delivers. */
  predicate Reaches(data: Bytes, r: Reader, es: seq<Event>, q: Reader) {
    && r.isOpen && InBounds(data, r) && q.isOpen && InBounds(data, q)
    && ReadAll(data, r) == (es + ReadAll(data, q).0, ReadAll(data, q).1)
  }

  lemma ReachesSelf(data: Bytes, r: Reader)
    requires r.isOpen && InBounds(data, r)
    ensures Reaches(data, r, [], r)
  {
    assert [] + ReadAll(data, r).0 == ReadAll(data, r).0;
  }

  lemma ReachesTrans(data: Bytes, a: Reader, es: seq<Event>, b: Reader, fs: seq<Event>, c: Reader)
    requires Reaches(data, a, es, b) && Reaches(data, b, fs, c)
    ensures Reaches(data, a, es + fs, c)
  {
    var rest := ReadAll(data, c).0;
    assert es + (fs + rest) == (es + fs) + rest;
  }

  /** A reader that has not come to an end of any kind. */
  predicate Sane(data: Bytes, r: Reader) {
    r.isOpen && !r.done && r.error.None? && InBounds(data, r)
  }

  /** The same of a current-version trace. */
  predicate Healthy(data: Bytes, r: Reader) {
    Sane(data, r) && r.header.version == VERSION
  }

  lemma ReadOne(data: Bytes, r: Reader, e: Event, rest: Bytes, q: Reader)
    requires Healthy(data, r) && WellFormed(e) && r.last.ts <= e.ts
    requires data[r.pos..r.blockEnd] == EncodeEvent(r.last, e) + rest
    requires q == r.(pos := r.pos + |EncodeEvent(r.last, e)|, last := Advance(r.last, e))
    ensures Healthy(data, q) && data[q.pos..q.blockEnd] == rest
    ensures Reaches(data, r, [e], q)
  {
    var n := |EncodeEvent(r.last, e)|;
    ParseEncoded(r.last, e, rest);
    assert |data[r.pos..r.blockEnd]| == n + |rest|;
    assert data[q.pos..q.blockEnd] == data[r.pos..r.blockEnd][n..];
    assert Next(data, r) == Deliver(data, r) == (q, Some(e));
  }

  lemma {:induction false} ReadEvents(data: Bytes, r: Reader, es: seq<Event>, q: Reader)
    requires Healthy(data, r) && Recordable(r.last, es)
    requires data[r.pos..r.blockEnd] == EncodeEvents(r.last, es)
    requires q == r.(pos := r.blockEnd, last := AdvanceAll(r.last, es))
    ensures Reaches(data, r, es, q)
    decreases |es|
  {
    hide Reaches, EncodeEvent;
    if es == [] {
      assert r.pos == r.blockEnd;
      ReachesSelf(data, r);
    } else {
      var tail := EncodeEvents(Advance(r.last, es[0]), es[1..]);
      var m := r.(pos := r.pos + |EncodeEvent(r.last, es[0])|, last := Advance(r.last, es[0]));
      ReadOne(data, r, es[0], tail, m);
      ReadEvents(data, m, es[1..], q);
      ReachesTrans(data, r, [es[0]], m, es[1..], q);
      assert [es[0]] + es[1..] == es;
    }
  }

  // ----- one block

  /** The reader between blocks, after all of `blocks`. */
  function BetweenBlocks(h: Header, blocks: seq<Block>): Reader
    requires Sound(blocks)
  {
    var end := HEADER_SIZE + |Frames(blocks)|;
    var pos := if blocks == [] then 0 else end - 4;
    Reader(h, pos, pos, end, Predict(blocks), Wrap32(|blocks|), |blocks|, 0, true, false, None)
  }

  /** `data` holds a header, the frames of `blocks`, and then `tail`. */
  predicate Carries(data: Bytes, header: Bytes, blocks: seq<Block>, tail: Bytes) {
    && Sound(blocks) && |header| == HEADER_SIZE && |data| < TWO_32
    && data == header + Frames(blocks) + tail
  }

  lemma CarriesTail(data: Bytes, header: Bytes, h: Header, blocks: seq<Block>, tail: Bytes)
    requires Carries(data, header, blocks, tail)
    ensures data[HEADER_SIZE + |Frames(blocks)|..] == tail
    ensures InBounds(data, BetweenBlocks(h, blocks))
  {
  }

  lemma FrameParts(number: u32, payload: Bytes, tail: Bytes, rest: Bytes)
    requires 0 < |payload| < TWO_32 && rest == Frame(number, payload) + tail
    ensures GetU32(rest) == |payload|
    ensures rest[4..|payload| + 12] == Body(number, payload) + Trailer(Body(number, payload))
    ensures GetU32(rest[4..|payload| + 12]) == number
  {
    hide PutU32, Trailer;
    var len, body := PutU32(|payload|), Body(number, payload);
    var inner := body + Trailer(body);
    assert rest == len + (inner + tail);
    GetU32Prefix(len, inner + tail);
    assert rest[4..|payload| + 12] == inner;
    assert inner == PutU32(number) + (payload + Trailer(body));
    GetU32Prefix(PutU32(number), payload + Trailer(body));
  }

  /** Stepping into an intact frame leads to the sequence check. */
  lemma LoadFrame(data: Bytes, r: Reader, number: u32, payload: Bytes, tail: Bytes)
    requires Sane(data, r) && 0 < |payload| < TWO_32
    requires data[r.nextOff..] == Frame(number, payload) + tail
    ensures LoadBlock(data, r) == Admit(r, number, |payload|)
  {
    hide Crc32.Intact, GetU32, Trailer, Body, Frame, Admit;
    FrameParts(number, payload, tail, data[r.nextOff..]);
    TrailerIntact(Body(number, payload));
  }

  /** Between blocks, the first event comes from the block stepped into. */
  lemma LoadThenRead(data: Bytes, r: Reader, q: Reader)
    requires Sane(data, r) && r.pos == r.blockEnd && q == LoadBlock(data, r) && !q.done
    ensures Sane(data, q) && q.header == r.header && q.pos < q.blockEnd && Reaches(data, r, [], q)
  {
    SameNext(data, r, q);
    assert [] + ReadAll(data, q).0 == ReadAll(data, q).0;
  }

  lemma SameNext(data: Bytes, r: Reader, q: Reader)
    requires Sane(data, r) && r.pos == r.blockEnd && q == LoadBlock(data, r) && !q.done
    ensures Sane(data, q) && q.header == r.header && q.pos < q.blockEnd && Next(data, r) == Next(data, q)
  {
  }

  lemma StopHere(data: Bytes, r: Reader, q: Reader)
    requires Sane(data, r) && r.pos == r.blockEnd && q == LoadBlock(data, r) && q.done
    ensures ReadAll(data, r) == ([], q)
  {
    assert Next(data, r) == (q, None);
  }

  /** A frame in sequence is read back event for event. */
  lemma ReadFrame(data: Bytes, r: Reader, es: seq<Event>, tail: Bytes, q: Reader)
    requires Healthy(data, r) && r.pos == r.blockEnd && es != [] && FitsFrame(r.last, es)
    requires data[r.nextOff..] == Frame(r.expectSeq, EncodeEvents(r.last, es)) + tail
    requires var len := |EncodeEvents(r.last, es)|;
             q == r.(pos := r.nextOff + 8 + len, blockEnd := r.nextOff + 8 + len, nextOff := r.nextOff + 12 + len,
                     expectSeq := Wrap32(r.expectSeq + 1), blocksRead := r.blocksRead + 1,
                     last := AdvanceAll(r.last, es))
    ensures Reaches(data, r, es, q)
  {
    hide Frame, EncodeEvents, LoadBlock, Reaches;
    var payload := EncodeEvents(r.last, es);
    EventSizeAt(r.last, es);
    LoadFrame(data, r, r.expectSeq, payload, tail);
    var m := Admit(r, r.expectSeq, |payload|);
    LoadThenRead(data, r, m);
    PayloadInFrame(data, r.nextOff, r.expectSeq, payload, tail);
    ReadEvents(data, m, es, q);
    ReachesTrans(data, r, [], m, es, q);
    assert [] + es == es;
  }

  lemma Regroup(data: Bytes, header: Bytes, f: Bytes, g: Bytes, tail: Bytes, fg: Bytes)
    requires fg == f + g && data == header + fg + tail
    ensures data == header + f + (g + tail)
  {
  }

  lemma SplitCarries(data: Bytes, header: Bytes, before: seq<Block>, b: Block, tail: Bytes)
    requires b.accepted && Carries(data, header, before + [b], tail)
    ensures Sound(before) && FitsFrame(Predict(before), b.events) && b.events != [] && Sound(before + [b])
    ensures Carries(data, header, before, BlockFrame(before, b.events) + tail)
    ensures |Frames(before + [b])| == |Frames(before)| + BLOCK_OVERHEAD + |EncodeEvents(Predict(before), b.events)|
    ensures Predict(before + [b]) == AdvanceAll(Predict(before), b.events)
  {
    Snoc(before, b);
    Regroup(data, header, Frames(before), BlockFrame(before, b.events), tail, Frames(before + [b]));
  }

  /** An accepted block is read back event for event. */
  lemma ReadBlock(data: Bytes, header: Bytes, h: Header, before: seq<Block>, b: Block, tail: Bytes)
    requires b.accepted && Carries(data, header, before + [b], tail) && h.version == VERSION
    ensures Sound(before) && Reaches(data, BetweenBlocks(h, before), b.events, BetweenBlocks(h, before + [b]))
  {
    hide Frame, Reaches, EncodeEvents, Carries, FitsFrame, Sound, Predict;
    SplitCarries(data, header, before, b, tail);
    WrapAdd32(|before|, 1);
    CarriesTail(data, header, h, before, BlockFrame(before, b.events) + tail);
    ReadFrame(data, BetweenBlocks(h, before), b.events, tail, BetweenBlocks(h, before + [b]));
  }

  lemma EventSizeAt(p: Predictor, es: seq<Event>)
    requires Recordable(p, es) && es != []
    ensures |EncodeEvents(p, es)| > 0
  {
    EventSize(p, es[0]);
  }

  lemma PayloadInFrame(data: Bytes, off: nat, number: u32, payload: Bytes, tail: Bytes)
    requires off <= |data| && |payload| < TWO_32 && data[off..] == Frame(number, payload) + tail
    ensures data[off + 8..off + 8 + |payload|] == payload
  {
    hide PutU32, Trailer;
    var rest := data[off..];
    var words, after := PutU32(|payload|) + PutU32(number), Trailer(Body(number, payload)) + tail;
    assert rest == words + payload + after;
    assert data[off + 8..off + 8 + |payload|] == rest[8..8 + |payload|];
  }

  // ----- the whole trace

  lemma OpenHeader(data: Bytes, h: Header, rest: Bytes)
    requires h.version == VERSION && data == EncodeHeader(h.flags, h.buildId, h.seed) + rest
    ensures OpenBytes(data) == CLOSED.(header := h, nextOff := HEADER_SIZE, isOpen := true)
  {
    assert data[..4] == PutU32(MAGIC) && data[4..6] == PutU16(VERSION) && data[6..8] == PutU16(h.flags);
    assert data[8..16] == PutU64(h.buildId) && data[16..24] == PutU64(h.seed);
    assert GetU32(data) == GetU32(data[..4]);
    assert GetU16(data[4..]) == GetU16(data[4..6]) && GetU16(data[6..]) == GetU16(data[6..8]);
    assert GetU64(data[8..]) == GetU64(data[8..16]) && GetU64(data[16..]) == GetU64(data[16..24]) by {
      assert data[8..][..4] == data[8..16][..4] && data[8..][4..8] == data[8..16][4..8];
      assert data[16..][..4] == data[16..24][..4] && data[16..][4..8] == data[16..24][4..8];
    }
  }

  lemma {:induction false} ReadBlocks(data: Bytes, header: Bytes, h: Header, blocks: seq<Block>, tail: Bytes)
    requires Carries(data, header, blocks, tail) && AllAccepted(blocks) && h.version == VERSION
    ensures Reaches(data, BetweenBlocks(h, []), Flatten(blocks), BetweenBlocks(h, blocks))
    decreases |blocks|
  {
    hide Reaches, BlockFrame;
    if blocks == [] {
      CarriesTail(data, header, h, [], tail);
      ReachesSelf(data, BetweenBlocks(h, []));
    } else {
      var before, b := Front(blocks), Last(blocks);
      assert blocks == before + [b];
      ReadBlock(data, header, h, before, b, tail);
      SplitCarries(data, header, before, b, tail);
      ReadBlocks(data, header, h, before, BlockFrame(before, b.events) + tail);
      ReachesTrans(data, BetweenBlocks(h, []), Flatten(before), BetweenBlocks(h, before), b.events, BetweenBlocks(h, blocks));
    }
  }

  /** The bytes a current-version writer puts in front. */
  function HeaderBytes(h: Header): (s: Bytes)
    ensures |s| == HEADER_SIZE
  {
    EncodeHeader(h.flags, h.buildId, h.seed)
  }

  lemma ReadOpened(data: Bytes, h: Header, blocks: seq<Block>, tail: Bytes)
    requires h.version == VERSION && Carries(data, HeaderBytes(h), blocks, tail)
    ensures InBounds(data, BetweenBlocks(h, [])) && ReadTrace(data) == ReadAll(data, BetweenBlocks(h, []))
  {
    hide ReadAll, PutU32, PutU16, PutU64;
    assert data == HeaderBytes(h) + (Frames(blocks) + tail);
    OpenHeader(data, h, Frames(blocks) + tail);
  }

  /** If nothing can be loaded after `blocks`, reading delivers exactly their events and stops there. */
  lemma ReadUpTo(data: Bytes, h: Header, blocks: seq<Block>, tail: Bytes, q: Reader)
    requires h.version == VERSION && Carries(data, HeaderBytes(h), blocks, tail) && AllAccepted(blocks)
    requires InBounds(data, BetweenBlocks(h, blocks)) && q == LoadBlock(data, BetweenBlocks(h, blocks)) && q.done
    ensures ReadTrace(data) == (Flatten(blocks), q)
  {
    ReadOpened(data, h, blocks, tail);
    hide HeaderBytes, LoadBlock;
    ReadBlocks(data, HeaderBytes(h), h, blocks, tail);
    StopHere(data, BetweenBlocks(h, blocks), q);
    assert Flatten(blocks) + [] == Flatten(blocks);
  }

  // ----- main results

  /** The end of a stream: the terminating zero word, or nothing at all. */
  predicate Closes(tail: Bytes) {
    |tail| < 4 || GetU32(tail) == 0
  }

  lemma LoadEnd(data: Bytes, r: Reader)
    requires Sane(data, r) && Closes(data[r.nextOff..])
    ensures LoadBlock(data, r) == r.(done := true)
  {
  }

  /** A trace whose blocks all arrived reads back event for event, however they were split into blocks. */
  lemma RoundTrip(data: Bytes, h: Header, blocks: seq<Block>, tail: Bytes)
    requires h.version == VERSION && Carries(data, HeaderBytes(h), blocks, tail)
    requires AllAccepted(blocks) && Closes(tail)
    ensures ReadTrace(data) == (Flatten(blocks), BetweenBlocks(h, blocks).(done := true))
  {
    hide LoadBlock, HeaderBytes;
    CarriesTail(data, HeaderBytes(h), h, blocks, tail);
    LoadEnd(data, BetweenBlocks(h, blocks));
    ReadUpTo(data, h, blocks, tail, BetweenBlocks(h, blocks).(done := true));
  }

  /** How many blocks arrived before the first loss. */
  function Leading(blocks: seq<Block>): (j: nat)
    ensures j <= |blocks| && AllAccepted(blocks[..j])
    ensures j < |blocks| ==> !blocks[j].accepted
  {
    if blocks == [] then 0
    else
      var j := Leading(Front(blocks));
      assert Front(blocks)[..j] == blocks[..j];
      if j == |blocks| - 1 && Last(blocks).accepted then |blocks| else j
  }

  /** The first block at or after `j` that arrived, or their number. */
  function NextAccepted(blocks: seq<Block>, j: nat): (m: nat)
    requires j <= |blocks|
    ensures j <= m <= |blocks|
    ensures forall i :: j <= i < m ==> !blocks[i].accepted
    ensures m < |blocks| ==> blocks[m].accepted
    decreases |blocks| - j
  {
    if j == |blocks| || blocks[j].accepted then j else NextAccepted(blocks, j + 1)
  }

  /**
   * Whether the first lost run shows: a later block arrived with another number than the one
   * expected, or none arrived. It fails only for a lost run of a multiple of 2^32 blocks.
   */
  predicate Visible(blocks: seq<Block>) {
    var j := Leading(blocks);
    var m := NextAccepted(blocks, j);
    m == |blocks| || Wrap32(m) != Wrap32(j)
  }

  lemma GapLoad(data: Bytes, h: Header, blocks: seq<Block>, j: nat, m: nat, tail: Bytes)
    requires h.version == VERSION && Carries(data, HeaderBytes(h), blocks, tail)
    requires j < m < |blocks| && Wrap32(m) != Wrap32(j) && AllAccepted(blocks[..j]) && blocks[m].accepted
    requires forall i :: j <= i < m ==> !blocks[i].accepted
    ensures Sound(blocks[..j]) && InBounds(data, BetweenBlocks(h, blocks[..j]))
    ensures ReadTrace(data) == (Flatten(blocks[..j]), Admit(BetweenBlocks(h, blocks[..j]), Wrap32(m), 0))
    ensures LoadBlock(data, BetweenBlocks(h, blocks[..j])) == ReadTrace(data).1 && ReadTrace(data).1.done
  {
    hide LoadBlock, HeaderBytes, Frame, EncodeEvents, ReadTrace, Wrap32, BetweenBlocks;
    LostRun(blocks, j, m);
    SoundPrefix(blocks, m + 1);
    FrontOfPrefix(blocks, m);
    var payload := EncodeEvents(Predict(blocks[..m]), blocks[m].events);
    EventSizeAt(Predict(blocks[..m]), blocks[m].events);
    GapAfter(data, h, blocks[..j], Frames(blocks), Wrap32(m), payload, tail);
  }

  lemma GapAfter(data: Bytes, h: Header, before: seq<Block>, frames: Bytes, number: u32, payload: Bytes, tail: Bytes)
    requires h.version == VERSION && Sound(before) && AllAccepted(before) && |data| < TWO_32
    requires data == HeaderBytes(h) + frames + tail
    requires 0 < |payload| < TWO_32 && Frames(before) + Frame(number, payload) <= frames
    requires number != Wrap32(|before|)
    ensures InBounds(data, BetweenBlocks(h, before))
    ensures ReadTrace(data) == (Flatten(before), Admit(BetweenBlocks(h, before), number, 0))
    ensures LoadBlock(data, BetweenBlocks(h, before)) == ReadTrace(data).1 && ReadTrace(data).1.done
  {
    hide LoadBlock, HeaderBytes, Frame, ReadTrace, Frames, Wrap32;
    var f, frame := Frames(before), Frame(number, payload);
    var more := frames[|f + frame|..] + tail;
    Regrouped(data, HeaderBytes(h), frames, tail, f, frame);
    assert Carries(data, HeaderBytes(h), before, frame + more);
    CarriesTail(data, HeaderBytes(h), h, before, frame + more);
    BetweenBlocksFields(h, before);
    var r := BetweenBlocks(h, before);
    LoadGap(data, r, number, payload, more);
    ReadUpTo(data, h, before, frame + more, Admit(r, number, 0));
  }

  lemma BetweenBlocksFields(h: Header, before: seq<Block>)
    requires Sound(before)
    ensures var r := BetweenBlocks(h, before);
            && r.expectSeq == Wrap32(|before|) && r.error.None? && r.blocksLost == 0 && !r.done
            && r.isOpen && r.header == h && r.last == Predict(before)
            && r.pos == r.blockEnd && r.nextOff == HEADER_SIZE + |Frames(before)|
  {
    hide Frames, Sound, Predict, Wrap32;
  }

  lemma WrapSmall(n: nat)
    ensures n < TWO_32 ==> Wrap32(n) == n
  {
  }

  lemma Regrouped(data: Bytes, header: Bytes, frames: Bytes, tail: Bytes, f: Bytes, g: Bytes)
    requires data == header + frames + tail && f + g <= frames
    ensures data == header + f + (g + (frames[|f + g|..] + tail))
  {
    assert frames == f + g + frames[|f + g|..];
  }

  lemma LoadGap(data: Bytes, r: Reader, number: u32, payload: Bytes, more: Bytes)
    requires Healthy(data, r) && 0 < |payload| < TWO_32
    requires data[r.nextOff..] == Frame(number, payload) + more
    requires r.expectSeq != number
    ensures LoadBlock(data, r) == Admit(r, number, 0) && Admit(r, number, 0).done
  {
    hide LoadBlock, Frame;
    LoadFrame(data, r, number, payload, more);
  }

  /** In a trace below 4 GiB, numbers do not wrap before the first loss. */
  lemma {:induction false} BlocksTakeBytes(blocks: seq<Block>)
    requires Sound(blocks) && AllAccepted(blocks)
    ensures |blocks| <= |Frames(blocks)|
  {
    hide EncodeEvents, Frame, FitsFrame, Predict;
    if blocks != [] {
      BlocksTakeBytes(Front(blocks));
    }
  }

  lemma LeadingFits(data: Bytes, h: Header, blocks: seq<Block>, tail: Bytes)
    requires Carries(data, HeaderBytes(h), blocks, tail)
    ensures Leading(blocks) < TWO_32 && Wrap32(Leading(blocks)) == Leading(blocks)
  {
    hide HeaderBytes, Frames, Sound;
    var j := Leading(blocks);
    SoundPrefix(blocks, j);
    BlocksTakeBytes(blocks[..j]);
  }

  /**
   * Whatever blocks the sink refused, the reader delivers exactly the events before the first
   * lost block. If a later block arrived it reports a gap and the exact length of the lost run, or,
   * if the sequence number had wrapped around below the expected one meanwhile, a step backwards.
   */
  lemma LossyRead(data: Bytes, h: Header, blocks: seq<Block>, tail: Bytes)
    requires h.version == VERSION && Carries(data, HeaderBytes(h), blocks, tail) && Closes(tail) && Visible(blocks)
    ensures var (events, r) := ReadTrace(data);
            var j := Leading(blocks);
            var m := NextAccepted(blocks, j);
            && events == Flatten(blocks[..j]) && r.done
            && (m < |blocks| && m < TWO_32 ==> r.error == Some(GapInTrace) && r.blocksLost == m - j)
            && (m < |blocks| && Wrap32(m) > j ==> r.error == Some(GapInTrace) && r.blocksLost == Wrap32(m) - j)
            && (m < |blocks| && Wrap32(m) < j ==> r.error == Some(WentBackwards))
            && (m == |blocks| ==> r.error.None? && r.blocksLost == 0)
  {
    hide HeaderBytes, ReadTrace, Closes, Frames, BetweenBlocks, Wrap32, Sound, Flatten;
    var j := Leading(blocks);
    var m := NextAccepted(blocks, j);
    WrapSmall(m);
    LeadingFits(data, h, blocks, tail);
    if m < |blocks| {
      GapLoad(data, h, blocks, j, m, tail);
      BetweenBlocksFields(h, blocks[..j]);
    } else {
      LostRun(blocks, j, m);
      assert blocks[..m] == blocks;
      RoundTrip(data, h, blocks[..j], tail);
      BetweenBlocksFields(h, blocks[..j]);
    }
  }

  /** The reader after the blocks before the first loss, and what it makes of the next thing in the trace. */
  function AtLoss(data: Bytes, h: Header, blocks: seq<Block>, tail: Bytes): Reader
    requires Carries(data, HeaderBytes(h), blocks, tail)
  {
    hide HeaderBytes, LoadBlock;
    var j := Leading(blocks);
    var m := NextAccepted(blocks, j);
    LostRun(blocks, j, m);
    SoundPrefix(blocks, m);
    PrefixInBounds(data, h, blocks, j, tail);
    LoadBlock(data, BetweenBlocks(h, blocks[..j]))
  }

  lemma PrefixInBounds(data: Bytes, h: Header, blocks: seq<Block>, j: nat, tail: Bytes)
    requires Carries(data, HeaderBytes(h), blocks, tail) && j <= |blocks|
    ensures Sound(blocks[..j]) && InBounds(data, BetweenBlocks(h, blocks[..j]))
  {
    SoundPrefix(blocks, j);
  }

  /** Stepping over what was lost: the reader goes on with the block numbered as the one it expects. */
  lemma StepsOver(data: Bytes, h: Header, before: seq<Block>, frames: Bytes, payload: Bytes, tail: Bytes)
    requires h.version == VERSION && Sound(before) && AllAccepted(before) && |data| < TWO_32
    requires data == HeaderBytes(h) + frames + tail
    requires 0 < |payload| < TWO_32 && Frames(before) + Frame(Wrap32(|before|), payload) <= frames
    ensures InBounds(data, BetweenBlocks(h, before))
    ensures var q := LoadBlock(data, BetweenBlocks(h, before));
            && Healthy(data, q) && data[q.pos..q.blockEnd] == payload && q.last == Predict(before)
            && ReadTrace(data) == (Flatten(before) + ReadAll(data, q).0, ReadAll(data, q).1)
  {
    hide LoadBlock, HeaderBytes, Frame, ReadTrace, Frames, Wrap32, Reaches, BetweenBlocks, Predict;
    var number := Wrap32(|before|);
    var f, frame := Frames(before), Frame(number, payload);
    var more := frames[|f + frame|..] + tail;
    Regrouped(data, HeaderBytes(h), frames, tail, f, frame);
    assert Carries(data, HeaderBytes(h), before, frame + more);
    CarriesTail(data, HeaderBytes(h), h, before, frame + more);
    BetweenBlocksFields(h, before);
    var r := BetweenBlocks(h, before);
    LoadFrame(data, r, number, payload, more);
    var q := LoadBlock(data, r);
    assert q == Admit(r, number, |payload|);
    LoadThenRead(data, r, q);
    PayloadInFrame(data, r.nextOff, number, payload, more);
    ReadBlocks(data, HeaderBytes(h), h, before, frame + more);
    ReachesTrans(data, BetweenBlocks(h, []), Flatten(before), r, [], q);
    assert Flatten(before) + [] == Flatten(before);
    ReadOpened(data, h, before, frame + more);
    assert Reaches(data, BetweenBlocks(h, []), Flatten(before), q);
    ReachesMeans(data, BetweenBlocks(h, []), Flatten(before), q);
  }

  lemma ReachesMeans(data: Bytes, r: Reader, es: seq<Event>, q: Reader)
    requires Reaches(data, r, es, q)
    ensures r.isOpen && InBounds(data, r) && q.isOpen && InBounds(data, q)
    ensures ReadAll(data, r) == (es + ReadAll(data, q).0, ReadAll(data, q).1)
  {
  }

  /**
   * An invisible loss: the reader steps from the last block before it into the first one after it,
   * and reads on there with the predictor of the former.
   */
  lemma InvisibleLoss(data: Bytes, h: Header, blocks: seq<Block>, tail: Bytes)
    requires h.version == VERSION && Carries(data, HeaderBytes(h), blocks, tail) && !Visible(blocks)
    ensures var j := Leading(blocks);
            var m := NextAccepted(blocks, j);
            var q := AtLoss(data, h, blocks, tail);
            && Sound(blocks[..j]) && Sound(blocks[..m]) && FitsFrame(Predict(blocks[..m]), blocks[m].events)
            && Healthy(data, q) && q.last == Predict(blocks[..j])
            && data[q.pos..q.blockEnd] == EncodeEvents(Predict(blocks[..m]), blocks[m].events)
            && ReadTrace(data) == (Flatten(blocks[..j]) + ReadAll(data, q).0, ReadAll(data, q).1)
  {
    hide LoadBlock, HeaderBytes, Frame, EncodeEvents, ReadTrace, Wrap32, BetweenBlocks;
    var j := Leading(blocks);
    var m := NextAccepted(blocks, j);
    LostRun(blocks, j, m);
    SoundPrefix(blocks, m + 1);
    FrontOfPrefix(blocks, m);
    EventSizeAt(Predict(blocks[..m]), blocks[m].events);
    StepsOver(data, h, blocks[..j], Frames(blocks), EncodeEvents(Predict(blocks[..m]), blocks[m].events), tail);
  }

  lemma VisibleStop(data: Bytes, h: Header, blocks: seq<Block>, tail: Bytes)
    requires h.version == VERSION && Carries(data, HeaderBytes(h), blocks, tail) && Closes(tail) && Visible(blocks)
    ensures AtLoss(data, h, blocks, tail).done && ReadTrace(data).1 == AtLoss(data, h, blocks, tail)
  {
    hide HeaderBytes, ReadTrace, LoadBlock, BetweenBlocks, Wrap32, Sound, Flatten, Frames, Closes;
    var j := Leading(blocks);
    var m := NextAccepted(blocks, j);
    if m < |blocks| {
      GapLoad(data, h, blocks, j, m, tail);
    } else {
      LostRun(blocks, j, m);
      assert blocks[..m] == blocks;
      CarriesTail(data, HeaderBytes(h), h, blocks[..j], tail);
      BetweenBlocksFields(h, blocks[..j]);
      EndsAt(data, h, blocks[..j], tail);
      RoundTrip(data, h, blocks[..j], tail);
    }
  }

  lemma EndsAt(data: Bytes, h: Header, blocks: seq<Block>, tail: Bytes)
    requires h.version == VERSION && Carries(data, HeaderBytes(h), blocks, tail) && Closes(tail)
    ensures InBounds(data, BetweenBlocks(h, blocks))
    ensures LoadBlock(data, BetweenBlocks(h, blocks)) == BetweenBlocks(h, blocks).(done := true)
  {
    hide LoadBlock, HeaderBytes;
    CarriesTail(data, HeaderBytes(h), h, blocks, tail);
    LoadEnd(data, BetweenBlocks(h, blocks));
  }

  /** The reader stops right before the first loss exactly if the loss is visible, or if there is none. */
  lemma StopsAtLoss(data: Bytes, h: Header, blocks: seq<Block>, tail: Bytes)
    requires h.version == VERSION && Carries(data, HeaderBytes(h), blocks, tail) && Closes(tail)
    ensures AtLoss(data, h, blocks, tail).done <==> Visible(blocks)
    ensures Visible(blocks) ==> ReadTrace(data).1 == AtLoss(data, h, blocks, tail)
  {
    hide HeaderBytes, ReadTrace, LoadBlock, BetweenBlocks, Wrap32, Sound, Flatten, Frames;
    if Visible(blocks) {
      VisibleStop(data, h, blocks, tail);
    } else {
      InvisibleLoss(data, h, blocks, tail);
    }
  }

  /** `n` times the same block, each with one interrupt at time zero. */
  function Repeated(n: nat, accepted: bool): (blocks: seq<Block>)
    ensures |blocks| == n
  {
    if n == 0 then [] else Repeated(n - 1, accepted) + [Block([Event(IrqEnter, 0, 1, 0)], accepted)]
  }

  lemma {:induction false} RepeatedSound(n: nat, accepted: bool)
    ensures Sound(Repeated(n, accepted)) && Predict(Repeated(n, accepted)) == START
  {
    hide FitsFrame, Sound, Predict, AdvanceAll;
    var e := Event(IrqEnter, 0, 1, 0);
    if n > 0 {
      RepeatedSound(n - 1, accepted);
      OneSmallEvent(e);
      SoundSnoc(Repeated(n - 1, accepted), Block([e], accepted));
    } else {
      NoBlocks();
    }
  }

  lemma NoBlocks()
    ensures Sound([]) && Predict([]) == START
  {
  }

  lemma {:induction false} RepeatedAlike(n: nat, accepted: bool)
    ensures forall i :: 0 <= i < n ==> Repeated(n, accepted)[i].accepted == accepted
  {
    if n > 0 {
      RepeatedAlike(n - 1, accepted);
    }
  }

  lemma OneSmallEvent(e: Event)
    requires e == Event(IrqEnter, 0, 1, 0)
    ensures FitsFrame(START, [e]) && AdvanceAll(START, [e]) == START
  {
    hide EncodeEvent;
    assert [e][1..] == [];
    EventSize(START, e);
    assert EncodeEvents(START, [e]) == EncodeEvent(START, e) + [];
  }

  /** There are such losses: 2^32 blocks in a row, and then one that arrives. */
  lemma InvisibleExists() returns (blocks: seq<Block>)
    ensures Sound(blocks) && !Visible(blocks) && |blocks| == TWO_32 + 1
  {
    var e := Event(IrqEnter, 0, 1, 0);
    RepeatedSound(TWO_32, false);
    RepeatedAlike(TWO_32, false);
    OneSmallEvent(e);
    hide Repeated, Sound, Predict, FitsFrame;
    blocks := Repeated(TWO_32, false) + [Block([e], true)];
    Snoc(Repeated(TWO_32, false), Block([e], true));
    SoundSnoc(Repeated(TWO_32, false), Block([e], true));
    assert !blocks[0].accepted && blocks[TWO_32].accepted;
    assert forall i :: 0 <= i < TWO_32 ==> !blocks[i].accepted;
    hide Leading, NextAccepted;
    var j := Leading(blocks);
    assert forall i :: 0 <= i < j ==> blocks[..j][i] == blocks[i];
    assert NextAccepted(blocks, 0) == TWO_32;
  }

  lemma SoundSnoc(blocks: seq<Block>, b: Block)
    requires Sound(blocks) && b.events != [] && FitsFrame(Predict(blocks), b.events)
    ensures Sound(blocks + [b]) && Predict(blocks + [b]) == AdvanceAll(Predict(blocks), b.events)
  {
    hide FitsFrame, AdvanceAll;
    Snoc(blocks, b);
  }

  lemma {:induction false} FlattenPrefix(blocks: seq<Block>, j: nat)
    requires Sound(blocks) && j < |blocks|
    ensures Flatten(blocks[..j]) <= Flatten(blocks) && |Flatten(blocks[..j])| < |Flatten(blocks)|
    decreases |blocks|
  {
    if j == |blocks| - 1 {
      assert blocks[..j] == Front(blocks);
    } else {
      FlattenPrefix(Front(blocks), j);
      assert Front(blocks)[..j] == blocks[..j];
    }
  }

  /** EV_STOP, the last event recorded, is delivered exactly if no block at all was lost. */
  lemma StopCertifiesCompleteness(data: Bytes, h: Header, blocks: seq<Block>, es: seq<Event>, stop: Event, tail: Bytes)
    requires h.version == VERSION && Carries(data, HeaderBytes(h), blocks, tail) && Closes(tail) && Visible(blocks)
    requires Flatten(blocks) == es + [stop] && stop.kind.Stop? && (forall e | e in es :: !e.kind.Stop?)
    ensures (exists e | e in ReadTrace(data).0 :: e.kind.Stop?) <==> AllAccepted(blocks)
    ensures AllAccepted(blocks) ==> ReadTrace(data).0 == es + [stop]
  {
    hide HeaderBytes, ReadTrace;
    LossyRead(data, h, blocks, tail);
    var j := Leading(blocks);
    if j < |blocks| {
      FlattenPrefix(blocks, j);
      var got := Flatten(blocks[..j]);
      assert forall i :: 0 <= i < |got| ==> got[i] == es[i];
    } else {
      assert blocks[..j] == blocks;
      assert stop in es + [stop];
    }
  }

  /** How many leading blocks lie wholly within the first `n` bytes after the header. */
  function WholeBlocks(blocks: seq<Block>, n: nat): (k: nat)
    requires Sound(blocks)
    ensures k <= |blocks| && Sound(blocks[..k])
  {
    var k := if blocks == [] || |Frames(blocks)| <= n then |blocks| else WholeBlocks(Front(blocks), n);
    SoundPrefix(blocks, k);
    k
  }

  /** They fit, and the next one does not. */
  lemma {:induction false} WholeBlocksFit(blocks: seq<Block>, n: nat)
    requires Sound(blocks)
    ensures var k := WholeBlocks(blocks, n);
            && |Frames(blocks[..k])| <= n
            && (k < |blocks| ==> Sound(blocks[..k + 1]) && n < |Frames(blocks[..k + 1])|)
  {
    hide FitsFrame, BlockFrame, Predict;
    var k := WholeBlocks(blocks, n);
    if blocks == [] || |Frames(blocks)| <= n {
      assert blocks[..k] == blocks;
    } else {
      WholeBlocksFit(Front(blocks), n);
      assert Front(blocks)[..k] == blocks[..k];
      if k + 1 < |blocks| {
        assert Front(blocks)[..k + 1] == blocks[..k + 1];
      } else {
        assert blocks[..k + 1] == blocks;
      }
    }
  }

  lemma CutFrame(data: Bytes, r: Reader, number: u32, payload: Bytes)
    requires Healthy(data, r) && 0 < |payload| && |payload| + BLOCK_OVERHEAD < TWO_32
    requires data[r.nextOff..] < Frame(number, payload) && |data[r.nextOff..]| >= 4
    ensures LoadBlock(data, r) == Abort(r, TruncatedBlock)
  {
    hide PutU32, Trailer, Body, EnterBlock;
    var rest := data[r.nextOff..];
    assert rest[..4] == Frame(number, payload)[..4] == PutU32(|payload|);
    GetU32Prefix(rest[..4], rest[4..]);
    assert rest == rest[..4] + rest[4..];
  }

  /**
   * Cut a complete trace anywhere at or after its header: the reader delivers the events of the
   * blocks wholly inside the cut, and complains only about a block cut after its length word.
   */
  lemma Truncation(full: Bytes, h: Header, blocks: seq<Block>, cut: nat)
    requires h.version == VERSION && Carries(full, HeaderBytes(h), blocks, PutU32(0)) && AllAccepted(blocks)
    requires HEADER_SIZE <= cut <= |full|
    ensures var (events, r) := ReadTrace(full[..cut]);
            var k := WholeBlocks(blocks, cut - HEADER_SIZE);
            var left := cut - HEADER_SIZE - |Frames(blocks[..k])|;
            && 0 <= left
            && events == Flatten(blocks[..k]) && r.done && r.blocksLost == 0
            && r.error == (if k < |blocks| && left >= 4 then Some(TruncatedBlock) else None)
  {
    hide LoadBlock, HeaderBytes, ReadTrace, Frames, Sound, PutU32, WholeBlocks;
    var n := cut - HEADER_SIZE;
    var k := WholeBlocks(blocks, n);
    WholeBlocksFit(blocks, n);
    var left := n - |Frames(blocks[..k])|;
    var data := full[..cut];
    SoundPrefix(blocks, k);
    var stream := Frames(blocks) + PutU32(0);
    var tail := stream[|Frames(blocks[..k])|..n];
    CutBytes(full, HeaderBytes(h), Frames(blocks), PutU32(0), Frames(blocks[..k]), cut);
    assert Carries(data, HeaderBytes(h), blocks[..k], tail);
    if k == |blocks| || left < 4 {
      if k == |blocks| {
        assert blocks[..k] == blocks;
        TerminatorCloses(tail, left);
      }
      RoundTrip(data, h, blocks[..k], tail);
    } else {
      assert Frames(blocks) <= stream;
      CutInBlock(data, h, blocks, k, tail, stream, n);
    }
  }

  lemma TerminatorCloses(tail: Bytes, left: nat)
    requires left <= 4 && tail == PutU32(0)[..left]
    ensures Closes(tail)
  {
    assert PutU32(0)[..4] == PutU32(0);
  }

  lemma CutBytes(full: Bytes, header: Bytes, frames: Bytes, end: Bytes, f: Bytes, cut: nat)
    requires full == header + frames + end && f <= frames && |header + f| <= cut <= |full|
    ensures full[..cut] == header + f + (frames + end)[|f|..cut - |header|]
  {
    var stream := frames + end;
    assert full == header + stream;
    assert full[..cut] == header + stream[..cut - |header|];
    assert stream[..cut - |header|] == f + stream[|f|..cut - |header|];
  }

  lemma CutInBlock(data: Bytes, h: Header, blocks: seq<Block>, k: nat, tail: Bytes, stream: Bytes, n: nat)
    requires h.version == VERSION && Sound(blocks) && AllAccepted(blocks) && k < |blocks|
    requires Carries(data, HeaderBytes(h), blocks[..k], tail) && Frames(blocks) <= stream
    requires Sound(blocks[..k + 1]) && |Frames(blocks[..k])| + 4 <= n < |Frames(blocks[..k + 1])| && n <= |stream|
    requires tail == stream[|Frames(blocks[..k])|..n]
    ensures ReadTrace(data) == (Flatten(blocks[..k]), Abort(BetweenBlocks(h, blocks[..k]), TruncatedBlock))
  {
    hide LoadBlock, HeaderBytes, ReadTrace, Frame, EncodeEvents;
    SoundPrefix(blocks, k + 1);
    FrontOfPrefix(blocks, k);
    var frame := BlockFrame(blocks[..k], blocks[k].events);
    assert Frames(blocks[..k + 1]) == Frames(blocks[..k]) + frame;
    assert tail == frame[..|tail|];
    CarriesTail(data, HeaderBytes(h), h, blocks[..k], tail);
    EventSizeAt(Predict(blocks[..k]), blocks[k].events);
    CutFrame(data, BetweenBlocks(h, blocks[..k]), Wrap32(k), EncodeEvents(Predict(blocks[..k]), blocks[k].events));
    ReadUpTo(data, h, blocks[..k], tail, Abort(BetweenBlocks(h, blocks[..k]), TruncatedBlock));
  }

  /** Everything in a frame behind its length word. */
  function Inner(number: u32, payload: Bytes): Bytes {
    Body(number, payload) + Trailer(Body(number, payload))
  }

  /**
   * Damage to a block confined to four consecutive bytes behind its length word is reported as
   * a checksum mismatch before any event of that block is delivered.
   */
  lemma DamageDetected(data: Bytes, h: Header, before: seq<Block>, number: u32, payload: Bytes, damaged: Bytes, at: nat, rest: Bytes)
    requires h.version == VERSION && AllAccepted(before) && 0 < |payload| < TWO_32
    requires Crc32.BurstAt(Inner(number, payload), damaged, at) && damaged != Inner(number, payload)
    requires Carries(data, HeaderBytes(h), before, PutU32(|payload|) + damaged + rest)
    ensures ReadTrace(data) == (Flatten(before), Abort(BetweenBlocks(h, before), CrcMismatch))
  {
    InnerDamage(number, payload, damaged, at);
    hide HeaderBytes, ReadTrace, Inner, Crc32.Intact, Frames, Crc32.BurstAt;
    var tail := PutU32(|payload|) + damaged + rest;
    CarriesTail(data, HeaderBytes(h), h, before, tail);
    LoadDamaged(data, BetweenBlocks(h, before), |payload|, damaged, rest);
    hide LoadBlock, PutU32;
    ReadUpTo(data, h, before, tail, Abort(BetweenBlocks(h, before), CrcMismatch));
  }

  lemma InnerDamage(number: u32, payload: Bytes, damaged: Bytes, at: nat)
    requires Crc32.BurstAt(Inner(number, payload), damaged, at) && damaged != Inner(number, payload)
    ensures |damaged| == |payload| + 8 && !Crc32.Intact(damaged)
  {
    hide Crc32.Intact;
    TrailerIntact(Body(number, payload));
    Crc32.BurstDetected(Inner(number, payload), damaged, at);
  }

  lemma LoadDamaged(data: Bytes, r: Reader, len: nat, damaged: Bytes, rest: Bytes)
    requires Healthy(data, r) && 0 < len < TWO_32 && |damaged| == len + 8 && !Crc32.Intact(damaged)
    requires data[r.nextOff..] == PutU32(len) + damaged + rest
    ensures LoadBlock(data, r) == Abort(r, CrcMismatch)
  {
    hide Crc32.Intact, PutU32;
    var tail := data[r.nextOff..];
    assert tail == PutU32(len) + (damaged + rest);
    GetU32Prefix(PutU32(len), damaged + rest);
    assert tail[4..len + 12] == damaged;
  }
}
