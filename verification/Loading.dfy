/** Which traces a replay takes: all of them or none, whatever is wrong with them. */
module Loading {
  import opened Basics
  import opened Trace
  import opened Stream
  import opened TraceReading
  import opened Replaying
  import opened Codec
  import opened Grammar
  import Crc32

  function ReadyFor(h: Header, es: seq<Event>): Loaded {
    Ready(h, Start(es, h.flags % 2 == 1))
  }

  /**
   * A trace loads exactly if it is one: a header, then whole intact frames in sequence whose payloads
   * decode, up to a terminator or the end. What is loaded are the events these spell.
   */
  lemma LoadsExactly(data: Bytes, h: Header, es: seq<Event>)
    requires |data| < TWO_32
    ensures Load(data) == ReadyFor(h, es) <==> Spells(data, h, es)
  {
    hide Spells, ReadTrace;
    ReadsExactly(data, h, es);
  }

  lemma LoadsWhat(data: Bytes, loaded: Loaded)
    requires |data| < TWO_32 && loaded == Load(data) && loaded.Ready?
    ensures Spells(data, loaded.header, loaded.replay.events) && loaded == ReadyFor(loaded.header, loaded.replay.events)
  {
    hide Spells, ReadTrace;
    ReadsExactly(data, loaded.header, loaded.replay.events);
  }

  lemma CarriedHeader(data: Bytes, h: Header, blocks: seq<Block>, tail: Bytes)
    requires h.version == VERSION && Carries(data, HeaderBytes(h), blocks, tail)
    ensures ReadTrace(data).1.header == h
  {
    hide HeaderBytes, ReadAll;
    ReadOpened(data, h, blocks, tail);
    BetweenBlocksFields(h, []);
    ReadAllHeader(data, BetweenBlocks(h, []));
  }

  /**
   * What a writer leaves behind loads if and only if no block arrived behind the first lost one; then
   * as the events before the loss. Otherwise it is refused, as a gap or, if the number wrapped, as a splice.
   */
  lemma LossyLoad(data: Bytes, h: Header, blocks: seq<Block>, tail: Bytes)
    requires h.version == VERSION && Carries(data, HeaderBytes(h), blocks, tail) && Closes(tail) && Visible(blocks)
    ensures var j := Leading(blocks);
            var m := NextAccepted(blocks, j);
            Load(data) == if m == |blocks| then ReadyFor(h, Flatten(blocks[..j]))
                          else Refused(if Wrap32(m) > j then GapInTrace else WentBackwards)
  {
    hide HeaderBytes, ReadTrace, Closes, Frames, Sound, Flatten, Wrap32;
    CarriedHeader(data, h, blocks, tail);
    LossyRead(data, h, blocks, tail);
    LeadingFits(data, h, blocks, tail);
  }

  /** Damage within four consecutive bytes of one block's number, payload or checksum: refused. */
  lemma DamagedLoad(data: Bytes, h: Header, before: seq<Block>, number: u32, payload: Bytes, damaged: Bytes, at: nat, rest: Bytes)
    requires h.version == VERSION && AllAccepted(before) && 0 < |payload| < TWO_32
    requires Crc32.BurstAt(Inner(number, payload), damaged, at) && damaged != Inner(number, payload)
    requires Carries(data, HeaderBytes(h), before, PutU32(|payload|) + damaged + rest)
    ensures Load(data) == Refused(CrcMismatch)
  {
    hide HeaderBytes, ReadTrace, Inner, Crc32.BurstAt, Frames, Flatten;
    DamageDetected(data, h, before, number, payload, damaged, at, rest);
    BetweenBlocksFields(h, before);
  }

  /** A cut within a block's frame, behind its length word: refused. Anywhere else: the whole blocks before it. */
  lemma CutLoad(full: Bytes, h: Header, blocks: seq<Block>, cut: nat)
    requires h.version == VERSION && Carries(full, HeaderBytes(h), blocks, PutU32(0)) && AllAccepted(blocks)
    requires HEADER_SIZE <= cut <= |full|
    ensures var k := WholeBlocks(blocks, cut - HEADER_SIZE);
            Load(full[..cut]) == if k < |blocks| && cut - HEADER_SIZE - |Frames(blocks[..k])| >= 4 then Refused(TruncatedBlock)
                                 else ReadyFor(h, Flatten(blocks[..k]))
  {
    hide ReadTrace, Frames, Sound, Flatten, WholeBlocks;
    Truncation(full, h, blocks, cut);
    CutHeader(full, h, blocks, PutU32(0), cut);
  }

  lemma CutHeader(full: Bytes, h: Header, blocks: seq<Block>, tail: Bytes, cut: nat)
    requires h.version == VERSION && Carries(full, HeaderBytes(h), blocks, tail) && HEADER_SIZE <= cut <= |full|
    ensures ReadTrace(full[..cut]).1.header == h
  {
    hide HeaderBytes, ReadAll, Frames, OpenBytes;
    var data, rest := full[..cut], full[HEADER_SIZE..cut];
    assert data == HeaderBytes(h) + rest;
    OpenedHeader(data, h, rest);
    ReadAllHeader(data, OpenBytes(data));
  }

  lemma OpenedHeader(data: Bytes, h: Header, rest: Bytes)
    requires h.version == VERSION && data == HeaderBytes(h) + rest && |data| < TWO_32
    ensures OpenBytes(data).isOpen && OpenBytes(data).header == h && InBounds(data, OpenBytes(data))
  {
    OpenHeader(data, h, rest);
  }

  /** In a trace stamped with the older version, an interrupt with a return address is an unknown event. */
  lemma VersionLoad(data: Bytes, h: Header, blocks: seq<Block>, tail: Bytes)
    requires |data| < TWO_32 && Headed(data, h) && Sound(blocks) && AllAccepted(blocks)
    requires data[HEADER_SIZE..] == Frames(blocks) + tail && Closes(tail)
    ensures Load(data) == if Legible(Flatten(blocks), h.version) == Flatten(blocks) then ReadyFor(h, Flatten(blocks)) else Refused(UnknownEvent)
  {
    hide ReadTrace, Frames, Sound, Flatten, Legible, Headed, Closes;
    VersionRoundTrip(data, h, blocks, tail);
  }
}
