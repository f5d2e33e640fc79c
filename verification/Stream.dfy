/** What a writer leaves behind: a header and the frames of the blocks its sink accepted. */
module Stream {
  import opened Basics
  import opened Trace

  /** One flushed block, and whether the sink took it. */
  datatype Block = Block(events: seq<Event>, accepted: bool)

  function Last<T>(s: seq<T>): T
    requires s != []
  {
    s[|s| - 1]
  }

  function Front<T>(s: seq<T>): seq<T>
    requires s != []
  {
    s[..|s| - 1]
  }

  function Flatten(blocks: seq<Block>): seq<Event> {
    if blocks == [] then [] else Flatten(Front(blocks)) + Last(blocks).events
  }

  /** The predictor after all events of `blocks`, the lost ones included. */
  function Predict(blocks: seq<Block>): Predictor {
    if blocks == [] then START else AdvanceAll(Predict(Front(blocks)), Last(blocks).events)
  }

  predicate FitsFrame(p: Predictor, es: seq<Event>) {
    Recordable(p, es) && |EncodeEvents(p, es)| + BLOCK_OVERHEAD < TWO_32
  }

  /** No block is empty, timestamps never run backwards, and payload lengths fit their field. */
  predicate Sound(blocks: seq<Block>) {
    blocks == [] || (Sound(Front(blocks)) && Last(blocks).events != [] && FitsFrame(Predict(Front(blocks)), Last(blocks).events))
  }

  function BlockFrame(before: seq<Block>, events: seq<Event>): (s: Bytes)
    requires FitsFrame(Predict(before), events)
    ensures |s| == |EncodeEvents(Predict(before), events)| + BLOCK_OVERHEAD
  {
    Frame(Wrap32(|before|), EncodeEvents(Predict(before), events))
  }

  /** The accepted frames in order. A lost block leaves no bytes but keeps its sequence number. */
  function Frames(blocks: seq<Block>): Bytes
    requires Sound(blocks)
  {
    if blocks == [] then []
    else if Last(blocks).accepted then Frames(Front(blocks)) + BlockFrame(Front(blocks), Last(blocks).events)
    else Frames(Front(blocks))
  }

  function CountLost(blocks: seq<Block>): nat {
    if blocks == [] then 0 else CountLost(Front(blocks)) + (if Last(blocks).accepted then 0 else 1)
  }

  lemma Snoc(blocks: seq<Block>, b: Block)
    ensures Front(blocks + [b]) == blocks && Last(blocks + [b]) == b
  {
  }

  lemma {:induction false} SoundPrefix(blocks: seq<Block>, k: nat)
    requires Sound(blocks) && k <= |blocks|
    ensures Sound(blocks[..k])
    ensures Frames(blocks[..k]) <= Frames(blocks)
    decreases |blocks|
  {
    if k == |blocks| {
      assert blocks[..k] == blocks;
    } else {
      SoundPrefix(Front(blocks), k);
      assert Front(blocks)[..k] == blocks[..k];
    }
  }

  lemma FrontOfPrefix(blocks: seq<Block>, k: nat)
    requires k < |blocks|
    ensures Front(blocks[..k + 1]) == blocks[..k] && Last(blocks[..k + 1]) == blocks[k]
  {
  }

  /** A run of lost blocks leaves the stream as it was. */
  lemma {:induction false} LostRun(blocks: seq<Block>, j: nat, m: nat)
    requires Sound(blocks) && j <= m <= |blocks|
    requires forall i :: j <= i < m ==> !blocks[i].accepted
    ensures Sound(blocks[..j]) && Sound(blocks[..m]) && Frames(blocks[..j]) == Frames(blocks[..m])
    decreases m
  {
    hide FitsFrame, BlockFrame, Predict;
    SoundPrefix(blocks, j);
    SoundPrefix(blocks, m);
    if j < m {
      LostRun(blocks, j, m - 1);
      FrontOfPrefix(blocks, m - 1);
    }
  }

  predicate AllAccepted(blocks: seq<Block>) {
    forall i :: 0 <= i < |blocks| ==> blocks[i].accepted
  }
}
