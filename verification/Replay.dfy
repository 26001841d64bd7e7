/** What the chain makes of a certified batch: the replayer of the rollup, as the verifier's comments describe it. */
module Replay {
  import opened Common
  import opened Messages
  import opened BatchParser
  import opened Verifier

  datatype Emitted =
    | Sequenced(content: Bytes)
    | DelayedInbox(index: nat)
    | Placeholder
    | VirtualDelayed(index: nat)

  /** Delayed messages read after the last segment, until the certified count is reached. */
  function Virtual(count: nat, target: nat): seq<Emitted>
    decreases target - count
  {
    if count >= target then [] else [VirtualDelayed(count)] + Virtual(count + 1, target)
  }

  /**
   * Replays segments with `count` delayed messages read so far, up to the certified count `target`. A segment that
   * cannot be interpreted, and a delayed segment beyond the target, become counted placeholders.
   */
  function Replayed(brotli: Brotli, segments: seq<Bytes>, count: nat, target: nat): seq<Emitted> {
    if segments == [] then Virtual(count, target)
    else
      var s, more := segments[0], segments[1..];
      if s == [] || s[0] == ADVANCE_TIMESTAMP || s[0] == ADVANCE_L1_BLOCK_NUMBER then
        Replayed(brotli, more, count, target)
      else if s[0] == DELAYED_MESSAGES && count < target then
        [DelayedInbox(count)] + Replayed(brotli, more, count + 1, target)
      else
        [Single(brotli, s)] + Replayed(brotli, more, count, target)
  }

  function Single(brotli: Brotli, s: Bytes): Emitted
    requires s != []
  {
    if s[0] == L2_MESSAGE then Sequenced(s[1..])
    else if s[0] == L2_MESSAGE_BROTLI then
      match Decompress(brotli, s[1..], MAX_L2_MESSAGE_SIZE)
      case None => Placeholder
      case Some(content) => Sequenced(content)
    else Placeholder
  }

  /** One message per slot of the batch, delayed ones numbered from `count`. */
  function Slots(batch: seq<BatchMessage>, count: nat): seq<Emitted> {
    if batch == [] then []
    else
      match batch[0]
      case L2Msg(content) => [Sequenced(content)] + Slots(batch[1..], count)
      case DelayedMsg => [DelayedInbox(count)] + Slots(batch[1..], count + 1)
  }

  /** One message per slot, with no placeholder and no virtual delayed message. */
  lemma {:induction false} SlotsSpec(batch: seq<BatchMessage>, count: nat)
    ensures |Slots(batch, count)| == |batch|
    ensures forall m :: m in Slots(batch, count) ==> m.Sequenced? || m.DelayedInbox?
  {
    if batch != [] {
      SlotsSpec(batch[1..], if batch[0].DelayedMsg? then count + 1 else count);
    }
  }

  lemma DelayedCountCons(m: BatchMessage, batch: seq<BatchMessage>)
    ensures DelayedCount([m] + batch) == (if m.DelayedMsg? then 1 else 0) + DelayedCount(batch)
  {
    DelayedCountConcat([m], batch);
    assert [m][..0] == [];
  }

  /** The count after one more slot. */
  function After(count: nat, m: BatchMessage): nat {
    if m.DelayedMsg? then count + 1 else count
  }

  /** A segment that is parsed without a slot is replayed without a message. */
  lemma SkippedSegment(brotli: Brotli, segments: seq<Bytes>, count: nat, target: nat)
    requires segments != [] && Classify(brotli, segments[0]) == Ok([])
    ensures Replayed(brotli, segments, count, target) == Replayed(brotli, segments[1..], count, target)
    ensures ClassifyAll(brotli, segments) == ClassifyAll(brotli, segments[1..])
  {
    FollowedEnds([], ClassifyAll(brotli, segments[1..]));
  }

  /** A segment that is parsed to a slot is replayed to one message: the slot's, or a placeholder past the target. */
  lemma SlotSegment(brotli: Brotli, segments: seq<Bytes>, m: BatchMessage, count: nat, target: nat)
    requires segments != [] && Classify(brotli, segments[0]) == Ok([m])
    ensures m.DelayedMsg? && count >= target ==>
              Replayed(brotli, segments, count, target) == [Placeholder] + Replayed(brotli, segments[1..], count, target)
    ensures !(m.DelayedMsg? && count >= target) ==>
              Replayed(brotli, segments, count, target)
              == [Slots([m], count)[0]] + Replayed(brotli, segments[1..], After(count, m), target)
  {
  }

  lemma SlotsCons(m: BatchMessage, batch: seq<BatchMessage>, count: nat)
    ensures Slots([m] + batch, count) == [Slots([m], count)[0]] + Slots(batch, After(count, m))
  {
    assert ([m] + batch)[1..] == batch;
  }

  lemma ClassifyCases(brotli: Brotli, segment: Bytes)
    requires Classify(brotli, segment).Ok?
    ensures Classify(brotli, segment).value == [] || |Classify(brotli, segment).value| == 1
  {
  }

  /**
   * The exact targets for which the replay is the batch, slot by slot: the count the batch itself reaches, or, for
   * a batch without delayed messages, any count not above the one it starts from.
   */
  lemma {:induction false} ReplayIff(brotli: Brotli, segments: seq<Bytes>, count: nat, target: nat)
    requires ClassifyAll(brotli, segments).Ok?
    ensures var batch := ClassifyAll(brotli, segments).value;
            Replayed(brotli, segments, count, target) == Slots(batch, count) <==> Max(count, target) == count + DelayedCount(batch)
  {
    if segments != [] {
      var more := segments[1..];
      ClassifyCases(brotli, segments[0]);
      var first, rest := Classify(brotli, segments[0]).value, ClassifyAll(brotli, more).value;
      if first == [] {
        SkippedSegment(brotli, segments, count, target);
        ReplayIff(brotli, more, count, target);
      } else {
        var m := first[0];
        assert first == [m];
        ReplayIff(brotli, more, After(count, m), target);
        SlotSegment(brotli, segments, m, count, target);
        ReplayStep(m, rest, count, target,
          Replayed(brotli, segments, count, target), Replayed(brotli, more, After(count, m), target));
      }
    }
  }

  lemma ReplayStep(m: BatchMessage, rest: seq<BatchMessage>, count: nat, target: nat, all: seq<Emitted>, tail: seq<Emitted>)
    requires tail == Slots(rest, After(count, m)) <==> Max(After(count, m), target) == After(count, m) + DelayedCount(rest)
    requires m.DelayedMsg? && count >= target ==> all != [] && all[0] == Placeholder
    requires !(m.DelayedMsg? && count >= target) ==> all == [Slots([m], count)[0]] + tail
    ensures all == Slots([m] + rest, count) <==> Max(count, target) == count + DelayedCount([m] + rest)
  {
    DelayedCountCons(m, rest);
    SlotsCons(m, rest, count);
    if !(m.DelayedMsg? && count >= target) {
      assert all[1..] == tail;
      assert Slots([m] + rest, count)[1..] == Slots(rest, After(count, m));
    }
  }

  /**
   * A batch that was parsed and accepted replays, up to the delayed count that gets certified, to exactly one message
   * per slot in order, with no placeholder and no virtual delayed message, exactly when that count does not overflow.
   */
  lemma ReplayConformity(brotli: Brotli, content: Bytes, segments: seq<Bytes>, queue: seq<Entry>, cursor: BatchCursor)
    requires Written(brotli, content, segments) && Parsed(brotli, content).Ok?
    requires Accepts(Parsed(brotli, content).value, queue, cursor)
    ensures var batch, read := Parsed(brotli, content).value, cursor.lastBatchDelayedMessagesRead;
            && |Slots(batch, read)| == |batch|
            && (forall m :: m in Slots(batch, read) ==> m.Sequenced? || m.DelayedInbox?)
            && (Replayed(brotli, segments, read, Verify(batch, queue, cursor).afterDelayedMessagesRead) == Slots(batch, read)
                <==> read + DelayedCount(batch) <= U64_MAX)
  {
    var batch, read := Parsed(brotli, content).value, cursor.lastBatchDelayedMessagesRead;
    SlotsSpec(batch, read);
    WrittenIff(brotli, content, segments);
    ReplayIff(brotli, segments, read, Verify(batch, queue, cursor).afterDelayedMessagesRead);
  }
}
