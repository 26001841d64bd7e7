/** What an accepted batch means, given how the streamer built its queue. */
module BatchSafety {
  import opened Common
  import opened Messages
  import opened SortedQueue
  import opened HotShot
  import opened StreamerModel
  import opened StreamerKnown
  import opened StreamerRuns
  import opened StreamerBroadcast
  import opened StreamerPrefix
  import opened StreamerChain
  import opened StreamerCopies
  import opened StreamerContents
  import opened Verifier

  /** Message `i` of the batch was compared with the entry numbered `next + i`. */
  predicate ComparedInOrder(batch: seq<BatchMessage>, queue: seq<Entry>, cursor: BatchCursor)
    requires Accepts(batch, queue, cursor)
  {
    Consecutive(queue, Below(queue, cursor.nextBatchStartPos), |batch|)
  }

  /**
   * Verification compares slots, not numbers. In any sorted queue the two agree exactly when the slot of the last
   * message carries the end position that gets certified.
   */
  lemma ComparedInOrderIff(batch: seq<BatchMessage>, queue: seq<Entry>, cursor: BatchCursor)
    requires Ascending(queue) && Accepts(batch, queue, cursor)
    ensures ComparedInOrder(batch, queue, cursor)
       <==> queue[Below(queue, cursor.nextBatchStartPos) + |batch| - 1].Seq() == Certified(batch, queue, cursor).endMessagePosition
  {
    var pos, n := Below(queue, cursor.nextBatchStartPos), |batch|;
    ConsecutiveByLast(queue, pos, n);
    WrapMisses(cursor.nextBatchStartPos + n - 1, queue[pos + n - 1].Seq());
  }

  lemma WrapMisses(x: nat, y: U64)
    requires x <= y
    ensures Wrap(x) == x
  {
  }

  /** The streamer knows the `n` numbers from `next` on. */
  ghost predicate AllKnown(st: State, next: nat, n: nat) {
    forall s: nat :: next <= s < next + n ==> s in Known(st)
  }

  /** If the numbers from slot `pos` on are all known and the queue is the lowest part, the slots have no gap. */
  lemma {:induction false} KnownSlotsFollow(cfg: Config, st: State, pos: nat, n: nat)
    requires LowestFirst(cfg, st)
    requires 0 < n && pos + n <= |st.queue| && AllKnown(st, st.queue[pos].Seq(), n)
    ensures Consecutive(st.queue, pos, n)
  {
    if n > 1 {
      KnownSlotsFollow(cfg, st, pos, n - 1);
      var q, k, s := st.queue, pos + n - 1, st.queue[pos].Seq() + n - 1;
      assert q[k - 1].Seq() == s - 1 && q[k - 1].Seq() < q[k].Seq();
      assert s in Known(st);
      if s in st.stubs {
        HeightMapValue(q, k);
      } else {
        HeightMapKeys(q, s);
        var e :| e in q && e.Seq() == s;
        var i :| 0 <= i < |q| && q[i] == e;
      }
    }
  }

  lemma SlotsAreKnown(st: State, pos: nat, n: nat)
    requires Ascending(st.queue) && 0 < n && pos + n <= |st.queue| && Consecutive(st.queue, pos, n)
    ensures AllKnown(st, st.queue[pos].Seq(), n)
  {
    var next := st.queue[pos].Seq();
    forall s: nat | next <= s < next + n ensures s in Known(st) {
      var k := pos + (s - next);
      assert st.queue[k].Seq() == s;
      HeightMapValue(st.queue, k);
    }
  }

  /**
   * In every run whose promotions complete, an accepted batch was compared, message by message, with the entries
   * numbered `next, next + 1, ...` exactly when the streamer knows all these numbers.
   */
  lemma AcceptedBatchInOrderIff(
    cfg: Config, idx: U64, events: seq<Event>, batch: seq<BatchMessage>, cursor: BatchCursor)
    requires CompletingRun(cfg, idx, events) && Accepts(batch, Run(cfg, idx, events).st.queue, cursor)
    ensures var st := Run(cfg, idx, events).st;
      ComparedInOrder(batch, st.queue, cursor) <==> AllKnown(st, cursor.nextBatchStartPos, |batch|)
  {
    var st := Run(cfg, idx, events).st;
    var pos := Below(st.queue, cursor.nextBatchStartPos);
    RunLowest(cfg, idx, events);
    if ComparedInOrder(batch, st.queue, cursor) {
      SlotsAreKnown(st, pos, |batch|);
    } else if AllKnown(st, cursor.nextBatchStartPos, |batch|) {
      KnownSlotsFollow(cfg, st, pos, |batch|);
    }
  }

  /** The batch starts above the finalized index and ends at or below the last broadcast position. */
  predicate InBroadcastRange(st: State, batch: seq<BatchMessage>, cursor: BatchCursor) {
    st.finalizedIdx < cursor.nextBatchStartPos && cursor.nextBatchStartPos + |batch| - 1 <= st.lastBroadcastPosition
  }

  /** In particular in that range, and there the certified end position is the number of the last message. */
  lemma AcceptedBatchIsTheStream(
    cfg: Config, idx: U64, events: seq<Event>, batch: seq<BatchMessage>, cursor: BatchCursor)
    requires CompletingRun(cfg, idx, events)
    requires var st := Run(cfg, idx, events).st;
      Accepts(batch, st.queue, cursor) && InBroadcastRange(st, batch, cursor)
    ensures var st := Run(cfg, idx, events).st;
      && ComparedInOrder(batch, st.queue, cursor)
      && Certified(batch, st.queue, cursor).endMessagePosition == cursor.nextBatchStartPos + |batch| - 1
  {
    BroadcastSafety(cfg, idx, events);
    AcceptedBatchInOrderIff(cfg, idx, events, batch, cursor);
  }

  /** The queue entry that message `i` of a batch is compared with. */
  function ComparedWith(queue: seq<Entry>, cursor: BatchCursor, i: nat): Entry
    requires Below(queue, cursor.nextBatchStartPos) + i < |queue|
  {
    queue[Below(queue, cursor.nextBatchStartPos) + i]
  }

  /** Message `i` of the batch is what the feed was sent under its number, and the very entry it was compared with. */
  ghost predicate WasBroadcast(sys: System, batch: seq<BatchMessage>, cursor: BatchCursor, i: nat)
    requires Accepts(batch, sys.st.queue, cursor) && i < |batch|
  {
    var e := ComparedWith(sys.st.queue, cursor, i);
    e in sys.sent && e.Seq() == cursor.nextBatchStartPos + i && ContentMatches(batch[i], e)
  }

  lemma ComparedNumber(sys: System, batch: seq<BatchMessage>, cursor: BatchCursor, i: nat)
    requires Accepts(batch, sys.st.queue, cursor) && ComparedInOrder(batch, sys.st.queue, cursor) && i < |batch|
    ensures ComparedWith(sys.st.queue, cursor, i).Seq() == cursor.nextBatchStartPos + i
    ensures WasBroadcast(sys, batch, cursor, i) <==> ComparedWith(sys.st.queue, cursor, i) in sys.sent
  {
    assert SlotMatches(batch, sys.st.queue, Below(sys.st.queue, cursor.nextBatchStartPos), cursor, i);
  }

  /** In order and in that range, being broadcast is a matter of which copy of the block was sent. */
  lemma ComparedWasBroadcastIff(
    cfg: Config, chain: seq<Block>, sys: System, batch: seq<BatchMessage>, cursor: BatchCursor, i: nat)
    requires Sound(cfg, chain, sys) && Accepts(batch, sys.st.queue, cursor) && i < |batch|
    requires ComparedInOrder(batch, sys.st.queue, cursor) && InBroadcastRange(sys.st, batch, cursor)
    ensures WasBroadcast(sys, batch, cursor, i)
       <==> SentSameCopy(cfg, chain, sys, ComparedWith(sys.st.queue, cursor, i))
    ensures FirstIsLast(cfg, chain) ==> WasBroadcast(sys, batch, cursor, i)
  {
    ComparedNumber(sys, batch, cursor, i);
    SlotWasSentIff(cfg, chain, sys, Below(sys.st.queue, cursor.nextBatchStartPos) + i);
  }

  /**
   * Whatever the reader answered, if it answered from a chain and the promotions complete: a message of an accepted
   * batch in that range is the message that the feed was sent under its number, unless it was compared with the last
   * copy of a block of which another copy was sent.
   */
  lemma AcceptedBatchWasBroadcastIff(
    cfg: Config, idx: U64, chain: seq<Block>, events: seq<Event>, batch: seq<BatchMessage>, cursor: BatchCursor)
    requires CompletingRun(cfg, idx, events) && ChainRun(chain, events)
    requires var st := Run(cfg, idx, events).st;
      Accepts(batch, st.queue, cursor) && InBroadcastRange(st, batch, cursor)
    ensures var sys := Run(cfg, idx, events);
      forall i :: 0 <= i < |batch| ==>
        (WasBroadcast(sys, batch, cursor, i) <==> SentSameCopy(cfg, chain, sys, ComparedWith(sys.st.queue, cursor, i)))
  {
    AcceptedBatchIsTheStream(cfg, idx, events, batch, cursor);
    RunSound(cfg, idx, chain, events);
    EachWasBroadcastIff(cfg, chain, Run(cfg, idx, events), batch, cursor);
  }

  lemma EachWasBroadcastIff(
    cfg: Config, chain: seq<Block>, sys: System, batch: seq<BatchMessage>, cursor: BatchCursor)
    requires Sound(cfg, chain, sys) && Accepts(batch, sys.st.queue, cursor)
    requires ComparedInOrder(batch, sys.st.queue, cursor) && InBroadcastRange(sys.st, batch, cursor)
    ensures forall i :: 0 <= i < |batch| ==>
      (WasBroadcast(sys, batch, cursor, i) <==> SentSameCopy(cfg, chain, sys, ComparedWith(sys.st.queue, cursor, i)))
    ensures FirstIsLast(cfg, chain) ==> forall i :: 0 <= i < |batch| ==> WasBroadcast(sys, batch, cursor, i)
  {
    forall i | 0 <= i < |batch|
      ensures WasBroadcast(sys, batch, cursor, i)
         <==> SentSameCopy(cfg, chain, sys, ComparedWith(sys.st.queue, cursor, i))
      ensures FirstIsLast(cfg, chain) ==> WasBroadcast(sys, batch, cursor, i)
    {
      ComparedWasBroadcastIff(cfg, chain, sys, batch, cursor, i);
    }
  }

  /** So every message is, on a chain where the first copy of a number in a block is its last copy. */
  lemma AcceptedBatchWasBroadcast(
    cfg: Config, idx: U64, chain: seq<Block>, events: seq<Event>, batch: seq<BatchMessage>, cursor: BatchCursor)
    requires CompletingRun(cfg, idx, events) && ChainRun(chain, events) && FirstIsLast(cfg, chain)
    requires var st := Run(cfg, idx, events).st;
      Accepts(batch, st.queue, cursor) && InBroadcastRange(st, batch, cursor)
    ensures forall i :: 0 <= i < |batch| ==> WasBroadcast(Run(cfg, idx, events), batch, cursor, i)
  {
    AcceptedBatchIsTheStream(cfg, idx, events, batch, cursor);
    RunSound(cfg, idx, chain, events);
    EachWasBroadcastIff(cfg, chain, Run(cfg, idx, events), batch, cursor);
  }

  /** The same on a chain without repeated numbers whose reader answers, with no hypothesis on promotions. */
  lemma AcceptedBatchOnReliableChain(
    cfg: Config, idx: U64, chain: seq<Block>, events: seq<Event>, batch: seq<BatchMessage>, cursor: BatchCursor)
    requires ChainRun(chain, events) && Reliable(chain, events) && OneHeight(cfg, chain)
    requires var st := Run(cfg, idx, events).st;
      Accepts(batch, st.queue, cursor) && InBroadcastRange(st, batch, cursor)
    ensures ComparedInOrder(batch, Run(cfg, idx, events).st.queue, cursor)
    ensures FirstIsLast(cfg, chain) ==>
      forall i :: 0 <= i < |batch| ==> WasBroadcast(Run(cfg, idx, events), batch, cursor, i)
  {
    ReliableRunsComplete(cfg, idx, chain, events);
    AcceptedBatchIsTheStream(cfg, idx, events, batch, cursor);
    if FirstIsLast(cfg, chain) {
      AcceptedBatchWasBroadcast(cfg, idx, chain, events, batch, cursor);
    }
  }
}
