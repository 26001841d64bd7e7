/**
 * Where the promises stop: concrete runs showing that the hypotheses on promotions, on the broadcast range and on the
 * chain are needed.
 */
module StreamerLimits {
  import opened Common
  import opened Messages
  import opened SortedQueue
  import opened HotShot
  import opened StreamerModel
  import opened StreamerPromotion
  import opened StreamerRuns
  import opened StreamerPrefix
  import opened StreamerChain
  import opened Verifier
  import opened BatchSafety
  import opened Scenario

  /** Numbers 1, 2, 3 and a late 0; the block of number 3 carries a second message under that number. */
  function Chain(): seq<Block> {
    [One(1), One(2), Two(3, 3, 9), One(0)]
  }

  function Blocks(from: nat, to: nat): Option<seq<Block>> {
    if from <= to <= 4 then Some(Chain()[from..to]) else None
  }

  /** Fed from the chain, with promotions that complete. */
  ghost predicate Good(events: seq<Event>) {
    ChainRun(Chain(), events) && CompletingRun(Three(), 0, events)
  }

  lemma GoodSnoc(events: seq<Event>, ev: Event)
    requires Good(events) && ChainEvent(Chain(), ev) && Completes(Three(), Run(Three(), 0, events).st, ev)
    ensures Good(events + [ev])
  {
    CompletingSnoc(Three(), 0, events, ev);
  }

  lemma BlockAt(height: nat)
    requires height < 4
    ensures ChainEvent(Chain(), Poll(Chain()[height], height))
    ensures Blocks(height, height + 1) == Some([Chain()[height]])
  {
    assert Chain()[height..height + 1] == [Chain()[height]];
  }

  /** In-order arrival with room: queued and broadcast. */
  lemma InOrder(events: seq<Event>, sys: System, height: nat, e: Entry) returns (more: seq<Event>, after: System)
    requires Run(Three(), 0, events) == sys && Good(events) && height < 4
    requires Files(sys.st, Poll(Chain()[height], height), e)
    requires FitsAt(sys.st, e, |sys.st.queue|) && |sys.st.queue| < 3 && e.Seq() == sys.st.lastBroadcastPosition + 1
    ensures Run(Three(), 0, more) == after && Good(more)
    ensures after == sys.(st := sys.st.(queue := sys.st.queue + [e], lastBroadcastPosition := e.Seq()), sent := sys.sent + [e])
  {
    var filed;
    more, filed := ArrivesLast(events, sys, Poll(Chain()[height], height), e);
    BlockAt(height);
    GoodSnoc(events, Poll(Chain()[height], height));
    LastOne(sys.st.queue, e);
    SendNext(filed, e);
    after := Send(filed, 10);
  }

  /** An arrival above everything queued goes to the end. */
  lemma ArrivesLast(events: seq<Event>, sys: System, ev: Event, e: Entry) returns (more: seq<Event>, filed: System)
    requires Run(Three(), 0, events) == sys && Files(sys.st, ev, e)
    requires FitsAt(sys.st, e, |sys.st.queue|) && |sys.st.queue| < 3
    ensures filed == sys.(st := sys.st.(queue := sys.st.queue + [e]))
    ensures more == events + [ev] && Run(Three(), 0, more) == Send(filed, 10)
  {
    PlacedLast(sys.st, e);
    filed := sys.(st := sys.st.(queue := sys.st.queue + [e]));
    more := Arrival(events, sys, ev, e, |sys.st.queue|);
  }

  lemma PlacedLast(st: State, e: Entry)
    requires |st.queue| < 3
    ensures Placed(st, e, |st.queue|) == st.(queue := st.queue + [e])
  {
    var q := st.queue;
    assert q[..|q|] + [e] + q[|q|..] == q + [e];
  }

  lemma LastOne(q: seq<Entry>, e: Entry)
    requires Ascending(q) && (q != [] ==> q[|q| - 1].Seq() < e.Seq())
    ensures Ascending(q + [e]) && e in q + [e] && !Holds(q + [e], e.Seq() + 1)
  {
    var all := q + [e];
    assert all[|q|] == e;
    forall i | 0 <= i < |q| ensures q[i].Seq() < e.Seq() {
      if i < |q| - 1 {
        assert q[i].Seq() < q[|q| - 1].Seq();
      }
    }
  }

  /** Numbers 1, 2, 3 arrive and are broadcast. */
  lemma AfterThree() returns (events: seq<Event>, sys: System)
    ensures Run(Three(), 0, events) == sys && Good(events)
    ensures sys.st.queue == [At(1, 1, 0), At(2, 2, 1), At(3, 3, 2)] && sys.st.stubs == map[]
    ensures sys.st.finalizedIdx == 0 && sys.st.lastBroadcastPosition == 3
    ensures At(3, 3, 2) in sys.sent
  {
    events, sys := AfterOneAndTwo();
    ThirdFiles(sys.st);
    events, sys := InOrder(events, sys, 2, At(3, 3, 2));
    assert sys.sent[|sys.sent| - 1] == At(3, 3, 2);
  }

  lemma AfterOneAndTwo() returns (events: seq<Event>, sys: System)
    ensures Run(Three(), 0, events) == sys && Good(events)
    ensures sys.st.queue == [At(1, 1, 0), At(2, 2, 1)] && sys.st.stubs == map[]
    ensures sys.st.finalizedIdx == 0 && sys.st.lastBroadcastPosition == 2
  {
    events, sys := [], Start();
    OneFiles(sys.st, 1, 0);
    events, sys := InOrder(events, sys, 0, At(1, 1, 0));
    OneFiles(sys.st, 2, 1);
    events, sys := InOrder(events, sys, 1, At(2, 2, 1));
  }

  lemma ThirdFiles(st: State)
    requires st.queue == [At(1, 1, 0), At(2, 2, 1)] && st.stubs == map[]
    ensures Files(st, Poll(Chain()[2], 2), At(3, 3, 2)) && FitsAt(st, At(3, 3, 2), 2)
  {
    var e := At(3, 3, 2);
    Arrives(st, e, 2);
    assert Placed(st, e, 2).queue[2] == e;
    TwoFile(st, 3, 3, 9, 2);
  }

  /** Number 0 arrives late and pushes 3 out of the full queue. */
  lemma AfterLate() returns (events: seq<Event>, sys: System)
    ensures Run(Three(), 0, events) == sys && Good(events)
    ensures sys.st.queue == [At(0, 0, 3), At(1, 1, 0), At(2, 2, 1)] && sys.st.stubs == map[3 := 2]
    ensures sys.st.finalizedIdx == 0 && sys.st.lastBroadcastPosition == 3
    ensures At(3, 3, 2) in sys.sent
  {
    var full;
    events, full := AfterThree();
    OneFiles(full.st, 0, 3);
    var before := events;
    events := Arrival(before, full, Poll(Chain()[3], 3), At(0, 0, 3), 0);
    BlockAt(3);
    GoodSnoc(before, Poll(Chain()[3], 3));
    sys := full.(st := Placed(full.st, At(0, 0, 3), 0));
    LateFiled(full.st);
    SendNothing(sys);
  }

  lemma LateFiled(st: State)
    requires st.queue == [At(1, 1, 0), At(2, 2, 1), At(3, 3, 2)] && st.stubs == map[]
    ensures var late := Placed(st, At(0, 0, 3), 0);
      && late == st.(queue := [At(0, 0, 3), At(1, 1, 0), At(2, 2, 1)], stubs := map[3 := 2])
      && Ascending(late.queue) && !Holds(late.queue, 4)
  {
    var q, e := st.queue, At(0, 0, 3);
    var all := q[..0] + [e] + q[0..];
    assert all == [e, q[0], q[1], q[2]];
    assert all[..3] == [e, q[0], q[1]];
  }

  /** L1 finalizes 1: the queue keeps 2, and the stub of 3 is to be promoted. */
  lemma Finalizing(st: State, fetch: Fetch)
    requires st.queue == [At(0, 0, 3), At(1, 1, 0), At(2, 2, 1)] && st.stubs == map[3 := 2]
    requires st.finalizedIdx == 0 && st.lastBroadcastPosition == 3
    ensures Prune(st, 1) == st.(queue := [At(2, 2, 1)], finalizedIdx := 1)
    ensures Finalize(Three(), st, 1, fetch) == Promote(Three(), Prune(st, 1), fetch)
  {
    BelowUnique(st.queue, 2, 2);
    assert st.queue[2..] == [At(2, 2, 1)];
    assert Prune(st, 1).stubs == st.stubs;
  }

  /** The promotion fails. */
  lemma Aborted() returns (events: seq<Event>, sys: System)
    ensures Run(Three(), 0, events) == sys
    ensures sys.st.queue == [At(2, 2, 1)] && sys.st.stubs == map[3 := 2]
    ensures sys.st.finalizedIdx == 1 && sys.st.lastBroadcastPosition == 3
  {
    var late;
    events, late := AfterLate();
    RunSnoc(events, L1Finalized(1, Dead));
    events := events + [L1Finalized(1, Dead)];
    Finalizing(late.st, Dead);
    PromoteNone(Three(), Prune(late.st, 1), 3, 2);
    sys := Run(Three(), 0, events);
  }

  /** Then 4 arrives behind the stub of 3. */
  lemma AfterAborted() returns (events: seq<Event>, sys: System)
    ensures Run(Three(), 0, events) == sys
    ensures sys.st.queue == [At(2, 2, 1), At(4, 4, 4)] && sys.st.finalizedIdx == 1 && sys.st.lastBroadcastPosition == 4
  {
    var aborted;
    events, aborted := Aborted();
    OneFiles(aborted.st, 4, 4);
    events := Arrival(events, aborted, Poll(One(4), 4), At(4, 4, 4), 1);
    var filed := aborted.(st := Placed(aborted.st, At(4, 4, 4), 1));
    assert filed.st.queue == [At(2, 2, 1), At(4, 4, 4)];
    LastOne([At(2, 2, 1)], At(4, 4, 4));
    SendNext(filed, At(4, 4, 4));
    sys := Send(filed, 10);
  }

  /**
   * After an aborted promotion, new arrivals fill the freed room behind a stub. A batch that starts above the finalized
   * index and ends below the last broadcast position is then accepted although its second message was compared with
   * entry 4 and certified as message 3.
   */
  lemma AbortedPromotionMisaligns()
    returns (events: seq<Event>, st: State, batch: seq<BatchMessage>, cursor: BatchCursor)
    ensures st == Run(Three(), 0, events).st
    ensures Accepts(batch, st.queue, cursor) && !ComparedInOrder(batch, st.queue, cursor)
    ensures st.finalizedIdx < cursor.nextBatchStartPos
    ensures cursor.nextBatchStartPos + |batch| - 1 <= st.lastBroadcastPosition
  {
    var sys;
    events, sys := AfterAborted();
    st := sys.st;
    batch, cursor := [L2Msg([2]), L2Msg([4])], BatchCursor(0, 2);
    TwoSlots(st.queue, 4, 4, batch, cursor);
  }

  /**
   * No finalization is needed for that: while 3 has not arrived, the queue holds 2 and 4, and a batch that ends above
   * the last broadcast position is accepted although its second message was compared with entry 4.
   */
  lemma MissingNumberMisaligns()
    returns (events: seq<Event>, st: State, batch: seq<BatchMessage>, cursor: BatchCursor)
    ensures st == Run(Three(), 0, events).st && CompletingRun(Three(), 0, events)
    ensures Accepts(batch, st.queue, cursor) && !ComparedInOrder(batch, st.queue, cursor)
    ensures st.finalizedIdx < cursor.nextBatchStartPos
  {
    var sys;
    events, sys := AfterTwoAndFour();
    st := sys.st;
    batch, cursor := [L2Msg([2]), L2Msg([4])], BatchCursor(0, 2);
    TwoSlots(st.queue, 4, 4, batch, cursor);
  }

  /** Out-of-order arrival with room: queued, not broadcast. */
  lemma Waits(events: seq<Event>, sys: System, ev: Event, e: Entry) returns (more: seq<Event>, after: System)
    requires Run(Three(), 0, events) == sys && Files(sys.st, ev, e)
    requires FitsAt(sys.st, e, |sys.st.queue|) && |sys.st.queue| < 3
    requires CompletingRun(Three(), 0, events) && !Holds(sys.st.queue + [e], sys.st.lastBroadcastPosition + 1)
    ensures Run(Three(), 0, more) == after && CompletingRun(Three(), 0, more)
    ensures after == sys.(st := sys.st.(queue := sys.st.queue + [e]))
  {
    CompletingSnoc(Three(), 0, events, ev);
    more, after := ArrivesLast(events, sys, ev, e);
    LastOne(sys.st.queue, e);
    SendNothing(after);
  }

  lemma AfterTwoAndFour() returns (events: seq<Event>, sys: System)
    ensures Run(Three(), 0, events) == sys && CompletingRun(Three(), 0, events)
    ensures sys.st.queue == [At(2, 2, 0), At(4, 4, 1)] && sys.st.finalizedIdx == 0
  {
    events, sys := AfterTwo();
    OneFiles(sys.st, 4, 1);
    FourFits(sys.st);
    events, sys := Waits(events, sys, Poll(One(4), 1), At(4, 4, 1));
  }

  lemma FourFits(st: State)
    requires st.queue == [At(2, 2, 0)] && st.stubs == map[]
    ensures FitsAt(st, At(4, 4, 1), 1) && !Holds(st.queue + [At(4, 4, 1)], 1)
  {
  }

  lemma AfterTwo() returns (events: seq<Event>, sys: System)
    ensures Run(Three(), 0, events) == sys && CompletingRun(Three(), 0, events)
    ensures sys.st.queue == [At(2, 2, 0)] && sys.st.stubs == map[]
    ensures sys.st.finalizedIdx == 0 && sys.st.lastBroadcastPosition == 0
  {
    events, sys := [], Start();
    OneFiles(sys.st, 2, 0);
    events, sys := Waits(events, sys, Poll(One(2), 0), At(2, 2, 0));
  }

  /** The promotion of 3 finds the second message of its block. */
  lemma AfterSwapped() returns (events: seq<Event>, sys: System)
    ensures Run(Three(), 0, events) == sys && Good(events)
    ensures sys.st.queue == [At(2, 2, 1), At(3, 9, 2)] && sys.st.finalizedIdx == 1 && sys.st.lastBroadcastPosition == 3
    ensures At(3, 3, 2) in sys.sent
  {
    var late;
    events, late := AfterLate();
    var ev := L1Finalized(1, Blocks);
    RunSnoc(events, ev);
    Finalizing(late.st, Blocks);
    PromotesSecond(Prune(late.st, 1));
    GoodSnoc(events, ev);
    events := events + [ev];
    sys := Run(Three(), 0, events);
  }

  lemma PromotesSecond(st: State)
    requires st.queue == [At(2, 2, 1)] && st.stubs == map[3 := 2]
    ensures Promote(Three(), st, Blocks) == st.(queue := [At(2, 2, 1), At(3, 9, 2)], stubs := map[])
    ensures PromotionComplete(Three(), st, Blocks)
  {
    var e := At(3, 9, 2);
    SecondIsLast();
    PromoteOne(Three(), st, Blocks, 3, [Chain()[2]], e);
    InsertAtEnd(st.queue, e);
  }

  lemma SecondIsLast()
    ensures Blocks(2, 3) == Some([Chain()[2]])
    ensures LastWith(Entries(ParsePair, [Chain()[2]], 2), 3) == Some(At(3, 9, 2))
  {
    BlockAt(2);
    TwoEntries(3, 3, 9, 2);
    assert LastWith([At(3, 3, 2), At(3, 9, 2)], 3) == Some(At(3, 9, 2));
  }

  /**
   * With a block that carries two messages under one number, filing keeps the first and promotion the last. In a run
   * fed from such a chain whose promotions complete, a batch that starts above the finalized index and ends at the last
   * broadcast position is accepted, number by number, although its second message is not the one the feed was sent.
   */
  lemma EquivocationSwapsMessage()
    returns (events: seq<Event>, sys: System, batch: seq<BatchMessage>, cursor: BatchCursor)
    ensures sys == Run(Three(), 0, events) && Good(events)
    ensures Accepts(batch, sys.st.queue, cursor) && ComparedInOrder(batch, sys.st.queue, cursor)
    ensures sys.st.finalizedIdx < cursor.nextBatchStartPos
    ensures cursor.nextBatchStartPos + |batch| - 1 <= sys.st.lastBroadcastPosition
    ensures |batch| == 2 && exists e :: e in sys.sent && e.Seq() == cursor.nextBatchStartPos + 1 && !ContentMatches(batch[1], e)
  {
    events, sys := AfterSwapped();
    batch, cursor := [L2Msg([2]), L2Msg([9])], BatchCursor(0, 2);
    TwoSlots(sys.st.queue, 3, 9, batch, cursor);
    var e := At(3, 3, 2);
    assert e in sys.sent && e.Seq() == 3 && !ContentMatches(batch[1], e);
  }

  lemma {:induction false} NoDelayed(batch: seq<BatchMessage>)
    requires forall i :: 0 <= i < |batch| ==> batch[i].L2Msg?
    ensures DelayedCount(batch) == 0
  {
    if batch != [] {
      NoDelayed(batch[..|batch| - 1]);
    }
  }

  lemma TwoSlots(q: seq<Entry>, s: Byte, tag: Byte, batch: seq<BatchMessage>, cursor: BatchCursor)
    requires |q| == 2 && q[0].feedMessage == Msg(2, 2) && q[1].feedMessage == Msg(s, tag) && s > 2
    requires |batch| == 2 && batch[0] == L2Msg([2]) && batch[1] == L2Msg([tag]) && cursor == BatchCursor(0, 2)
    ensures Accepts(batch, q, cursor) && (ComparedInOrder(batch, q, cursor) <==> s == 3)
  {
    BelowUnique(q, 2, 0);
    NoDelayed(batch[..1]);
    NoDelayed(batch[..2]);
    assert SlotMatches(batch, q, 0, cursor, 0);
    assert SlotMatches(batch, q, 0, cursor, 1);
  }
}
