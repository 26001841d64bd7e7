/** A run after which resuming from the certified checkpoint loses a message. */
module RestartLimits {
  import opened Common
  import opened Messages
  import opened SortedQueue
  import opened HotShot
  import opened StreamerModel
  import opened StreamerKnown
  import opened StreamerRuns
  import StreamerLimits
  import opened Scenario
  import opened Verifier
  import opened Restart

  /** Number 10 comes first, at height 0, and 1, 2, 3 after it. */
  function Early(): seq<Block> {
    [One(10), One(1), One(2), One(3)]
  }

  /** One more block is read. */
  lemma Reads(events: seq<Event>, more: seq<Event>, height: nat)
    requires InOrder(Early(), events, 0, height) && height < 4
    requires more == events + [Poll(Early()[height], height)]
    ensures InOrder(Early(), more, 0, height + 1)
  {
    assert more[..|more| - 1] == events;
    assert Early()[height..height + 1] == [Early()[height]];
  }

  /** `e` carries the next number, goes to slot `p` with the result `filed`, and the number behind it is missing. */
  ghost predicate TurnAt(st: State, e: Entry, p: nat, filed: State) {
    && FitsAt(st, e, p) && e.Seq() == st.lastBroadcastPosition + 1 && Placed(st, e, p) == filed
    && Ascending(filed.queue) && p < |filed.queue| && filed.queue[p] == e
    && (p + 1 < |filed.queue| ==> e.Seq() as nat + 1 < filed.queue[p + 1].Seq())
  }

  /** The next number in turn arrives at slot `p` and is broadcast. */
  lemma InTurn(events: seq<Event>, sys: System, height: nat, s: Byte, p: nat, filed: State)
    returns (more: seq<Event>, after: System)
    requires Run(Three(), 0, events) == sys && InOrder(Early(), events, 0, height)
    requires height < 4 && Early()[height] == One(s) && TurnAt(sys.st, At(s, s, height), p, filed)
    ensures Run(Three(), 0, more) == after && InOrder(Early(), more, 0, height + 1)
    ensures after.st == filed.(lastBroadcastPosition := s)
  {
    OneFiles(sys.st, s, height);
    more := Arrival(events, sys, Poll(One(s), height), At(s, s, height), p);
    Reads(events, more, height);
    GapBehind(filed.queue, p);
    SendNext(sys.(st := filed), At(s, s, height));
    after := Run(Three(), 0, more);
  }

  lemma GapBehind(q: seq<Entry>, p: nat)
    requires Ascending(q) && p < |q| && (p + 1 < |q| ==> q[p].Seq() as nat + 1 < q[p + 1].Seq())
    ensures q[p] in q && !Holds(q, q[p].Seq() as nat + 1)
  {
    BelowUnique(q, q[p].Seq() as nat + 1, p + 1);
    BelowFinds(q, q[p].Seq() as nat + 1);
  }

  lemma AfterTen() returns (events: seq<Event>, sys: System)
    ensures Run(Three(), 0, events) == sys && InOrder(Early(), events, 0, 1)
    ensures sys.st == State([At(10, 10, 0)], map[], 0, 0)
  {
    OneFiles(Start().st, 10, 0);
    events := Arrival([], Start(), Poll(One(10), 0), At(10, 10, 0), 0);
    Reads([], events, 0);
    sys := Start().(st := State([At(10, 10, 0)], map[], 0, 0));
    assert Placed(Start().st, At(10, 10, 0), 0) == sys.st;
    SendNothing(sys);
  }

  lemma FirstTurn(st: State) returns (filed: State)
    requires st.queue == [At(10, 10, 0)] && st.stubs == map[] && st.lastBroadcastPosition == 0
    ensures TurnAt(st, At(1, 1, 1), 0, filed) && filed == st.(queue := [At(1, 1, 1), At(10, 10, 0)])
  {
    filed := st.(queue := [At(1, 1, 1), At(10, 10, 0)]);
    assert st.queue[..0] + [At(1, 1, 1)] + st.queue[0..] == filed.queue;
  }

  lemma SecondTurn(st: State) returns (filed: State)
    requires st.queue == [At(1, 1, 1), At(10, 10, 0)] && st.stubs == map[] && st.lastBroadcastPosition == 1
    ensures TurnAt(st, At(2, 2, 2), 1, filed) && filed == st.(queue := [At(1, 1, 1), At(2, 2, 2), At(10, 10, 0)])
  {
    filed := st.(queue := [At(1, 1, 1), At(2, 2, 2), At(10, 10, 0)]);
    assert st.queue[..1] + [At(2, 2, 2)] + st.queue[1..] == filed.queue;
  }

  lemma ThirdTurn(st: State) returns (filed: State)
    requires st.queue == [At(1, 1, 1), At(2, 2, 2), At(10, 10, 0)] && st.stubs == map[] && st.lastBroadcastPosition == 2
    ensures TurnAt(st, At(3, 3, 3), 2, filed)
    ensures filed == st.(queue := [At(1, 1, 1), At(2, 2, 2), At(3, 3, 3)], stubs := map[10 := 0])
  {
    filed := st.(queue := [At(1, 1, 1), At(2, 2, 2), At(3, 3, 3)], stubs := map[10 := 0]);
    Pushed(st);
  }

  /** Numbers 1 and 2 arrive before it, and number 3 pushes it out. */
  lemma AfterFour() returns (events: seq<Event>, sys: System)
    ensures Run(Three(), 0, events) == sys && InOrder(Early(), events, 0, 4)
    ensures sys.st.queue == [At(1, 1, 1), At(2, 2, 2), At(3, 3, 3)] && sys.st.stubs == map[10 := 0]
    ensures sys.st.finalizedIdx == 0
  {
    events, sys := AfterTen();
    var filed := FirstTurn(sys.st);
    events, sys := InTurn(events, sys, 1, 1, 0, filed);
    filed := SecondTurn(sys.st);
    events, sys := InTurn(events, sys, 2, 2, 1, filed);
    filed := ThirdTurn(sys.st);
    events, sys := InTurn(events, sys, 3, 3, 2, filed);
  }

  lemma Pushed(st: State)
    requires st.queue == [At(1, 1, 1), At(2, 2, 2), At(10, 10, 0)] && st.stubs == map[]
    ensures Placed(st, At(3, 3, 3), 2) == st.(queue := [At(1, 1, 1), At(2, 2, 2), At(3, 3, 3)], stubs := map[10 := 0])
  {
    var q, e := st.queue, At(3, 3, 3);
    var all := q[..2] + [e] + q[2..];
    assert all == [q[0], q[1], e, q[2]];
    assert all[..3] == [q[0], q[1], e];
  }

  lemma LowestOfTwo(q: seq<Entry>)
    requires |q| == 2
    ensures MinHeight(q) == Min(q[0].hotshotHeight, q[1].hotshotHeight)
  {
    assert q[..1] == [q[0]];
  }

  /** Message 1 is accepted, and block 2 is certified as the lowest one still needed. */
  lemma FirstMessage(st: State, batch: seq<BatchMessage>, cursor: BatchCursor)
    requires |batch| == 1 && batch[0] == L2Msg([1]) && cursor == BatchCursor(0, 1)
    requires |st.queue| == 3 && st.queue[0].feedMessage == Msg(1, 1) && Ascending(st.queue)
    requires st.queue[1].hotshotHeight == 2 && st.queue[2].hotshotHeight == 3
    ensures Checkpoint(batch, st, cursor, 1, 2)
  {
    BelowUnique(st.queue, 1, 0);
    StreamerLimits.NoDelayed(batch[..1]);
    assert SlotMatches(batch, st.queue, 0, cursor, 0);
    LowestOfTwo(st.queue[1..]);
  }

  /**
   * The checkpoint of an accepted batch can lie above the block of a stub: no fresh streamer that resumes there and
   * reads the same chain learns number 10, which the old one knows.
   */
  lemma CheckpointMissesStub()
    returns (events: seq<Event>, batch: seq<BatchMessage>, cursor: BatchCursor, bound: nat, from: nat)
    ensures InOrder(Early(), events, 0, 4)
    ensures Checkpoint(batch, Run(Three(), 0, events).st, cursor, bound, from)
    ensures Run(Three(), 0, events).st.finalizedIdx <= bound < 10 && 10 in Known(Run(Three(), 0, events).st)
    ensures forall cfg: Config, idx: U64, later: seq<Event> ::
      Resumes(Three(), cfg, bound) && InOrder(Early(), later, from, 4) ==> 10 !in Known(Run(cfg, idx, later).st)
  {
    var sys;
    events, sys := AfterFour();
    batch, cursor := [L2Msg([1])], BatchCursor(0, 1);
    FirstMessage(sys.st, batch, cursor);
    bound, from := 1, 2;
    forall cfg: Config, idx: U64, later: seq<Event> | Resumes(Three(), cfg, bound) && InOrder(Early(), later, from, 4)
      ensures 10 !in Known(Run(cfg, idx, later).st)
    {
      NeverLearned(cfg, idx, later);
    }
  }

  lemma NeverLearned(cfg: Config, idx: U64, later: seq<Event>)
    requires cfg.parse == ParsePair && InOrder(Early(), later, 2, 4)
    ensures 10 !in Known(Run(cfg, idx, later).st)
  {
    RefinesFirstSeenMap(cfg, idx, later);
    if 10 in Known(Run(cfg, idx, later).st) {
      var e := KnownWasRead(cfg, idx, Early(), later, 2, 4, 10);
      var h := e.hotshotHeight;
      EntriesOne(ParsePair, Early()[h], h);
      OneEntry(if h == 2 then 2 else 3, h);
      assert false;
    }
  }
}
