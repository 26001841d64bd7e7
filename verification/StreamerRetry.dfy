/** The retry of a broadcast over whole runs: when the next number can wait in the queue with no retry pending. */
module StreamerRetry {
  import opened Common
  import opened SortedQueue
  import opened StreamerModel
  import opened StreamerRuns
  import opened Scenario

  predicate NextQueued(st: State) {
    Holds(st.queue, st.lastBroadcastPosition as nat + 1)
  }

  /**
   * Whether a retry is pending after the run, on a channel that stays open: a broadcast that leaves the next number in
   * the queue schedules one, the signal itself takes it back before broadcasting, and finalization does neither.
   */
  predicate Pending(cfg: Config, idx: U64, events: seq<Event>) {
    events != [] &&
    var init, ev := events[..|events| - 1], events[|events| - 1];
    match ev
    case BlocksPolled(_, _, _) => Pending(cfg, idx, init) || NextQueued(Run(cfg, idx, events).st)
    case L1Finalized(_, _) => Pending(cfg, idx, init)
    case RetrySignal(_) => NextQueued(Run(cfg, idx, events).st)
  }

  /** The next number waits, and nothing but another event will send it. */
  predicate Stalled(cfg: Config, idx: U64, events: seq<Event>) {
    NextQueued(Run(cfg, idx, events).st) && !Pending(cfg, idx, events)
  }

  /** After `n` events no retry was pending and the next number was not in the queue; since then L1 has only finalized. */
  ghost predicate FinalizedSince(cfg: Config, idx: U64, events: seq<Event>, n: nat) {
    && n < |events| && (forall i :: n <= i < |events| ==> events[i].L1Finalized?)
    && !Pending(cfg, idx, events[..n]) && !NextQueued(Run(cfg, idx, events[..n]).st)
  }

  lemma SinceSnoc(cfg: Config, idx: U64, events: seq<Event>, n: nat)
    requires events != [] && events[|events| - 1].L1Finalized?
    requires FinalizedSince(cfg, idx, events[..|events| - 1], n)
    ensures FinalizedSince(cfg, idx, events, n)
  {
    var init := events[..|events| - 1];
    assert init[..n] == events[..n];
    assert forall i :: n <= i < |init| ==> init[i] == events[i];
  }

  lemma StallBack(cfg: Config, idx: U64, events: seq<Event>)
    requires Stalled(cfg, idx, events)
    ensures events != [] && events[|events| - 1].L1Finalized?
    ensures Stalled(cfg, idx, events[..|events| - 1]) || FinalizedSince(cfg, idx, events, |events| - 1)
  {
    LastFinalized(cfg, idx, events);
  }

  lemma {:induction false} StallBegan(cfg: Config, idx: U64, events: seq<Event>) returns (n: nat)
    requires Stalled(cfg, idx, events)
    ensures FinalizedSince(cfg, idx, events, n)
  {
    StallBack(cfg, idx, events);
    n := |events| - 1;
    if Stalled(cfg, idx, events[..n]) {
      n := StallBegan(cfg, idx, events[..n]);
      SinceSnoc(cfg, idx, events, n);
    }
  }

  lemma {:induction false} NonePending(cfg: Config, idx: U64, events: seq<Event>, n: nat)
    requires FinalizedSince(cfg, idx, events, n)
    ensures !Pending(cfg, idx, events)
  {
    var init := events[..|events| - 1];
    if n < |init| {
      assert init[..n] == events[..n];
      NonePending(cfg, idx, init, n);
    }
  }

  /**
   * A run is stalled exactly when the next number is in the queue and got there by finalizations alone, from a moment
   * with no retry pending and the next number not in the queue.
   */
  lemma StalledIff(cfg: Config, idx: U64, events: seq<Event>)
    ensures Stalled(cfg, idx, events)
       <==> NextQueued(Run(cfg, idx, events).st) && exists n :: FinalizedSince(cfg, idx, events, n)
  {
    if Stalled(cfg, idx, events) {
      var n := StallBegan(cfg, idx, events);
    }
    forall n: nat | FinalizedSince(cfg, idx, events, n) ensures !Pending(cfg, idx, events) {
      NonePending(cfg, idx, events, n);
    }
  }

  lemma LastFinalized(cfg: Config, idx: U64, events: seq<Event>)
    requires Stalled(cfg, idx, events)
    ensures events != [] && events[|events| - 1].L1Finalized? && !Pending(cfg, idx, events[..|events| - 1])
  {
    assert Run(cfg, idx, []).st.queue == [];
  }

  /** The next blocks or the next signal end a stall: what is left in the queue then has a retry. */
  lemma BroadcastEndsStall(cfg: Config, idx: U64, events: seq<Event>, ev: Event)
    requires !ev.L1Finalized?
    ensures !Stalled(cfg, idx, events + [ev])
  {
    assert (events + [ev])[..|events|] == events;
  }

  lemma TwoWaits() returns (events: seq<Event>)
    ensures Run(Three(), 0, events).st == State([At(2, 2, 0)], map[], 0, 0) && !Pending(Three(), 0, events)
  {
    OneFiles(Start().st, 2, 0);
    events := Arrival([], Start(), Poll(One(2), 0), At(2, 2, 0), 0);
    var sys := Start().(st := State([At(2, 2, 0)], map[], 0, 0));
    assert Placed(Start().st, At(2, 2, 0), 0) == sys.st;
    SendNothing(sys);
    NotYetPending(events);
  }

  lemma NotYetPending(events: seq<Event>)
    requires |events| == 1 && events[0].BlocksPolled? && !NextQueued(Run(Three(), 0, events).st)
    ensures !Pending(Three(), 0, events)
  {
    assert events[..0] == [];
    assert !Pending(Three(), 0, []);
  }

  /** Such a stall happens: L1 finalizes number 1 while number 2 waits for it in the queue. */
  lemma FinalizationStalls() returns (events: seq<Event>)
    ensures Stalled(Three(), 0, events)
  {
    var polled := TwoWaits();
    var ev := L1Finalized(1, Dead);
    events := polled + [ev];
    RunSnoc(polled, ev);
    OneFinalized(Run(Three(), 0, polled).st);
    FinalizedPending(polled, ev);
  }

  lemma FinalizedPending(events: seq<Event>, ev: Event)
    requires ev.L1Finalized?
    ensures Pending(Three(), 0, events + [ev]) == Pending(Three(), 0, events)
  {
    assert (events + [ev])[..|events|] == events;
  }

  lemma OneFinalized(st: State)
    requires st == State([At(2, 2, 0)], map[], 0, 0)
    ensures Finalize(Three(), st, 1, Dead) == State([At(2, 2, 0)], map[], 1, 1)
    ensures NextQueued(State([At(2, 2, 0)], map[], 1, 1)) && !NextQueued(st)
  {
    BelowUnique(st.queue, 2, 0);
    assert st.queue[0] == At(2, 2, 0);
    var pruned := Prune(st.(lastBroadcastPosition := 1), 1);
    assert pruned == State([At(2, 2, 0)], map[], 1, 1);
    assert Plan(Three(), pruned) == [];
  }
}
