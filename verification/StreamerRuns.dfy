/** Whole runs of the streamer: any interleaving of its handlers, with any answers from reader and channel. */
module StreamerRuns {
  import opened Common
  import opened Messages
  import opened SortedQueue
  import opened HotShot
  import opened StreamerModel
  import opened StreamerKnown

  /**
   * One turn of the event loop. `room` is how many feed messages the finalization channel still accepts and
   * `fetch` is what the reader answers during this turn. Verification requests change nothing and are left out.
   */
  datatype Event =
    | BlocksPolled(blocks: seq<Block>, height: nat, room: nat)
    | L1Finalized(idx: U64, fetch: Fetch)
    | RetrySignal(room: nat)

  /** The streamer, everything it has broadcast so far, and the highest L1 index it has been told. */
  datatype System = System(st: State, sent: seq<Entry>, observed: U64)

  function Initial(idx: U64): System {
    System(State([], map[], idx, 0), [], idx)
  }

  function Send(sys: System, room: nat): System {
    sys.(st := Broadcast(sys.st, room), sent := sys.sent + Sendable(sys.st, room))
  }

  function Step(cfg: Config, sys: System, ev: Event): System {
    match ev
    case BlocksPolled(blocks, height, room) =>
      Send(sys.(st := Filter(cfg, sys.st, Entries(cfg.parse, blocks, height))), room)
    case L1Finalized(idx, fetch) =>
      sys.(st := Finalize(cfg, sys.st, idx, fetch), observed := Max(sys.observed, idx))
    case RetrySignal(room) => Send(sys, room)
  }

  function Run(cfg: Config, idx: U64, events: seq<Event>): System {
    if events == [] then Initial(idx)
    else Step(cfg, Run(cfg, idx, events[..|events| - 1]), events[|events| - 1])
  }

  // ---- the unbounded streamer ----

  datatype Ideal = Ideal(known: map<nat, nat>, finalizedIdx: nat)

  ghost function IdealStep(cfg: Config, ideal: Ideal, ev: Event): Ideal {
    match ev
    case BlocksPolled(blocks, height, _) =>
      ideal.(known := SeeAll(cfg, ideal.known, Entries(cfg.parse, blocks, height)))
    case L1Finalized(idx, _) =>
      if idx <= ideal.finalizedIdx then ideal else Ideal(Above(ideal.known, idx), idx)
    case RetrySignal(_) => ideal
  }

  ghost function IdealRun(cfg: Config, idx: U64, events: seq<Event>): Ideal {
    if events == [] then Ideal(map[], idx)
    else IdealStep(cfg, IdealRun(cfg, idx, events[..|events| - 1]), events[|events| - 1])
  }

  /** In every run, whatever the reader answers, queue and stubs together are the first-seen map. */
  lemma {:induction false} RefinesFirstSeenMap(cfg: Config, idx: U64, events: seq<Event>)
    ensures var st := Run(cfg, idx, events).st;
      && Ascending(st.queue)
      && |st.queue| <= cfg.maxFullQueueEntries
      && HeightMap(st.queue).Keys !! st.stubs.Keys
      && Ideal(HeightMap(st.queue) + st.stubs, st.finalizedIdx) == IdealRun(cfg, idx, events)
  {
    if events != [] {
      var init, ev := events[..|events| - 1], events[|events| - 1];
      RefinesFirstSeenMap(cfg, idx, init);
      var st := Run(cfg, idx, init).st;
      match ev {
        case BlocksPolled(blocks, height, _) => FilterKnown(cfg, st, Entries(cfg.parse, blocks, height));
        case L1Finalized(l1, fetch) => FinalizeKnown(cfg, st, l1, fetch);
        case RetrySignal(_) =>
      }
    }
  }

  /** Same blocks and same L1 indices, but possibly other reader answers and other channel room. */
  ghost predicate SameInputs(a: seq<Event>, b: seq<Event>) {
    && |a| == |b|
    && forall i :: 0 <= i < |a| ==> SameInput(a[i], b[i])
  }

  ghost predicate SameInput(a: Event, b: Event) {
    match a
    case BlocksPolled(blocks, height, _) => b.BlocksPolled? && b.blocks == blocks && b.height == height
    case L1Finalized(idx, _) => b.L1Finalized? && b.idx == idx
    case RetrySignal(_) => b.RetrySignal?
  }

  /** What the streamer knows depends neither on its capacity nor on failed or partial promotions. */
  lemma {:induction false} KnowledgeIgnoresCapacity(cfg: Config, cfg': Config, idx: U64, a: seq<Event>, b: seq<Event>)
    requires SameInputs(a, b)
    requires cfg.startingPos == cfg'.startingPos && cfg.parse == cfg'.parse
    ensures Known(Run(cfg, idx, a).st) == Known(Run(cfg', idx, b).st)
  {
    RefinesFirstSeenMap(cfg, idx, a);
    RefinesFirstSeenMap(cfg', idx, b);
    IdealIgnoresCapacity(cfg, cfg', idx, a, b);
  }

  lemma {:induction false} IdealIgnoresCapacity(cfg: Config, cfg': Config, idx: U64, a: seq<Event>, b: seq<Event>)
    requires SameInputs(a, b)
    requires cfg.startingPos == cfg'.startingPos && cfg.parse == cfg'.parse
    ensures IdealRun(cfg, idx, a) == IdealRun(cfg', idx, b)
  {
    if a != [] {
      var n := |a| - 1;
      IdealIgnoresCapacity(cfg, cfg', idx, a[..n], b[..n]);
      assert SameInput(a[n], b[n]);
      if a[n].BlocksPolled? {
        SeeAllIgnoresCapacity(cfg, cfg', IdealRun(cfg, idx, a[..n]).known, Entries(cfg.parse, a[n].blocks, a[n].height));
      }
    }
  }

  lemma {:induction false} SeeAllIgnoresCapacity(cfg: Config, cfg': Config, known: map<nat, nat>, entries: seq<Entry>)
    requires cfg.startingPos == cfg'.startingPos
    ensures SeeAll(cfg, known, entries) == SeeAll(cfg', known, entries)
  {
    if entries != [] {
      SeeAllIgnoresCapacity(cfg, cfg', known, entries[..|entries| - 1]);
    }
  }
}
