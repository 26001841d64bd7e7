/** Runs whose promotions complete: the queue is always the lowest part of everything the streamer knows. */
module StreamerPrefix {
  import opened Common
  import opened Messages
  import opened SortedQueue
  import opened HotShot
  import opened StreamerModel
  import opened StreamerKnown
  import opened StreamerPromotion
  import opened StreamerRuns

  /** Queued numbers lie below stubbed ones, and there are stubs only when the queue is full. */
  ghost predicate LowestFirst(cfg: Config, st: State) {
    && Inv(cfg, st)
    && KeysBelow(HeightMap(st.queue), st.stubs)
    && (st.stubs != map[] ==> |st.queue| == cfg.maxFullQueueEntries)
  }

  ghost predicate KeysBelow(a: map<nat, nat>, b: map<nat, nat>) {
    forall x, y :: x in a && y in b ==> x < y
  }

  lemma LastIsLargest(q: seq<Entry>, s: nat)
    requires Ascending(q) && q != [] && s in HeightMap(q)
    ensures s <= q[|q| - 1].Seq()
  {
    HeightMapKeys(q, s);
    var e :| e in q && e.Seq() == s;
    var i :| 0 <= i < |q| && q[i] == e;
  }

  lemma EvictBelow(q: seq<Entry>, stubs: map<nat, nat>)
    requires Ascending(q) && q != []
    requires KeysBelow(HeightMap(q[..|q| - 1]), stubs) || stubs == map[]
    ensures KeysBelow(HeightMap(q[..|q| - 1]), stubs[q[|q| - 1].Seq() := q[|q| - 1].hotshotHeight])
  {
    var init, last := q[..|q| - 1], q[|q| - 1];
    HeightMapLast(q);
    forall x | x in HeightMap(init) ensures x < last.Seq() {
      LastIsLargest(q, x);
    }
  }

  /** With a full queue, what remains after the eviction is still below every stub. */
  lemma InitBelow(cfg: Config, st: State, e: Entry)
    requires LowestFirst(cfg, st) && e.Seq() !in Known(st)
    requires |st.queue| == cfg.maxFullQueueEntries
    ensures var q := Insert(st.queue, e); KeysBelow(HeightMap(q[..|q| - 1]), st.stubs)
  {
    var q := Insert(st.queue, e);
    HeightMapKeys(st.queue, e.Seq());
    InsertSorted(st.queue, e);
    HeightMapInsert(st.queue, e);
    HeightMapLast(q);
    var init, last := q[..|q| - 1], q[|q| - 1];
    forall x, y | x in HeightMap(init) && y in st.stubs ensures x < y {
      assert x in HeightMap(q);
      if x == e.Seq() {
        LastIsLargest(q, x);
        assert last.Seq() in HeightMap(q) && last.Seq() != x;
        assert last.Seq() in HeightMap(st.queue);
      }
    }
  }

  lemma FilterOneLowest(cfg: Config, st: State, e: Entry)
    requires LowestFirst(cfg, st)
    ensures LowestFirst(cfg, FilterOne(cfg, st, e))
  {
    FilterOneKnown(cfg, st, e);
    HeightMapKeys(st.queue, e.Seq());
    if e.Seq() >= cfg.startingPos && e.Seq() !in Known(st) {
      var q := Insert(st.queue, e);
      assert Ascending(q) && |q| == |st.queue| + 1 by { InsertSorted(st.queue, e); }
      if |q| > cfg.maxFullQueueEntries {
        InitBelow(cfg, st, e);
        EvictBelow(q, st.stubs);
      }
    }
  }

  lemma {:induction false} FilterLowest(cfg: Config, st: State, entries: seq<Entry>)
    requires LowestFirst(cfg, st)
    ensures LowestFirst(cfg, Filter(cfg, st, entries))
  {
    if entries != [] {
      FilterLowest(cfg, st, entries[..|entries| - 1]);
      FilterOneLowest(cfg, Filter(cfg, st, entries[..|entries| - 1]), entries[|entries| - 1]);
    }
  }

  /** A completed promotion moves exactly the lowest stubs that fit. */
  lemma CompletedPromotion(cfg: Config, st: State, fetch: Fetch)
    requires PromotionComplete(cfg, st, fetch)
    ensures var r := Promote(cfg, st, fetch);
      && |r.queue| == |st.queue| + |Plan(cfg, st)|
      && r.stubs == st.stubs - (set s | s in Plan(cfg, st))
  {
    var plan, ws := Plan(cfg, st), Windows(PlanHeights(cfg, st));
    PlanSpec(cfg, st);
    if plan != [] {
      PromotionCompletesIff(cfg, st, fetch);
      FetchIsLast(cfg, ws, plan, fetch);
      var fetched := FetchWindows(cfg, ws, plan, fetch).value;
      PromoteEachComplete(st, plan, fetched);
      PromoteEachReady(st, plan, fetched);
    }
  }

  lemma PromoteLowest(cfg: Config, st: State, fetch: Fetch)
    requires Inv(cfg, st) && KeysBelow(HeightMap(st.queue), st.stubs)
    requires PromotionComplete(cfg, st, fetch)
    ensures LowestFirst(cfg, Promote(cfg, st, fetch))
  {
    var plan, r := Plan(cfg, st), Promote(cfg, st, fetch);
    assert Inv(cfg, r) && Known(r) == Known(st) by { PromoteKnown(cfg, st, fetch); }
    CompletedPromotion(cfg, st, fetch);
    assert KeysBelow(HeightMap(r.queue), r.stubs) by {
      PlanSpec(cfg, st);
      MoveBelow(HeightMap(st.queue), st.stubs, plan, HeightMap(r.queue), r.stubs);
    }
    if |plan| == |st.stubs| {
      PlanTakesAll(cfg, st);
    } else {
      PlanSpec(cfg, st);
    }
  }

  lemma MoveBelow(q: map<nat, nat>, stubs: map<nat, nat>, plan: seq<nat>, q': map<nat, nat>, stubs': map<nat, nat>)
    requires KeysBelow(q, stubs)
    requires forall s :: s in stubs && s !in plan ==> forall k :: 0 <= k < |plan| ==> plan[k] < s
    requires q' + stubs' == q + stubs && q'.Keys !! stubs'.Keys
    requires stubs' == stubs - (set s | s in plan)
    ensures KeysBelow(q', stubs')
  {
    forall x, y | x in q' && y in stubs' ensures x < y {
      assert x in q + stubs && x !in stubs';
      if x !in q {
        assert x in plan;
      }
    }
  }

  lemma PlanTakesAll(cfg: Config, st: State)
    requires |Plan(cfg, st)| == |st.stubs|
    ensures st.stubs - (set s | s in Plan(cfg, st)) == map[]
  {
    var keys := Sorted(st.stubs.Keys);
    assert Plan(cfg, st) == keys;
  }

  lemma PruneLowest(cfg: Config, st: State, idx: U64)
    requires LowestFirst(cfg, st)
    ensures Inv(cfg, Prune(st, idx)) && KeysBelow(HeightMap(Prune(st, idx).queue), Prune(st, idx).stubs)
  {
    PruneKnown(cfg, st, idx);
    HeightMapDrop(st.queue, idx + 1);
  }

  /** The promotion that this event triggers, if any, completes. */
  ghost predicate Completes(cfg: Config, st: State, ev: Event) {
    ev.L1Finalized? && ev.idx > st.finalizedIdx ==>
      PromotionComplete(cfg, Prune(st.(lastBroadcastPosition := Max(st.lastBroadcastPosition, ev.idx)), ev.idx), ev.fetch)
  }

  ghost predicate CompletingRun(cfg: Config, idx: U64, events: seq<Event>) {
    forall i :: 0 <= i < |events| ==> Completes(cfg, Run(cfg, idx, events[..i]).st, events[i])
  }

  lemma CompletingSnoc(cfg: Config, idx: U64, events: seq<Event>, ev: Event)
    requires CompletingRun(cfg, idx, events) && Completes(cfg, Run(cfg, idx, events).st, ev)
    ensures CompletingRun(cfg, idx, events + [ev])
  {
    var all := events + [ev];
    forall i | 0 <= i < |all| ensures Completes(cfg, Run(cfg, idx, all[..i]).st, all[i]) {
      if i < |events| {
        assert Completes(cfg, Run(cfg, idx, events[..i]).st, events[i]);
      }
      PrefixOfSnoc(events, ev, i);
    }
  }

  lemma PrefixOfSnoc(events: seq<Event>, ev: Event, i: nat)
    requires i <= |events|
    ensures (events + [ev])[..i] == if i < |events| then events[..i] else events
    ensures (events + [ev])[i] == if i < |events| then events[i] else ev
  {
  }

  lemma CompletingPrefix(cfg: Config, idx: U64, events: seq<Event>)
    requires CompletingRun(cfg, idx, events) && events != []
    ensures CompletingRun(cfg, idx, events[..|events| - 1])
    ensures Completes(cfg, Run(cfg, idx, events[..|events| - 1]).st, events[|events| - 1])
  {
    var init := events[..|events| - 1];
    forall i | 0 <= i < |init| ensures Completes(cfg, Run(cfg, idx, init[..i]).st, init[i]) {
      assert init[..i] == events[..i] && init[i] == events[i];
    }
  }

  lemma {:induction false} RunLowest(cfg: Config, idx: U64, events: seq<Event>)
    requires CompletingRun(cfg, idx, events)
    ensures LowestFirst(cfg, Run(cfg, idx, events).st)
  {
    if events != [] {
      var init, ev := events[..|events| - 1], events[|events| - 1];
      CompletingPrefix(cfg, idx, events);
      RunLowest(cfg, idx, init);
      var st := Run(cfg, idx, init).st;
      match ev {
        case BlocksPolled(blocks, height, _) => FilterLowest(cfg, st, Entries(cfg.parse, blocks, height));
        case L1Finalized(l1, fetch) =>
          var st1 := st.(lastBroadcastPosition := Max(st.lastBroadcastPosition, l1));
          if l1 > st.finalizedIdx {
            PruneLowest(cfg, st1, l1);
            PromoteLowest(cfg, Prune(st1, l1), fetch);
          }
        case RetrySignal(_) =>
      }
    }
  }

  function Numbers(q: seq<Entry>): (r: seq<nat>)
    ensures |r| == |q| && forall i :: 0 <= i < |q| ==> r[i] == q[i].Seq()
  {
    seq(|q|, i requires 0 <= i < |q| => q[i].Seq())
  }

  /** In a run whose promotions complete, the queue is the lowest `min(cap, known)` numbers of everything known. */
  lemma QueueIsLowestPrefix(cfg: Config, idx: U64, events: seq<Event>)
    requires CompletingRun(cfg, idx, events)
    ensures var st := Run(cfg, idx, events).st;
      && |st.queue| == Min(cfg.maxFullQueueEntries, |Known(st)|)
      && Numbers(st.queue) == Sorted(Known(st).Keys)[..|st.queue|]
  {
    RunLowest(cfg, idx, events);
    var st := Run(cfg, idx, events).st;
    PrefixOfKnown(cfg, st);
  }

  lemma PrefixOfKnown(cfg: Config, st: State)
    requires LowestFirst(cfg, st)
    ensures |st.queue| == Min(cfg.maxFullQueueEntries, |Known(st)|)
    ensures Numbers(st.queue) == Sorted(Known(st).Keys)[..|st.queue|]
  {
    var a, b, all := Numbers(st.queue), Sorted(st.stubs.Keys), Sorted(Known(st).Keys);
    HeightMapSize(st.queue);
    assert Known(st).Keys == HeightMap(st.queue).Keys + st.stubs.Keys;
    forall x: nat ensures x in a <==> x in HeightMap(st.queue) {
      NumbersIn(st.queue, x);
    }
    ConcatIncreasing(a, b);
    IncreasingUnique(a + b, all);
  }

  lemma ConcatIncreasing(a: seq<nat>, b: seq<nat>)
    requires StrictlyIncreasing(a) && StrictlyIncreasing(b)
    requires forall x, y :: x in a && y in b ==> x < y
    ensures StrictlyIncreasing(a + b)
  {
    assert forall i :: 0 <= i < |a| ==> a[i] in a;
    assert forall i :: 0 <= i < |b| ==> b[i] in b;
  }

  lemma NumbersIn(q: seq<Entry>, x: nat)
    ensures x in Numbers(q) <==> x in HeightMap(q)
  {
    HeightMapKeys(q, x);
    if x in Numbers(q) {
      var i :| 0 <= i < |q| && Numbers(q)[i] == x;
      assert q[i] in q;
    }
    if e :| e in q && e.Seq() == x {
      var i :| 0 <= i < |q| && q[i] == e;
      assert Numbers(q)[i] == x;
    }
  }
}
