/**
 * Queue plus stubs as one map from sequence number to the HotShot height where it was first seen, and what each
 * handler does to that map.
 */
module StreamerKnown {
  import opened Common
  import opened Messages
  import opened SortedQueue
  import opened HotShot
  import opened StreamerModel

  ghost predicate Inv(cfg: Config, st: State) {
    && Ascending(st.queue)
    && |st.queue| <= cfg.maxFullQueueEntries
    && Disjoint(st)
  }

  ghost predicate Disjoint(st: State) {
    HeightMap(st.queue).Keys !! st.stubs.Keys
  }

  ghost function Known(st: State): map<nat, nat> {
    HeightMap(st.queue) + st.stubs
  }

  /** The unbounded streamer: first sight of a number at or above the starting position is recorded. */
  ghost function See(cfg: Config, known: map<nat, nat>, e: Entry): map<nat, nat> {
    if e.Seq() < cfg.startingPos || e.Seq() in known then known else known[e.Seq() := e.hotshotHeight]
  }

  ghost function SeeAll(cfg: Config, known: map<nat, nat>, entries: seq<Entry>): map<nat, nat> {
    if entries == [] then known
    else See(cfg, SeeAll(cfg, known, entries[..|entries| - 1]), entries[|entries| - 1])
  }

  ghost function Above(known: map<nat, nat>, idx: nat): map<nat, nat> {
    map s | s in known && idx < s :: known[s]
  }

  /** Spilling the tail of the queue into the stubs leaves the map alone. */
  lemma EvictKnown(q: seq<Entry>, stubs: map<nat, nat>)
    requires Ascending(q) && q != []
    requires HeightMap(q).Keys !! stubs.Keys
    ensures var init, last := q[..|q| - 1], q[|q| - 1];
      var stubs' := stubs[last.Seq() := last.hotshotHeight];
      && Ascending(init)
      && HeightMap(init).Keys !! stubs'.Keys
      && HeightMap(init) + stubs' == HeightMap(q) + stubs
  {
    HeightMapLast(q);
  }

  /** Arrival of one entry: the bounded queue with its overflow does what the unbounded map does. */
  lemma FilterOneKnown(cfg: Config, st: State, e: Entry)
    requires Inv(cfg, st)
    ensures Inv(cfg, FilterOne(cfg, st, e))
    ensures Known(FilterOne(cfg, st, e)) == See(cfg, Known(st), e)
  {
    HeightMapKeys(st.queue, e.Seq());
    if e.Seq() >= cfg.startingPos && e.Seq() !in Known(st) {
      InsertKnown(st, e);
      EvictKnown(Insert(st.queue, e), st.stubs);
    }
  }

  lemma InsertKnown(st: State, e: Entry)
    requires Ascending(st.queue) && Disjoint(st) && e.Seq() !in Known(st)
    ensures var q := Insert(st.queue, e);
      && Ascending(q) && |q| == |st.queue| + 1
      && HeightMap(q).Keys !! st.stubs.Keys
      && HeightMap(q) + st.stubs == Known(st)[e.Seq() := e.hotshotHeight]
  {
    HeightMapKeys(st.queue, e.Seq());
    InsertSorted(st.queue, e);
    HeightMapInsert(st.queue, e);
  }

  lemma {:induction false} FilterKnown(cfg: Config, st: State, entries: seq<Entry>)
    requires Inv(cfg, st)
    ensures Inv(cfg, Filter(cfg, st, entries))
    ensures Known(Filter(cfg, st, entries)) == SeeAll(cfg, Known(st), entries)
    ensures var r := Filter(cfg, st, entries);
      r.finalizedIdx == st.finalizedIdx && r.lastBroadcastPosition == st.lastBroadcastPosition
  {
    if entries != [] {
      FilterKnown(cfg, st, entries[..|entries| - 1]);
      FilterOneKnown(cfg, Filter(cfg, st, entries[..|entries| - 1]), entries[|entries| - 1]);
    }
  }

  lemma PruneKnown(cfg: Config, st: State, idx: U64)
    requires Inv(cfg, st)
    ensures Inv(cfg, Prune(st, idx))
    ensures Known(Prune(st, idx)) == Above(Known(st), idx)
  {
    HeightMapDrop(st.queue, idx + 1);
    var r := Prune(st, idx);
    assert HeightMap(r.queue) == Above(HeightMap(st.queue), idx);
    assert r.stubs == Above(st.stubs, idx);
    AboveMerge(HeightMap(st.queue), st.stubs, idx);
    assert Ascending(r.queue);
  }

  lemma AboveMerge(a: map<nat, nat>, b: map<nat, nat>, idx: nat)
    ensures Above(a + b, idx) == Above(a, idx) + Above(b, idx)
    ensures a.Keys !! b.Keys ==> Above(a, idx).Keys !! Above(b, idx).Keys
  {
  }

  // ---- promotion ----

  /** Every fetched entry is filed under its own sequence number. */
  ghost predicate Filed(fetched: map<nat, Entry>) {
    forall s :: s in fetched ==> fetched[s].Seq() == s
  }

  lemma {:induction false} CollectFiled(entries: seq<Entry>, expected: seq<nat>, acc: map<nat, Entry>)
    requires Filed(acc)
    ensures Filed(Collect(entries, expected, acc))
  {
    if entries != [] {
      CollectFiled(entries[..|entries| - 1], expected, acc);
    }
  }

  lemma {:induction false} FetchFiled(cfg: Config, windows: seq<Window>, expected: seq<nat>, fetch: Fetch)
    ensures var r := FetchWindows(cfg, windows, expected, fetch); r.Some? ==> Filed(r.value)
  {
    if windows != [] {
      var init, w := windows[..|windows| - 1], windows[|windows| - 1];
      FetchFiled(cfg, init, expected, fetch);
      var before := FetchWindows(cfg, init, expected, fetch);
      if before.Some? && fetch(w.from, w.to).Some? {
        CollectFiled(Entries(cfg.parse, fetch(w.from, w.to).value, w.from), expected, before.value);
      }
    }
  }

  /** Moving one stub into the queue leaves the map alone. */
  lemma MoveKnown(st: State, e: Entry)
    requires Ascending(st.queue) && Disjoint(st)
    requires e.Seq() in st.stubs && e.hotshotHeight == st.stubs[e.Seq()]
    ensures var r := st.(queue := Insert(st.queue, e), stubs := st.stubs - {e.Seq()});
      && Ascending(r.queue) && Disjoint(r) && |r.queue| == |st.queue| + 1
      && Known(r) == Known(st)
  {
    HeightMapKeys(st.queue, e.Seq());
    InsertSorted(st.queue, e);
    HeightMapInsert(st.queue, e);
  }

  lemma {:induction false} PromoteEachKnown(cfg: Config, st: State, plan: seq<nat>, fetched: map<nat, Entry>)
    requires Inv(cfg, st) && Filed(fetched)
    requires |st.queue| + |plan| <= cfg.maxFullQueueEntries
    ensures Inv(cfg, PromoteEach(st, plan, fetched))
    ensures Known(PromoteEach(st, plan, fetched)) == Known(st)
    ensures var r := PromoteEach(st, plan, fetched);
      r.finalizedIdx == st.finalizedIdx && r.lastBroadcastPosition == st.lastBroadcastPosition
    decreases |plan|
  {
    if plan != [] {
      var s := plan[0];
      if s !in fetched || s !in st.stubs {
        PromoteEachKnown(cfg, st, plan[1..], fetched);
      } else if fetched[s].hotshotHeight == st.stubs[s] {
        MoveKnown(st, fetched[s]);
        PromoteEachKnown(cfg, st.(queue := Insert(st.queue, fetched[s]), stubs := st.stubs - {s}), plan[1..], fetched);
      }
    }
  }

  /** Promotion is invisible in the map, whatever the reader answers. */
  lemma PromoteKnown(cfg: Config, st: State, fetch: Fetch)
    requires Inv(cfg, st)
    ensures Inv(cfg, Promote(cfg, st, fetch))
    ensures Known(Promote(cfg, st, fetch)) == Known(st)
    ensures var r := Promote(cfg, st, fetch);
      r.finalizedIdx == st.finalizedIdx && r.lastBroadcastPosition == st.lastBroadcastPosition
  {
    var plan := Plan(cfg, st);
    var fetched := FetchWindows(cfg, Windows(PlanHeights(cfg, st)), plan, fetch);
    FetchFiled(cfg, Windows(PlanHeights(cfg, st)), plan, fetch);
    if fetched.Some? {
      PlanFits(cfg, st);
      PromoteEachKnown(cfg, st, plan, fetched.value);
    }
  }

  lemma PlanFits(cfg: Config, st: State)
    requires Inv(cfg, st)
    ensures |st.queue| + |Plan(cfg, st)| <= cfg.maxFullQueueEntries
  {
  }

  lemma FinalizeKnown(cfg: Config, st: State, idx: U64, fetch: Fetch)
    requires Inv(cfg, st)
    ensures Inv(cfg, Finalize(cfg, st, idx, fetch))
    ensures Known(Finalize(cfg, st, idx, fetch)) == if idx <= st.finalizedIdx then Known(st) else Above(Known(st), idx)
    ensures var r := Finalize(cfg, st, idx, fetch);
      && r.finalizedIdx == Max(st.finalizedIdx, idx)
      && r.lastBroadcastPosition == Max(st.lastBroadcastPosition, idx)
  {
    if idx > st.finalizedIdx {
      FinalizeAdvances(cfg, st, idx, fetch);
    }
  }

  lemma FinalizeAdvances(cfg: Config, st: State, idx: U64, fetch: Fetch)
    requires Inv(cfg, st) && idx > st.finalizedIdx
    ensures Inv(cfg, Finalize(cfg, st, idx, fetch))
    ensures Known(Finalize(cfg, st, idx, fetch)) == Above(Known(st), idx)
    ensures var r := Finalize(cfg, st, idx, fetch);
      r.finalizedIdx == idx && r.lastBroadcastPosition == Max(st.lastBroadcastPosition, idx)
  {
    var st1 := st.(lastBroadcastPosition := Max(st.lastBroadcastPosition, idx));
    PruneKnown(cfg, st1, idx);
    PromoteKnown(cfg, Prune(st1, idx), fetch);
  }
}
