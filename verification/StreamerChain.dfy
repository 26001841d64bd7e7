/** Runs fed from one Espresso chain: what the queue holds is on the chain, and promotions find what they look for. */
module StreamerChain {
  import opened Common
  import opened Messages
  import opened SortedQueue
  import opened HotShot
  import opened StreamerModel
  import opened StreamerPromotion
  import opened StreamerRuns
  import opened StreamerPrefix

  ghost predicate InChain(cfg: Config, chain: seq<Block>, e: Entry) {
    InRange(cfg.parse, chain, 0, e)
  }

  /** The reader may fail, but what it returns is the chain. */
  ghost predicate Faithful(chain: seq<Block>, fetch: Fetch) {
    forall a: nat, b: nat :: fetch(a, b).Some? ==> a <= b <= |chain| && fetch(a, b).value == chain[a..b]
  }

  ghost predicate ChainEvent(chain: seq<Block>, ev: Event) {
    match ev
    case BlocksPolled(blocks, height, _) =>
      height + |blocks| <= |chain| && blocks == chain[height..height + |blocks|]
    case L1Finalized(_, fetch) => Faithful(chain, fetch)
    case RetrySignal(_) => true
  }

  ghost predicate ChainRun(chain: seq<Block>, events: seq<Event>) {
    forall i :: 0 <= i < |events| ==> ChainEvent(chain, events[i])
  }

  ghost predicate Witnessed(cfg: Config, chain: seq<Block>, s: nat, height: nat) {
    exists e :: InChain(cfg, chain, e) && e.Seq() == s && e.hotshotHeight == height
  }

  /** Queue entries are chain entries, and each stub names a number at a height where the chain has it. */
  ghost predicate OnChain(cfg: Config, chain: seq<Block>, st: State) {
    && (forall e :: e in st.queue ==> InChain(cfg, chain, e))
    && (forall s :: s in st.stubs ==> Witnessed(cfg, chain, s, st.stubs[s]))
  }

  lemma RangeInChain(cfg: Config, chain: seq<Block>, lo: nat, hi: nat, e: Entry)
    requires lo <= hi <= |chain|
    ensures e in Entries(cfg.parse, chain[lo..hi], lo) <==> InChain(cfg, chain, e) && lo <= e.hotshotHeight < hi
  {
    EntryOfRange(cfg.parse, chain[lo..hi], lo, e);
  }

  lemma FilterOneOnChain(cfg: Config, chain: seq<Block>, st: State, e: Entry)
    requires OnChain(cfg, chain, st) && InChain(cfg, chain, e)
    ensures OnChain(cfg, chain, FilterOne(cfg, st, e))
  {
    var q := Insert(st.queue, e);
    forall x | x in q ensures InChain(cfg, chain, x) {
      InsertMembers(st.queue, e, x);
    }
    assert q[|q| - 1] in q;
  }

  lemma {:induction false} FilterOnChain(cfg: Config, chain: seq<Block>, st: State, entries: seq<Entry>)
    requires OnChain(cfg, chain, st)
    requires forall e :: e in entries ==> InChain(cfg, chain, e)
    ensures OnChain(cfg, chain, Filter(cfg, st, entries))
  {
    if entries != [] {
      FilterOnChain(cfg, chain, st, entries[..|entries| - 1]);
      FilterOneOnChain(cfg, chain, Filter(cfg, st, entries[..|entries| - 1]), entries[|entries| - 1]);
    }
  }

  ghost predicate AllInChain(cfg: Config, chain: seq<Block>, fetched: map<nat, Entry>) {
    forall s :: s in fetched ==> InChain(cfg, chain, fetched[s])
  }

  lemma {:induction false} CollectInChain(
    cfg: Config, chain: seq<Block>, entries: seq<Entry>, expected: seq<nat>, acc: map<nat, Entry>)
    requires AllInChain(cfg, chain, acc)
    requires forall e :: e in entries ==> InChain(cfg, chain, e)
    ensures AllInChain(cfg, chain, Collect(entries, expected, acc))
  {
    if entries != [] {
      CollectInChain(cfg, chain, entries[..|entries| - 1], expected, acc);
    }
  }

  lemma {:induction false} FetchInChain(
    cfg: Config, chain: seq<Block>, ws: seq<Window>, expected: seq<nat>, fetch: Fetch)
    requires Faithful(chain, fetch)
    ensures var r := FetchWindows(cfg, ws, expected, fetch); r.Some? ==> AllInChain(cfg, chain, r.value)
  {
    if ws != [] {
      var init, w := ws[..|ws| - 1], ws[|ws| - 1];
      FetchInChain(cfg, chain, init, expected, fetch);
      var before := FetchWindows(cfg, init, expected, fetch);
      if before.Some? && fetch(w.from, w.to).Some? {
        var found := Entries(cfg.parse, fetch(w.from, w.to).value, w.from);
        forall e | e in found ensures InChain(cfg, chain, e) {
          RangeInChain(cfg, chain, w.from, w.to, e);
        }
        CollectInChain(cfg, chain, found, expected, before.value);
      }
    }
  }

  lemma {:induction false} PromoteEachOnChain(
    cfg: Config, chain: seq<Block>, st: State, plan: seq<nat>, fetched: map<nat, Entry>)
    requires OnChain(cfg, chain, st) && AllInChain(cfg, chain, fetched)
    ensures OnChain(cfg, chain, PromoteEach(st, plan, fetched))
    decreases |plan|
  {
    if plan != [] {
      var s := plan[0];
      if s !in fetched || s !in st.stubs {
        PromoteEachOnChain(cfg, chain, st, plan[1..], fetched);
      } else if fetched[s].hotshotHeight == st.stubs[s] {
        var moved := st.(queue := Insert(st.queue, fetched[s]), stubs := st.stubs - {s});
        forall x | x in moved.queue ensures InChain(cfg, chain, x) {
          InsertMembers(st.queue, fetched[s], x);
        }
        PromoteEachOnChain(cfg, chain, moved, plan[1..], fetched);
      }
    }
  }

  lemma FinalizeOnChain(cfg: Config, chain: seq<Block>, st: State, idx: U64, fetch: Fetch)
    requires OnChain(cfg, chain, st) && Faithful(chain, fetch)
    ensures OnChain(cfg, chain, Finalize(cfg, st, idx, fetch))
  {
    var pruned := Prune(st.(lastBroadcastPosition := Max(st.lastBroadcastPosition, idx)), idx);
    assert OnChain(cfg, chain, pruned);
    var plan, ws := Plan(cfg, pruned), Windows(PlanHeights(cfg, pruned));
    FetchInChain(cfg, chain, ws, plan, fetch);
    var fetched := FetchWindows(cfg, ws, plan, fetch);
    if fetched.Some? {
      PromoteEachOnChain(cfg, chain, pruned, plan, fetched.value);
    }
  }

  /** On a chain, whatever fails: everything in the queue is on the chain at its height, and so is every stub. */
  lemma {:induction false} RunOnChain(cfg: Config, idx: U64, chain: seq<Block>, events: seq<Event>)
    requires ChainRun(chain, events)
    ensures OnChain(cfg, chain, Run(cfg, idx, events).st)
  {
    if events != [] {
      var init, ev := events[..|events| - 1], events[|events| - 1];
      RunOnChain(cfg, idx, chain, init);
      var st := Run(cfg, idx, init).st;
      match ev {
        case BlocksPolled(blocks, height, _) =>
          forall e | e in Entries(cfg.parse, blocks, height) ensures InChain(cfg, chain, e) {
            RangeInChain(cfg, chain, height, height + |blocks|, e);
          }
          FilterOnChain(cfg, chain, st, Entries(cfg.parse, blocks, height));
        case L1Finalized(l1, fetch) => FinalizeOnChain(cfg, chain, st, l1, fetch);
        case RetrySignal(_) =>
      }
    }
  }

  // ---- promotions that find what they look for ----

  lemma {:induction false} WindowEntriesHas(
    cfg: Config, chain: seq<Block>, ws: seq<Window>, fetch: Fetch, i: nat, e: Entry)
    requires AllAnswered(ws, fetch) && Faithful(chain, fetch)
    requires i < |ws| && Covers(ws[i], e.hotshotHeight) && InChain(cfg, chain, e)
    ensures e in WindowEntries(cfg, ws, fetch)
  {
    if i == |ws| - 1 {
      RangeInChain(cfg, chain, ws[i].from, ws[i].to, e);
    } else {
      WindowEntriesHas(cfg, chain, ws[..|ws| - 1], fetch, i, e);
    }
  }

  /** No planned number occurs in the requested blocks above the height where it was first seen. */
  ghost predicate NoLaterRepeat(cfg: Config, st: State, fetch: Fetch)
    requires AllAnswered(Windows(PlanHeights(cfg, st)), fetch)
  {
    WithinRecorded(WindowEntries(cfg, Windows(PlanHeights(cfg, st)), fetch), Plan(cfg, st), st.stubs)
  }

  ghost predicate WithinRecorded(entries: seq<Entry>, plan: seq<nat>, stubs: map<nat, nat>) {
    forall e :: e in entries && e.Seq() in plan ==> e.Seq() in stubs && e.hotshotHeight <= stubs[e.Seq()]
  }

  /** All copies of number `s` lie at or below the recorded height. */
  ghost predicate NoneAbove(entries: seq<Entry>, s: nat, height: nat) {
    forall e :: e in entries && e.Seq() == s ==> e.hotshotHeight <= height
  }

  /** Entries within `[lo, hi)`, in the order of their heights. */
  ghost predicate HeightOrdered(entries: seq<Entry>, lo: nat, hi: nat) {
    && (forall i :: 0 <= i < |entries| ==> lo <= entries[i].hotshotHeight < hi)
    && (forall i, j :: 0 <= i < j < |entries| ==> entries[i].hotshotHeight <= entries[j].hotshotHeight)
  }

  lemma HeightOrderedConcat(a: seq<Entry>, b: seq<Entry>, lo: nat, mid: nat, mid': nat, hi: nat)
    requires HeightOrdered(a, lo, mid) && HeightOrdered(b, mid', hi) && lo <= mid <= mid' <= hi
    ensures HeightOrdered(a + b, lo, hi)
  {
  }

  lemma {:induction false} EntriesOrdered(parse: TxParser, blocks: seq<Block>, start: nat)
    ensures HeightOrdered(Entries(parse, blocks, start), start, start + |blocks|)
  {
    if blocks != [] {
      var head := BlockEntries(parse, blocks[0], start);
      forall i | 0 <= i < |head| ensures head[i].hotshotHeight == start {
        BlockHeight(parse, blocks[0], start, head[i]);
      }
      EntriesOrdered(parse, blocks[1..], start + 1);
      HeightOrderedConcat(head, Entries(parse, blocks[1..], start + 1), start, start + 1, start + 1, start + |blocks|);
    }
  }

  lemma {:induction false} WindowEntriesOrdered(cfg: Config, chain: seq<Block>, ws: seq<Window>, fetch: Fetch, lo: nat)
    requires AllAnswered(ws, fetch) && Faithful(chain, fetch) && Separate(ws, lo)
    ensures HeightOrdered(WindowEntries(cfg, ws, fetch), lo, if ws == [] then lo else ws[|ws| - 1].to)
  {
    if ws != [] {
      var init, w := ws[..|ws| - 1], ws[|ws| - 1];
      WindowEntriesOrdered(cfg, chain, init, fetch, lo);
      EntriesOrdered(cfg.parse, fetch(w.from, w.to).value, w.from);
      var mid := if init == [] then lo else init[|init| - 1].to;
      HeightOrderedConcat(WindowEntries(cfg, init, fetch), Entries(cfg.parse, fetch(w.from, w.to).value, w.from),
                          lo, mid, w.from, w.to);
    }
  }

  /** In height order, the last entry of a number is the highest. */
  lemma {:induction false} LastIsHighest(entries: seq<Entry>, lo: nat, hi: nat, e: Entry)
    requires HeightOrdered(entries, lo, hi) && e in entries
    ensures LastWith(entries, e.Seq()).Some? && e.hotshotHeight <= LastWith(entries, e.Seq()).value.hotshotHeight
  {
    var init, last := entries[..|entries| - 1], entries[|entries| - 1];
    if last.Seq() == e.Seq() {
      var i :| 0 <= i < |entries| && entries[i] == e;
    } else {
      assert e in init;
      LastIsHighest(init, lo, hi, e);
    }
  }

  lemma PlannedIsFetched(cfg: Config, chain: seq<Block>, st: State, fetch: Fetch, s: nat)
    requires OnChain(cfg, chain, st) && Faithful(chain, fetch)
    requires AllAnswered(Windows(PlanHeights(cfg, st)), fetch)
    requires s in Plan(cfg, st) && s in st.stubs
    ensures exists e :: e in WindowEntries(cfg, Windows(PlanHeights(cfg, st)), fetch)
                     && e.Seq() == s && e.hotshotHeight == st.stubs[s]
  {
    var heights := PlanHeights(cfg, st);
    var ws := Windows(heights);
    assert Witnessed(cfg, chain, s, st.stubs[s]);
    var e :| InChain(cfg, chain, e) && e.Seq() == s && e.hotshotHeight == st.stubs[s];
    var h := st.stubs[s];
    assert h in heights;
    var k :| 0 <= k < |heights| && heights[k] == h;
    WindowsCover(heights, k);
    var i :| 0 <= i < |ws| && Covers(ws[i], h);
    WindowEntriesHas(cfg, chain, ws, fetch, i, e);
  }

  lemma RecordedHeightIff(cfg: Config, chain: seq<Block>, st: State, fetch: Fetch, s: nat)
    requires OnChain(cfg, chain, st) && Faithful(chain, fetch)
    requires AllAnswered(Windows(PlanHeights(cfg, st)), fetch)
    requires s in Plan(cfg, st) && s in st.stubs
    ensures var entries := WindowEntries(cfg, Windows(PlanHeights(cfg, st)), fetch);
      AtRecordedHeight(st, s, LastWith(entries, s)) <==> NoneAbove(entries, s, st.stubs[s])
  {
    var heights := PlanHeights(cfg, st);
    var ws := Windows(heights);
    var entries := WindowEntries(cfg, ws, fetch);
    WindowsSeparate(heights);
    WindowEntriesOrdered(cfg, chain, ws, fetch, if heights == [] then 0 else heights[0]);
    PlannedIsFetched(cfg, chain, st, fetch, s);
    forall e | e in entries && e.Seq() == s
      ensures LastWith(entries, s).Some? && e.hotshotHeight <= LastWith(entries, s).value.hotshotHeight
    {
      LastIsHighest(entries, if heights == [] then 0 else heights[0], if ws == [] then 0 else ws[|ws| - 1].to, e);
    }
  }

  /**
   * On a chain, promotion completes exactly when every request is answered and no planned number is repeated in the
   * requested blocks above the height where it was first seen.
   */
  lemma PromotionCompletesOnChain(cfg: Config, chain: seq<Block>, st: State, fetch: Fetch)
    requires OnChain(cfg, chain, st) && Faithful(chain, fetch) && Plan(cfg, st) != []
    ensures PromotionComplete(cfg, st, fetch)
       <==> AllAnswered(Windows(PlanHeights(cfg, st)), fetch) && NoLaterRepeat(cfg, st, fetch)
  {
    PromotionCompletesIff(cfg, st, fetch);
    if AllAnswered(Windows(PlanHeights(cfg, st)), fetch) {
      LastVersusRepeat(cfg, chain, st, fetch);
    }
  }

  lemma LastVersusRepeat(cfg: Config, chain: seq<Block>, st: State, fetch: Fetch)
    requires OnChain(cfg, chain, st) && Faithful(chain, fetch)
    requires AllAnswered(Windows(PlanHeights(cfg, st)), fetch)
    ensures LastAtRecordedHeight(cfg, st, fetch) <==> NoLaterRepeat(cfg, st, fetch)
  {
    var plan := Plan(cfg, st);
    var entries := WindowEntries(cfg, Windows(PlanHeights(cfg, st)), fetch);
    PlanSpec(cfg, st);
    forall k | 0 <= k < |plan|
      ensures plan[k] in st.stubs
      ensures AtRecordedHeight(st, plan[k], LastWith(entries, plan[k])) <==> NoneAbove(entries, plan[k], st.stubs[plan[k]])
    {
      assert plan[k] in plan;
      RecordedHeightIff(cfg, chain, st, fetch, plan[k]);
    }
    RepeatByNumber(plan, entries, st.stubs);
  }

  lemma RepeatByNumber(plan: seq<nat>, entries: seq<Entry>, stubs: map<nat, nat>)
    requires forall k :: 0 <= k < |plan| ==> plan[k] in stubs
    ensures (forall k :: 0 <= k < |plan| ==> NoneAbove(entries, plan[k], stubs[plan[k]])) <==> WithinRecorded(entries, plan, stubs)
  {
    if forall k :: 0 <= k < |plan| ==> NoneAbove(entries, plan[k], stubs[plan[k]]) {
      forall e | e in entries && e.Seq() in plan ensures e.Seq() in stubs && e.hotshotHeight <= stubs[e.Seq()] {
        var k :| 0 <= k < |plan| && plan[k] == e.Seq();
        assert NoneAbove(entries, plan[k], stubs[plan[k]]);
      }
    }
  }

  // ---- promotions that stop halfway ----

  lemma {:induction false} LastWithSome(entries: seq<Entry>, e: Entry)
    requires e in entries
    ensures LastWith(entries, e.Seq()).Some?
  {
    var init, last := entries[..|entries| - 1], entries[|entries| - 1];
    if last.Seq() != e.Seq() {
      assert e in init;
      LastWithSome(init, e);
    }
  }

  lemma PlannedFound(cfg: Config, chain: seq<Block>, st: State, fetch: Fetch, s: nat)
    requires OnChain(cfg, chain, st) && Faithful(chain, fetch)
    requires AllAnswered(Windows(PlanHeights(cfg, st)), fetch)
    requires s in Plan(cfg, st) && s in st.stubs
    ensures var found := LastFound(cfg, st, fetch)(s);
      && found.Some?
      && (Elsewhere(st.stubs, s, found)
          <==> !NoneAbove(WindowEntries(cfg, Windows(PlanHeights(cfg, st)), fetch), s, st.stubs[s]))
  {
    PlannedIsFetched(cfg, chain, st, fetch, s);
    var entries := WindowEntries(cfg, Windows(PlanHeights(cfg, st)), fetch);
    var e :| e in entries && e.Seq() == s && e.hotshotHeight == st.stubs[s];
    LastWithSome(entries, e);
    RecordedHeightIff(cfg, chain, st, fetch, s);
  }

  /** Position `k` is the first one of the plan whose number is repeated above its recorded height, or the end. */
  ghost predicate FirstRepeat(entries: seq<Entry>, stubs: map<nat, nat>, plan: seq<nat>, k: nat) {
    && k <= |plan|
    && (forall j :: 0 <= j < k ==> plan[j] in stubs && NoneAbove(entries, plan[j], stubs[plan[j]]))
    && (k < |plan| ==> plan[k] in stubs && !NoneAbove(entries, plan[k], stubs[plan[k]]))
  }

  /**
   * On a chain, an answered promotion moves exactly the planned numbers before the first one that is repeated in the
   * requested blocks above the height where it was first seen.
   */
  lemma PromotionMovesOnChain(cfg: Config, chain: seq<Block>, st: State, fetch: Fetch, k: nat)
    requires OnChain(cfg, chain, st) && Faithful(chain, fetch)
    requires AllAnswered(Windows(PlanHeights(cfg, st)), fetch)
    requires FirstRepeat(WindowEntries(cfg, Windows(PlanHeights(cfg, st)), fetch), st.stubs, Plan(cfg, st), k)
    ensures var r, plan := Promote(cfg, st, fetch), Plan(cfg, st);
      && r.stubs == (map s | s in st.stubs && s !in plan[..k] :: st.stubs[s])
      && (forall e :: e in r.queue <==> e in st.queue || (e.Seq() in plan[..k] && LastFound(cfg, st, fetch)(e.Seq()) == Some(e)))
  {
    StopIsRepeat(cfg, chain, st, fetch, k);
    PromotionMoves(cfg, st, fetch);
    AllMoved(st, Promote(cfg, st, fetch), Plan(cfg, st), LastFound(cfg, st, fetch), k);
  }

  lemma StopIsRepeat(cfg: Config, chain: seq<Block>, st: State, fetch: Fetch, k: nat)
    requires OnChain(cfg, chain, st) && Faithful(chain, fetch)
    requires AllAnswered(Windows(PlanHeights(cfg, st)), fetch)
    requires FirstRepeat(WindowEntries(cfg, Windows(PlanHeights(cfg, st)), fetch), st.stubs, Plan(cfg, st), k)
    ensures StopsAt(st.stubs, Plan(cfg, st), LastFound(cfg, st, fetch), k)
    ensures forall j :: 0 <= j < k ==> LastFound(cfg, st, fetch)(Plan(cfg, st)[j]).Some?
  {
    var plan, found := Plan(cfg, st), LastFound(cfg, st, fetch);
    forall j | 0 <= j < k ensures !Elsewhere(st.stubs, plan[j], found(plan[j])) && found(plan[j]).Some? {
      assert plan[j] in plan;
      PlannedFound(cfg, chain, st, fetch, plan[j]);
    }
    if k < |plan| {
      assert plan[k] in plan;
      PlannedFound(cfg, chain, st, fetch, plan[k]);
    }
  }

  lemma AllMoved(st: State, r: State, plan: seq<nat>, found: nat -> Option<Entry>, k: nat)
    requires k <= |plan| && Moved(st, r, plan, found, k) && forall j :: 0 <= j < k ==> found(plan[j]).Some?
    ensures r.stubs == (map s | s in st.stubs && s !in plan[..k] :: st.stubs[s])
    ensures forall e :: e in r.queue <==> e in st.queue || (e.Seq() in plan[..k] && found(e.Seq()) == Some(e))
  {
    assert forall s :: s in plan[..k] ==> found(s).Some?;
  }

  lemma RepeatExists(entries: seq<Entry>, stubs: map<nat, nat>, plan: seq<nat>) returns (k: nat)
    requires forall j :: 0 <= j < |plan| ==> plan[j] in stubs
    ensures FirstRepeat(entries, stubs, plan, k)
  {
    k := 0;
    while k < |plan| && NoneAbove(entries, plan[k], stubs[plan[k]])
      invariant k <= |plan| && forall j :: 0 <= j < k ==> NoneAbove(entries, plan[j], stubs[plan[j]])
    {
      k := k + 1;
    }
  }

  /** So an answered promotion, complete or not, keeps every queued number below every stub. */
  lemma AnsweredKeepsOrder(cfg: Config, chain: seq<Block>, st: State, fetch: Fetch)
    requires OnChain(cfg, chain, st) && Faithful(chain, fetch)
    requires AllAnswered(Windows(PlanHeights(cfg, st)), fetch)
    requires forall e, s :: e in st.queue && s in st.stubs ==> e.Seq() < s
    ensures var r := Promote(cfg, st, fetch); forall e, s :: e in r.queue && s in r.stubs ==> e.Seq() < s
  {
    var plan := Plan(cfg, st);
    PlanSpec(cfg, st);
    var k := RepeatExists(WindowEntries(cfg, Windows(PlanHeights(cfg, st)), fetch), st.stubs, plan);
    PromotionMovesOnChain(cfg, chain, st, fetch, k);
    forall x, s | x in plan[..k] && s in st.stubs && s !in plan[..k] ensures x < s {
      BehindPlan(cfg, st, k, x, s);
    }
  }

  lemma BehindPlan(cfg: Config, st: State, k: nat, x: nat, s: nat)
    requires k <= |Plan(cfg, st)| && x in Plan(cfg, st)[..k] && s in st.stubs && s !in Plan(cfg, st)[..k]
    ensures x < s
  {
    var keys, plan := Sorted(st.stubs.Keys), Plan(cfg, st);
    assert plan[..k] == keys[..k];
    BehindPrefix(keys, k, s);
    var i :| 0 <= i < k && keys[i] == x;
  }

  /** No number is on the chain at two heights. */
  ghost predicate OneHeight(cfg: Config, chain: seq<Block>) {
    forall a, b :: InChain(cfg, chain, a) && InChain(cfg, chain, b) && a.Seq() == b.Seq() ==>
      a.hotshotHeight == b.hotshotHeight
  }

  /** The reader answers every request for blocks of the chain. */
  ghost predicate Reliable(chain: seq<Block>, events: seq<Event>) {
    forall i :: 0 <= i < |events| && events[i].L1Finalized? ==>
      forall a: nat, b: nat :: a <= b <= |chain| ==> events[i].fetch(a, b).Some?
  }

  lemma {:induction false} WindowEntriesInChain(cfg: Config, chain: seq<Block>, ws: seq<Window>, fetch: Fetch, e: Entry)
    requires AllAnswered(ws, fetch) && Faithful(chain, fetch)
    requires e in WindowEntries(cfg, ws, fetch)
    ensures InChain(cfg, chain, e)
  {
    var w := ws[|ws| - 1];
    if e in Entries(cfg.parse, fetch(w.from, w.to).value, w.from) {
      RangeInChain(cfg, chain, w.from, w.to, e);
    } else {
      WindowEntriesInChain(cfg, chain, ws[..|ws| - 1], fetch, e);
    }
  }

  lemma {:induction false} WindowsWithin(heights: seq<nat>, n: nat)
    requires StrictlyIncreasing(heights)
    requires forall k :: 0 <= k < |heights| ==> heights[k] < n
    ensures forall i :: 0 <= i < |Windows(heights)| ==> Windows(heights)[i].from <= Windows(heights)[i].to <= n
  {
    if heights != [] {
      var j := WindowStop(heights, 1);
      WindowsWithin(heights[j..], n);
      assert Windows(heights) == [Window(heights[0], heights[j - 1] + 1)] + Windows(heights[j..]);
      assert j > 1 ==> heights[0] < heights[j - 1];
    }
  }

  lemma RequestsAnswered(cfg: Config, chain: seq<Block>, st: State, fetch: Fetch)
    requires OnChain(cfg, chain, st)
    requires forall a: nat, b: nat :: a <= b <= |chain| ==> fetch(a, b).Some?
    ensures AllAnswered(Windows(PlanHeights(cfg, st)), fetch)
  {
    var heights := PlanHeights(cfg, st);
    forall k | 0 <= k < |heights| ensures heights[k] < |chain| {
      var h := heights[k];
      assert h in heights;
      var s :| s in Plan(cfg, st) && s in st.stubs && st.stubs[s] == h;
      assert Witnessed(cfg, chain, s, st.stubs[s]);
    }
    WindowsWithin(heights, |chain|);
  }

  lemma ReliablePromotion(cfg: Config, chain: seq<Block>, st: State, fetch: Fetch)
    requires OnChain(cfg, chain, st) && Faithful(chain, fetch) && OneHeight(cfg, chain)
    requires forall a: nat, b: nat :: a <= b <= |chain| ==> fetch(a, b).Some?
    ensures PromotionComplete(cfg, st, fetch)
  {
    RequestsAnswered(cfg, chain, st, fetch);
    if Plan(cfg, st) != [] {
      NoRepeatAtOneHeight(cfg, chain, st, fetch);
      PromotionCompletesOnChain(cfg, chain, st, fetch);
    }
  }

  lemma NoRepeatAtOneHeight(cfg: Config, chain: seq<Block>, st: State, fetch: Fetch)
    requires OnChain(cfg, chain, st) && Faithful(chain, fetch) && OneHeight(cfg, chain)
    requires AllAnswered(Windows(PlanHeights(cfg, st)), fetch)
    ensures NoLaterRepeat(cfg, st, fetch)
  {
    var ws := Windows(PlanHeights(cfg, st));
    PlanSpec(cfg, st);
    forall e | e in WindowEntries(cfg, ws, fetch) && e.Seq() in Plan(cfg, st)
      ensures e.Seq() in st.stubs && e.hotshotHeight <= st.stubs[e.Seq()]
    {
      WindowEntriesInChain(cfg, chain, ws, fetch, e);
      assert Witnessed(cfg, chain, e.Seq(), st.stubs[e.Seq()]);
    }
  }

  /** On a chain without repeated numbers and with a reader that answers, every run completes its promotions. */
  lemma ReliableRunsComplete(cfg: Config, idx: U64, chain: seq<Block>, events: seq<Event>)
    requires ChainRun(chain, events) && Reliable(chain, events) && OneHeight(cfg, chain)
    ensures CompletingRun(cfg, idx, events)
  {
    forall i | 0 <= i < |events| ensures Completes(cfg, Run(cfg, idx, events[..i]).st, events[i]) {
      RunOnChain(cfg, idx, chain, events[..i]);
      var st, ev := Run(cfg, idx, events[..i]).st, events[i];
      if ev.L1Finalized? && ev.idx > st.finalizedIdx {
        var pruned := Prune(st.(lastBroadcastPosition := Max(st.lastBroadcastPosition, ev.idx)), ev.idx);
        assert OnChain(cfg, chain, pruned);
        ReliablePromotion(cfg, chain, pruned, ev.fetch);
      }
    }
  }
}
