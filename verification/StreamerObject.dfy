/** The streamer object: each handler updates the queue and stubs in place and does what the model says. */
module StreamerObject {
  import opened Common
  import opened Messages
  import opened SortedQueue
  import opened HotShot
  import opened StreamerModel
  import opened StreamerKnown
  import opened StreamerPromotion
  import opened StreamerBroadcast

  datatype SendOutcome = Sent | Full | Closed

  /** The bounded channel to the feed relay; another task drains it and thereby makes room. */
  class FeedChannel {
    var sent: seq<FeedMessage>
    var room: nat
    const closed: bool

    constructor (capacity: nat, isClosed: bool)
      ensures sent == [] && room == capacity && closed == isClosed
    {
      sent, room, closed := [], capacity, isClosed;
    }

    /** How many messages it accepts from here on. */
    ghost function Accepts(): nat
      reads this
    {
      if closed then 0 else room
    }

    method TrySend(m: FeedMessage) returns (outcome: SendOutcome)
      modifies this
      ensures outcome == if closed then Closed else if old(room) == 0 then Full else Sent
      ensures outcome == Sent ==> sent == old(sent) + [m] && room == old(room) - 1
      ensures outcome != Sent ==> sent == old(sent) && room == old(room)
    {
      if closed {
        return Closed;
      }
      if room == 0 {
        return Full;
      }
      sent, room := sent + [m], room - 1;
      return Sent;
    }
  }

  class BroadcastRetry {
    var scheduled: bool

    constructor ()
      ensures !scheduled
    {
      scheduled := false;
    }

    method Schedule()
      modifies this
      ensures scheduled
    {
      if scheduled {
        return;
      }
      scheduled := true;
    }
  }

  class Streamer {
    const cfg: Config
    var queue: seq<Entry>
    var stubs: map<nat, nat>
    var finalizedIdx: U64
    var lastBroadcastPosition: U64

    ghost function St(): State
      reads this
    {
      State(queue, stubs, finalizedIdx, lastBroadcastPosition)
    }

    ghost predicate Valid()
      reads this
    {
      Inv(cfg, St()) && forall s :: s in stubs ==> s <= U64_MAX
    }

    /** A fresh streamer once `run` has read the current L1 index. */
    constructor (config: Config, l1Finalized: U64)
      ensures Valid()
      ensures cfg == config && St() == State([], map[], l1Finalized, 0)
    {
      cfg := config;
      queue, stubs := [], map[];
      finalizedIdx, lastBroadcastPosition := l1Finalized, 0;
    }

    method FilterMessages(entries: seq<Entry>)
      requires Valid()
      modifies this
      ensures Valid() && St() == Filter(cfg, old(St()), entries)
    {
      for k := 0 to |entries|
        invariant Valid() && St() == Filter(cfg, old(St()), entries[..k])
      {
        assert entries[..k + 1][..k] == entries[..k];
        FilterEntry(entries[k]);
      }
      assert entries[..|entries|] == entries;
    }

    /** One turn of the loop over parsed entries. */
    method FilterEntry(e: Entry)
      requires Valid()
      modifies this
      ensures Valid() && St() == FilterOne(cfg, old(St()), e)
    {
      var s := e.Seq();
      FilterStaysValid(cfg, St(), e);
      if s < cfg.startingPos {
        return;
      }
      var pos, found := FindSlot(s);
      if found || s in stubs {
        return;
      }
      InsertEntry(e, pos);
    }

    /** Binary search for the number: its slot, or the one it would go to. */
    method FindSlot(s: U64) returns (pos: nat, found: bool)
      requires Ascending(queue)
      ensures pos == Below(queue, s) && (found <==> Holds(queue, s))
    {
      pos := Below(queue, s);
      found := pos < |queue| && queue[pos].Seq() == s;
      BelowFinds(queue, s);
    }

    /** Inserts at the found position and spills the tail if the queue is over its limit. */
    method InsertEntry(e: Entry, pos: nat)
      requires pos == Below(queue, e.Seq())
      modifies this`queue, this`stubs
      ensures var q := Insert(old(queue), e);
        St() == if |q| <= cfg.maxFullQueueEntries then old(St()).(queue := q)
                else old(St()).(queue := q[..|q| - 1],
                                stubs := old(stubs)[q[|q| - 1].Seq() := q[|q| - 1].hotshotHeight])
    {
      queue := queue[..pos] + [e] + queue[pos..];
      if |queue| > cfg.maxFullQueueEntries {
        var evicted := queue[|queue| - 1];
        queue := queue[..|queue| - 1];
        stubs := stubs[evicted.Seq() := evicted.hotshotHeight];
      }
    }

    method HandleFinalization(newFinalizedIdx: U64, fetch: Fetch)
      requires Valid()
      modifies this
      ensures Valid() && St() == Finalize(cfg, old(St()), newFinalizedIdx, fetch)
    {
      if newFinalizedIdx > lastBroadcastPosition {
        lastBroadcastPosition := newFinalizedIdx;
      }
      ghost var seen := St();
      assert seen == old(St()).(lastBroadcastPosition := Max(old(lastBroadcastPosition), newFinalizedIdx));
      if newFinalizedIdx <= finalizedIdx {
        return;
      }
      DropAndPromote(newFinalizedIdx, fetch);
    }

    method DropAndPromote(idx: U64, fetch: Fetch)
      requires Valid()
      modifies this`queue, this`stubs, this`finalizedIdx
      ensures Valid() && St() == Promote(cfg, Prune(old(St()), idx), fetch)
    {
      DropFinalized(idx);
      PromoteStubs(fetch);
    }

    /** Drops queue entries and stubs at or below the new index. */
    method DropFinalized(idx: U64)
      requires Valid()
      modifies this`queue, this`stubs, this`finalizedIdx
      ensures Valid() && St() == Prune(old(St()), idx)
    {
      assert Inv(cfg, Prune(St(), idx)) by { PruneKnown(cfg, St(), idx); }
      finalizedIdx := idx;
      var splitKey: nat := idx as nat + 1;
      var splitAt := Below(queue, splitKey);
      queue := queue[splitAt..];
      if idx < U64_MAX {
        stubs := map s | s in stubs && splitKey <= s :: stubs[s];
      } else {
        stubs := map[];
      }
      assert stubs == Prune(old(St()), idx).stubs;
    }

    /** Polled blocks: entries go to the queue, then the feed is served. */
    method HandleHotshotTransactions(blocks: seq<Block>, height: nat, sender: FeedChannel, retry: BroadcastRetry)
      requires Valid()
      modifies this, sender, retry
      ensures Valid()
      ensures var filtered := Filter(cfg, old(St()), Entries(cfg.parse, blocks, height));
        && St() == Broadcast(filtered, old(sender.Accepts()))
        && sender.sent == old(sender.sent) + FeedOf(Sendable(filtered, old(sender.Accepts())))
      ensures retry.scheduled <==> old(retry.scheduled) || (!sender.closed && Holds(queue, lastBroadcastPosition as nat + 1))
    {
      var entries := ParseHotshotTransactions(cfg.parse, blocks, height);
      FilterMessages(entries);
      TryBroadcastFeedMessage(sender, retry);
    }

    /** The retry signal has arrived: it is no longer pending, and the feed is served again. */
    method HandleRetrySignal(sender: FeedChannel, retry: BroadcastRetry)
      requires Valid()
      modifies this`lastBroadcastPosition, sender, retry
      ensures Valid()
      ensures St() == Broadcast(old(St()), old(sender.Accepts()))
      ensures sender.sent == old(sender.sent) + FeedOf(Sendable(old(St()), old(sender.Accepts())))
      ensures retry.scheduled <==> !sender.closed && Holds(queue, lastBroadcastPosition as nat + 1)
    {
      retry.scheduled := false;
      TryBroadcastFeedMessage(sender, retry);
    }

    /** Sends the run after the last position; if the channel fills up first, a retry is scheduled. */
    method TryBroadcastFeedMessage(sender: FeedChannel, retry: BroadcastRetry)
      requires Valid()
      modifies this`lastBroadcastPosition, sender, retry
      ensures Valid()
      ensures St() == Broadcast(old(St()), old(sender.Accepts()))
      ensures sender.sent == old(sender.sent) + FeedOf(Sendable(old(St()), old(sender.Accepts())))
      ensures retry.scheduled <==> old(retry.scheduled) || (!sender.closed && Holds(queue, lastBroadcastPosition as nat + 1))
    {
      var run := FindContiguousEntriesAfter(queue, lastBroadcastPosition);
      SendPlan(St(), sender.Accepts(), run);
      CutOff(queue, lastBroadcastPosition as nat + 1, sender.Accepts(), run);
      SendRun(run, sender, retry);
    }

    /** The sending loop: stops at the first message the channel does not take. */
    method SendRun(run: seq<Entry>, sender: FeedChannel, retry: BroadcastRetry)
      requires forall i :: 0 <= i < |run| ==> run[i].Seq() == lastBroadcastPosition + 1 + i
      modifies this`lastBroadcastPosition, sender, retry
      ensures var k := Min(old(sender.Accepts()), |run|);
        && lastBroadcastPosition == old(lastBroadcastPosition) + k
        && sender.sent == old(sender.sent) + FeedOf(run[..k])
      ensures retry.scheduled == (old(retry.scheduled) || (!sender.closed && old(sender.room) < |run|))
    {
      ghost var n, last := sender.Accepts(), lastBroadcastPosition;
      for i := 0 to |run|
        invariant lastBroadcastPosition == last + i
        invariant i <= n && (!sender.closed ==> sender.room == n - i)
        invariant sender.sent == old(sender.sent) + FeedOf(run[..i])
        invariant retry.scheduled == old(retry.scheduled)
      {
        var outcome := sender.TrySend(run[i].feedMessage);
        if outcome != Sent {
          if outcome == Full {
            retry.Schedule();
          }
          return;
        }
        lastBroadcastPosition := run[i].Seq();
        assert FeedOf(run[..i + 1]) == FeedOf(run[..i]) + [run[i].feedMessage];
      }
    }

    /** Fetches the planned stubs' blocks again and moves what was found into the queue. */
    method PromoteStubs(fetch: Fetch)
      requires Valid()
      modifies this`queue, this`stubs
      ensures Valid() && St() == Promote(cfg, old(St()), fetch)
    {
      PromoteKnown(cfg, St(), fetch);
      PlanSpec(cfg, St());
      var room := if |queue| <= cfg.maxFullQueueEntries then cfg.maxFullQueueEntries - |queue| else 0;
      if room == 0 || |stubs| == 0 {
        NothingPlanned(cfg, St(), fetch);
        return;
      }
      var keys := Sorted(stubs.Keys);
      var plan := keys[..Min(room, |keys|)];
      var heights := Sorted(set s | s in plan && s in stubs :: stubs[s]);
      assert plan == Plan(cfg, St()) && heights == PlanHeights(cfg, St());
      var fetched := FetchHeights(cfg, heights, plan, fetch);
      if fetched.None? {
        return;
      }
      FetchFiled(cfg, Windows(heights), plan, fetch);
      InsertFetched(plan, fetched.value);
    }

    /** The final loop of a promotion. */
    method InsertFetched(plan: seq<nat>, fetched: map<nat, Entry>)
      requires StrictlyIncreasing(plan) && Filed(fetched)
      requires forall k :: 0 <= k < |plan| ==> plan[k] in stubs
      modifies this`queue, this`stubs
      ensures St() == PromoteEach(old(St()), plan, fetched)
      ensures forall s :: s in stubs ==> s in old(stubs)
    {
      for k := 0 to |plan|
        invariant PromoteEach(St(), plan[k..], fetched) == PromoteEach(old(St()), plan, fetched)
        invariant forall i :: k <= i < |plan| ==> plan[i] in stubs
        invariant forall s :: s in stubs ==> s in old(stubs)
      {
        var s := plan[k];
        assert plan[k..][0] == s && plan[k..][1..] == plan[k + 1..];
        assert forall i :: k < i < |plan| ==> s < plan[i];
        if s in fetched {
          if fetched[s].hotshotHeight != stubs[s] {
            return;
          }
          InsertOne(s, fetched[s]);
        }
      }
    }

    method InsertOne(s: nat, entry: Entry)
      requires entry.Seq() == s
      modifies this`queue, this`stubs
      ensures St() == old(St()).(queue := Insert(old(queue), entry), stubs := old(stubs) - {s})
    {
      var pos := Below(queue, s);
      queue := queue[..pos] + [entry] + queue[pos..];
      stubs := stubs - {s};
    }
  }

  /** The loop that clones entries until the first gap; `last + idx + 1` never overflows in a sorted queue. */
  method FindContiguousEntriesAfter(queue: seq<Entry>, last: U64) returns (result: seq<Entry>)
    requires Ascending(queue)
    ensures result == RunFrom(queue, last + 1, |queue| + 1)
    ensures |result| <= |queue|
  {
    ghost var next: nat := last as nat + 1;
    var start := Below(queue, last as nat + 1);
    var idx := 0;
    result := [];
    while start + idx < |queue|
      invariant start + idx <= |queue|
      invariant Below(queue, next + idx) == start + idx
      invariant |result| == idx && result == RunFrom(queue, next, idx)
    {
      var entry := queue[start + idx];
      BelowSpec(queue, next + idx);
      var expected: U64 := last as nat + idx + 1;
      RunGrows(queue, next, idx);
      if entry.Seq() != expected {
        break;
      }
      BelowUnique(queue, next + idx + 1, start + idx + 1);
      idx := idx + 1;
      result := result + [entry];
    }
    RunGrows(queue, next, idx);
    RunSaturates(queue, next, idx + 1, |queue| + 1);
  }

  /** Sending the first messages of the whole run is the broadcast. */
  lemma SendPlan(st: State, n: nat, run: seq<Entry>)
    requires Ascending(st.queue) && |run| <= |st.queue|
    requires run == RunFrom(st.queue, st.lastBroadcastPosition + 1, |st.queue| + 1)
    ensures Sendable(st, n) == run[..Min(n, |run|)]
    ensures Broadcast(st, n).lastBroadcastPosition == st.lastBroadcastPosition + Min(n, |run|)
    ensures Broadcast(st, n) == st.(lastBroadcastPosition := Broadcast(st, n).lastBroadcastPosition)
  {
    RunTake(st.queue, st.lastBroadcastPosition + 1, |st.queue| + 1, n);
    BroadcastPosition(st, n);
  }

  /** Something sendable is left exactly when the run was cut off. */
  lemma CutOff(q: seq<Entry>, next: nat, n: nat, run: seq<Entry>)
    requires Ascending(q) && |run| <= |q| && run == RunFrom(q, next, |q| + 1)
    ensures forall i :: 0 <= i < |run| ==> run[i].Seq() == next + i
    ensures Holds(q, next + Min(n, |run|)) <==> n < |run|
  {
    RunNumbers(q, next, |q| + 1);
    if n < |run| {
      assert run[n] in q && run[n].Seq() == next + n;
    } else {
      RunStops(q, next, |q| + 1);
    }
  }

  lemma FilterStaysValid(cfg: Config, st: State, e: Entry)
    requires Inv(cfg, st) && forall s :: s in st.stubs ==> s <= U64_MAX
    ensures Inv(cfg, FilterOne(cfg, st, e)) && forall s :: s in FilterOne(cfg, st, e).stubs ==> s <= U64_MAX
  {
    FilterOneKnown(cfg, st, e);
  }

  lemma NothingPlanned(cfg: Config, st: State, fetch: Fetch)
    requires Room(cfg, st) == 0 || |st.stubs| == 0
    ensures Promote(cfg, st, fetch) == st
  {
    assert Plan(cfg, st) == [];
    assert PlanHeights(cfg, st) == [];
  }

  lemma WindowStep(heights: seq<nat>, i: nat, j: nat, ws: seq<Window>, k: nat)
    requires i < j <= |heights| && k <= |ws|
    requires j - i == WindowStop(heights[i..], 1)
    requires Windows(heights[i..]) == ws[k..]
    ensures k < |ws| && ws[k] == Window(heights[i], heights[j - 1] + 1)
    ensures Windows(heights[j..]) == ws[k + 1..]
  {
    var rest := heights[i..];
    assert rest[j - i..] == heights[j..];
    assert ws[k..] == [Window(rest[0], rest[j - i - 1] + 1)] + Windows(rest[j - i..]);
    assert ws[k..][0] == ws[k] && ws[k..][1..] == ws[k + 1..];
  }

  /** A window without an answer ends the whole fetch; an answered one adds what it holds. */
  lemma FetchSteps(cfg: Config, ws: seq<Window>, k: nat, plan: seq<nat>, fetch: Fetch)
    requires k < |ws| && FetchWindows(cfg, ws[..k], plan, fetch).Some?
    ensures fetch(ws[k].from, ws[k].to).None? ==> FetchWindows(cfg, ws, plan, fetch).None?
    ensures fetch(ws[k].from, ws[k].to).Some? ==>
      FetchWindows(cfg, ws[..k + 1], plan, fetch)
      == Some(Collect(Entries(cfg.parse, fetch(ws[k].from, ws[k].to).value, ws[k].from), plan,
                      FetchWindows(cfg, ws[..k], plan, fetch).value))
  {
    assert ws[..k + 1][..k] == ws[..k];
    if fetch(ws[k].from, ws[k].to).None? {
      FetchStaysNone(cfg, ws, k + 1, plan, fetch);
    }
  }

  lemma {:induction false} FetchStaysNone(cfg: Config, ws: seq<Window>, k: nat, plan: seq<nat>, fetch: Fetch)
    requires k <= |ws| && FetchWindows(cfg, ws[..k], plan, fetch).None?
    ensures FetchWindows(cfg, ws, plan, fetch).None?
    decreases |ws| - k
  {
    if k < |ws| {
      assert ws[..k + 1][..k] == ws[..k];
      FetchStaysNone(cfg, ws, k + 1, plan, fetch);
    } else {
      assert ws[..k] == ws;
    }
  }

  /** After `k` windows the heights from `i` on are left. */
  ghost predicate Halfway(
    cfg: Config, heights: seq<nat>, i: nat, ws: seq<Window>, k: nat, plan: seq<nat>, fetch: Fetch, fetched: map<nat, Entry>)
  {
    && i <= |heights| && k <= |ws| && WindowsFrom(heights, i) == ws[k..]
    && FetchedBefore(cfg, ws, k, plan, fetch) == Some(fetched)
  }

  ghost function WindowsFrom(heights: seq<nat>, i: nat): seq<Window>
    requires i <= |heights|
  {
    Windows(heights[i..])
  }

  ghost function FetchedBefore(cfg: Config, ws: seq<Window>, k: nat, plan: seq<nat>, fetch: Fetch): Option<map<nat, Entry>>
    requires k <= |ws|
  {
    FetchWindows(cfg, ws[..k], plan, fetch)
  }

  lemma HalfwayStart(cfg: Config, heights: seq<nat>, plan: seq<nat>, fetch: Fetch)
    ensures Halfway(cfg, heights, 0, Windows(heights), 0, plan, fetch, map[])
  {
    var ws := Windows(heights);
    assert heights[0..] == heights && ws[0..] == ws && ws[..0] == [];
  }

  lemma HalfwayStep(
    cfg: Config, heights: seq<nat>, i: nat, j: nat, ws: seq<Window>, k: nat, plan: seq<nat>, fetch: Fetch, fetched: map<nat, Entry>)
    requires Halfway(cfg, heights, i, ws, k, plan, fetch, fetched)
    requires i < j <= |heights| && j - i == WindowStop(heights[i..], 1)
    ensures var answer := fetch(heights[i], heights[j - 1] + 1);
      && (answer.None? ==> FetchWindows(cfg, ws, plan, fetch).None?)
      && (answer.Some? ==>
            Halfway(cfg, heights, j, ws, k + 1, plan, fetch, Collect(Entries(cfg.parse, answer.value, heights[i]), plan, fetched)))
  {
    WindowStep(heights, i, j, ws, k);
    FetchSteps(cfg, ws, k, plan, fetch);
  }

  lemma AllFetched(cfg: Config, heights: seq<nat>, ws: seq<Window>, k: nat, plan: seq<nat>, fetch: Fetch, fetched: map<nat, Entry>)
    requires Halfway(cfg, heights, |heights|, ws, k, plan, fetch, fetched)
    ensures FetchWindows(cfg, ws, plan, fetch) == Some(fetched)
  {
    assert heights[|heights|..] == [];
    assert ws[..k] == ws;
  }

  /** The window loop with its two indices: requests blocks and collects the planned numbers, or gives up. */
  method FetchHeights(cfg: Config, heights: seq<nat>, plan: seq<nat>, fetch: Fetch) returns (r: Option<map<nat, Entry>>)
    ensures r == FetchWindows(cfg, Windows(heights), plan, fetch)
  {
    ghost var ws := Windows(heights);
    ghost var k := 0;
    var fetched: map<nat, Entry> := map[];
    var i := 0;
    HalfwayStart(cfg, heights, plan, fetch);
    while i < |heights|
      invariant 0 <= i <= |heights|
      invariant Halfway(cfg, heights, i, ws, k, plan, fetch, fetched)
    {
      var j := NextWindow(heights, i);
      HalfwayStep(cfg, heights, i, j, ws, k, plan, fetch, fetched);
      var start, end := heights[i], heights[j - 1] + 1;
      var answer := fetch(start, end);
      if answer.None? {
        return None;
      }
      var entries := ParseHotshotTransactions(cfg.parse, answer.value, start);
      fetched := CollectExpected(entries, plan, fetched);
      i, k := j, k + 1;
    }
    AllFetched(cfg, heights, ws, k, plan, fetch, fetched);
    return Some(fetched);
  }

  /** The inner loop: extends the window while heights stay within the range limit. */
  method NextWindow(heights: seq<nat>, i: nat) returns (j: nat)
    requires i < |heights|
    ensures i < j <= |heights| && j - i == WindowStop(heights[i..], 1)
  {
    var start := heights[i];
    j := i + 1;
    while j < |heights| && heights[j] - start < HOTSHOT_RANGE_LIMIT
      invariant i < j <= |heights|
      invariant WindowStop(heights[i..], j - i) == WindowStop(heights[i..], 1)
    {
      j := j + 1;
    }
  }

  method CollectExpected(entries: seq<Entry>, expected: seq<nat>, acc: map<nat, Entry>) returns (r: map<nat, Entry>)
    ensures r == Collect(entries, expected, acc)
  {
    r := acc;
    for m := 0 to |entries|
      invariant r == Collect(entries[..m], expected, acc)
    {
      assert entries[..m + 1][..m] == entries[..m];
      if entries[m].Seq() in expected {
        r := r[entries[m].Seq() := entries[m]];
      }
    }
    assert entries[..|entries|] == entries;
  }
}
