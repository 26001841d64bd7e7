/** Resuming from the checkpoint that an accepted batch leaves behind. */
module Restart {
  import opened Common
  import opened Messages
  import opened SortedQueue
  import opened HotShot
  import Poller
  import opened StreamerModel
  import opened StreamerKnown
  import opened StreamerRuns
  import opened StreamerChain
  import opened Verifier
  import opened BatchSafety

  /** Events whose polled ranges tile `[start, end)` of the chain in order, as the poller forwards them. */
  ghost predicate InOrder(chain: seq<Block>, events: seq<Event>, start: nat, end: nat) {
    if events == [] then start == end
    else
      var init, ev := events[..|events| - 1], events[|events| - 1];
      if !ev.BlocksPolled? then InOrder(chain, init, start, end)
      else
        && ev.height + |ev.blocks| == end <= |chain|
        && ev.blocks == chain[ev.height..end]
        && InOrder(chain, init, start, ev.height)
  }

  /** What a streamer that never finalizes knows after reading `[start, end)`. */
  ghost function FirstSeen(cfg: Config, chain: seq<Block>, start: nat, end: nat): map<nat, nat>
    requires start <= end <= |chain|
  {
    SeeAll(cfg, map[], Entries(cfg.parse, chain[start..end], start))
  }

  lemma {:induction false} SeeAllConcat(cfg: Config, known: map<nat, nat>, a: seq<Entry>, b: seq<Entry>)
    ensures SeeAll(cfg, known, a + b) == SeeAll(cfg, SeeAll(cfg, known, a), b)
  {
    if b == [] {
      assert a + b == a;
    } else {
      assert (a + b)[..|a + b| - 1] == a + b[..|b| - 1];
      SeeAllConcat(cfg, known, a, b[..|b| - 1]);
    }
  }

  /** Numbers above `idx` are seen independently of what is known below. */
  lemma {:induction false} SeeAllAbove(cfg: Config, a: map<nat, nat>, b: map<nat, nat>, entries: seq<Entry>, idx: nat)
    requires Above(a, idx) == Above(b, idx)
    ensures Above(SeeAll(cfg, a, entries), idx) == Above(SeeAll(cfg, b, entries), idx)
  {
    if entries != [] {
      var init, e := entries[..|entries| - 1], entries[|entries| - 1];
      SeeAllAbove(cfg, a, b, init, idx);
      SeeAbove(cfg, SeeAll(cfg, a, init), SeeAll(cfg, b, init), e, idx);
    }
  }

  lemma SeeAbove(cfg: Config, a: map<nat, nat>, b: map<nat, nat>, e: Entry, idx: nat)
    requires Above(a, idx) == Above(b, idx)
    ensures Above(See(cfg, a, e), idx) == Above(See(cfg, b, e), idx)
  {
    assert idx < e.Seq() ==> (e.Seq() in a <==> e.Seq() in Above(a, idx));
    assert idx < e.Seq() ==> (e.Seq() in b <==> e.Seq() in Above(b, idx));
    SeeAboveOne(cfg, a, e, idx);
    SeeAboveOne(cfg, b, e, idx);
  }

  lemma SeeAboveOne(cfg: Config, a: map<nat, nat>, e: Entry, idx: nat)
    ensures Above(See(cfg, a, e), idx)
         == if idx < e.Seq() then See(cfg, Above(a, idx), e) else Above(a, idx)
  {
  }

  lemma AboveTwice(known: map<nat, nat>, lo: nat, hi: nat)
    requires lo <= hi
    ensures Above(Above(known, lo), hi) == Above(known, hi)
  {
  }

  /** Reading one more range extends the first-seen map, above any bound. */
  lemma PolledStep(cfg: Config, chain: seq<Block>, known: map<nat, nat>, start: nat, mid: nat, end: nat, bound: nat)
    requires start <= mid <= end <= |chain|
    requires Above(known, bound) == Above(FirstSeen(cfg, chain, start, mid), bound)
    ensures Above(SeeAll(cfg, known, Entries(cfg.parse, chain[mid..end], mid)), bound)
         == Above(FirstSeen(cfg, chain, start, end), bound)
  {
    var read, entries := Entries(cfg.parse, chain[start..mid], start), Entries(cfg.parse, chain[mid..end], mid);
    SeeAllAbove(cfg, known, FirstSeen(cfg, chain, start, mid), entries, bound);
    RangeParsesInTwo(cfg.parse, chain, start, mid, end);
    SeeAllConcat(cfg, map[], read, entries);
  }

  lemma {:induction false} IdealKnows(
    cfg: Config, idx: U64, chain: seq<Block>, events: seq<Event>, start: nat, end: nat, bound: nat)
    requires InOrder(chain, events, start, end) && start <= |chain|
    requires IdealRun(cfg, idx, events).finalizedIdx <= bound
    ensures start <= end <= |chain|
    ensures Above(IdealRun(cfg, idx, events).known, bound) == Above(FirstSeen(cfg, chain, start, end), bound)
  {
    if events == [] {
      assert chain[start..end] == [];
    } else {
      var init, ev := events[..|events| - 1], events[|events| - 1];
      var before := IdealRun(cfg, idx, init);
      IdealKnows(cfg, idx, chain, init, start, if ev.BlocksPolled? then ev.height else end, bound);
      match ev {
        case BlocksPolled(_, height, _) => PolledStep(cfg, chain, before.known, start, height, end, bound);
        case L1Finalized(l1, _) =>
          if l1 > before.finalizedIdx {
            AboveTwice(before.known, l1, bound);
          }
        case RetrySignal(_) =>
      }
    }
  }

  lemma {:induction false} SeenIn(cfg: Config, known: map<nat, nat>, entries: seq<Entry>, s: nat)
    requires s in SeeAll(cfg, known, entries)
    ensures s in known || exists e :: e in entries && e.Seq() == s
  {
    if entries != [] {
      var init, last := entries[..|entries| - 1], entries[|entries| - 1];
      assert last in entries;
      if s in SeeAll(cfg, known, init) {
        SeenIn(cfg, known, init, s);
      }
    }
  }

  /** Whatever was finalized, a known number stems from a block that was read. */
  lemma {:induction false} KnownWasRead(
    cfg: Config, idx: U64, chain: seq<Block>, events: seq<Event>, start: nat, end: nat, s: nat) returns (e: Entry)
    requires InOrder(chain, events, start, end) && start <= |chain|
    requires s in IdealRun(cfg, idx, events).known
    ensures InChain(cfg, chain, e) && e.Seq() == s && start <= e.hotshotHeight < end
  {
    var init, ev := events[..|events| - 1], events[|events| - 1];
    var before := IdealRun(cfg, idx, init);
    if s in before.known {
      e := KnownWasRead(cfg, idx, chain, init, start, if ev.BlocksPolled? then ev.height else end, s);
    } else {
      var found := Entries(cfg.parse, ev.blocks, ev.height);
      SeenIn(cfg, before.known, found, s);
      e :| e in found && e.Seq() == s;
      RangeInChain(cfg, chain, ev.height, end, e);
      Advances(chain, init, start, ev.height);
    }
  }

  lemma {:induction false} Advances(chain: seq<Block>, events: seq<Event>, start: nat, end: nat)
    requires InOrder(chain, events, start, end)
    ensures start <= end
  {
    if events != [] {
      var ev := events[|events| - 1];
      Advances(chain, events[..|events| - 1], start, if ev.BlocksPolled? then ev.height else end);
    }
  }

  /**
   * At every moment of an in-order run, whatever promotions did, what the streamer knows above the finalized index is
   * the first-seen map of everything it has read.
   */
  lemma KnowsWhatItRead(
    cfg: Config, idx: U64, chain: seq<Block>, events: seq<Event>, start: nat, end: nat, bound: nat)
    requires InOrder(chain, events, start, end) && start <= |chain|
    requires Run(cfg, idx, events).st.finalizedIdx <= bound
    ensures start <= end <= |chain|
    ensures Above(Known(Run(cfg, idx, events).st), bound) == Above(FirstSeen(cfg, chain, start, end), bound)
  {
    RefinesFirstSeenMap(cfg, idx, events);
    IdealKnows(cfg, idx, chain, events, start, end, bound);
  }

  // ---- first seen is lowest ----

  /** `h` is the lowest height in `[lo, hi)` at which the chain has number `s`. */
  ghost predicate Lowest(cfg: Config, chain: seq<Block>, s: nat, lo: nat, hi: nat, h: nat) {
    && lo <= h < hi
    && Witnessed(cfg, chain, s, h)
    && forall k :: lo <= k < h ==> !Witnessed(cfg, chain, s, k)
  }

  ghost predicate Absent(cfg: Config, chain: seq<Block>, s: nat, lo: nat, hi: nat) {
    forall k :: lo <= k < hi ==> !Witnessed(cfg, chain, s, k)
  }

  /** The first-seen map holds the lowest height of each number, and nothing else. */
  ghost predicate IsLowestMap(cfg: Config, chain: seq<Block>, known: map<nat, nat>, lo: nat, hi: nat) {
    forall s: nat :: cfg.startingPos <= s ==>
      if s in known then Lowest(cfg, chain, s, lo, hi, known[s]) else Absent(cfg, chain, s, lo, hi)
  }

  lemma {:induction false} SeeBlock(cfg: Config, known: map<nat, nat>, entries: seq<Entry>, height: nat, s: nat)
    requires forall i :: 0 <= i < |entries| ==> entries[i].hotshotHeight == height
    ensures var r := SeeAll(cfg, known, entries);
      && (s in known ==> s in r && r[s] == known[s])
      && (s !in known && s >= cfg.startingPos && Holds(entries, s) ==> s in r && r[s] == height)
      && (s !in known && !(s >= cfg.startingPos && Holds(entries, s)) ==> s !in r)
  {
    if entries != [] {
      var init, last := entries[..|entries| - 1], entries[|entries| - 1];
      SeeBlock(cfg, known, init, height, s);
      HoldsSnoc(init, last, s);
      assert entries == init + [last];
    }
  }

  lemma HoldsSnoc(init: seq<Entry>, last: Entry, s: nat)
    ensures Holds(init + [last], s) <==> Holds(init, s) || last.Seq() == s
  {
    assert last in init + [last];
    if e :| e in init && e.Seq() == s { assert e in init + [last]; }
    if e :| e in init + [last] && e.Seq() == s { assert e in init || e == last; }
  }

  lemma BlockHolds(cfg: Config, chain: seq<Block>, height: nat, s: nat)
    requires height < |chain|
    ensures Holds(BlockEntries(cfg.parse, chain[height], height), s) <==> Witnessed(cfg, chain, s, height)
  {
    var entries := BlockEntries(cfg.parse, chain[height], height);
    if e :| e in entries && e.Seq() == s {
      BlockHeight(cfg.parse, chain[height], height, e);
      assert InChain(cfg, chain, e);
    }
  }

  lemma {:induction false} FirstSeenIsLowest(cfg: Config, chain: seq<Block>, start: nat, end: nat)
    requires start <= end <= |chain|
    ensures IsLowestMap(cfg, chain, FirstSeen(cfg, chain, start, end), start, end)
    ensures forall s :: s in FirstSeen(cfg, chain, start, end) ==> cfg.startingPos <= s
    decreases end
  {
    if start == end {
      assert chain[start..end] == [];
    } else {
      var h := end - 1;
      FirstSeenIsLowest(cfg, chain, start, h);
      var before, after := FirstSeen(cfg, chain, start, h), FirstSeen(cfg, chain, start, end);
      SeeOneBlock(cfg, chain, start, end);
      forall s: nat ensures (s in after ==> cfg.startingPos <= s)
        && (cfg.startingPos <= s ==>
             if s in after then Lowest(cfg, chain, s, start, end, after[s]) else Absent(cfg, chain, s, start, end))
      {
        LowestWithBlock(cfg, chain, before, start, h, s);
      }
    }
  }

  /** One more block is one more place where a number may be seen first. */
  lemma LowestWithBlock(cfg: Config, chain: seq<Block>, known: map<nat, nat>, start: nat, h: nat, s: nat)
    requires start <= h < |chain|
    requires s in known ==> cfg.startingPos <= s
    requires cfg.startingPos <= s ==>
      if s in known then Lowest(cfg, chain, s, start, h, known[s]) else Absent(cfg, chain, s, start, h)
    ensures var after := SeeAll(cfg, known, BlockEntries(cfg.parse, chain[h], h));
      && (s in after ==> cfg.startingPos <= s)
      && (cfg.startingPos <= s ==>
           if s in after then Lowest(cfg, chain, s, start, h + 1, after[s]) else Absent(cfg, chain, s, start, h + 1))
  {
    var entries := BlockEntries(cfg.parse, chain[h], h);
    forall i | 0 <= i < |entries| ensures entries[i].hotshotHeight == h {
      BlockHeight(cfg.parse, chain[h], h, entries[i]);
    }
    SeeBlock(cfg, known, entries, h, s);
    BlockHolds(cfg, chain, h, s);
  }

  lemma SeeOneBlock(cfg: Config, chain: seq<Block>, start: nat, end: nat)
    requires start < end <= |chain|
    ensures FirstSeen(cfg, chain, start, end)
         == SeeAll(cfg, FirstSeen(cfg, chain, start, end - 1), BlockEntries(cfg.parse, chain[end - 1], end - 1))
  {
    var h := end - 1;
    var read, last := Entries(cfg.parse, chain[start..h], start), BlockEntries(cfg.parse, chain[h], h);
    assert Entries(cfg.parse, chain[start..end], start) == read + last by {
      assert chain[start..end] == chain[start..h] + [chain[h]];
      EntriesConcat(cfg.parse, chain[start..h], [chain[h]], start);
      EntriesOne(cfg.parse, chain[h], h);
    }
    SeeAllConcat(cfg, map[], read, last);
  }

  // ---- runs fed by the poller ----

  /** The ranges that the streamer has taken from the poller's channel. */
  function Taken(events: seq<Event>): seq<Poller.Chunk> {
    if events == [] then []
    else
      var ev := events[|events| - 1];
      Taken(events[..|events| - 1]) + (if ev.BlocksPolled? then [Poller.Chunk(ev.blocks, ev.height)] else [])
  }

  lemma {:induction false} TilesInOrder(chain: seq<Block>, events: seq<Event>, start: nat, end: nat)
    ensures InOrder(chain, events, start, end) <==> Poller.Tiles(chain, Taken(events), start, end)
  {
    if events != [] {
      var init, ev := events[..|events| - 1], events[|events| - 1];
      TilesInOrder(chain, init, start, if ev.BlocksPolled? then ev.height else end);
      if ev.BlocksPolled? {
        assert Taken(events)[..|Taken(events)| - 1] == Taken(init);
      } else {
        assert Taken(events) == Taken(init);
      }
    }
  }

  lemma {:induction false} TilesPrefix(chain: seq<Block>, chunks: seq<Poller.Chunk>, start: nat, end: nat, n: nat) returns (mid: nat)
    requires Poller.Tiles(chain, chunks, start, end) && n <= |chunks|
    ensures Poller.Tiles(chain, chunks[..n], start, mid)
  {
    if n == |chunks| {
      mid := end;
      assert chunks[..n] == chunks;
    } else {
      var init := chunks[..|chunks| - 1];
      mid := TilesPrefix(chain, init, start, chunks[|chunks| - 1].height, n);
      assert init[..n] == chunks[..n];
    }
  }

  /**
   * Whatever heights were reported and whatever failed: a streamer that has taken the first `n` of the ranges its poller
   * forwarded knows, above the finalized index, the first-seen map of the blocks up to some block.
   */
  lemma KnowsWhatThePollerSent(
    cfg: Config, idx: U64, chain: seq<Block>, events: seq<Event>, start: nat, replies: seq<Poller.Reply>, n: nat, bound: nat)
    returns (end: nat)
    requires start <= |chain| && n <= |Poller.Poll(chain, start, replies).sent|
    requires Taken(events) == Poller.Poll(chain, start, replies).sent[..n]
    requires Run(cfg, idx, events).st.finalizedIdx <= bound
    ensures start <= end <= |chain| && InOrder(chain, events, start, end)
    ensures Above(Known(Run(cfg, idx, events).st), bound) == Above(FirstSeen(cfg, chain, start, end), bound)
  {
    var p := Poller.Poll(chain, start, replies);
    Poller.PollTiles(chain, start, replies);
    end := TilesPrefix(chain, p.sent, start, p.fromBlock, n);
    TilesInOrder(chain, events, start, end);
    KnowsWhatItRead(cfg, idx, chain, events, start, end, bound);
  }

  // ---- the checkpoint ----

  /** A fresh streamer's configuration: same parser, any capacity, and starting right behind the certified batch. */
  ghost predicate Resumes(cfg: Config, cfg': Config, end: nat) {
    cfg'.parse == cfg.parse && cfg'.startingPos == end + 1
  }

  /** Nothing numbered above `bound` was first seen below `from`, and nothing so numbered is on the chain in `[from, start)`. */
  ghost predicate NothingMissed(cfg: Config, chain: seq<Block>, known: map<nat, nat>, from: nat, start: nat) {
    && (forall s :: s in known ==> from <= known[s])
    && (forall s: nat, h: nat :: cfg.startingPos <= s && from <= h < start ==> !Witnessed(cfg, chain, s, h))
  }

  lemma LowestMapIff(
    cfg: Config, cfg': Config, chain: seq<Block>, a: map<nat, nat>, b: map<nat, nat>, start: nat, from: nat, end: nat, bound: nat)
    requires Resumes(cfg, cfg', bound) && cfg.startingPos <= bound + 1
    requires from <= end && start <= end
    requires IsLowestMap(cfg, chain, a, start, end) && IsLowestMap(cfg', chain, b, from, end)
    requires forall s :: s in b ==> bound < s
    ensures b == Above(a, bound) <==> NothingMissed(cfg', chain, Above(a, bound), from, start)
  {
    SameWitness(cfg, cfg', chain);
    var k := Above(a, bound);
    if b == k {
      forall s: nat, h: nat | cfg'.startingPos <= s && from <= h < start ensures !Witnessed(cfg', chain, s, h) {
        if s in b {
          assert Lowest(cfg, chain, s, start, end, a[s]);
          assert Lowest(cfg', chain, s, from, end, b[s]);
        } else {
          assert Absent(cfg', chain, s, from, end);
        }
      }
    }
  }

  lemma SameWitness(cfg: Config, cfg': Config, chain: seq<Block>)
    requires cfg'.parse == cfg.parse
    ensures forall s: nat, h: nat :: Witnessed(cfg, chain, s, h) <==> Witnessed(cfg', chain, s, h)
  {
    forall s: nat, h: nat ensures Witnessed(cfg, chain, s, h) <==> Witnessed(cfg', chain, s, h) {
      assert forall e :: InChain(cfg, chain, e) <==> InChain(cfg', chain, e);
    }
  }

  /**
   * A fresh streamer that starts at block `from` behind the certified batch and reads up to the same block as the old
   * one knows the same numbers at the same heights above the batch, exactly when nothing was missed.
   */
  lemma RestartRebuildsIff(
    cfg: Config, idx: U64, events: seq<Event>, cfg': Config, idx': U64, events': seq<Event>,
    chain: seq<Block>, start: nat, from: nat, end: nat, bound: nat)
    requires Resumes(cfg, cfg', bound) && cfg.startingPos <= bound + 1
    requires start <= |chain| && from <= |chain|
    requires InOrder(chain, events, start, end) && InOrder(chain, events', from, end)
    requires Run(cfg, idx, events).st.finalizedIdx <= bound && Run(cfg', idx', events').st.finalizedIdx <= bound
    ensures var known, rebuilt := Known(Run(cfg, idx, events).st), Known(Run(cfg', idx', events').st);
      Above(rebuilt, bound) == Above(known, bound) <==> NothingMissed(cfg', chain, Above(known, bound), from, start)
  {
    KnowsWhatItRead(cfg, idx, chain, events, start, end, bound);
    KnowsWhatItRead(cfg', idx', chain, events', from, end, bound);
    var a, b := FirstSeen(cfg, chain, start, end), FirstSeen(cfg', chain, from, end);
    FirstSeenIsLowest(cfg, chain, start, end);
    FirstSeenIsLowest(cfg', chain, from, end);
    assert Above(b, bound) == b;
    LowestMapIff(cfg, cfg', chain, a, b, start, from, end, bound);
  }

  // ---- the checkpoint of an accepted batch ----

  /** The queue entries behind the batch are exactly those numbered above its end, if its slots have no gap. */
  lemma RestOfQueue(batch: seq<BatchMessage>, st: State, cursor: BatchCursor)
    requires Ascending(st.queue) && Accepts(batch, st.queue, cursor) && ComparedInOrder(batch, st.queue, cursor)
    ensures var pos, end := Below(st.queue, cursor.nextBatchStartPos), cursor.nextBatchStartPos + |batch| - 1;
      Below(st.queue, end + 1) == pos + |batch|
  {
    var pos, end := Below(st.queue, cursor.nextBatchStartPos), cursor.nextBatchStartPos + |batch| - 1;
    assert st.queue[pos + |batch| - 1].Seq() == end;
    BelowUnique(st.queue, end + 1, pos + |batch|);
  }

  lemma QueuedAbove(q: seq<Entry>, k: nat, s: nat)
    requires Ascending(q) && k <= |q| && s in HeightMap(q)
    requires forall i :: 0 <= i < k ==> q[i].Seq() < s
    ensures MinHeight(q[k..]) <= HeightMap(q)[s]
  {
    HeightMapKeys(q, s);
    var e :| e in q && e.Seq() == s;
    var i :| 0 <= i < |q| && q[i] == e;
    HeightMapValue(q, i);
    var rest := q[k..];
    assert rest[i - k] == q[i];
    MinHeightSpec(rest);
  }

  /** Every queued number above the bound was seen at or above the lowest block of the rest. */
  lemma QueueFrom(q: seq<Entry>, bound: nat)
    requires Ascending(q)
    ensures forall s :: s in HeightMap(q) && bound < s ==> MinHeight(q[Below(q, bound + 1)..]) <= HeightMap(q)[s]
  {
    BelowSplits(q, bound + 1);
    forall s | s in HeightMap(q) && bound < s ensures MinHeight(q[Below(q, bound + 1)..]) <= HeightMap(q)[s] {
      QueuedAbove(q, Below(q, bound + 1), s);
    }
  }

  lemma {:induction false} KnownFromStart(cfg: Config, idx: U64, events: seq<Event>)
    ensures forall s :: s in IdealRun(cfg, idx, events).known ==> cfg.startingPos <= s
  {
    if events != [] {
      var init, ev := events[..|events| - 1], events[|events| - 1];
      KnownFromStart(cfg, idx, init);
      if ev.BlocksPolled? {
        SeenFromStart(cfg, IdealRun(cfg, idx, init).known, Entries(cfg.parse, ev.blocks, ev.height));
      }
    }
  }

  lemma {:induction false} SeenFromStart(cfg: Config, known: map<nat, nat>, entries: seq<Entry>)
    requires forall s :: s in known ==> cfg.startingPos <= s
    ensures forall s :: s in SeeAll(cfg, known, entries) ==> cfg.startingPos <= s
  {
    if entries != [] {
      SeenFromStart(cfg, known, entries[..|entries| - 1]);
    }
  }

  /** The certified lowest block lies in what the old streamer read. */
  lemma CertifiedBlockWasRead(
    cfg: Config, idx: U64, events: seq<Event>, chain: seq<Block>, start: nat, end: nat, k: nat, bound: nat)
    requires InOrder(chain, events, start, end) && start <= |chain|
    requires Run(cfg, idx, events).st.finalizedIdx <= bound
    requires var q := Run(cfg, idx, events).st.queue; k < |q| && k == Below(q, bound + 1)
    ensures start <= MinHeight(Run(cfg, idx, events).st.queue[k..]) < end <= |chain|
  {
    var st := Run(cfg, idx, events).st;
    RefinesFirstSeenMap(cfg, idx, events);
    var s := LowestOfRest(st.queue, bound);
    assert s in Above(Known(st), bound) && Above(Known(st), bound)[s] == HeightMap(st.queue)[s];
    KnowsWhatItRead(cfg, idx, chain, events, start, end, bound);
    FirstSeenIsLowest(cfg, chain, start, end);
    assert Lowest(cfg, chain, s, start, end, FirstSeen(cfg, chain, start, end)[s]);
  }

  lemma LowestOfRest(q: seq<Entry>, bound: nat) returns (s: nat)
    requires Ascending(q) && Below(q, bound + 1) < |q|
    ensures bound < s && s in HeightMap(q) && HeightMap(q)[s] == MinHeight(q[Below(q, bound + 1)..])
  {
    var k := Below(q, bound + 1);
    var rest := q[k..];
    MinHeightSpec(rest);
    var i :| 0 <= i < |rest| && rest[i].hotshotHeight == MinHeight(rest);
    s := q[k + i].Seq();
    HeightMapValue(q, k + i);
    BelowSplits(q, bound + 1);
  }

  /** The end position and lowest remaining block certified for an accepted batch without gap; block 0 if nothing remains. */
  ghost predicate Checkpoint(batch: seq<BatchMessage>, st: State, cursor: BatchCursor, bound: nat, from: nat) {
    && Accepts(batch, st.queue, cursor) && ComparedInOrder(batch, st.queue, cursor)
    && bound == cursor.nextBatchStartPos + |batch| - 1
    && from == Certified(batch, st.queue, cursor).minEspressoBlockStillInQueue
  }

  lemma CheckpointMeans(batch: seq<BatchMessage>, st: State, cursor: BatchCursor, bound: nat, from: nat)
    requires Ascending(st.queue) && Checkpoint(batch, st, cursor, bound, from)
    ensures from == MinHeight(st.queue[Below(st.queue, bound + 1)..])
    ensures Finds(st.queue, cursor.nextBatchStartPos) && cursor.nextBatchStartPos <= bound
  {
    RestOfQueue(batch, st, cursor);
  }

  /** Nothing numbered above `bound` is on the chain below block `start`. */
  ghost predicate NoneBefore(cfg: Config, chain: seq<Block>, bound: nat, start: nat) {
    forall s: nat, h: nat :: bound < s && h < start ==> !Witnessed(cfg, chain, s, h)
  }

  /**
   * No stub above the bound was first seen below the certified block; and if no queue entry is above the bound, so that
   * block 0 was certified, the blocks that the old streamer never read have nothing above the bound.
   */
  ghost predicate NothingLost(cfg: Config, chain: seq<Block>, st: State, bound: nat, from: nat, start: nat) {
    && (forall s :: s in st.stubs && bound < s ==> from <= st.stubs[s])
    && (Below(st.queue, bound + 1) == |st.queue| ==> NoneBefore(cfg, chain, bound, start))
  }

  /**
   * Resuming from the checkpoint of an accepted batch: the fresh streamer rebuilds everything above the batch exactly
   * when nothing is lost. The certified block is computed from the queue alone, so it may lie above the block of a stub.
   */
  lemma RestartFromCheckpoint(
    cfg: Config, idx: U64, events: seq<Event>, cfg': Config, idx': U64, events': seq<Event>,
    chain: seq<Block>, start: nat, end: nat, batch: seq<BatchMessage>, cursor: BatchCursor, bound: nat, from: nat)
    requires Checkpoint(batch, Run(cfg, idx, events).st, cursor, bound, from)
    requires Resumes(cfg, cfg', bound)
    requires start <= |chain| && InOrder(chain, events, start, end) && InOrder(chain, events', from, end)
    requires Run(cfg, idx, events).st.finalizedIdx <= bound && Run(cfg', idx', events').st.finalizedIdx <= bound
    ensures var st := Run(cfg, idx, events).st;
      Above(Known(Run(cfg', idx', events').st), bound) == Above(Known(st), bound)
      <==> NothingLost(cfg', chain, st, bound, from, start)
  {
    assert Ascending(Run(cfg, idx, events).st.queue) by { RefinesFirstSeenMap(cfg, idx, events); }
    CheckpointMeans(batch, Run(cfg, idx, events).st, cursor, bound, from);
    StartBelowBatch(cfg, idx, events, cursor);
    RestartBehind(cfg, idx, events, cfg', idx', events', chain, start, from, end, bound);
  }

  /** The same for any bound. */
  lemma RestartBehind(
    cfg: Config, idx: U64, events: seq<Event>, cfg': Config, idx': U64, events': seq<Event>,
    chain: seq<Block>, start: nat, from: nat, end: nat, bound: nat)
    requires start <= |chain| && InOrder(chain, events, start, end) && InOrder(chain, events', from, end)
    requires Resumes(cfg, cfg', bound) && cfg.startingPos <= bound + 1
    requires Run(cfg, idx, events).st.finalizedIdx <= bound && Run(cfg', idx', events').st.finalizedIdx <= bound
    requires var q := Run(cfg, idx, events).st.queue; from == MinHeight(q[Below(q, bound + 1)..])
    ensures var st := Run(cfg, idx, events).st;
      Above(Known(Run(cfg', idx', events').st), bound) == Above(Known(st), bound)
      <==> NothingLost(cfg', chain, st, bound, from, start)
  {
    var st := Run(cfg, idx, events).st;
    var k := Below(st.queue, bound + 1);
    assert Ascending(st.queue) && Disjoint(st) by { RefinesFirstSeenMap(cfg, idx, events); }
    if k < |st.queue| {
      CertifiedBlockWasRead(cfg, idx, events, chain, start, end, k, bound);
    }
    RestartRebuildsIff(cfg, idx, events, cfg', idx', events', chain, start, from, end, bound);
    QueueFrom(st.queue, bound);
    MissedIsLost(cfg', chain, st, from, start, bound);
  }

  lemma MissedIsLost(cfg: Config, chain: seq<Block>, st: State, from: nat, start: nat, bound: nat)
    requires Disjoint(st) && cfg.startingPos == bound + 1
    requires if Below(st.queue, bound + 1) < |st.queue| then start <= from else from == 0
    requires forall s :: s in HeightMap(st.queue) && bound < s ==> from <= HeightMap(st.queue)[s]
    ensures NothingMissed(cfg, chain, Above(Known(st), bound), from, start) <==> NothingLost(cfg, chain, st, bound, from, start)
  {
    var k := Above(Known(st), bound);
    if NothingMissed(cfg, chain, k, from, start) {
      forall s | s in st.stubs && bound < s ensures from <= st.stubs[s] {
        assert s in k && k[s] == st.stubs[s];
      }
    }
  }

  lemma StartBelowBatch(cfg: Config, idx: U64, events: seq<Event>, cursor: BatchCursor)
    requires var q := Run(cfg, idx, events).st.queue; Finds(q, cursor.nextBatchStartPos)
    ensures cfg.startingPos <= cursor.nextBatchStartPos
  {
    var q := Run(cfg, idx, events).st.queue;
    RefinesFirstSeenMap(cfg, idx, events);
    KnownFromStart(cfg, idx, events);
    HeightMapValue(q, Below(q, cursor.nextBatchStartPos));
  }
}
