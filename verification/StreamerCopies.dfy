/**
 * Which copy of a number the queue holds when one block carries several: arrivals keep the first copy of a block,
 * promotions bring back the last.
 */
module StreamerCopies {
  import opened Common
  import opened Messages
  import opened SortedQueue
  import opened HotShot
  import opened StreamerModel
  import opened StreamerKnown
  import opened StreamerPromotion
  import opened StreamerBroadcast
  import opened StreamerChain

  ghost function FirstWith(entries: seq<Entry>, s: nat): (r: Option<Entry>)
    ensures r.Some? ==> r.value in entries && r.value.Seq() == s
  {
    if entries == [] then None
    else
      var before := FirstWith(entries[..|entries| - 1], s);
      if before.Some? then before
      else if entries[|entries| - 1].Seq() == s then Some(entries[|entries| - 1])
      else None
  }

  lemma {:induction false} FirstWithConcat(a: seq<Entry>, b: seq<Entry>, s: nat)
    ensures FirstWith(a + b, s) == if FirstWith(a, s).Some? then FirstWith(a, s) else FirstWith(b, s)
  {
    if b == [] {
      assert a + b == a;
    } else {
      assert (a + b)[..|a + b| - 1] == a + b[..|b| - 1];
      FirstWithConcat(a, b[..|b| - 1], s);
    }
  }

  /** The first and the last copy of a number in a block. */
  ghost function FirstCopy(parse: TxParser, block: Block, height: nat, s: nat): Option<Entry> {
    FirstWith(BlockEntries(parse, block, height), s)
  }

  ghost function LastCopy(parse: TxParser, block: Block, height: nat, s: nat): Option<Entry> {
    LastWith(BlockEntries(parse, block, height), s)
  }

  /** The first copy of its number in its own block. */
  ghost predicate IsFirst(cfg: Config, chain: seq<Block>, e: Entry) {
    e.hotshotHeight < |chain| && FirstCopy(cfg.parse, chain[e.hotshotHeight], e.hotshotHeight, e.Seq()) == Some(e)
  }

  /** The last copy of its number in its own block. */
  ghost predicate IsLast(cfg: Config, chain: seq<Block>, e: Entry) {
    e.hotshotHeight < |chain| && LastCopy(cfg.parse, chain[e.hotshotHeight], e.hotshotHeight, e.Seq()) == Some(e)
  }

  /** In each block, the first copy of a number is its last copy. */
  ghost predicate FirstIsLast(cfg: Config, chain: seq<Block>) {
    forall e :: IsFirst(cfg, chain, e) ==> IsLast(cfg, chain, e)
  }

  // ---- from ranges to blocks ----

  ghost function FirstInRange(parse: TxParser, blocks: seq<Block>, start: nat, s: nat): Option<Entry> {
    FirstWith(Entries(parse, blocks, start), s)
  }

  ghost function LastInRange(parse: TxParser, blocks: seq<Block>, start: nat, s: nat): Option<Entry> {
    LastWith(Entries(parse, blocks, start), s)
  }

  lemma FirstInRangeCons(parse: TxParser, blocks: seq<Block>, start: nat, s: nat)
    requires blocks != []
    ensures FirstInRange(parse, blocks, start, s)
         == if FirstCopy(parse, blocks[0], start, s).Some? then FirstCopy(parse, blocks[0], start, s)
            else FirstInRange(parse, blocks[1..], start + 1, s)
  {
    FirstWithConcat(BlockEntries(parse, blocks[0], start), Entries(parse, blocks[1..], start + 1), s);
  }

  lemma LastInRangeCons(parse: TxParser, blocks: seq<Block>, start: nat, s: nat)
    requires blocks != []
    ensures LastInRange(parse, blocks, start, s)
         == if LastInRange(parse, blocks[1..], start + 1, s).Some? then LastInRange(parse, blocks[1..], start + 1, s)
            else LastCopy(parse, blocks[0], start, s)
  {
    LastWithConcat(BlockEntries(parse, blocks[0], start), Entries(parse, blocks[1..], start + 1), s);
  }

  /** The first copy in a range is the first copy of its block. */
  lemma {:induction false} FirstOfRange(parse: TxParser, blocks: seq<Block>, start: nat, e: Entry)
    requires FirstInRange(parse, blocks, start, e.Seq()) == Some(e)
    ensures start <= e.hotshotHeight < start + |blocks|
    ensures FirstCopy(parse, blocks[e.hotshotHeight - start], e.hotshotHeight, e.Seq()) == Some(e)
  {
    FirstInRangeCons(parse, blocks, start, e.Seq());
    if FirstCopy(parse, blocks[0], start, e.Seq()).Some? {
      BlockHeight(parse, blocks[0], start, e);
    } else {
      FirstOfRange(parse, blocks[1..], start + 1, e);
      assert blocks[1..][e.hotshotHeight - (start + 1)] == blocks[e.hotshotHeight - start];
    }
  }

  /** And likewise the last. */
  lemma {:induction false} LastOfRange(parse: TxParser, blocks: seq<Block>, start: nat, e: Entry)
    requires LastInRange(parse, blocks, start, e.Seq()) == Some(e)
    ensures start <= e.hotshotHeight < start + |blocks|
    ensures LastCopy(parse, blocks[e.hotshotHeight - start], e.hotshotHeight, e.Seq()) == Some(e)
  {
    LastInRangeCons(parse, blocks, start, e.Seq());
    if LastInRange(parse, blocks[1..], start + 1, e.Seq()).Some? {
      LastOfRange(parse, blocks[1..], start + 1, e);
      assert blocks[1..][e.hotshotHeight - (start + 1)] == blocks[e.hotshotHeight - start];
    } else {
      BlockHeight(parse, blocks[0], start, e);
    }
  }

  /** The last copy in the answered requests is the last copy of its block. */
  lemma {:induction false} LastOfWindows(cfg: Config, chain: seq<Block>, ws: seq<Window>, fetch: Fetch, e: Entry)
    requires AllAnswered(ws, fetch) && Faithful(chain, fetch)
    requires LastWith(WindowEntries(cfg, ws, fetch), e.Seq()) == Some(e)
    ensures IsLast(cfg, chain, e)
  {
    var init, w := ws[..|ws| - 1], ws[|ws| - 1];
    var blocks := fetch(w.from, w.to).value;
    LastWithConcat(WindowEntries(cfg, init, fetch), Entries(cfg.parse, blocks, w.from), e.Seq());
    if LastInRange(cfg.parse, blocks, w.from, e.Seq()).Some? {
      LastOfChainRange(cfg, chain, w.from, w.to, e);
    } else {
      LastOfWindows(cfg, chain, init, fetch, e);
    }
  }

  lemma LastOfChainRange(cfg: Config, chain: seq<Block>, lo: nat, hi: nat, e: Entry)
    requires lo <= hi <= |chain| && LastInRange(cfg.parse, chain[lo..hi], lo, e.Seq()) == Some(e)
    ensures IsLast(cfg, chain, e)
  {
    LastOfRange(cfg.parse, chain[lo..hi], lo, e);
    assert chain[lo..hi][e.hotshotHeight - lo] == chain[e.hotshotHeight];
  }

  // ---- arrivals keep the first copy ----

  lemma {:induction false} ReadIsSeen(cfg: Config, known: map<nat, nat>, entries: seq<Entry>, s: nat)
    requires FirstWith(entries, s).Some? && cfg.startingPos <= s
    ensures s in SeeAll(cfg, known, entries)
  {
    if entries[|entries| - 1].Seq() != s {
      ReadIsSeen(cfg, known, entries[..|entries| - 1], s);
    }
  }

  lemma FilterOneAdds(cfg: Config, st: State, e: Entry, x: Entry)
    requires x in FilterOne(cfg, st, e).queue && x !in st.queue
    ensures x == e && cfg.startingPos <= e.Seq() && !Holds(st.queue, e.Seq()) && e.Seq() !in st.stubs
  {
    InsertMembers(st.queue, e, x);
  }

  /** What a poll adds to the queue was unknown before it, and is the first copy that the poll read. */
  lemma {:induction false} FilterAdds(cfg: Config, st: State, entries: seq<Entry>, x: Entry)
    requires Inv(cfg, st) && x in Filter(cfg, st, entries).queue && x !in st.queue
    ensures x.Seq() !in Known(st) && FirstWith(entries, x.Seq()) == Some(x)
  {
    var init, last := entries[..|entries| - 1], entries[|entries| - 1];
    var before := Filter(cfg, st, init);
    if x in before.queue {
      FilterAdds(cfg, st, init, x);
    } else {
      FilterOneAdds(cfg, before, last, x);
      FilterKnown(cfg, st, init);
      HeightMapKeys(before.queue, x.Seq());
      SeeAllGrows(cfg, Known(st), init);
      if FirstWith(init, x.Seq()).Some? {
        ReadIsSeen(cfg, Known(st), init, x.Seq());
      }
    }
  }

  /** On a chain, what a poll adds to the queue is the first copy of its number in its block. */
  lemma PollAdds(cfg: Config, chain: seq<Block>, st: State, blocks: seq<Block>, height: nat, x: Entry)
    requires Inv(cfg, st)
    requires height + |blocks| <= |chain| && blocks == chain[height..height + |blocks|]
    requires x in Filter(cfg, st, Entries(cfg.parse, blocks, height)).queue && x !in st.queue
    ensures x.Seq() !in Known(st) && IsFirst(cfg, chain, x)
  {
    FilterAdds(cfg, st, Entries(cfg.parse, blocks, height), x);
    FirstOfRange(cfg.parse, blocks, height, x);
  }

  // ---- promotions bring back the last copy ----

  lemma {:induction false} PromoteEachAdds(st: State, plan: seq<nat>, fetched: map<nat, Entry>, x: Entry)
    requires Filed(fetched) && x in PromoteEach(st, plan, fetched).queue && x !in st.queue
    ensures x.Seq() in plan && x.Seq() in st.stubs && Lookup(fetched, x.Seq()) == Some(x)
    decreases |plan|
  {
    var s := plan[0];
    if s !in fetched || s !in st.stubs {
      PromoteEachAdds(st, plan[1..], fetched, x);
    } else {
      var moved := st.(queue := Insert(st.queue, fetched[s]), stubs := st.stubs - {s});
      InsertMembers(st.queue, fetched[s], x);
      if x !in moved.queue {
        PromoteEachAdds(moved, plan[1..], fetched, x);
      }
    }
  }

  /** What a promotion adds to the queue was a stub, and is the last copy of its number in its block. */
  lemma PromotionAdds(cfg: Config, chain: seq<Block>, st: State, fetch: Fetch, x: Entry)
    requires Faithful(chain, fetch) && x in Promote(cfg, st, fetch).queue && x !in st.queue
    ensures x.Seq() in st.stubs && IsLast(cfg, chain, x)
  {
    var plan, ws := Plan(cfg, st), Windows(PlanHeights(cfg, st));
    FetchFiled(cfg, ws, plan, fetch);
    FetchIsLast(cfg, ws, plan, fetch);
    PromoteEachAdds(st, plan, FetchWindows(cfg, ws, plan, fetch).value, x);
    LastOfWindows(cfg, chain, ws, fetch, x);
  }

  /**
   * Of the entries that a stub may stand for, a promotion of that stub brings back exactly the last copy of the
   * block where the number was first seen.
   */
  lemma PromotionRestoresIff(cfg: Config, chain: seq<Block>, st: State, fetch: Fetch, x: Entry)
    requires Inv(cfg, st) && Faithful(chain, fetch)
    requires x.Seq() in st.stubs && st.stubs[x.Seq()] == x.hotshotHeight
    requires x.Seq() !in Promote(cfg, st, fetch).stubs
    ensures x in Promote(cfg, st, fetch).queue <==> IsLast(cfg, chain, x)
  {
    var r, s := Promote(cfg, st, fetch), x.Seq();
    PromoteKnown(cfg, st, fetch);
    assert s in Known(r);
    HeightMapKeys(r.queue, s);
    HeightMapKeys(st.queue, s);
    var e :| e in r.queue && e.Seq() == s;
    PromotionAdds(cfg, chain, st, fetch, e);
    QueuedKnown(cfg, r, e);
    if x in r.queue {
      UniqueEntry(r.queue, x, e);
    }
  }

  lemma QueuedKnown(cfg: Config, st: State, e: Entry)
    requires Inv(cfg, st) && e in st.queue
    ensures e.Seq() in Known(st) && Known(st)[e.Seq()] == e.hotshotHeight
  {
    var i :| 0 <= i < |st.queue| && st.queue[i] == e;
    HeightMapValue(st.queue, i);
  }
}
