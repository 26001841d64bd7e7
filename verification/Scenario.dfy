/** Building blocks for concrete runs: one-byte messages, single arrivals into a queue of three, and promotions of one stub. */
module Scenario {
  import opened Common
  import opened Messages
  import opened SortedQueue
  import opened HotShot
  import opened StreamerModel
  import opened StreamerPromotion
  import opened StreamerRuns

  /** A message numbered `s` whose L2 content is the single byte `tag`. */
  function Msg(s: Byte, tag: Byte): FeedMessage {
    FeedMessage(s, MessageWithMetadata(Some(L1IncomingMessage(None, [tag], None, None)), 0), None, [], [])
  }

  function At(s: Byte, tag: Byte, height: nat): Entry {
    Entry(Msg(s, tag), height)
  }

  /** A two-byte transaction carries one message. */
  function ParsePair(tx: Tx): seq<FeedMessage> {
    if |tx| == 2 then [Msg(tx[0], tx[1])] else []
  }

  function Three(): Config {
    Config(0, 3, ParsePair)
  }

  function Start(): System {
    Initial(0)
  }

  /** A block with one transaction, and one with two. */
  function One(s: Byte): Block {
    [[s, s]]
  }

  function Two(s: Byte, first: Byte, second: Byte): Block {
    [[s, first], [s, second]]
  }

  function Poll(block: Block, height: nat): Event {
    BlocksPolled([block], height, 10)
  }

  lemma OneEntry(s: Byte, height: nat)
    ensures Entries(ParsePair, [One(s)], height) == [At(s, s, height)]
  {
    EntriesOne(ParsePair, One(s), height);
    assert One(s)[1..] == [];
    assert BlockEntries(ParsePair, [], height) == [];
  }

  lemma TwoEntries(s: Byte, first: Byte, second: Byte, height: nat)
    ensures Entries(ParsePair, [Two(s, first, second)], height) == [At(s, first, height), At(s, second, height)]
  {
    var block := Two(s, first, second);
    EntriesOne(ParsePair, block, height);
    BlockEntriesSnoc(ParsePair, [block[0]], block[1], height);
    BlockEntriesSnoc(ParsePair, [], block[0], height);
    assert block == [block[0]] + [block[1]] && [] + [block[0]] == [block[0]];
    assert BlockEntries(ParsePair, [], height) == [];
  }

  /** The event files exactly the entry `e` into the queue. */
  ghost predicate Files(st: State, ev: Event, e: Entry) {
    && ev.BlocksPolled? && ev.room == 10
    && Filter(Three(), st, Entries(ParsePair, ev.blocks, ev.height)) == FilterOne(Three(), st, e)
  }

  lemma OneFiles(st: State, s: Byte, height: nat)
    ensures Files(st, Poll(One(s), height), At(s, s, height))
  {
    var e := At(s, s, height);
    OneEntry(s, height);
    assert [e][..0] == [];
    assert Filter(Three(), st, []) == st;
  }

  /** Of two messages with one number in a block, the first is filed. */
  lemma TwoFile(st: State, s: Byte, first: Byte, second: Byte, height: nat)
    requires Holds(FilterOne(Three(), st, At(s, first, height)).queue, s)
    ensures Files(st, Poll(Two(s, first, second), height), At(s, first, height))
  {
    var a, b := At(s, first, height), At(s, second, height);
    TwoEntries(s, first, second, height);
    assert [a, b][..1] == [a] && [a][..0] == [];
    assert Filter(Three(), st, []) == st;
    assert Filter(Three(), st, [a]) == FilterOne(Three(), st, a);
  }

  /** The state after `e` went to slot `p`, and the tail became a stub if there was no room. */
  function Placed(st: State, e: Entry, p: nat): State
    requires p <= |st.queue|
  {
    var q := st.queue[..p] + [e] + st.queue[p..];
    if |q| <= 3 then st.(queue := q)
    else st.(queue := q[..|q| - 1], stubs := st.stubs[q[|q| - 1].Seq() := q[|q| - 1].hotshotHeight])
  }

  ghost predicate FitsAt(st: State, e: Entry, p: nat) {
    && Ascending(st.queue) && p <= |st.queue| && e.Seq() !in st.stubs
    && (p > 0 ==> st.queue[p - 1].Seq() < e.Seq()) && (p < |st.queue| ==> e.Seq() < st.queue[p].Seq())
  }

  lemma Arrives(st: State, e: Entry, p: nat)
    requires FitsAt(st, e, p)
    ensures FilterOne(Three(), st, e) == Placed(st, e, p)
  {
    BelowUnique(st.queue, e.Seq(), p);
    BelowFinds(st.queue, e.Seq());
  }

  lemma RunSnoc(events: seq<Event>, ev: Event)
    ensures Run(Three(), 0, events + [ev]) == Step(Three(), Run(Three(), 0, events), ev)
  {
    assert (events + [ev])[..|events|] == events;
  }

  /** One arrival: filed at `p`, then the feed is served. */
  lemma Arrival(events: seq<Event>, sys: System, ev: Event, e: Entry, p: nat) returns (more: seq<Event>)
    requires Run(Three(), 0, events) == sys && Files(sys.st, ev, e) && FitsAt(sys.st, e, p)
    ensures more == events + [ev] && Run(Three(), 0, more) == Send(sys.(st := Placed(sys.st, e, p)), 10)
  {
    more := events + [ev];
    RunSnoc(events, ev);
    Arrives(sys.st, e, p);
  }

  lemma SendNext(sys: System, e: Entry)
    requires Ascending(sys.st.queue) && e in sys.st.queue && e.Seq() == sys.st.lastBroadcastPosition + 1
    requires !Holds(sys.st.queue, e.Seq() + 1)
    ensures Send(sys, 10) == sys.(st := sys.st.(lastBroadcastPosition := e.Seq()), sent := sys.sent + [e])
  {
    var q := sys.st.queue;
    BelowFinds(q, e.Seq());
    UniqueEntry(q, e, q[Below(q, e.Seq())]);
    BelowFinds(q, e.Seq() + 1);
    assert RunFrom(q, e.Seq() + 1, 9) == [];
    assert RunFrom(q, e.Seq(), 10) == [e];
  }

  lemma SendNothing(sys: System)
    requires Ascending(sys.st.queue) && !Holds(sys.st.queue, sys.st.lastBroadcastPosition + 1)
    ensures Send(sys, 10) == sys
  {
    BelowFinds(sys.st.queue, sys.st.lastBroadcastPosition + 1);
    assert RunFrom(sys.st.queue, sys.st.lastBroadcastPosition + 1, 10) == [];
    assert sys.sent + [] == sys.sent;
  }

  /** With one stub there is one request, for the block where it was seen. */
  lemma SinglePlan(cfg: Config, st: State, s: nat, h: nat)
    requires st.stubs == map[s := h] && |st.queue| < cfg.maxFullQueueEntries
    ensures Plan(cfg, st) == [s] && Windows(PlanHeights(cfg, st)) == [Window(h, h + 1)]
  {
    IncreasingUnique(Sorted(st.stubs.Keys), [s]);
    assert s in Plan(cfg, st);
    assert (set x | x in Plan(cfg, st) && x in st.stubs :: st.stubs[x]) == {h};
    OneWindow(h);
  }

  lemma OneWindow(h: nat)
    ensures Windows(Sorted({h})) == [Window(h, h + 1)]
  {
    IncreasingUnique(Sorted({h}), [h]);
    assert [h][1..] == [];
  }

  lemma FetchOne(cfg: Config, fetch: Fetch, s: nat, blocks: seq<Block>, e: Entry) returns (fetched: map<nat, Entry>)
    requires fetch(e.hotshotHeight, e.hotshotHeight + 1) == Some(blocks)
    requires LastWith(Entries(cfg.parse, blocks, e.hotshotHeight), s) == Some(e)
    ensures FetchWindows(cfg, [Window(e.hotshotHeight, e.hotshotHeight + 1)], [s], fetch) == Some(fetched)
    ensures s in fetched && fetched[s] == e
  {
    var h := e.hotshotHeight;
    var ws := [Window(h, h + 1)];
    assert ws[..0] == [];
    assert FetchWindows(cfg, [], [s], fetch) == Some(map[]);
    fetched := Collect(Entries(cfg.parse, blocks, h), [s], map[]);
    CollectIsLast(Entries(cfg.parse, blocks, h), [s], map[], s);
  }

  lemma MoveOne(st: State, s: nat, fetched: map<nat, Entry>)
    requires s in fetched && st.stubs == map[s := fetched[s].hotshotHeight]
    ensures PromoteEach(st, [s], fetched) == st.(queue := Insert(st.queue, fetched[s]), stubs := map[])
  {
    var moved := st.(queue := Insert(st.queue, fetched[s]), stubs := st.stubs - {s});
    assert [s][1..] == [];
    assert PromoteEach(moved, [], fetched) == moved;
    assert st.stubs - {s} == map[];
  }

  /** It is promoted to the last entry with its number in that block. */
  lemma PromoteOne(cfg: Config, st: State, fetch: Fetch, s: nat, blocks: seq<Block>, e: Entry)
    requires st.stubs == map[s := e.hotshotHeight] && |st.queue| < cfg.maxFullQueueEntries
    requires fetch(e.hotshotHeight, e.hotshotHeight + 1) == Some(blocks)
    requires LastWith(Entries(cfg.parse, blocks, e.hotshotHeight), s) == Some(e)
    ensures Promote(cfg, st, fetch) == st.(queue := Insert(st.queue, e), stubs := map[])
    ensures PromotionComplete(cfg, st, fetch)
  {
    SinglePlan(cfg, st, s, e.hotshotHeight);
    var fetched := FetchOne(cfg, fetch, s, blocks, e);
    MoveOne(st, s, fetched);
  }

  /** A reader that never answers promotes nothing. */
  function Dead(from: nat, to: nat): Option<seq<Block>> {
    None
  }

  lemma PromoteNone(cfg: Config, st: State, s: nat, h: nat)
    requires st.stubs == map[s := h] && |st.queue| < cfg.maxFullQueueEntries
    ensures Promote(cfg, st, Dead) == st
  {
    SinglePlan(cfg, st, s, h);
    var ws := [Window(h, h + 1)];
    assert ws[..0] == [];
    assert FetchWindows(cfg, [], [s], Dead) == Some(map[]);
  }
}
