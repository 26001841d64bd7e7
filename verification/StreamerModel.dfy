/**
 * The streamer's handlers as functions on its state. Each handler takes `&mut self`, so one handler is one
 * atomic step; the answers of the Espresso reader and the room in the feed channel are inputs.
 */
module StreamerModel {
  import opened Common
  import opened Messages
  import opened SortedQueue
  import opened HotShot

  datatype Config = Config(startingPos: U64, maxFullQueueEntries: nat, parse: TxParser)

  datatype State = State(
    queue: seq<Entry>,
    stubs: map<nat, nat>,
    finalizedIdx: U64,
    lastBroadcastPosition: U64)

  /** What the reader answers to a request for the blocks `[start, end)`; `None` is a failed request. */
  type Fetch = (nat, nat) -> Option<seq<Block>>

  // ---- arrivals ----

  function FilterOne(cfg: Config, st: State, e: Entry): State {
    if e.Seq() < cfg.startingPos || Holds(st.queue, e.Seq()) || e.Seq() in st.stubs then st
    else
      var q := Insert(st.queue, e);
      if |q| <= cfg.maxFullQueueEntries then st.(queue := q)
      else
        var evicted := q[|q| - 1];
        st.(queue := q[..|q| - 1], stubs := st.stubs[evicted.Seq() := evicted.hotshotHeight])
  }

  function Filter(cfg: Config, st: State, entries: seq<Entry>): State {
    if entries == [] then st
    else FilterOne(cfg, Filter(cfg, st, entries[..|entries| - 1]), entries[|entries| - 1])
  }

  // ---- stub promotion ----

  function Room(cfg: Config, st: State): nat {
    if |st.queue| <= cfg.maxFullQueueEntries then cfg.maxFullQueueEntries - |st.queue| else 0
  }

  /** The lowest stubs that fit, in ascending order. */
  function Plan(cfg: Config, st: State): seq<nat> {
    var keys := Sorted(st.stubs.Keys);
    keys[..Min(Room(cfg, st), |keys|)]
  }

  function PlanHeights(cfg: Config, st: State): seq<nat> {
    Sorted(set s | s in Plan(cfg, st) && s in st.stubs :: st.stubs[s])
  }

  /** How many leading heights share the first request. */
  function WindowStop(heights: seq<nat>, j: nat): (r: nat)
    requires 0 < j <= |heights|
    ensures j <= r <= |heights|
    decreases |heights| - j
  {
    if j < |heights| && heights[j] - heights[0] < HOTSHOT_RANGE_LIMIT then WindowStop(heights, j + 1) else j
  }

  /** One request to the reader: the blocks `[from, to)`. */
  datatype Window = Window(from: nat, to: nat)

  function Windows(heights: seq<nat>): seq<Window> {
    if heights == [] then []
    else
      var j := WindowStop(heights, 1);
      [Window(heights[0], heights[j - 1] + 1)] + Windows(heights[j..])
  }

  /** Keeps the last entry of each expected sequence number. */
  function Collect(entries: seq<Entry>, expected: seq<nat>, acc: map<nat, Entry>): map<nat, Entry> {
    if entries == [] then acc
    else
      var before := Collect(entries[..|entries| - 1], expected, acc);
      var e := entries[|entries| - 1];
      if e.Seq() in expected then before[e.Seq() := e] else before
  }

  /** `None` as soon as one request fails. */
  function FetchWindows(cfg: Config, windows: seq<Window>, expected: seq<nat>, fetch: Fetch)
    : Option<map<nat, Entry>>
  {
    if windows == [] then Some(map[])
    else
      var w := windows[|windows| - 1];
      match FetchWindows(cfg, windows[..|windows| - 1], expected, fetch)
      case None => None
      case Some(acc) =>
        match fetch(w.from, w.to)
        case None => None
        case Some(blocks) => Some(Collect(Entries(cfg.parse, blocks, w.from), expected, acc))
  }

  /** Moves planned stubs into the queue; a missing entry is skipped, a height mismatch stops the promotion. */
  function PromoteEach(st: State, plan: seq<nat>, fetched: map<nat, Entry>): State
    decreases |plan|
  {
    if plan == [] then st
    else
      var s := plan[0];
      if s !in fetched || s !in st.stubs then PromoteEach(st, plan[1..], fetched)
      else if fetched[s].hotshotHeight != st.stubs[s] then st
      else
        var moved := st.(queue := Insert(st.queue, fetched[s]), stubs := st.stubs - {s});
        PromoteEach(moved, plan[1..], fetched)
  }

  function Promote(cfg: Config, st: State, fetch: Fetch): State {
    var plan := Plan(cfg, st);
    match FetchWindows(cfg, Windows(PlanHeights(cfg, st)), plan, fetch)
    case None => st
    case Some(fetched) => PromoteEach(st, plan, fetched)
  }

  // ---- L1 finalization ----

  function Prune(st: State, idx: U64): State {
    st.(queue := st.queue[Below(st.queue, idx + 1)..],
        stubs := map s | s in st.stubs && idx < s :: st.stubs[s],
        finalizedIdx := idx)
  }

  function Finalize(cfg: Config, st: State, idx: U64, fetch: Fetch): State {
    var st1 := st.(lastBroadcastPosition := Max(st.lastBroadcastPosition, idx));
    if idx <= st.finalizedIdx then st1 else Promote(cfg, Prune(st1, idx), fetch)
  }

  // ---- broadcast ----

  /** The entries numbered `next, next + 1, ...` up to the first gap, at most `room` of them. */
  function RunFrom(q: seq<Entry>, next: nat, room: nat): seq<Entry>
    decreases room
  {
    var p := Below(q, next);
    if room == 0 || p == |q| || q[p].Seq() != next then []
    else [q[p]] + RunFrom(q, next + 1, room - 1)
  }

  /** The entries handed to the feed channel when it has room for `room` more. */
  function Sendable(st: State, room: nat): seq<Entry> {
    RunFrom(st.queue, st.lastBroadcastPosition + 1, room)
  }

  function Broadcast(st: State, room: nat): State {
    var sent := Sendable(st, room);
    if sent == [] then st else st.(lastBroadcastPosition := sent[|sent| - 1].Seq())
  }
}
