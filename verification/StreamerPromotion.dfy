/** Stub promotion: which blocks are requested again, and exactly when every planned stub is promoted. */
module StreamerPromotion {
  import opened Common
  import opened Messages
  import opened SortedQueue
  import opened HotShot
  import opened StreamerModel

  // ---- requested windows ----

  lemma {:induction false} WindowStopSpec(heights: seq<nat>, j: nat)
    requires StrictlyIncreasing(heights)
    requires 0 < j <= |heights| && heights[j - 1] - heights[0] < HOTSHOT_RANGE_LIMIT
    ensures var r := WindowStop(heights, j); heights[r - 1] - heights[0] < HOTSHOT_RANGE_LIMIT
    decreases |heights| - j
  {
    if j < |heights| && heights[j] - heights[0] < HOTSHOT_RANGE_LIMIT {
      WindowStopSpec(heights, j + 1);
    }
  }

  ghost predicate Covers(w: Window, h: nat) {
    w.from <= h < w.to
  }

  ghost predicate CoveredBy(ws: seq<Window>, h: nat) {
    exists i :: 0 <= i < |ws| && Covers(ws[i], h)
  }

  /** Requests from `lo` upwards: non-empty, at most 100 blocks long, disjoint and ascending. */
  ghost predicate Separate(ws: seq<Window>, lo: nat) {
    && (forall i :: 0 <= i < |ws| ==> lo <= ws[i].from < ws[i].to <= ws[i].from + 100)
    && (forall i, j :: 0 <= i < j < |ws| ==> ws[i].to <= ws[j].from)
  }

  lemma SeparateCons(w: Window, ws: seq<Window>, lo: nat)
    requires w.from < w.to <= w.from + 100 && w.to <= lo
    requires Separate(ws, lo)
    ensures Separate([w] + ws, w.from)
  {
  }

  lemma {:induction false} WindowsSeparate(heights: seq<nat>)
    requires StrictlyIncreasing(heights)
    ensures Separate(Windows(heights), if heights == [] then 0 else heights[0])
  {
    if heights != [] {
      var j := WindowStop(heights, 1);
      WindowStopSpec(heights, 1);
      var w, tail := Window(heights[0], heights[j - 1] + 1), heights[j..];
      WindowsSeparate(tail);
      SeparateCons(w, Windows(tail), if tail == [] then w.to else tail[0]);
    }
  }

  lemma {:induction false} WindowStopMaximal(heights: seq<nat>, j: nat)
    requires 0 < j <= |heights|
    ensures var r := WindowStop(heights, j); r < |heights| ==> heights[0] + HOTSHOT_RANGE_LIMIT <= heights[r]
    decreases |heights| - j
  {
    if j < |heights| && heights[j] - heights[0] < HOTSHOT_RANGE_LIMIT {
      WindowStopMaximal(heights, j + 1);
    }
  }

  /** Each request begins and ends with a planned block, and takes in all planned blocks that one request can. */
  ghost predicate Tight(ws: seq<Window>, heights: seq<nat>) {
    && (forall i :: 0 <= i < |ws| ==> ws[i].from in heights && ws[i].to > 0 && ws[i].to - 1 in heights)
    && (forall i, j :: 0 <= i < j < |ws| ==> ws[i].from + 100 <= ws[j].from)
  }

  lemma {:induction false} WindowsTight(heights: seq<nat>, ws: seq<Window>)
    requires StrictlyIncreasing(heights) && ws == Windows(heights)
    ensures Tight(ws, heights)
    decreases |heights|
  {
    if heights != [] {
      var j := WindowStop(heights, 1);
      var w, tail := Window(heights[0], heights[j - 1] + 1), heights[j..];
      var rest := Windows(tail);
      WindowStopMaximal(heights, 1);
      FarBehind(heights, j);
      WindowsTight(tail, rest);
      TightCons(w, rest, heights, tail);
      assert ws == [w] + rest;
    }
  }

  lemma FarBehind(heights: seq<nat>, j: nat)
    requires StrictlyIncreasing(heights) && 0 < j <= |heights|
    requires j < |heights| ==> heights[0] + HOTSHOT_RANGE_LIMIT <= heights[j]
    ensures forall h :: h in heights[j..] ==> h in heights && heights[0] + HOTSHOT_RANGE_LIMIT <= h
  {
    forall i | j < i < |heights| ensures heights[j] < heights[i] {
    }
  }

  lemma TightCons(w: Window, ws: seq<Window>, heights: seq<nat>, tail: seq<nat>)
    requires w.from in heights && w.to > 0 && w.to - 1 in heights && Tight(ws, tail)
    requires forall h :: h in tail ==> h in heights && w.from + 100 <= h
    ensures Tight([w] + ws, heights)
  {
  }

  /** Requests cover every planned height. */
  lemma {:induction false} WindowsCover(heights: seq<nat>, k: nat)
    requires StrictlyIncreasing(heights) && k < |heights|
    ensures CoveredBy(Windows(heights), heights[k])
  {
    var j := WindowStop(heights, 1);
    var ws, rest := Windows(heights), Windows(heights[j..]);
    if k < j {
      assert Covers(ws[0], heights[k]);
    } else {
      WindowsCover(heights[j..], k - j);
      var i :| 0 <= i < |rest| && Covers(rest[i], heights[k]);
      assert Covers(ws[i + 1], heights[k]);
    }
  }

  // ---- the entries found in them ----

  ghost predicate AllAnswered(ws: seq<Window>, fetch: Fetch) {
    forall i :: 0 <= i < |ws| ==> fetch(ws[i].from, ws[i].to).Some?
  }

  /** Everything parsed from the answered requests, in order. */
  ghost function WindowEntries(cfg: Config, ws: seq<Window>, fetch: Fetch): seq<Entry>
    requires AllAnswered(ws, fetch)
  {
    if ws == [] then []
    else
      var w := ws[|ws| - 1];
      WindowEntries(cfg, ws[..|ws| - 1], fetch) + Entries(cfg.parse, fetch(w.from, w.to).value, w.from)
  }

  ghost function LastWith(entries: seq<Entry>, s: nat): (r: Option<Entry>)
    ensures r.Some? ==> r.value in entries && r.value.Seq() == s
  {
    if entries == [] then None
    else if entries[|entries| - 1].Seq() == s then Some(entries[|entries| - 1])
    else LastWith(entries[..|entries| - 1], s)
  }

  lemma {:induction false} LastWithConcat(a: seq<Entry>, b: seq<Entry>, s: nat)
    ensures LastWith(a + b, s) == if LastWith(b, s).Some? then LastWith(b, s) else LastWith(a, s)
  {
    if b == [] {
      assert a + b == a;
    } else {
      assert (a + b)[..|a + b| - 1] == a + b[..|b| - 1];
      LastWithConcat(a, b[..|b| - 1], s);
    }
  }

  ghost function Lookup(m: map<nat, Entry>, s: nat): Option<Entry> {
    if s in m then Some(m[s]) else None
  }

  lemma {:induction false} CollectIsLast(entries: seq<Entry>, expected: seq<nat>, acc: map<nat, Entry>, s: nat)
    requires s in expected
    ensures Lookup(Collect(entries, expected, acc), s)
         == if LastWith(entries, s).Some? then LastWith(entries, s) else Lookup(acc, s)
  {
    if entries != [] {
      CollectIsLast(entries[..|entries| - 1], expected, acc, s);
    }
  }

  /** The requests succeed together exactly when each is answered, and then hold the last entry of each number. */
  lemma {:induction false} FetchIsLast(cfg: Config, ws: seq<Window>, expected: seq<nat>, fetch: Fetch)
    ensures var r := FetchWindows(cfg, ws, expected, fetch);
      && (r.Some? <==> AllAnswered(ws, fetch))
      && (r.Some? ==> forall s :: s in expected ==> Lookup(r.value, s) == LastWith(WindowEntries(cfg, ws, fetch), s))
  {
    if ws != [] {
      var init, w := ws[..|ws| - 1], ws[|ws| - 1];
      FetchIsLast(cfg, init, expected, fetch);
      assert AllAnswered(ws, fetch) <==> AllAnswered(init, fetch) && fetch(w.from, w.to).Some?;
      var before := FetchWindows(cfg, init, expected, fetch);
      if before.Some? && fetch(w.from, w.to).Some? {
        var found := Entries(cfg.parse, fetch(w.from, w.to).value, w.from);
        forall s | s in expected
          ensures Lookup(Collect(found, expected, before.value), s) == LastWith(WindowEntries(cfg, ws, fetch), s)
        {
          CollectIsLast(found, expected, before.value, s);
          LastWithConcat(WindowEntries(cfg, init, fetch), found, s);
        }
      }
    }
  }

  // ---- when a promotion completes ----

  /** Each planned stub has been fetched at the height where it was first seen. */
  ghost predicate Ready(st: State, plan: seq<nat>, fetched: map<nat, Entry>) {
    forall k :: 0 <= k < |plan| ==> AtRecordedHeight(st, plan[k], Lookup(fetched, plan[k]))
  }

  ghost predicate NoneLeft(plan: seq<nat>, st: State) {
    forall k :: 0 <= k < |plan| ==> plan[k] !in st.stubs
  }

  lemma {:induction false} PromoteEachSpares(st: State, plan: seq<nat>, fetched: map<nat, Entry>, s: nat)
    requires s in st.stubs && s !in plan
    ensures var r := PromoteEach(st, plan, fetched); s in r.stubs && r.stubs[s] == st.stubs[s]
    decreases |plan|
  {
    if plan != [] {
      var p := plan[0];
      assert s !in plan[1..] && s != p;
      if p !in fetched || p !in st.stubs {
        PromoteEachSpares(st, plan[1..], fetched, s);
      } else if fetched[p].hotshotHeight == st.stubs[p] {
        PromoteEachSpares(st.(queue := Insert(st.queue, fetched[p]), stubs := st.stubs - {p}), plan[1..], fetched, s);
      }
    }
  }

  lemma {:induction false} PromoteEachReady(st: State, plan: seq<nat>, fetched: map<nat, Entry>)
    requires StrictlyIncreasing(plan) && Ready(st, plan, fetched)
    ensures var r := PromoteEach(st, plan, fetched);
      && |r.queue| == |st.queue| + |plan|
      && r.stubs == st.stubs - (set s | s in plan)
    decreases |plan|
  {
    if plan != [] {
      var s := plan[0];
      var moved := st.(queue := Insert(st.queue, fetched[s]), stubs := st.stubs - {s});
      assert Ready(moved, plan[1..], fetched);
      PromoteEachReady(moved, plan[1..], fetched);
      assert plan == [s] + plan[1..];
    }
  }

  lemma {:induction false} PromoteEachComplete(st: State, plan: seq<nat>, fetched: map<nat, Entry>)
    requires StrictlyIncreasing(plan)
    requires forall k :: 0 <= k < |plan| ==> plan[k] in st.stubs
    ensures NoneLeft(plan, PromoteEach(st, plan, fetched)) <==> Ready(st, plan, fetched)
    decreases |plan|
  {
    if Ready(st, plan, fetched) {
      PromoteEachReady(st, plan, fetched);
    } else {
      var s, rest := plan[0], plan[1..];
      assert plan == [s] + rest;
      var r := PromoteEach(st, plan, fetched);
      if s in fetched && fetched[s].hotshotHeight == st.stubs[s] {
        var moved := st.(queue := Insert(st.queue, fetched[s]), stubs := st.stubs - {s});
        assert forall k :: 0 < k < |plan| ==> plan[k] == rest[k - 1];
        assert !Ready(moved, rest, fetched);
        PromoteEachComplete(moved, rest, fetched);
        assert r == PromoteEach(moved, rest, fetched);
        var k :| 0 <= k < |rest| && rest[k] in r.stubs;
        assert plan[k + 1] in r.stubs;
      } else {
        if s !in fetched { PromoteEachSpares(st, rest, fetched, s); }
        assert plan[0] in r.stubs;
      }
    }
  }

  ghost predicate PromotionComplete(cfg: Config, st: State, fetch: Fetch) {
    NoneLeft(Plan(cfg, st), Promote(cfg, st, fetch))
  }

  /** In the answered requests, the last entry of each planned number is at the height where it was first seen. */
  ghost predicate LastAtRecordedHeight(cfg: Config, st: State, fetch: Fetch)
    requires AllAnswered(Windows(PlanHeights(cfg, st)), fetch)
  {
    var entries := WindowEntries(cfg, Windows(PlanHeights(cfg, st)), fetch);
    var plan := Plan(cfg, st);
    forall k :: 0 <= k < |plan| ==> AtRecordedHeight(st, plan[k], LastWith(entries, plan[k]))
  }

  ghost predicate AtRecordedHeight(st: State, s: nat, found: Option<Entry>) {
    found.Some? && s in st.stubs && found.value.hotshotHeight == st.stubs[s]
  }

  lemma PlanSpec(cfg: Config, st: State)
    ensures var plan := Plan(cfg, st);
      && StrictlyIncreasing(plan)
      && (forall k :: 0 <= k < |plan| ==> plan[k] in st.stubs)
      && |plan| == Min(Room(cfg, st), |st.stubs|)
      && (forall s :: s in st.stubs && s !in plan ==> forall k :: 0 <= k < |plan| ==> plan[k] < s)
  {
    var keys := Sorted(st.stubs.Keys);
    PrefixSpec(keys, Min(Room(cfg, st), |keys|));
  }

  lemma PrefixSpec(keys: seq<nat>, n: nat)
    requires StrictlyIncreasing(keys) && n <= |keys|
    ensures StrictlyIncreasing(keys[..n]) && forall k :: 0 <= k < n ==> keys[..n][k] in keys
    ensures forall s :: s in keys && s !in keys[..n] ==> forall k :: 0 <= k < n ==> keys[..n][k] < s
  {
    forall s | s in keys && s !in keys[..n] ensures forall k :: 0 <= k < n ==> keys[..n][k] < s {
      BehindPrefix(keys, n, s);
    }
  }

  /** In an increasing list, what is not in the first part is above it. */
  lemma BehindPrefix(keys: seq<nat>, n: nat, s: nat)
    requires StrictlyIncreasing(keys) && n <= |keys| && s in keys && s !in keys[..n]
    ensures forall k :: 0 <= k < n ==> keys[k] < s
  {
    var j :| 0 <= j < |keys| && keys[j] == s;
    assert forall i :: 0 <= i < n ==> keys[i] in keys[..n];
  }

  /** Promotion completes exactly when every request is answered and no planned number's last entry is elsewhere. */
  lemma PromotionCompletesIff(cfg: Config, st: State, fetch: Fetch)
    requires Plan(cfg, st) != []
    ensures PromotionComplete(cfg, st, fetch)
       <==> AllAnswered(Windows(PlanHeights(cfg, st)), fetch) && LastAtRecordedHeight(cfg, st, fetch)
  {
    var plan, ws := Plan(cfg, st), Windows(PlanHeights(cfg, st));
    PlanSpec(cfg, st);
    FetchIsLast(cfg, ws, plan, fetch);
    if AllAnswered(ws, fetch) {
      var fetched := FetchWindows(cfg, ws, plan, fetch).value;
      PromoteEachComplete(st, plan, fetched);
      ReadyIsLast(cfg, st, fetch, fetched);
    } else {
      assert plan[0] in Promote(cfg, st, fetch).stubs;
    }
  }

  lemma ReadyIsLast(cfg: Config, st: State, fetch: Fetch, fetched: map<nat, Entry>)
    requires AllAnswered(Windows(PlanHeights(cfg, st)), fetch)
    requires FetchWindows(cfg, Windows(PlanHeights(cfg, st)), Plan(cfg, st), fetch) == Some(fetched)
    ensures Ready(st, Plan(cfg, st), fetched) <==> LastAtRecordedHeight(cfg, st, fetch)
  {
    var plan := Plan(cfg, st);
    FetchIsLast(cfg, Windows(PlanHeights(cfg, st)), plan, fetch);
    assert forall k :: 0 <= k < |plan| ==> plan[k] in plan;
  }

  // ---- what a promotion leaves when it does not complete ----

  /** What was found for the number is at another height than the recorded one. */
  ghost predicate Elsewhere(stubs: map<nat, nat>, s: nat, found: Option<Entry>) {
    s in stubs && found.Some? && found.value.hotshotHeight != stubs[s]
  }

  /** Position `k` is the first one of the plan whose number was found elsewhere, or the end of the plan. */
  ghost predicate StopsAt(stubs: map<nat, nat>, plan: seq<nat>, found: nat -> Option<Entry>, k: nat) {
    && k <= |plan|
    && (forall j :: 0 <= j < k ==> !Elsewhere(stubs, plan[j], found(plan[j])))
    && (k < |plan| ==> Elsewhere(stubs, plan[k], found(plan[k])))
  }

  /** Exactly the first `k` planned numbers that were found have moved from the stubs to the queue. */
  ghost predicate Moved(st: State, r: State, plan: seq<nat>, found: nat -> Option<Entry>, k: nat)
    requires k <= |plan|
  {
    && r.stubs == (map s | s in st.stubs && !(s in plan[..k] && found(s).Some?) :: st.stubs[s])
    && (forall e :: e in r.queue <==> e in st.queue || (e.Seq() in plan[..k] && found(e.Seq()) == Some(e)))
  }

  /** A plan over these stubs that stops at position `k`. */
  ghost predicate Planned(stubs: map<nat, nat>, plan: seq<nat>, found: nat -> Option<Entry>, k: nat) {
    && StrictlyIncreasing(plan) && (forall j :: 0 <= j < |plan| ==> plan[j] in stubs)
    && StopsAt(stubs, plan, found, k)
  }

  /** What was fetched for the planned numbers, each filed under its own number. */
  ghost predicate FetchedAs(plan: seq<nat>, found: nat -> Option<Entry>, fetched: map<nat, Entry>) {
    forall s :: s in plan ==> Lookup(fetched, s) == found(s) && (found(s).Some? ==> found(s).value.Seq() == s)
  }

  lemma {:induction false} PromoteEachMoves(
    st: State, plan: seq<nat>, fetched: map<nat, Entry>, found: nat -> Option<Entry>, k: nat)
    requires Planned(st.stubs, plan, found, k) && FetchedAs(plan, found, fetched)
    ensures Moved(st, PromoteEach(st, plan, fetched), plan, found, k)
    decreases |plan|
  {
    if k == 0 {
      MovedNone(st, plan, found);
    } else {
      var s, r := plan[0], PromoteEach(st, plan, fetched);
      assert s in plan;
      if found(s).None? {
        RestPlanned(st.stubs, st.stubs, plan, found, k);
        PromoteEachMoves(st, plan[1..], fetched, found, k - 1);
        MovedSkip(st, r, plan, found, k);
      } else {
        var moved := st.(queue := Insert(st.queue, found(s).value), stubs := st.stubs - {s});
        RestPlanned(st.stubs, moved.stubs, plan, found, k);
        PromoteEachMoves(moved, plan[1..], fetched, found, k - 1);
        MovedOne(st, r, found(s).value, plan, found, k);
      }
    }
  }

  lemma MovedNone(st: State, plan: seq<nat>, found: nat -> Option<Entry>)
    ensures Moved(st, st, plan, found, 0)
  {
  }

  lemma MovedSkip(st: State, r: State, plan: seq<nat>, found: nat -> Option<Entry>, k: nat)
    requires 0 < k <= |plan| && Moved(st, r, plan[1..], found, k - 1) && found(plan[0]).None?
    ensures Moved(st, r, plan, found, k)
  {
    assert plan[..k] == [plan[0]] + plan[1..][..k - 1];
  }

  lemma MovedOne(st: State, r: State, e: Entry, plan: seq<nat>, found: nat -> Option<Entry>, k: nat)
    requires 0 < k <= |plan| && StrictlyIncreasing(plan)
    requires e.Seq() == plan[0] && e.Seq() in st.stubs && found(plan[0]) == Some(e)
    requires Moved(st.(queue := Insert(st.queue, e), stubs := st.stubs - {e.Seq()}), r, plan[1..], found, k - 1)
    ensures Moved(st, r, plan, found, k)
  {
    assert plan[..k] == [plan[0]] + plan[1..][..k - 1];
    forall x ensures x in Insert(st.queue, e) <==> x == e || x in st.queue {
      InsertMembers(st.queue, e, x);
    }
  }

  lemma RestPlanned(stubs: map<nat, nat>, stubs': map<nat, nat>, plan: seq<nat>, found: nat -> Option<Entry>, k: nat)
    requires Planned(stubs, plan, found, k) && k > 0
    requires stubs' == stubs || stubs' == stubs - {plan[0]}
    ensures Planned(stubs', plan[1..], found, k - 1)
  {
    assert forall j :: 0 <= j < |plan| - 1 ==> plan[1..][j] == plan[j + 1];
  }

  /** What the requested blocks hold under a number, in the last place. */
  ghost function LastFound(cfg: Config, st: State, fetch: Fetch): nat -> Option<Entry>
    requires AllAnswered(Windows(PlanHeights(cfg, st)), fetch)
  {
    var entries := WindowEntries(cfg, Windows(PlanHeights(cfg, st)), fetch);
    (s: nat) => LastWith(entries, s)
  }

  /**
   * When every request is answered, a promotion moves exactly the planned numbers that occur in the answers and stand
   * before the first one whose last copy is at another height than the recorded one; when one is not, it moves nothing.
   */
  lemma PromotionMoves(cfg: Config, st: State, fetch: Fetch)
    ensures AllAnswered(Windows(PlanHeights(cfg, st)), fetch) ==>
      forall k :: StopsAt(st.stubs, Plan(cfg, st), LastFound(cfg, st, fetch), k) ==>
        Moved(st, Promote(cfg, st, fetch), Plan(cfg, st), LastFound(cfg, st, fetch), k)
    ensures AllAnswered(Windows(PlanHeights(cfg, st)), fetch) ==>
      exists k :: StopsAt(st.stubs, Plan(cfg, st), LastFound(cfg, st, fetch), k)
    ensures !AllAnswered(Windows(PlanHeights(cfg, st)), fetch) ==> Promote(cfg, st, fetch) == st
  {
    var plan, ws := Plan(cfg, st), Windows(PlanHeights(cfg, st));
    FetchIsLast(cfg, ws, plan, fetch);
    if AllAnswered(ws, fetch) {
      PlanSpec(cfg, st);
      forall k | StopsAt(st.stubs, plan, LastFound(cfg, st, fetch), k)
        ensures Moved(st, Promote(cfg, st, fetch), plan, LastFound(cfg, st, fetch), k)
      {
        PromoteEachMoves(st, plan, FetchWindows(cfg, ws, plan, fetch).value, LastFound(cfg, st, fetch), k);
      }
      var _ := StopExists(st.stubs, plan, LastFound(cfg, st, fetch));
    }
  }

  /** There is one such position. */
  lemma StopExists(stubs: map<nat, nat>, plan: seq<nat>, found: nat -> Option<Entry>) returns (k: nat)
    ensures StopsAt(stubs, plan, found, k)
  {
    k := 0;
    while k < |plan| && !Elsewhere(stubs, plan[k], found(plan[k]))
      invariant k <= |plan| && forall j :: 0 <= j < k ==> !Elsewhere(stubs, plan[j], found(plan[j]))
    {
      k := k + 1;
    }
  }
}
