/** What the feed receives over a whole run. */
module StreamerBroadcast {
  import opened Common
  import opened Messages
  import opened SortedQueue
  import opened HotShot
  import opened StreamerModel
  import opened StreamerKnown
  import opened StreamerRuns

  /** A broadcast sends consecutive numbers from the queue. */
  lemma {:induction false} RunNumbers(q: seq<Entry>, next: nat, room: nat)
    ensures |RunFrom(q, next, room)| <= room
    ensures forall k :: 0 <= k < |RunFrom(q, next, room)| ==>
      RunFrom(q, next, room)[k] in q && RunFrom(q, next, room)[k].Seq() == next + k
    decreases room
  {
    if room > 0 {
      RunNumbers(q, next + 1, room - 1);
    }
  }

  /** A broadcast that leaves room stops because the next number is not in the queue at all. */
  lemma {:induction false} RunStops(q: seq<Entry>, next: nat, room: nat)
    requires Ascending(q)
    requires |RunFrom(q, next, room)| < room
    ensures !Holds(q, next + |RunFrom(q, next, room)|)
    decreases room
  {
    BelowFinds(q, next);
    var p := Below(q, next);
    if p < |q| && q[p].Seq() == next {
      RunStops(q, next + 1, room - 1);
    }
  }

  /** Sending some now and the rest later is sending all at once. */
  lemma {:induction false} RunInTwo(q: seq<Entry>, next: nat, a: nat, b: nat)
    ensures RunFrom(q, next, a + b) == RunFrom(q, next, a) + RunFrom(q, next + |RunFrom(q, next, a)|, b)
    decreases a
  {
    var p := Below(q, next);
    if a > 0 && p < |q| && q[p].Seq() == next {
      RunInTwo(q, next + 1, a - 1, b);
      assert a + b - 1 == a - 1 + b;
    }
  }

  /** A run that still has room has reached its gap, so more room changes nothing. */
  lemma {:induction false} RunSaturates(q: seq<Entry>, next: nat, n: nat, m: nat)
    requires |RunFrom(q, next, n)| < n && |RunFrom(q, next, n)| <= m
    ensures RunFrom(q, next, m) == RunFrom(q, next, n)
    decreases n
  {
    var p := Below(q, next);
    if p < |q| && q[p].Seq() == next {
      RunSaturates(q, next + 1, n - 1, m - 1);
    }
  }

  /** A full run grows by the next entry, if the queue has it. */
  lemma RunGrows(q: seq<Entry>, next: nat, i: nat)
    requires |RunFrom(q, next, i)| == i
    ensures var p := Below(q, next + i);
      RunFrom(q, next, i + 1) == RunFrom(q, next, i) + if p < |q| && q[p].Seq() == next + i then [q[p]] else []
  {
    RunInTwo(q, next, i, 1);
    assert RunFrom(q, next + i + 1, 0) == [];
  }

  /** Sending at most `n` of a run that has reached its gap. */
  lemma RunTake(q: seq<Entry>, next: nat, m: nat, n: nat)
    requires |RunFrom(q, next, m)| < m
    ensures RunFrom(q, next, n) == RunFrom(q, next, m)[..Min(n, |RunFrom(q, next, m)|)]
  {
    var all := RunFrom(q, next, m);
    if |all| <= n {
      RunSaturates(q, next, m, n);
    } else {
      RunNumbers(q, next, n);
      RunInTwo(q, next, n, m - n);
      if |RunFrom(q, next, n)| < n {
        RunSaturates(q, next, n, m);
      }
    }
  }

  lemma BroadcastPosition(st: State, room: nat)
    ensures Broadcast(st, room).lastBroadcastPosition == st.lastBroadcastPosition + |Sendable(st, room)|
    ensures Broadcast(st, room) == st.(lastBroadcastPosition := Broadcast(st, room).lastBroadcastPosition)
  {
    RunNumbers(st.queue, st.lastBroadcastPosition + 1, room);
  }

  /** A full channel loses nothing and repeats nothing: retrying later sends exactly the remainder. */
  lemma RetryResumes(st: State, a: nat, b: nat)
    ensures Sendable(st, a + b) == Sendable(st, a) + Sendable(Broadcast(st, a), b)
    ensures Broadcast(st, a + b) == Broadcast(Broadcast(st, a), b)
  {
    BroadcastPosition(st, a);
    BroadcastPosition(st, a + b);
    BroadcastPosition(Broadcast(st, a), b);
    RunInTwo(st.queue, st.lastBroadcastPosition + 1, a, b);
  }

  // ---- whole runs ----

  predicate Sent(sys: System, s: nat) {
    exists i :: 0 <= i < |sys.sent| && sys.sent[i].Seq() == s
  }

  predicate InOrderUpTo(sent: seq<Entry>, last: nat) {
    && (forall i, j :: 0 <= i < j < |sent| ==> sent[i].Seq() < sent[j].Seq())
    && (forall i :: 0 <= i < |sent| ==> 0 < sent[i].Seq() <= last)
  }

  ghost predicate BroadcastInv(sys: System) {
    && InOrderUpTo(sys.sent, sys.st.lastBroadcastPosition)
    && (forall s: nat :: 0 < s <= sys.st.lastBroadcastPosition && sys.observed < s ==> Sent(sys, s))
    && (forall s: nat :: sys.st.finalizedIdx < s <= sys.st.lastBroadcastPosition ==> s in Known(sys.st))
    && sys.st.finalizedIdx == sys.observed
  }

  lemma SendKeeps(cfg: Config, sys: System, room: nat)
    requires Inv(cfg, sys.st) && BroadcastInv(sys)
    ensures BroadcastInv(Send(sys, room))
  {
    var st, r := sys.st, Send(sys, room);
    var last, last' := st.lastBroadcastPosition, r.st.lastBroadcastPosition;
    BroadcastPosition(st, room);
    SendAppends(sys, room);
    assert Known(r.st) == Known(st);
    forall s: nat | last < s <= last' ensures Sent(r, s) && s in Known(st) {
      SentNow(sys, room, s);
    }
    forall s: nat | 0 < s <= last && r.observed < s ensures Sent(r, s) {
      SentBefore(sys, room, s);
    }
  }

  lemma SendAppends(sys: System, room: nat)
    requires InOrderUpTo(sys.sent, sys.st.lastBroadcastPosition)
    ensures InOrderUpTo(Send(sys, room).sent, Send(sys, room).st.lastBroadcastPosition)
  {
    RunNumbers(sys.st.queue, sys.st.lastBroadcastPosition + 1, room);
    BroadcastPosition(sys.st, room);
    AppendInOrder(sys.sent, sys.st.lastBroadcastPosition, Sendable(sys.st, room));
  }

  lemma AppendInOrder(sent: seq<Entry>, last: nat, more: seq<Entry>)
    requires InOrderUpTo(sent, last) && forall k :: 0 <= k < |more| ==> more[k].Seq() == last + 1 + k
    ensures InOrderUpTo(sent + more, last + |more|)
  {
  }

  lemma SentBefore(sys: System, room: nat, s: nat)
    requires Sent(sys, s)
    ensures Sent(Send(sys, room), s)
  {
    var i :| 0 <= i < |sys.sent| && sys.sent[i].Seq() == s;
    assert Send(sys, room).sent[i].Seq() == s;
  }

  lemma SentNow(sys: System, room: nat, s: nat)
    requires sys.st.lastBroadcastPosition < s <= sys.st.lastBroadcastPosition + |Sendable(sys.st, room)|
    ensures Sent(Send(sys, room), s) && s in Known(sys.st)
  {
    var more, k := Sendable(sys.st, room), s - sys.st.lastBroadcastPosition - 1;
    RunNumbers(sys.st.queue, sys.st.lastBroadcastPosition + 1, room);
    var e := more[k];
    assert Send(sys, room).sent[|sys.sent| + k] == e;
    assert e in sys.st.queue && e.Seq() == s;
    HeightMapKeys(sys.st.queue, s);
  }

  lemma FilterKeepsBroadcast(cfg: Config, sys: System, entries: seq<Entry>)
    requires Inv(cfg, sys.st) && BroadcastInv(sys)
    ensures BroadcastInv(sys.(st := Filter(cfg, sys.st, entries)))
  {
    FilterKnown(cfg, sys.st, entries);
    SeeAllGrows(cfg, Known(sys.st), entries);
    var r := sys.(st := Filter(cfg, sys.st, entries));
    forall s: nat | 0 < s <= r.st.lastBroadcastPosition && r.observed < s ensures Sent(r, s) {
      assert Sent(sys, s);
    }
  }

  lemma {:induction false} SeeAllGrows(cfg: Config, known: map<nat, nat>, entries: seq<Entry>)
    ensures forall s :: s in known ==> s in SeeAll(cfg, known, entries) && SeeAll(cfg, known, entries)[s] == known[s]
  {
    if entries != [] {
      SeeAllGrows(cfg, known, entries[..|entries| - 1]);
    }
  }

  lemma FinalizeKeepsBroadcast(cfg: Config, sys: System, idx: U64, fetch: Fetch)
    requires Inv(cfg, sys.st) && BroadcastInv(sys)
    ensures BroadcastInv(Step(cfg, sys, L1Finalized(idx, fetch)))
  {
    FinalizeKnown(cfg, sys.st, idx, fetch);
    var r := Step(cfg, sys, L1Finalized(idx, fetch));
    forall s: nat | 0 < s <= r.st.lastBroadcastPosition && r.observed < s ensures Sent(r, s) {
      assert Sent(sys, s);
    }
  }

  /**
   * In every run: broadcast numbers strictly increase; a number at or below the last position that was never sent is
   * at or below an L1 index already observed; and a broadcast number above the finalized index is still held.
   */
  lemma {:induction false} BroadcastSafety(cfg: Config, idx: U64, events: seq<Event>)
    ensures Inv(cfg, Run(cfg, idx, events).st)
    ensures BroadcastInv(Run(cfg, idx, events))
  {
    RefinesFirstSeenMap(cfg, idx, events);
    if events != [] {
      var init, ev := events[..|events| - 1], events[|events| - 1];
      BroadcastSafety(cfg, idx, init);
      var sys := Run(cfg, idx, init);
      match ev {
        case BlocksPolled(blocks, height, room) =>
          var entries := Entries(cfg.parse, blocks, height);
          FilterKeepsBroadcast(cfg, sys, entries);
          FilterKnown(cfg, sys.st, entries);
          SendKeeps(cfg, sys.(st := Filter(cfg, sys.st, entries)), room);
        case L1Finalized(l1, fetch) => FinalizeKeepsBroadcast(cfg, sys, l1, fetch);
        case RetrySignal(room) => SendKeeps(cfg, sys, room);
      }
    }
  }
}
