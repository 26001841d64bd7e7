/** What was broadcast, compared with what the queue holds under the same number. */
module StreamerContents {
  import opened Common
  import opened Messages
  import opened SortedQueue
  import opened HotShot
  import opened StreamerModel
  import opened StreamerKnown
  import opened StreamerRuns
  import opened StreamerBroadcast
  import opened StreamerChain
  import opened StreamerCopies

  /** The first or the last copy of its number in its own block. */
  ghost predicate EndCopy(cfg: Config, chain: seq<Block>, e: Entry) {
    IsFirst(cfg, chain, e) || IsLast(cfg, chain, e)
  }

  /** A sent entry above the finalized index is on the chain, and the streamer still knows its number at its height. */
  ghost predicate StillKnown(cfg: Config, chain: seq<Block>, st: State, x: Entry) {
    st.finalizedIdx < x.Seq() ==>
      EndCopy(cfg, chain, x) && x.Seq() in Known(st) && Known(st)[x.Seq()] == x.hotshotHeight
  }

  /** What is queued under a sent number is the sent entry, or the last copy of its block. */
  ghost predicate KeptOrLast(cfg: Config, chain: seq<Block>, st: State, x: Entry, e: Entry) {
    st.finalizedIdx < x.Seq() && x.Seq() == e.Seq() ==> e == x || IsLast(cfg, chain, e)
  }

  ghost predicate Contents(cfg: Config, chain: seq<Block>, sys: System) {
    && (forall e :: e in sys.st.queue ==> EndCopy(cfg, chain, e))
    && (forall x :: x in sys.sent ==> StillKnown(cfg, chain, sys.st, x))
    && (forall x, e :: x in sys.sent && e in sys.st.queue ==> KeptOrLast(cfg, chain, sys.st, x, e))
  }

  lemma SendAdds(sys: System, room: nat, x: Entry)
    requires x in Send(sys, room).sent && x !in sys.sent
    ensures x in sys.st.queue
  {
    RunNumbers(sys.st.queue, sys.st.lastBroadcastPosition + 1, room);
    assert x in Sendable(sys.st, room);
  }

  lemma SendKeepsContents(cfg: Config, chain: seq<Block>, sys: System, room: nat)
    requires Inv(cfg, sys.st) && Contents(cfg, chain, sys)
    ensures Contents(cfg, chain, Send(sys, room))
  {
    var r := Send(sys, room);
    BroadcastPosition(sys.st, room);
    forall x | x in r.sent ensures StillKnown(cfg, chain, r.st, x) {
      if x in sys.sent {
        assert StillKnown(cfg, chain, sys.st, x);
      } else {
        SendAdds(sys, room, x);
        QueuedKnown(cfg, sys.st, x);
      }
    }
    forall x, e | x in r.sent && e in r.st.queue ensures KeptOrLast(cfg, chain, r.st, x, e) {
      if x in sys.sent {
        assert KeptOrLast(cfg, chain, sys.st, x, e);
      } else if x.Seq() == e.Seq() {
        SendAdds(sys, room, x);
        UniqueEntry(sys.st.queue, x, e);
      }
    }
  }

  lemma PollKeepsContents(cfg: Config, chain: seq<Block>, sys: System, blocks: seq<Block>, height: nat)
    requires Inv(cfg, sys.st) && Contents(cfg, chain, sys)
    requires height + |blocks| <= |chain| && blocks == chain[height..height + |blocks|]
    ensures Contents(cfg, chain, sys.(st := Filter(cfg, sys.st, Entries(cfg.parse, blocks, height))))
  {
    var entries := Entries(cfg.parse, blocks, height);
    var r := Filter(cfg, sys.st, entries);
    FilterKnown(cfg, sys.st, entries);
    SeeAllGrows(cfg, Known(sys.st), entries);
    forall x | x in sys.sent ensures StillKnown(cfg, chain, r, x) {
      assert StillKnown(cfg, chain, sys.st, x);
    }
    forall e | e in r.queue && e !in sys.st.queue ensures IsFirst(cfg, chain, e) && e.Seq() !in Known(sys.st) {
      PollAdds(cfg, chain, sys.st, blocks, height, e);
    }
    forall x, e | x in sys.sent && e in r.queue ensures KeptOrLast(cfg, chain, r, x, e) {
      assert StillKnown(cfg, chain, sys.st, x);
      assert e in sys.st.queue ==> KeptOrLast(cfg, chain, sys.st, x, e);
    }
  }

  /** A finalization removes from the queue, and adds last copies only. */
  lemma FinalizeAdds(cfg: Config, chain: seq<Block>, st: State, idx: U64, fetch: Fetch, e: Entry)
    requires Faithful(chain, fetch) && e in Finalize(cfg, st, idx, fetch).queue && e !in st.queue
    ensures IsLast(cfg, chain, e)
  {
    PromotionAdds(cfg, chain, Prune(st.(lastBroadcastPosition := Max(st.lastBroadcastPosition, idx)), idx), fetch, e);
  }

  lemma FinalizeKeepsContents(cfg: Config, chain: seq<Block>, sys: System, idx: U64, fetch: Fetch)
    requires Inv(cfg, sys.st) && Contents(cfg, chain, sys) && Faithful(chain, fetch)
    ensures Contents(cfg, chain, Step(cfg, sys, L1Finalized(idx, fetch)))
  {
    FinalizeKnown(cfg, sys.st, idx, fetch);
    var r := Finalize(cfg, sys.st, idx, fetch);
    forall x | x in sys.sent ensures StillKnown(cfg, chain, r, x) {
      assert StillKnown(cfg, chain, sys.st, x);
    }
    forall e | e in r.queue && e !in sys.st.queue ensures IsLast(cfg, chain, e) {
      FinalizeAdds(cfg, chain, sys.st, idx, fetch, e);
    }
    forall x, e | x in sys.sent && e in r.queue ensures KeptOrLast(cfg, chain, r, x, e) {
      assert e in sys.st.queue ==> KeptOrLast(cfg, chain, sys.st, x, e);
    }
  }

  /**
   * In every run on a chain, each broadcast entry above the finalized index is on the chain and still known at its
   * height, and what is queued under its number is that entry or the last copy in the same block.
   */
  lemma {:induction false} RunContents(cfg: Config, idx: U64, chain: seq<Block>, events: seq<Event>)
    requires ChainRun(chain, events)
    ensures Contents(cfg, chain, Run(cfg, idx, events))
  {
    if events != [] {
      var init, ev := events[..|events| - 1], events[|events| - 1];
      RunContents(cfg, idx, chain, init);
      BroadcastSafety(cfg, idx, init);
      assert ChainEvent(chain, ev);
      var sys := Run(cfg, idx, init);
      match ev {
        case BlocksPolled(blocks, height, room) =>
          var entries := Entries(cfg.parse, blocks, height);
          PollKeepsContents(cfg, chain, sys, blocks, height);
          FilterKnown(cfg, sys.st, entries);
          SendKeepsContents(cfg, chain, sys.(st := Filter(cfg, sys.st, entries)), room);
        case L1Finalized(l1, fetch) => FinalizeKeepsContents(cfg, chain, sys, l1, fetch);
        case RetrySignal(room) => SendKeepsContents(cfg, chain, sys, room);
      }
    }
  }

  /** Two end copies of one number in one block are equal exactly when both or neither are the last. */
  lemma EndCopiesAgreeIff(cfg: Config, chain: seq<Block>, a: Entry, b: Entry)
    requires EndCopy(cfg, chain, a) && EndCopy(cfg, chain, b)
    requires a.Seq() == b.Seq() && a.hotshotHeight == b.hotshotHeight
    ensures a == b <==> (IsLast(cfg, chain, a) <==> IsLast(cfg, chain, b))
    ensures FirstIsLast(cfg, chain) ==> a == b
  {
    assert FirstIsLast(cfg, chain) ==> IsLast(cfg, chain, a) && IsLast(cfg, chain, b);
  }

  /** It is not the case that `e` is the last copy of its block and another copy was sent. */
  ghost predicate SentSameCopy(cfg: Config, chain: seq<Block>, sys: System, e: Entry) {
    IsLast(cfg, chain, e) ==> forall x :: x in sys.sent && x.Seq() == e.Seq() ==> IsLast(cfg, chain, x)
  }

  lemma SentOnce(sent: seq<Entry>, last: nat, x: Entry, e: Entry)
    requires InOrderUpTo(sent, last) && x in sent && e in sent && x.Seq() == e.Seq()
    ensures x == e
  {
    var i :| 0 <= i < |sent| && sent[i] == x;
    var j :| 0 <= j < |sent| && sent[j] == e;
  }

  /** A state on a chain, with what was sent on the way to it. */
  ghost predicate Sound(cfg: Config, chain: seq<Block>, sys: System) {
    Inv(cfg, sys.st) && BroadcastInv(sys) && Contents(cfg, chain, sys)
  }

  /** Slot `k` of the queue has a number that was broadcast and is not finalized. */
  ghost predicate BroadcastSlot(st: State, k: nat) {
    k < |st.queue| && st.finalizedIdx < st.queue[k].Seq() <= st.lastBroadcastPosition
  }

  lemma SlotWasSentIff(cfg: Config, chain: seq<Block>, sys: System, k: nat)
    requires Sound(cfg, chain, sys) && BroadcastSlot(sys.st, k)
    ensures sys.st.queue[k] in sys.sent <==> SentSameCopy(cfg, chain, sys, sys.st.queue[k])
    ensures FirstIsLast(cfg, chain) ==> sys.st.queue[k] in sys.sent
  {
    var e := sys.st.queue[k];
    QueuedKnown(cfg, sys.st, e);
    assert Sent(sys, e.Seq());
    var i :| 0 <= i < |sys.sent| && sys.sent[i].Seq() == e.Seq();
    var x := sys.sent[i];
    assert StillKnown(cfg, chain, sys.st, x) && KeptOrLast(cfg, chain, sys.st, x, e);
    forall y | y in sys.sent && y.Seq() == e.Seq() ensures y == x {
      SentOnce(sys.sent, sys.st.lastBroadcastPosition, y, x);
    }
  }

  /**
   * A queued entry whose number was broadcast is what was broadcast, unless it is a last copy and another was sent.
   * So it always is on a chain where first copies are last copies.
   */
  lemma QueuedWasSentIff(cfg: Config, idx: U64, chain: seq<Block>, events: seq<Event>, k: nat)
    requires ChainRun(chain, events) && BroadcastSlot(Run(cfg, idx, events).st, k)
    ensures var sys := Run(cfg, idx, events);
      sys.st.queue[k] in sys.sent <==> SentSameCopy(cfg, chain, sys, sys.st.queue[k])
    ensures FirstIsLast(cfg, chain) ==> Run(cfg, idx, events).st.queue[k] in Run(cfg, idx, events).sent
  {
    RunSound(cfg, idx, chain, events);
    SlotWasSentIff(cfg, chain, Run(cfg, idx, events), k);
  }

  lemma RunSound(cfg: Config, idx: U64, chain: seq<Block>, events: seq<Event>)
    requires ChainRun(chain, events)
    ensures Sound(cfg, chain, Run(cfg, idx, events))
  {
    BroadcastSafety(cfg, idx, events);
    RunContents(cfg, idx, chain, events);
  }

  /** A finalization that promotes the stub of a broadcast entry brings that entry back exactly when it is the last copy. */
  lemma SentRestoredIff(
    cfg: Config, idx: U64, chain: seq<Block>, events: seq<Event>, l1: U64, fetch: Fetch, x: Entry)
    requires ChainRun(chain, events) && Faithful(chain, fetch)
    requires var sys := Run(cfg, idx, events);
      x in sys.sent && sys.st.finalizedIdx < l1 < x.Seq() && x.Seq() in sys.st.stubs
    requires x.Seq() !in Finalize(cfg, Run(cfg, idx, events).st, l1, fetch).stubs
    ensures x in Finalize(cfg, Run(cfg, idx, events).st, l1, fetch).queue <==> IsLast(cfg, chain, x)
  {
    var st := Run(cfg, idx, events).st;
    BroadcastSafety(cfg, idx, events);
    RunContents(cfg, idx, chain, events);
    assert StillKnown(cfg, chain, st, x);
    var st1 := st.(lastBroadcastPosition := Max(st.lastBroadcastPosition, l1));
    PruneKnown(cfg, st1, l1);
    PromotionRestoresIff(cfg, chain, Prune(st1, l1), fetch, x);
  }

  /**
   * Two streamers on one chain, with any capacities and any reader failures, hold the same message under a number
   * exactly when both or neither hold the last copy of the block; so always, where first copies are last copies.
   */
  lemma ContentsAgreeIff(
    cfg: Config, cfg': Config, idx: U64, chain: seq<Block>, a: seq<Event>, b: seq<Event>, x: Entry, y: Entry)
    requires cfg.startingPos == cfg'.startingPos && cfg.parse == cfg'.parse
    requires ChainRun(chain, a) && ChainRun(chain, b) && SameInputs(a, b)
    requires x in Run(cfg, idx, a).st.queue && y in Run(cfg', idx, b).st.queue && x.Seq() == y.Seq()
    ensures x == y <==> (IsLast(cfg, chain, x) <==> IsLast(cfg, chain, y))
    ensures FirstIsLast(cfg, chain) ==> x == y
  {
    HeldAt(cfg, idx, chain, a, x);
    HeldAt(cfg', idx, chain, b, y);
    KnowledgeIgnoresCapacity(cfg, cfg', idx, a, b);
    assert EndCopy(cfg', chain, y) == EndCopy(cfg, chain, y);
    EndCopiesAgreeIff(cfg, chain, x, y);
  }

  lemma HeldAt(cfg: Config, idx: U64, chain: seq<Block>, events: seq<Event>, x: Entry)
    requires ChainRun(chain, events) && x in Run(cfg, idx, events).st.queue
    ensures EndCopy(cfg, chain, x)
    ensures var known := Known(Run(cfg, idx, events).st); x.Seq() in known && known[x.Seq()] == x.hotshotHeight
  {
    RunContents(cfg, idx, chain, events);
    BroadcastSafety(cfg, idx, events);
    QueuedKnown(cfg, Run(cfg, idx, events).st, x);
  }
}
