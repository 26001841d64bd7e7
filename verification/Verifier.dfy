/** Checks a proposed batch against the streamer queue. */
module Verifier {
  import opened Common
  import opened Messages
  import opened SortedQueue

  datatype VerificationResult = VerificationResult(
    success: bool,
    startMessagePosition: U64,
    endMessagePosition: U64,
    startEspressoBlock: nat,
    afterDelayedMessagesRead: U64,
    minEspressoBlockStillInQueue: nat)

  const FAILURE := VerificationResult(false, 0, 0, 0, 0, 0)

  function DelayedCount(batch: seq<BatchMessage>): nat {
    if batch == [] then 0
    else DelayedCount(batch[..|batch| - 1]) + (if batch[|batch| - 1].DelayedMsg? then 1 else 0)
  }

  predicate ContentMatches(msg: BatchMessage, e: Entry) {
    match msg
    case L2Msg(content) =>
      e.feedMessage.message.message.Some? && e.feedMessage.message.message.value.l2msg == content
    case DelayedMsg => true
  }

  /** Message `i` of the batch agrees with slot `pos + i`: contents, and the delayed count after it. */
  predicate SlotMatches(batch: seq<BatchMessage>, queue: seq<Entry>, pos: nat, cursor: BatchCursor, i: nat)
    requires i < |batch| && pos + i < |queue|
  {
    && ContentMatches(batch[i], queue[pos + i])
    && queue[pos + i].Delayed() == CountAfter(batch, cursor.lastBatchDelayedMessagesRead, i)
  }

  /** The delayed count after message `i`. */
  function CountAfter(batch: seq<BatchMessage>, start: U64, i: nat): U64
    requires i < |batch|
  {
    Wrap(start + DelayedCount(batch[..i + 1]))
  }

  predicate AllSlotsMatch(batch: seq<BatchMessage>, queue: seq<Entry>, pos: nat, cursor: BatchCursor)
    requires pos + |batch| <= |queue|
  {
    forall i :: 0 <= i < |batch| ==> SlotMatches(batch, queue, pos, cursor, i)
  }

  predicate Accepts(batch: seq<BatchMessage>, queue: seq<Entry>, cursor: BatchCursor) {
    var pos := Below(queue, cursor.nextBatchStartPos);
    && 0 < |batch| <= |queue| - pos
    && queue[pos].Seq() == cursor.nextBatchStartPos
    && AllSlotsMatch(batch, queue, pos, cursor)
  }

  /** Lowest height among the entries, 0 if there are none. */
  function MinHeight(q: seq<Entry>): nat {
    if q == [] then 0
    else if |q| == 1 then q[0].hotshotHeight
    else Min(MinHeight(q[..|q| - 1]), q[|q| - 1].hotshotHeight)
  }

  lemma {:induction false} MinHeightSpec(q: seq<Entry>)
    requires q != []
    ensures forall i :: 0 <= i < |q| ==> MinHeight(q) <= q[i].hotshotHeight
    ensures exists i :: 0 <= i < |q| && q[i].hotshotHeight == MinHeight(q)
  {
    var last := |q| - 1;
    assert q[last].hotshotHeight == q[last].hotshotHeight;
    if last > 0 {
      var init := q[..last];
      MinHeightSpec(init);
      var i :| 0 <= i < |init| && init[i].hotshotHeight == MinHeight(init);
      assert q[i].hotshotHeight == MinHeight(init);
      assert MinHeight(q) == q[i].hotshotHeight || MinHeight(q) == q[last].hotshotHeight;
    }
  }

  /** The claims certified for `n` messages, `delayed` of them delayed, in the slots from `pos` on. */
  function Claims(n: nat, delayed: nat, queue: seq<Entry>, pos: nat, cursor: BatchCursor): VerificationResult
    requires 0 < n && pos + n <= |queue|
  {
    VerificationResult(
      true,
      cursor.nextBatchStartPos,
      Wrap(cursor.nextBatchStartPos + n - 1),
      MinHeight(queue[pos..pos + n]),
      Wrap(cursor.lastBatchDelayedMessagesRead + delayed),
      MinHeight(queue[pos + n..]))
  }

  function Certified(batch: seq<BatchMessage>, queue: seq<Entry>, cursor: BatchCursor): VerificationResult
    requires Accepts(batch, queue, cursor)
  {
    Claims(|batch|, DelayedCount(batch), queue, Below(queue, cursor.nextBatchStartPos), cursor)
  }

  function Verify(batch: seq<BatchMessage>, queue: seq<Entry>, cursor: BatchCursor): VerificationResult {
    if Accepts(batch, queue, cursor) then Certified(batch, queue, cursor) else FAILURE
  }

  /** The running delayed count after one more message. */
  function Advance(count: U64, msg: BatchMessage): U64 {
    if msg.DelayedMsg? then Wrap(count + 1) else count
  }

  lemma RunningCount(batch: seq<BatchMessage>, start: U64, i: nat)
    requires i < |batch|
    ensures Wrap(start + DelayedCount(batch[..i + 1])) == Advance(Wrap(start + DelayedCount(batch[..i])), batch[i])
  {
    assert batch[..i + 1][..i] == batch[..i];
    WrapTwice(start + DelayedCount(batch[..i]), 1);
  }

  /** The loop: every message is compared with its slot, carrying the delayed count along. */
  method CheckSlots(batch: seq<BatchMessage>, queue: seq<Entry>, pos: nat, cursor: BatchCursor)
    returns (ok: bool, expected: U64)
    requires pos + |batch| <= |queue|
    ensures ok <==> AllSlotsMatch(batch, queue, pos, cursor)
    ensures ok ==> expected == Wrap(cursor.lastBatchDelayedMessagesRead + DelayedCount(batch))
  {
    var start := cursor.lastBatchDelayedMessagesRead;
    expected := start;
    for index := 0 to |batch|
      invariant expected == Wrap(start + DelayedCount(batch[..index]))
      invariant forall i :: 0 <= i < index ==> SlotMatches(batch, queue, pos, cursor, i)
    {
      var entry := queue[pos + index];
      RunningCount(batch, start, index);
      match batch[index] {
        case L2Msg(content) =>
          var message := entry.feedMessage.message.message;
          if message.None? || content != message.value.l2msg {
            assert !SlotMatches(batch, queue, pos, cursor, index);
            return false, expected;
          }
        case DelayedMsg =>
          expected := Wrap(expected + 1);
      }
      if entry.Delayed() != expected {
        assert !SlotMatches(batch, queue, pos, cursor, index);
        return false, expected;
      }
    }
    assert batch[..|batch|] == batch;
    return true, expected;
  }

  /** The method with its search, its length check and its loop decides exactly `Accepts`. */
  method VerifyBatchMessages(batch: seq<BatchMessage>, queue: seq<Entry>, cursor: BatchCursor)
    returns (r: VerificationResult)
    requires Ascending(queue)
    ensures r == Verify(batch, queue, cursor)
  {
    var start := cursor.nextBatchStartPos;
    var pos := Below(queue, start);
    if pos == |queue| || queue[pos].Seq() != start {
      return FAILURE;
    }
    if |batch| > |queue| - pos {
      return FAILURE;
    }
    var ok, expected := CheckSlots(batch, queue, pos, cursor);
    if !ok || batch == [] {
      return FAILURE;
    }
    var startBlock := LowestHeight(queue[pos..pos + |batch|]);
    var minLeft := LowestHeight(queue[pos + |batch|..]);
    r := VerificationResult(true, start, Wrap(start + |batch| - 1), startBlock, expected, minLeft);
    assert r == Claims(|batch|, DelayedCount(batch), queue, pos, cursor);
  }

  method LowestHeight(q: seq<Entry>) returns (m: nat)
    ensures m == MinHeight(q)
  {
    if q == [] {
      return 0;
    }
    m := q[0].hotshotHeight;
    for i := 1 to |q|
      invariant m == MinHeight(q[..i])
    {
      m := Min(m, q[i].hotshotHeight);
      assert q[..i + 1][..i] == q[..i];
    }
    assert q[..|q|] == q;
  }

  lemma {:induction false} MinHeightConcat(a: seq<Entry>, b: seq<Entry>)
    requires a != [] && b != []
    ensures MinHeight(a + b) == Min(MinHeight(a), MinHeight(b))
  {
    assert (a + b)[..|a + b| - 1] == a + b[..|b| - 1];
    if |b| > 1 {
      MinHeightConcat(a, b[..|b| - 1]);
    } else {
      assert a + b[..0] == a;
    }
  }

  // ---- splitting a batch ----

  predicate GapFree(q: seq<Entry>) {
    Consecutive(q, 0, |q|)
  }

  lemma {:induction false} DelayedCountConcat(a: seq<BatchMessage>, b: seq<BatchMessage>)
    ensures DelayedCount(a + b) == DelayedCount(a) + DelayedCount(b)
  {
    if b == [] {
      assert a + b == a;
    } else {
      assert (a + b)[..|a + b| - 1] == a + b[..|b| - 1];
      DelayedCountConcat(a, b[..|b| - 1]);
    }
  }

  lemma GapFreeAscending(q: seq<Entry>)
    requires GapFree(q)
    ensures Ascending(q)
  {
  }

  /** The cursor that L1 reports once a batch has been posted. */
  function NextCursor(r: VerificationResult): BatchCursor {
    BatchCursor(r.afterDelayedMessagesRead, Wrap(r.endMessagePosition + 1))
  }

  lemma FirstHalfSlots(b1: seq<BatchMessage>, b2: seq<BatchMessage>, q: seq<Entry>, pos: nat, c: BatchCursor, i: nat)
    requires i < |b1| && pos + |b1| + |b2| <= |q|
    ensures SlotMatches(b1 + b2, q, pos, c, i) <==> SlotMatches(b1, q, pos, c, i)
  {
    assert (b1 + b2)[..i + 1] == b1[..i + 1];
  }

  lemma SecondHalfSlots(
    b1: seq<BatchMessage>, b2: seq<BatchMessage>, q: seq<Entry>, pos: nat, c: BatchCursor, c2: BatchCursor, i: nat)
    requires i < |b2| && pos + |b1| + |b2| <= |q|
    requires c2.lastBatchDelayedMessagesRead == Wrap(c.lastBatchDelayedMessagesRead + DelayedCount(b1))
    ensures SlotMatches(b1 + b2, q, pos, c, |b1| + i) <==> SlotMatches(b2, q, pos + |b1|, c2, i)
  {
    CountShift(b1, b2, c.lastBatchDelayedMessagesRead, i);
    assert (b1 + b2)[|b1| + i] == b2[i];
  }

  lemma CountShift(b1: seq<BatchMessage>, b2: seq<BatchMessage>, start: U64, i: nat)
    requires i < |b2|
    ensures CountAfter(b1 + b2, start, |b1| + i) == CountAfter(b2, Wrap(start + DelayedCount(b1)), i)
  {
    var front := b2[..i + 1];
    assert (b1 + b2)[..|b1| + i + 1] == b1 + front;
    CountAcross(b1, front, start);
  }

  lemma SlotsConcat(
    b1: seq<BatchMessage>, b2: seq<BatchMessage>, q: seq<Entry>, pos: nat, c: BatchCursor, c2: BatchCursor)
    requires pos + |b1| + |b2| <= |q|
    requires c2.lastBatchDelayedMessagesRead == Wrap(c.lastBatchDelayedMessagesRead + DelayedCount(b1))
    ensures AllSlotsMatch(b1 + b2, q, pos, c) <==> AllSlotsMatch(b1, q, pos, c) && AllSlotsMatch(b2, q, pos + |b1|, c2)
  {
    forall i | 0 <= i < |b1| ensures SlotMatches(b1 + b2, q, pos, c, i) <==> SlotMatches(b1, q, pos, c, i) {
      FirstHalfSlots(b1, b2, q, pos, c, i);
    }
    var pos2 := pos + |b1|;
    forall k | |b1| <= k < |b1 + b2|
      ensures SlotMatches(b1 + b2, q, pos, c, k) <==> SlotMatches(b2, q, pos2, c2, k - |b1|) {
      SecondHalfSlots(b1, b2, q, pos, c, c2, k - |b1|);
    }
    if AllSlotsMatch(b1 + b2, q, pos, c) {
      forall i | 0 <= i < |b2| ensures SlotMatches(b2, q, pos2, c2, i) {
        assert SlotMatches(b1 + b2, q, pos, c, |b1| + i);
      }
    }
  }

  lemma WholeImpliesFirst(b1: seq<BatchMessage>, b2: seq<BatchMessage>, q: seq<Entry>, c: BatchCursor)
    requires b1 != [] && Accepts(b1 + b2, q, c)
    ensures Accepts(b1, q, c)
  {
    var pos := Below(q, c.nextBatchStartPos);
    var c2 := BatchCursor(Wrap(c.lastBatchDelayedMessagesRead + DelayedCount(b1)), 0);
    SlotsConcat(b1, b2, q, pos, c, c2);
  }

  lemma EndPosition(n: nat, q: seq<Entry>, pos: nat, start: U64)
    requires GapFree(q) && 0 < n && pos + n <= |q| && q[pos].Seq() == start
    ensures q[pos + n - 1].Seq() == Wrap(start as nat + n - 1) == start as nat + n - 1
  {
    assert q[pos].Seq() == q[0].Seq() + pos;
    assert q[pos + n - 1].Seq() == q[0].Seq() + (pos + n - 1);
  }

  predicate Finds(q: seq<Entry>, s: nat) {
    Below(q, s) < |q| && q[Below(q, s)].Seq() == s
  }

  /** The number `s` is at the slot `pos`, or nowhere if that is the end of the queue. */
  predicate PointsAt(q: seq<Entry>, s: nat, pos: nat) {
    if pos < |q| then Finds(q, s) && Below(q, s) == pos else !Finds(q, s)
  }

  /** In a gap-free queue the number after that of slot `k - 1` points at slot `k`. */
  lemma SlotBehind(q: seq<Entry>, k: nat, end: U64)
    requires GapFree(q) && 0 < k <= |q| <= U64_MAX && q[k - 1].Seq() == end
    ensures PointsAt(q, Wrap(end as nat + 1), k)
    ensures k < |q| ==> Wrap(end as nat + 1) == end + 1
  {
    GapFreeAscending(q);
    assert end == q[0].Seq() + (k - 1);
    if k < |q| {
      assert q[k].Seq() == q[0].Seq() + k;
      BelowUnique(q, end as nat + 1, k);
    } else if end < U64_MAX {
      BelowUnique(q, end as nat + 1, k);
    } else {
      BelowUnique(q, 0, 0);
    }
  }

  /** After an accepted first half, the next cursor points at the slot behind it. */
  lemma NextSlot(n: nat, q: seq<Entry>, pos: nat, start: U64)
    requires GapFree(q) && 0 < n && pos + n <= |q| <= U64_MAX && q[pos].Seq() == start
    ensures var next := Wrap(Wrap(start as nat + n - 1) as nat + 1);
      PointsAt(q, next, pos + n) && (pos + n < |q| ==> next == start + n)
  {
    EndPosition(n, q, pos, start);
    SlotBehind(q, pos + n, q[pos + n - 1].Seq());
  }

  lemma SplitAccepts(b1: seq<BatchMessage>, b2: seq<BatchMessage>, q: seq<Entry>, c: BatchCursor, c2: BatchCursor)
    requires b2 != [] && Accepts(b1, q, c)
    requires c2.lastBatchDelayedMessagesRead == Wrap(c.lastBatchDelayedMessagesRead + DelayedCount(b1))
    requires PointsAt(q, c2.nextBatchStartPos, Below(q, c.nextBatchStartPos) + |b1|)
    ensures Accepts(b1 + b2, q, c) <==> Accepts(b2, q, c2)
  {
    var pos := Below(q, c.nextBatchStartPos);
    assert AllSlotsMatch(b1, q, pos, c);
    if pos + |b1| + |b2| <= |q| {
      assert AllSlotsMatch(b1 + b2, q, pos, c) <==> AllSlotsMatch(b2, q, pos + |b1|, c2) by {
        SlotsConcat(b1, b2, q, pos, c, c2);
      }
    }
  }

  lemma SplitHeights(q: seq<Entry>, pos: nat, n1: nat, n2: nat)
    requires 0 < n1 && 0 < n2 && pos + n1 + n2 <= |q|
    ensures MinHeight(q[pos..pos + (n1 + n2)])
         == Min(MinHeight(q[pos..pos + n1]), MinHeight(q[pos + n1..pos + n1 + n2]))
  {
    assert q[pos..pos + (n1 + n2)] == q[pos..pos + n1] + q[pos + n1..pos + n1 + n2];
    MinHeightConcat(q[pos..pos + n1], q[pos + n1..pos + n1 + n2]);
  }

  lemma SplitClaims(
    n1: nat, d1: nat, n2: nat, d2: nat, q: seq<Entry>, pos: nat, c: BatchCursor, c2: BatchCursor)
    requires 0 < n1 && 0 < n2 && pos + n1 + n2 <= |q|
    requires c2.lastBatchDelayedMessagesRead == Wrap(c.lastBatchDelayedMessagesRead + d1)
    requires c2.nextBatchStartPos == c.nextBatchStartPos + n1
    ensures SplitResult(Claims(n1 + n2, d1 + d2, q, pos, c), Claims(n1, d1, q, pos, c), Claims(n2, d2, q, pos + n1, c2))
  {
    SplitHeights(q, pos, n1, n2);
    WrapTwice(c.lastBatchDelayedMessagesRead + d1, d2);
  }

  lemma CountAcross(b1: seq<BatchMessage>, b2: seq<BatchMessage>, start: U64)
    ensures Wrap(start + DelayedCount(b1 + b2)) == Wrap(Wrap(start + DelayedCount(b1)) + DelayedCount(b2))
  {
    DelayedCountConcat(b1, b2);
    WrapTwice(start + DelayedCount(b1), DelayedCount(b2));
  }

  predicate SplitResult(whole: VerificationResult, first: VerificationResult, second: VerificationResult) {
    && whole.startMessagePosition == first.startMessagePosition
    && whole.endMessagePosition == second.endMessagePosition
    && whole.afterDelayedMessagesRead == second.afterDelayedMessagesRead
    && whole.minEspressoBlockStillInQueue == second.minEspressoBlockStillInQueue
    && whole.startEspressoBlock == Min(first.startEspressoBlock, second.startEspressoBlock)
  }

  /** Splitting a batch: the halves are accepted one after the other exactly when the whole is, with the same claims. */
  lemma BatchSplits(b1: seq<BatchMessage>, b2: seq<BatchMessage>, q: seq<Entry>, c: BatchCursor)
    requires GapFree(q) && |q| <= U64_MAX && b1 != [] && b2 != []
    ensures var r, r1 := Verify(b1 + b2, q, c), Verify(b1, q, c);
      var r2 := Verify(b2, q, NextCursor(r1));
      && (r.success <==> r1.success && r2.success)
      && (r.success ==> SplitResult(r, r1, r2))
  {
    if Accepts(b1, q, c) {
      AfterFirstHalf(b1, b2, q, c);
    } else if Accepts(b1 + b2, q, c) {
      WholeImpliesFirst(b1, b2, q, c);
    }
  }

  lemma AfterFirstHalf(b1: seq<BatchMessage>, b2: seq<BatchMessage>, q: seq<Entry>, c: BatchCursor)
    requires GapFree(q) && |q| <= U64_MAX && b2 != [] && Accepts(b1, q, c)
    ensures var c2 := NextCursor(Certified(b1, q, c));
      && (Accepts(b1 + b2, q, c) <==> Accepts(b2, q, c2))
      && (Accepts(b2, q, c2) ==> SplitResult(Certified(b1 + b2, q, c), Certified(b1, q, c), Certified(b2, q, c2)))
  {
    var c2 := NextCursor(Certified(b1, q, c));
    NextSlot(|b1|, q, Below(q, c.nextBatchStartPos), c.nextBatchStartPos);
    SplitAccepts(b1, b2, q, c, c2);
    if Accepts(b2, q, c2) {
      SplitCounts(b1, b2, q, Below(q, c.nextBatchStartPos), c, c2);
    }
  }

  lemma SplitCounts(b1: seq<BatchMessage>, b2: seq<BatchMessage>, q: seq<Entry>, pos: nat, c: BatchCursor, c2: BatchCursor)
    requires b1 != [] && b2 != [] && pos + |b1| + |b2| <= |q|
    requires c2.lastBatchDelayedMessagesRead == Wrap(c.lastBatchDelayedMessagesRead + DelayedCount(b1))
    requires c2.nextBatchStartPos == c.nextBatchStartPos + |b1|
    ensures SplitResult(
      Claims(|b1 + b2|, DelayedCount(b1 + b2), q, pos, c),
      Claims(|b1|, DelayedCount(b1), q, pos, c),
      Claims(|b2|, DelayedCount(b2), q, pos + |b1|, c2))
  {
    DelayedCountConcat(b1, b2);
    SplitClaims(|b1|, DelayedCount(b1), |b2|, DelayedCount(b2), q, pos, c, c2);
  }

  // ---- what is accepted, and what is certified for it ----

  /** The message that an entry stands for after `count` delayed messages, if any. */
  function Rendered(e: Entry, count: U64): Option<BatchMessage> {
    if e.Delayed() == count then
      match e.feedMessage.message.message
      case None => None
      case Some(m) => Some(L2Msg(m.l2msg))
    else if e.Delayed() == Wrap(count + 1) then Some(DelayedMsg)
    else None
  }

  /** The batch that consecutive entries stand for: the delayed count of each entry is the count for the next. */
  function RenderedAll(slots: seq<Entry>, count: U64): Option<seq<BatchMessage>> {
    if slots == [] then Some([])
    else
      match Rendered(slots[0], count)
      case None => None
      case Some(m) =>
        match RenderedAll(slots[1..], slots[0].Delayed())
        case None => None
        case Some(more) => Some([m] + more)
  }

  lemma OneSlotIff(m: BatchMessage, q: seq<Entry>, pos: nat, c: BatchCursor)
    requires pos < |q|
    ensures AllSlotsMatch([m], q, pos, c) <==> Rendered(q[pos], c.lastBatchDelayedMessagesRead) == Some(m)
    ensures AllSlotsMatch([m], q, pos, c) ==>
      q[pos].Delayed() == Wrap(c.lastBatchDelayedMessagesRead + DelayedCount([m]))
  {
    assert [m][..1] == [m] && [m][..0] == [];
    assert DelayedCount([m]) == if m.DelayedMsg? then 1 else 0;
    CountMoves(c.lastBatchDelayedMessagesRead);
    assert SlotMatches([m], q, pos, c, 0) <==> Rendered(q[pos], c.lastBatchDelayedMessagesRead) == Some(m);
    assert AllSlotsMatch([m], q, pos, c) <==> SlotMatches([m], q, pos, c, 0);
  }

  lemma CountMoves(count: U64)
    ensures Wrap(count) == count && Wrap(count + 1) != count
  {
  }

  ghost function RenderedSlots(q: seq<Entry>, pos: nat, n: nat, count: U64): Option<seq<BatchMessage>>
    requires pos + n <= |q|
  {
    RenderedAll(q[pos..pos + n], count)
  }

  lemma RenderedSlotsCons(q: seq<Entry>, pos: nat, n: nat, count: U64)
    requires 0 < n && pos + n <= |q|
    ensures RenderedSlots(q, pos, n, count) ==
      match Rendered(q[pos], count)
      case None => None
      case Some(m) =>
        match RenderedSlots(q, pos + 1, n - 1, q[pos].Delayed())
        case None => None
        case Some(more) => Some([m] + more)
  {
    assert q[pos..pos + n][1..] == q[pos + 1..pos + n];
  }

  lemma {:induction false} SlotsIff(batch: seq<BatchMessage>, q: seq<Entry>, pos: nat, c: BatchCursor)
    requires pos + |batch| <= |q|
    ensures AllSlotsMatch(batch, q, pos, c)
       <==> RenderedSlots(q, pos, |batch|, c.lastBatchDelayedMessagesRead) == Some(batch)
    decreases |batch|
  {
    if batch == [] {
      assert q[pos..pos] == [];
    } else {
      var m, rest := batch[0], batch[1..];
      var c2 := c.(lastBatchDelayedMessagesRead := Wrap(c.lastBatchDelayedMessagesRead + DelayedCount([m])));
      assert [m] + rest == batch;
      SlotsConcat([m], rest, q, pos, c, c2);
      OneSlotIff(m, q, pos, c);
      SlotsIff(rest, q, pos + 1, c2);
      RenderedSlotsCons(q, pos, |batch|, c.lastBatchDelayedMessagesRead);
    }
  }

  /** A batch is accepted exactly when it is not empty and is what the entries from its start position on stand for. */
  lemma AcceptsIff(batch: seq<BatchMessage>, queue: seq<Entry>, cursor: BatchCursor)
    ensures var pos := Below(queue, cursor.nextBatchStartPos);
      Verify(batch, queue, cursor).success <==>
        && Finds(queue, cursor.nextBatchStartPos) && 0 < |batch| <= |queue| - pos
        && RenderedSlots(queue, pos, |batch|, cursor.lastBatchDelayedMessagesRead) == Some(batch)
  {
    var pos := Below(queue, cursor.nextBatchStartPos);
    if pos + |batch| <= |queue| {
      SlotsIff(batch, queue, pos, cursor);
    }
  }

  /** The lowest height among these entries. */
  ghost predicate Lowest(h: nat, q: seq<Entry>) {
    && (forall i :: 0 <= i < |q| ==> h <= q[i].hotshotHeight)
    && (exists i :: 0 <= i < |q| && h == q[i].hotshotHeight)
  }

  /**
   * Five numbers that describe a batch compared with these slots, with `rest` behind them: the position where it starts
   * and the one where the next starts, the lowest block it was read from, the delayed messages read after it, and the
   * lowest block of the rest, or 0 if there is none.
   */
  ghost predicate Describes(
    start: U64, next: U64, block: nat, delayed: U64, left: nat, slots: seq<Entry>, rest: seq<Entry>)
  {
    && slots != []
    && start == slots[0].Seq() && next == Wrap(slots[0].Seq() + |slots|)
    && Lowest(block, slots) && delayed == slots[|slots| - 1].Delayed()
    && (if rest == [] then left == 0 else Lowest(left, rest))
  }

  /** What is certified for an accepted batch, in terms of the entries it was compared with and those behind them. */
  lemma CertifiedMeans(batch: seq<BatchMessage>, queue: seq<Entry>, cursor: BatchCursor)
    requires Accepts(batch, queue, cursor)
    ensures var pos, r := Below(queue, cursor.nextBatchStartPos), Verify(batch, queue, cursor);
      Describes(r.startMessagePosition, NextCursor(r).nextBatchStartPos, r.startEspressoBlock,
        r.afterDelayedMessagesRead, r.minEspressoBlockStillInQueue,
        queue[pos..pos + |batch|], queue[pos + |batch|..])
  {
    var pos, n := Below(queue, cursor.nextBatchStartPos), |batch|;
    assert SlotMatches(batch, queue, pos, cursor, n - 1);
    assert batch[..n - 1 + 1] == batch;
    ClaimsDescribe(n, DelayedCount(batch), queue, pos, cursor);
  }

  lemma ClaimsDescribe(n: nat, delayed: nat, queue: seq<Entry>, pos: nat, cursor: BatchCursor)
    requires 0 < n && pos + n <= |queue| && queue[pos].Seq() == cursor.nextBatchStartPos
    requires queue[pos + n - 1].Delayed() == Wrap(cursor.lastBatchDelayedMessagesRead + delayed)
    ensures var r := Claims(n, delayed, queue, pos, cursor);
      Describes(r.startMessagePosition, NextCursor(r).nextBatchStartPos, r.startEspressoBlock,
        r.afterDelayedMessagesRead, r.minEspressoBlockStillInQueue, queue[pos..pos + n], queue[pos + n..])
  {
    LowestIs(queue[pos..pos + n]);
    LowestIs(queue[pos + n..]);
    WrapTwice(queue[pos].Seq() + n - 1, 1);
  }

  lemma LowestIs(q: seq<Entry>)
    ensures if q == [] then MinHeight(q) == 0 else Lowest(MinHeight(q), q)
  {
    if q != [] {
      MinHeightSpec(q);
    }
  }
}
