/** From an accepted batch to the bytes that are signed for it, and from its event on L1 back to the next batch. */
module CertifiedBatch {
  import opened Common
  import opened Messages
  import opened SortedQueue
  import opened Verifier
  import Certificate
  import L1Scan

  /** The heights of the queue are 64-bit numbers. */
  predicate HeightsFit(queue: seq<Entry>) {
    forall e :: e in queue ==> e.hotshotHeight <= U64_MAX
  }

  lemma ResultFits(batch: seq<BatchMessage>, queue: seq<Entry>, cursor: BatchCursor)
    requires HeightsFit(queue)
    ensures var r := Verify(batch, queue, cursor);
      r.startEspressoBlock <= U64_MAX && r.minEspressoBlockStillInQueue <= U64_MAX
  {
    if Accepts(batch, queue, cursor) {
      var pos, r := Below(queue, cursor.nextBatchStartPos), Verify(batch, queue, cursor);
      CertifiedMeans(batch, queue, cursor);
      LowestFits(queue[pos..pos + |batch|], r.startEspressoBlock);
      if queue[pos + |batch|..] != [] {
        LowestFits(queue[pos + |batch|..], r.minEspressoBlockStillInQueue);
      }
    }
  }

  lemma LowestFits(part: seq<Entry>, h: nat)
    requires HeightsFit(part) && Lowest(h, part)
    ensures h <= U64_MAX
  {
    var i :| 0 <= i < |part| && h == part[i].hotshotHeight;
    assert part[i] in part;
  }

  /** The claims that a verification result puts into the certificate. */
  function ClaimsFor(r: VerificationResult): Certificate.Claims
    requires r.startEspressoBlock <= U64_MAX && r.minEspressoBlockStillInQueue <= U64_MAX
  {
    Certificate.Claims(
      r.startMessagePosition, r.endMessagePosition, r.startEspressoBlock, r.afterDelayedMessagesRead,
      r.minEspressoBlockStillInQueue)
  }

  /** What is signed for a batch. */
  function SignedFor(batch: seq<BatchMessage>, queue: seq<Entry>, cursor: BatchCursor, downstream: Bytes): Bytes
    requires HeightsFit(queue)
  {
    ResultFits(batch, queue, cursor);
    Certificate.SignedPayload(ClaimsFor(Verify(batch, queue, cursor)), downstream)
  }

  lemma SignedWords(batch: seq<BatchMessage>, queue: seq<Entry>, cursor: BatchCursor, downstream: Bytes)
    requires HeightsFit(queue) && Accepts(batch, queue, cursor)
    ensures var p, r := SignedFor(batch, queue, cursor, downstream), Verify(batch, queue, cursor);
      && |p| == 40 + |downstream| && p[40..] == downstream
      && Certificate.WordAt(p, 0) == r.startMessagePosition
      && Certificate.WordAt(p, 8) == NextCursor(r).nextBatchStartPos
      && Certificate.WordAt(p, 16) == r.startEspressoBlock
      && Certificate.WordAt(p, 24) == NextCursor(r).lastBatchDelayedMessagesRead
      && Certificate.WordAt(p, 32) == r.minEspressoBlockStillInQueue
  {
    ResultFits(batch, queue, cursor);
    Certificate.SignedLayout(ClaimsFor(Verify(batch, queue, cursor)), downstream);
  }

  /**
   * The bytes signed for an accepted batch: the position where it starts, the one where the next batch starts, the
   * lowest block it was read from, the delayed messages read after it, and the lowest block still needed.
   */
  lemma SignedForAccepted(batch: seq<BatchMessage>, queue: seq<Entry>, cursor: BatchCursor, downstream: Bytes)
    requires HeightsFit(queue) && Accepts(batch, queue, cursor)
    ensures var p, pos := SignedFor(batch, queue, cursor, downstream), Below(queue, cursor.nextBatchStartPos);
      && |p| == 40 + |downstream| && p[40..] == downstream
      && Describes(Certificate.WordAt(p, 0), Certificate.WordAt(p, 8), Certificate.WordAt(p, 16),
           Certificate.WordAt(p, 24), Certificate.WordAt(p, 32),
           queue[pos..pos + |batch|], queue[pos + |batch|..])
  {
    SignedWords(batch, queue, cursor, downstream);
    CertifiedMeans(batch, queue, cursor);
  }

  /** Certificates of consecutive batches join: the second starts at the count where the first ended. */
  lemma CertificatesJoin(
    b1: seq<BatchMessage>, q1: seq<Entry>, cursor: BatchCursor, d1: Bytes, b2: seq<BatchMessage>, q2: seq<Entry>, d2: Bytes)
    requires HeightsFit(q1) && HeightsFit(q2)
    requires Accepts(b1, q1, cursor) && Accepts(b2, q2, NextCursor(Verify(b1, q1, cursor)))
    ensures var p1, p2 := SignedFor(b1, q1, cursor, d1), SignedFor(b2, q2, NextCursor(Verify(b1, q1, cursor)), d2);
      |p1| >= 40 && |p2| >= 40 && Certificate.WordAt(p2, 0) == Certificate.WordAt(p1, 8)
  {
    SignedWords(b1, q1, cursor, d1);
    SignedWords(b2, q2, NextCursor(Verify(b1, q1, cursor)), d2);
  }

  /** The event that L1 records for a posted batch: block, delayed count and message count of the signed bytes. */
  function EventFor(signed: Bytes): L1Scan.CertificateVerified
    requires |signed| >= 40
  {
    L1Scan.CertificateVerified(
      Certificate.WordAt(signed, 32), Certificate.WordAt(signed, 24), Certificate.WordAt(signed, 8))
  }

  /**
   * A scan that finds the event of an accepted batch as the latest one returns the cursor of the next batch and the
   * lowest block certified as still needed.
   */
  lemma ScanResumes(
    scanner: L1Scan.Scanner, ledger: seq<L1Scan.Log>, latest: U64, step: U64, limit: U64,
    found: Result<L1Scan.CasCheckpoint, L1Scan.ScanError>, i: nat,
    batch: seq<BatchMessage>, queue: seq<Entry>, cursor: BatchCursor, downstream: Bytes)
    requires L1Scan.Serves(scanner, ledger) && L1Scan.Scanned(scanner, latest, step, limit, found)
    requires L1Scan.LatestIn(ledger, L1Scan.EarliestAllowed(latest, limit), latest, i)
    requires HeightsFit(queue) && Accepts(batch, queue, cursor)
    requires var p := SignedFor(batch, queue, cursor, downstream); |p| >= 40 && ledger[i].event == Some(EventFor(p))
    ensures var r := Verify(batch, queue, cursor);
      found.Ok? && found.value.cursor == NextCursor(r) && found.value.hotshotHeight == r.minEspressoBlockStillInQueue
  {
    var earliest := L1Scan.EarliestAllowed(latest, limit);
    L1Scan.ScanIsCorrect(scanner, ledger, latest, step, limit, found);
    var j: nat :| L1Scan.LatestIn(ledger, earliest, latest, j) && L1Scan.Reports(ledger[j], found);
    assert i == j;
    SignedWords(batch, queue, cursor, downstream);
  }
}
