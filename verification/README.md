# Chain adjacent service: verified model

The chain adjacent service (CAS) reads the messages of a rollup from Espresso's HotShot blocks, re-broadcasts them as a
feed, checks every batch that is about to be posted to L1 against that stream, and signs a certificate for the batches
that match. This project models the code that carries this promise and proves what it guarantees over every run.

The parts, in the order of the data:

- `BigEndianInts`, `Rlp`, `MessageRlp`, `MessageForms`, `MessageWriter`: integers, RLP (Ethereum Yellow Paper, Appendix B) and the
  message encodings with Go's rules for nil pointers and optional tail fields.
- `Payload`, `PayloadForm`, `LegacyPayload`, `LegacyForm`, `Submitter`, `FeedSubmission`, `FeedOnChain`, `FeedOrigin`,
  `FeedToStreamer`: packing feed messages into transactions, submitting them, reading them back from blocks, whose word
  is taken for what is read, and what a streamer then knows.
- `HotShot`, `Poller`: blocks of one namespace, their parsing, and the polling loop.
- `SortedQueue`, `StreamerModel`, `StreamerObject`, `StreamerKnown`, `StreamerRuns`, `StreamerBroadcast`,
  `StreamerRetry`, `StreamerPromotion`, `StreamerPrefix`, `StreamerChain`, `StreamerCopies`,
  `StreamerContents`: the streamer.
  `StreamerObject` holds the object and its methods, proved against the step functions of `StreamerModel`; the other
  modules are about whole runs of those steps.
- `BatchParser`, `Verifier`, `BatchSafety`, `Replay`: parsing a batch, checking it, what an accepted batch means, and
  what the rollup's replayer makes of it.
- `Restart`, `L1Scan`: resuming from a checkpoint, and finding the checkpoint on L1.
- `Scenario`, `StreamerLimits`, `RestartLimits`: concrete runs that show where the promises stop.
- `Feed`, `FeedProtocol`, `FeedRelay`: the feed server's backlog, the interleaving of broadcasts with a joining client,
  and what such a client receives of a run of the streamer.
- `Certificate`, `CertifiedBatch`: wire format, signed payload and extraction, and the way from an accepted batch to the
  bytes signed for it and from its event on L1 back to the next batch.

How things outside the code appear. The HotShot reader, the height reports, the capacity of channels, L1 logs and RPC
failures are inputs of the steps that use them, with any answers unless a hypothesis says otherwise. Brotli, JSON,
signing with key recovery, and the signature check are function parameters; where a law is needed (decoding undoes
encoding, a signature recovers to its key) it is a hypothesis of that theorem. The event that the inbox contract records
for a batch is taken to hold the numbers of the signed bytes (`CertifiedBatch.EventFor`). 64-bit counters wrap around where the
release build lets them (`Common.Wrap`); a handler of the streamer takes the object exclusively and is one step.

Where the code and its comments disagree, or the code does less than its neighbours suggest, the model follows the code:

- the guard for an oversized first message looks at an empty payload, but the version tag is already in it, so the guard
  never fires and the splitting loop goes on forever on such a message (`Payload.OversizedNeverEnds` has an input,
  `Payload.SplittingEndsIff` the exact condition);
- the length check before decoding a certificate asks for 105 bytes, while decoding needs 137 (`Certificate.FromBytes`);
- verification compares a batch with slots of the queue, not with numbers; while a number is missing
  (`StreamerLimits.MissingNumberMisaligns`), and after a promotion that stops halfway also below the last broadcast
  position (`StreamerLimits.AbortedPromotionMisaligns`), the two differ; `BatchSafety.AcceptedBatchInOrderIff` has the
  exact condition for runs whose promotions complete, `BatchSafety.ComparedInOrderIff` the one for any queue;
- of several messages under one number in a block, filing keeps the first and promotion the last, so an accepted batch
  can carry another message than the feed did (`StreamerLimits.EquivocationSwapsMessage`).
  `StreamerCopies.PromotionRestoresIff` has the exact condition for one promotion,
  `BatchSafety.AcceptedBatchWasBroadcastIff` the one for a batch; where the first copy in every block is the last, it
  cannot happen (`BatchSafety.AcceptedBatchWasBroadcast`);
- finalization does not broadcast, so the next number can wait in the queue with no retry pending
  (`StreamerRetry.FinalizationStalls` has a run, `StreamerRetry.StalledIff` the exact condition);
- the restart block is computed from the queue without the stubs, so a restart can lose a message
  (`RestartLimits.CheckpointMissesStub` has a run, `Restart.RestartFromCheckpoint` the exact condition).

## Model

| member | source | states |
|---|---|---|
| `StreamerRuns.RefinesFirstSeenMap` | src/streamer/streamer.rs:210-411 | In every run, with any reader failures and any partial promotions, the queue is strictly sorted and within its capacity, queue and stubs are disjoint, and together they are the map from number to first-seen height of a streamer without any capacity. |
| `StreamerRuns.KnowledgeIgnoresCapacity` | src/streamer/streamer.rs:298-323 | Two streamers with the same inputs know the same numbers at the same heights, whatever their capacities and whatever their readers answered. |
| `StreamerKnown.FilterOneKnown` | src/streamer/streamer.rs:298-323 | Arrival of an entry keeps the invariant and changes the map exactly as first sight of a number at or above the starting position does. |
| `StreamerKnown.PromoteKnown` | src/streamer/streamer.rs:327-411 | A promotion, complete or not, changes nothing in the map. |
| `StreamerKnown.FinalizeKnown` | src/streamer/streamer.rs:210-238 | L1 finalization removes exactly the numbers at or below the new index, and moves both positions to the maximum. |
| `StreamerBroadcast.BroadcastSafety` | src/streamer/streamer.rs:210-289 | In every run the sent numbers strictly increase, every number up to the last position that was not sent is at or below an L1 index already observed, and every broadcast number above the finalized index is still known. |
| `StreamerBroadcast.RetryResumes` | src/streamer/streamer.rs:261-289 | Sending as far as the channel allows and the rest later sends exactly what one large channel would have taken. |
| `StreamerBroadcast.RunStops` | src/streamer/streamer.rs:414-427 | A broadcast that leaves room in the channel stops because the next number is nowhere in the queue. |
| `StreamerPromotion.WindowsSeparate` | src/streamer/streamer.rs:359-389 | The requested ranges are disjoint, ascending and at most 100 blocks long. |
| `StreamerPromotion.WindowsCover` | src/streamer/streamer.rs:359-389 | Every stub height that is to be fetched lies in one of the requested ranges. |
| `StreamerPromotion.WindowsTight` | src/streamer/streamer.rs:359-389 | Each requested range begins and ends with a planned block, and the next range begins at least 100 blocks after it began, so each takes in as much as one request can. |
| `StreamerPromotion.PromotionCompletesIff` | src/streamer/streamer.rs:327-411 | A promotion moves all planned stubs exactly when every request is answered and the last copy of each planned number in the answers is at its recorded height. |
| `StreamerPromotion.PromotionMoves` | src/streamer/streamer.rs:327-411 | When every request is answered, exactly the planned numbers that occur in the answers and stand before the first one whose last copy is at another height than recorded leave the stubs, and their last copies join the queue; when a request fails, nothing changes. |
| `StreamerPrefix.QueueIsLowestPrefix` | src/streamer/streamer.rs:210-411 | In runs whose promotions complete, the queue holds exactly the lowest min(capacity, known) numbers of everything known. |
| `StreamerChain.RunOnChain` | src/streamer/streamer.rs:240-411 | Every queued entry is on the chain at its height, and every stub stands for an entry of the chain at the recorded height. |
| `StreamerChain.PromotionCompletesOnChain` | src/streamer/streamer.rs:327-411 | On a chain, a promotion completes exactly when every request is answered and no planned number occurs in the requested blocks above the height where it was first seen. |
| `StreamerChain.PromotionMovesOnChain` | src/streamer/streamer.rs:391-411 | On a chain, an answered promotion moves exactly the planned numbers before the first one that is repeated in the requested blocks above its recorded height. |
| `StreamerChain.AnsweredKeepsOrder` | src/streamer/streamer.rs:391-411 | So an answered promotion, complete or not, keeps every queued number below every stub. |
| `StreamerChain.ReliableRunsComplete` | src/streamer/streamer.rs:327-411 | With a reader that answers and no number at two heights, all promotions of every run complete. |
| `StreamerLimits.AbortedPromotionMisaligns` | src/streamer/streamer.rs:391-411 | A run in which a promotion fails, after which an accepted batch above the finalized index and within the broadcast part was not compared number by number. |
| `StreamerLimits.MissingNumberMisaligns` | src/rollups/nitro/nitro.rs:129-190 | A run without any finalization in which an accepted batch above the finalized index, but beyond the broadcast part, was not compared number by number. |
| `StreamerLimits.EquivocationSwapsMessage` | src/streamer/streamer.rs:380-385 | A run fed from a chain with an equivocating block whose promotions complete, in which a batch above the finalized index and within the broadcast part is accepted number by number although its second message is not the one the feed was sent. |
| `StreamerCopies.PollAdds` | src/streamer/streamer.rs:298-323 | On a chain, what a poll adds to the queue was unknown before, and is the first copy of its number in its block. |
| `StreamerCopies.PromotionAdds` | src/streamer/streamer.rs:359-411 | On a chain, what a promotion adds to the queue was a stub, and is the last copy of its number in its block. |
| `StreamerCopies.PromotionRestoresIff` | src/streamer/streamer.rs:380-411 | Of the entries that a promoted stub may stand for, the queue holds one afterwards exactly when it is the last copy of its number in the block where the number was first seen. |
| `StreamerContents.RunContents` | src/streamer/streamer.rs:210-411 | In every run on a chain, queued entries and broadcast entries above the finalized index are first or last copies of their blocks, the latter are still known at their height, and what is queued under a broadcast number is the broadcast entry or the last copy. |
| `StreamerContents.SentRestoredIff` | src/streamer/streamer.rs:210-238 | In every run on a chain, a finalization that promotes the stub of a broadcast entry brings that very entry back exactly when it is the last copy of its block. |
| `StreamerContents.QueuedWasSentIff` | src/streamer/streamer.rs:261-411 | In every run on a chain, a queued entry whose number was broadcast is what was broadcast exactly when it is not the last copy of a block of which another copy was sent; so always, where first copies are last copies. |
| `StreamerContents.ContentsAgreeIff` | src/streamer/streamer.rs:298-411 | Two streamers with the same starting position, fed the same blocks and L1 indices of a chain, hold the same message under a number exactly when both or neither hold the last copy of its block, whatever their capacities, channels and readers did; so always, where first copies are last copies. |
| `StreamerRetry.StalledIff` | src/streamer/streamer.rs:198-205 | The next number waits in the queue with no retry pending exactly when it got there by L1 finalizations alone, from a moment with no retry pending and the next number not in the queue. |
| `StreamerRetry.BroadcastEndsStall` | src/streamer/streamer.rs:189-205 | The next blocks and the next retry signal end such a stall. |
| `StreamerRetry.FinalizationStalls` | src/streamer/streamer.rs:210-217 | A run that is stalled. |
| `StreamerObject.Streamer.constructor` | src/streamer/streamer.rs:67-94 | The initial state of a run. |
| `StreamerObject.Streamer.FilterMessages` | src/streamer/streamer.rs:298-323 | The loop over parsed entries keeps the object valid and is the fold of the arrival step. |
| `StreamerObject.Streamer.FilterEntry` | src/streamer/streamer.rs:299-314 | Numbers below the start, queued or stubbed are ignored, found by binary search. |
| `StreamerObject.Streamer.InsertEntry` | src/streamer/streamer.rs:316-321 | Insertion at the searched position; over capacity, the tail becomes a stub with its own height. |
| `StreamerObject.Streamer.HandleFinalization` | src/streamer/streamer.rs:210-238 | Keeps the object valid and is the finalization step, including the early return. |
| `StreamerObject.Streamer.DropFinalized` | src/streamer/streamer.rs:228-236 | Queue and stubs keep exactly what is above the index, also when the index is the largest 64-bit number. |
| `StreamerObject.Streamer.HandleHotshotTransactions` | src/streamer/streamer.rs:240-259 | Parsing, filing and broadcasting one block range is one step of a run, with the same rule for the retry. |
| `StreamerObject.Streamer.TryBroadcastFeedMessage` | src/streamer/streamer.rs:261-289 | Sends the run behind the last position as far as the channel accepts, advances by that many, and a retry is pending afterwards exactly when one was or the next number is still in the queue while the channel is open. |
| `StreamerObject.Streamer.HandleRetrySignal` | src/streamer/streamer.rs:198-205 | The pending retry is taken back first, then the feed is served; a retry is pending again exactly when the next number is still in the queue while the channel is open. |
| `StreamerObject.Streamer.SendRun` | src/streamer/streamer.rs:268-288 | The sending loop stops at the first message that is not taken, with the position at the last one that was. |
| `StreamerObject.Streamer.PromoteStubs` | src/streamer/streamer.rs:327-411 | Keeps the object valid and is the promotion step, with its early returns. |
| `StreamerObject.FetchHeights` | src/streamer/streamer.rs:359-389 | The window loop asks for the model's windows, gives up on the first failed one, and keeps the last entry per expected number. |
| `StreamerObject.NextWindow` | src/streamer/streamer.rs:361-366 | The inner loop extends a window while heights stay within the range limit. |
| `StreamerObject.Streamer.InsertFetched` | src/streamer/streamer.rs:391-411 | Fetched entries move from stubs to queue in order; a height mismatch stops, a missing entry is skipped. |
| `StreamerObject.FindContiguousEntriesAfter` | src/streamer/streamer.rs:414-427 | The longest run of consecutive numbers behind the given position. |
| `HotShot.ParseHotshotTransactions` | src/rollups/nitro/nitro.rs:64-107 | Every block advances the height, also an empty one; the entries are those of each block at its own height. |
| `HotShot.EntryOfRange` | src/rollups/nitro/nitro.rs:69-106 | An entry is parsed from a range exactly when it is in the block at its own height. |
| `HotShot.EntriesConcat` | src/rollups/nitro/nitro.rs:69-106 | Parsing two adjoining ranges and concatenating is parsing the whole range. |
| `HotShot.BlockEntriesSnoc` | src/rollups/nitro/nitro.rs:64-107 | One more transaction at the end of a block appends its messages, in their order. |
| `Poller.PollHotshotBlocks` | src/streamer/streamer.rs:432-542 | The polling loop against its turn function, for any heights reported and any failures. |
| `Poller.PollTiles` | src/streamer/streamer.rs:447-542 | For any reported heights, even regressing ones, and any failures, the emitted ranges tile the blocks from the start in order, 1 to 100 blocks each, none past a reported height. |
| `Poller.PollCatchesUp` | src/streamer/streamer.rs:447-542 | Enough answered turns at one reported height bring the poller to that height. |
| `Poller.ChunksParseAsWhole` | src/streamer/streamer.rs:535-541 | Parsing the emitted ranges one by one is parsing the whole stretch with true heights. |
| `Verifier.VerifyBatchMessages` | src/rollups/nitro/nitro.rs:109-211 | Succeeds exactly when the start number is in the queue, the batch is not empty and fits, every content matches its slot and every slot's delayed count is the cursor's plus the delayed messages so far; the result then holds the stated positions, count and minima. |
| `Verifier.CheckSlots` | src/rollups/nitro/nitro.rs:148-184 | The loop accepts exactly the batches all of whose slots match, and its counter ends at the certified count. |
| `Verifier.LowestHeight` | src/rollups/nitro/nitro.rs:192-202 | The minimum height, 0 for no entries. |
| `Verifier.MinHeightSpec` | src/rollups/nitro/nitro.rs:192-202 | That minimum is attained and below every entry. |
| `Verifier.AcceptsIff` | src/rollups/nitro/nitro.rs:109-190 | A batch is accepted exactly when it is not empty and is what the queue entries from its start position on stand for, where each entry stands for its contents if its delayed count is that of the entry before, and for a delayed message if it is one more; so at most one batch of each length is. |
| `Verifier.CertifiedMeans` | src/rollups/nitro/nitro.rs:190-211 | What is certified for an accepted batch: the number of the first entry compared, the position behind the last, the lowest block of exactly the entries compared, the delayed count of the last of them, and the lowest block of exactly the entries behind them, or 0. |
| `Verifier.BatchSplits` | src/rollups/nitro/nitro.rs:109-211 | On a gap-free queue a batch is accepted exactly when its two halves are, one after the other, and the claims agree: same start, end, delayed count and remaining minimum, minimum of the start blocks. |
| `BatchSafety.ComparedInOrderIff` | src/rollups/nitro/nitro.rs:129-190 | In any sorted queue an accepted batch was compared number by number exactly when the slot of its last message carries the certified end position. |
| `BatchSafety.AcceptedBatchInOrderIff` | src/streamer/streamer.rs:210-323 | In every run whose promotions complete, an accepted batch has message i compared with exactly the entry numbered start plus i, for all i, exactly when the streamer knows all these numbers. |
| `BatchSafety.AcceptedBatchIsTheStream` | src/streamer/streamer.rs:210-323 | So it is for an accepted batch above the finalized index and within the broadcast part, and the certified end position is the number of its last message. |
| `BatchSafety.AcceptedBatchWasBroadcastIff` | src/streamer/streamer.rs:210-411 | In every run on a chain whose promotions complete, each message of such a batch matches the message that the feed was sent under its number, which is the very entry it was compared with, exactly when it was not compared with the last copy of a block of which another copy was sent. |
| `BatchSafety.AcceptedBatchWasBroadcast` | src/streamer/streamer.rs:210-411 | So all of them do, on a chain where the first copy of a number in a block is its last copy. |
| `BatchSafety.AcceptedBatchOnReliableChain` | src/streamer/streamer.rs:210-411 | Both with no hypothesis on promotions, on a chain without repeated numbers whose reader answers. |
| `BatchParser.ParseBatch` | src/rollups/nitro/batch_parsing.rs:33-102 | The parser with all its errors, as the composition of decompression, cutting and classification. |
| `BatchParser.CutSegments` | src/rollups/nitro/batch_parsing.rs:49-69 | The segment loop: limit, malformed segment, and stop at an incomplete one. |
| `BatchParser.ClassifySegments` | src/rollups/nitro/batch_parsing.rs:71-99 | One message per L2 or delayed segment in order, none for empty and advance segments, an error for anything else. |
| `BatchParser.SegmentsIff` | src/rollups/nitro/batch_parsing.rs:49-69 | Segments are found exactly when the data is their encodings one after the other, followed by nothing or by bytes that end before the string or list they begin, within the limit. |
| `BatchParser.ParsedIff` | src/rollups/nitro/batch_parsing.rs:33-102 | A batch parses to these messages exactly when it is a zero byte and compressed data of at most 16 MiB that is the encodings of at most 102400 segments and a tail that ends early, and the segments stand one by one for parts of the messages. |
| `Rlp.TooShortIff` | src/rollups/nitro/batch_parsing.rs:62-68 | The bytes on which the decoder reports missing input: those that end inside the length bytes or inside the announced payload. |
| `BatchParser.DecodeBytesIsStrict` | src/rollups/nitro/batch_parsing.rs:59-61 | The RLP string decoder takes an encoding off any input and succeeds on nothing else. |
| `BatchParser.TruncatedSegmentIsDropped` | src/rollups/nitro/batch_parsing.rs:59-68 | Cutting the last segment short anywhere gives the result of the complete ones before it. |
| `Replay.ReplayIff` | src/rollups/nitro/nitro.rs:139-147 | For a batch that parses, the replay up to a target count is the batch slot by slot exactly when the target is the count the batch reaches (or, without delayed messages, any count not above the start). |
| `Replay.ReplayConformity` | src/rollups/nitro/batch_parsing.rs:3-13 | A batch that was parsed and accepted replays, up to the certified delayed count, to one message per slot with no placeholder and no virtual delayed message, exactly when that count does not overflow. |
| `Restart.KnowsWhatItRead` | src/streamer/streamer.rs:298-323 | In every in-order run, what is known above the finalized index is the first-seen map of everything read. |
| `Restart.KnowsWhatThePollerSent` | src/streamer/streamer.rs:447-542 | The same for every streamer that has taken any prefix of what its poller forwarded, whatever heights were reported and whatever failed. |
| `Restart.FirstSeenIsLowest` | src/streamer/streamer.rs:298-323 | Over a stretch of blocks the first-seen height of a number is the lowest block of the stretch that carries it, and unknown numbers are on none. |
| `Restart.RestartRebuildsIff` | src/streamer/streamer.rs:298-323 | A fresh streamer that starts at a later block knows the same numbers at the same heights above the batch exactly when none of them was first seen in the skipped blocks. |
| `Restart.RestartFromCheckpoint` | src/rollups/nitro/nitro.rs:190-210 | Resuming at the certified block behind an accepted batch rebuilds everything above the batch exactly when no stub above it was first seen below that block and, if the batch leaves no queue entry behind so that block 0 is certified, the blocks the old streamer never read hold nothing above the batch. |
| `RestartLimits.CheckpointMissesStub` | src/rollups/nitro/nitro.rs:198-202 | A run whose accepted batch certifies a block above that of a stub: no fresh streamer that resumes there and reads the same chain ever knows the stub's number. |
| `L1Scan.ScanForLatestCheckpoint` | src/rollups/nitro/l1_monitor.rs:253-316 | Ends for every step including 0; the windows descend from the head without gap or overlap, never below the earliest allowed block; all but the last were empty and the last decides the result, for any scanner. |
| `L1Scan.ScanIsCorrect` | src/rollups/nitro/l1_monitor.rs:243-316 | When the scanner serves the logs of a chain, the result is the latest event between the earliest allowed block and the head, or the not-found outcome exactly when there is none. |
| `L1Scan.SpanIs` | src/rollups/nitro/l1_monitor.rs:253-275 | A limit is the number of blocks scanned, up to the head; without one the whole chain is. |
| `CertifiedBatch.ScanResumes` | src/rollups/nitro/l1_monitor.rs:280-303 | A scan that finds the event of an accepted batch as the latest returns the cursor of the next batch and the certified lowest block. |
| `Feed.Backlog.Append` | src/rollups/nitro/feed/ws_server.rs:93-103 | Appends the messages of a broadcast, skipping null ones and those at or below the tail. |
| `Feed.AppendedExtends` | src/rollups/nitro/feed/ws_server.rs:92-103 | Whatever is appended, a sorted backlog stays sorted and keeps what it had, and no message appended is above its new tail. |
| `Feed.Backlog.Confirm` | src/rollups/nitro/feed/ws_server.rs:105-108 | Keeps exactly the messages above the confirmed number, in order. |
| `Feed.AfterMember` | src/rollups/nitro/feed/ws_server.rs:105-108 | A confirmation keeps exactly the messages above it. |
| `Feed.Backlog.GetSince` | src/rollups/nitro/feed/ws_server.rs:114-121 | Returns exactly the messages from the requested number on, in order. |
| `Feed.SinceMember` | src/rollups/nitro/feed/ws_server.rs:114-121 | A snapshot holds exactly the messages from the requested number on. |
| `Feed.FeedServer.Broadcast` | src/rollups/nitro/feed/ws_server.rs:206-225 | Confirms before appending, then sends to all. |
| `Feed.ClientSession.constructor` | src/rollups/nitro/feed/ws_server.rs:408-446 | The session opens with the snapshot, and the last sent number is its last one. |
| `Feed.ClientSession.Forward` | src/rollups/nitro/feed/ws_server.rs:468-500 | A broadcast is forwarded whole or not at all, as the delivery rule says, and the last sent number follows. |
| `Feed.UpdateLastSent` | src/rollups/nitro/feed/ws_server.rs:536-545 | The running maximum over the messages of a broadcast. |
| `FeedProtocol.StepsAreBroadcast` | src/rollups/nitro/feed/ws_server.rs:206-225 | The three broadcaster steps without interruption are one broadcast. |
| `FeedProtocol.InputIsAppended` | src/rollups/nitro/feed/ws_server.rs:206-225 | For every interleaving, the messages of the broadcasts begun are those appended, followed by those of a broadcast that has only confirmed so far. |
| `FeedProtocol.FeedDelivery` | src/rollups/nitro/feed/ws_server.rs:206-500 | For every interleaving of confirm, append and send with subscribe, snapshot and receive, and strictly increasing input: a connected client has received one uninterrupted stretch of the stream, so each message at most once and in increasing order, and no message at or above its requested number that was unconfirmed at its snapshot lies before that stretch. |
| `FeedProtocol.DrainedClientHasAll` | src/rollups/nitro/feed/ws_server.rs:206-500 | A client that has read its channel has every such message. |
| `FeedProtocol.DeliversNew` | src/rollups/nitro/feed/ws_server.rs:523-545 | A broadcast whose messages are all newer than the last sent one is delivered whole. |
| `FeedProtocol.SkipsOld` | src/rollups/nitro/feed/ws_server.rs:523-534 | A broadcast with nothing new for this client is not delivered. |
| `FeedProtocol.ConfirmationsForwarded` | src/rollups/nitro/feed/ws_server.rs:523-534 | For every interleaving, the confirmations among the frames a client was sent are exactly those of the broadcasts it has read since it subscribed, in order. |
| `FeedRelay.ClientReceivesStretch` | src/rollups/nitro/feed/relay.rs:115-159 | For every run of the streamer and every interleaving of a feed that relays it in order: a client has received one uninterrupted stretch of what the streamer sent, in increasing order. |
| `FeedRelay.DrainedClientIsUpToDate` | src/rollups/nitro/feed/relay.rs:115-159 | Once everything sent is broadcast and read, the client has every number from the requested one to the streamer's last broadcast position, except those at or below an L1 index that the streamer was told or the feed had confirmed when the client joined. |
| `Rlp.DecodeEncodedUint` | src/rollups/nitro/types.rs:172-175 | Integers of a given width decode to themselves in front of any input. |
| `Rlp.UintIff` | src/rollups/nitro/types.rs:172-175 | An integer is read exactly from its one encoding without leading zero, within the width. |
| `Rlp.DecodeEncodedList` | src/rollups/nitro/types.rs:98-102 | A list of items is split into exactly these items. |
| `Rlp.ListIff` | src/rollups/nitro/types.rs:98-102 | A list is read exactly from the one encoding of its items. |
| `Rlp.DecodingIsCanonical` | src/rollups/nitro/batch_parsing.rs:59-61 | Only the encoding of a string decodes to it. |
| `Rlp.CutShort` | src/rollups/nitro/batch_parsing.rs:62-68 | Every proper prefix of an encoding is reported as too short. |
| `MessageRlp.HeaderRoundTrips` | src/rollups/nitro/types.rs:160-256 | Decoding a written header gives it back, with a zero base fee read as nil, and leaves the input behind it. |
| `MessageRlp.StatsRoundTrips` | src/rollups/nitro/types.rs:134-140 | The derived list codec of the batch statistics is a round trip. |
| `MessageRlp.MessageRoundTrips` | src/rollups/nitro/types.rs:97-321 | For every message, across optional tail fields and both nil conventions, decoding what was written gives its normal form, in which zero base fee and zero gas cost are nil. |
| `MessageRlp.MessageSurvivesIff` | src/rollups/nitro/types.rs:97-321 | A message survives the round trip unchanged exactly when neither of these fields is zero. |
| `MessageRlp.EncodingIdentifies` | src/rollups/nitro/types.rs:282-321 | Two messages have the same bytes exactly when they have the same normal form and both or neither have a gas cost or statistics present. |
| `MessageRlp.HashExact` | src/rollups/nitro/types.rs:383-403 | The request id decodes under its own nil rule: the empty list is nil, 32 bytes are the id. |
| `MessageForms.HashOfString` | src/rollups/nitro/types.rs:383-394 | A request id as a string is nil if empty, otherwise it must have 32 bytes. |
| `MessageForms.HashOfList` | src/rollups/nitro/types.rs:383-403 | As a list it is nil if empty, otherwise an error. |
| `MessageForms.WrongNil` | src/rollups/nitro/types.rs:362-379 | Other optional fields are nil in one way only; the empty value of the other kind is an error. |
| `MessageForms.HeaderTolerates` | src/rollups/nitro/types.rs:160-200 | Missing tail fields of a header are nil, and items behind the last field are ignored. |
| `MessageForms.MissingCounter` | src/rollups/nitro/types.rs:54-80 | A message without its counter has read no delayed messages. |
| `MessageRlp.MetadataRoundTrips` | src/rollups/nitro/types.rs:54-80 | A message with its delayed count, nil or not, decodes to its normal form. |
| `MessageWriter.HeaderPayloadLength` | src/rollups/nitro/types.rs:202-217 | The computed length of the header fields is the length of the bytes written. |
| `MessageWriter.WriteHeader` | src/rollups/nitro/types.rs:219-249 | Writes exactly the header's encoding behind what is in the buffer. |
| `MessageWriter.MessagePayloadLength` | src/rollups/nitro/types.rs:257-280 | The computed payload length of every message is the length of the bytes written behind the list header. |
| `MessageWriter.WriteMessage` | src/rollups/nitro/types.rs:282-321 | Writes exactly the message's encoding behind what is in the buffer. |
| `MessageWriter.WriteTail` | src/rollups/nitro/types.rs:306-315 | The optional tail: the gas cost is written when it or a later field is present. |
| `Payload.BuildPayload` | src/rollups/nitro/nitro.rs:503-554 | Takes the longest prefix of the messages that fits 900 KiB, drops those that do not encode, and leaves the rest in the vector. |
| `Payload.LongestIsUnique` | src/rollups/nitro/nitro.rs:516-552 | Which messages are taken is determined by that. |
| `Payload.ParsePayload` | src/rollups/nitro/nitro.rs:353-403 | The parser with all its errors; untrusted messages are skipped. |
| `Payload.PayloadRoundTrip` | src/rollups/nitro/nitro.rs:353-403 | Parsing a built payload returns exactly the encodable, trusted messages in it, in order. |
| `PayloadForm.ParseIff` | src/rollups/nitro/nitro.rs:353-403 | A payload parses to these messages exactly when it is a framed version tag and framed bodies that all decode, and they are the trusted ones among them, in order. |
| `Payload.ProgressIff` | src/rollups/nitro/nitro.rs:520-540 | A payload takes at least one message exactly when the first one fits a payload of its own. |
| `Payload.BuildTransactions` | src/main.rs:152-168 | The splitting loop, for any list and stopped after any number of rounds, has built the model's payloads and left the model's rest. |
| `Payload.RoundsFinish` | src/main.rs:152-168 | When every message fits, as many rounds as there are messages are enough. |
| `Payload.RoundsStall` | src/main.rs:152-168 | Once the first message left does not fit, every further round builds a payload without messages. |
| `Payload.OversizedNeverEnds` | src/rollups/nitro/nitro.rs:520-534 | A codec and a message on which the loop never ends. |
| `Payload.ChunksCarry` | src/main.rs:152-168 | Every payload is within the limit and parsing them in order returns the whole list. |
| `Payload.SplittingEndsIff` | src/main.rs:152-168 | The splitting loop ends exactly when every message fits a payload of its own. |
| `LegacyPayload.ParsePayloadBytes` | src/rollups/nitro/nitro.rs:561-612 | The legacy parser with all its errors; empty messages are dropped, and the two lists stay in step. |
| `LegacyPayload.ParseLegacyPayload` | src/rollups/nitro/nitro.rs:288-350 | Entries only for a listed signer; messages that do not decode are skipped. |
| `LegacyPayload.CutIff` | src/rollups/nitro/nitro.rs:580-605 | A cut succeeds with these items exactly when the bytes are their encodings and their lengths fit the size field. |
| `LegacyPayload.LegacyRoundTrip` | src/rollups/nitro/nitro.rs:288-350 | Messages written in the legacy format and signed by a listed signer come back in order, with their numbers and the normal form of their contents. |
| `LegacyForm.EntriesIff` | src/rollups/nitro/nitro.rs:288-350 | An entry is read from a payload exactly when the payload is a signature and items written out, the signature over the items recovers to a listed signer, and the entry is what the message of one item decodes to under that item's number. |
| `LegacyForm.StrangerYieldsNothing` | src/rollups/nitro/nitro.rs:302-308 | A payload yields entries only if its signature over its items recovers to a listed signer. |
| `Submitter.RunKeeps` | src/submitter/submitter.rs:90-190 | In every run: everything sent is batched, pending or in the channel, in order; everything built is started, held or queued, in order; each started transaction is in flight or finalized and never both; free permits plus tasks in flight is the limit; a finalized transaction was submitted; polls stay below the retry limit. |
| `Submitter.MessagesConserved` | src/submitter/submitter.rs:90-190 | With a constructor that places every message, the messages of the started, held and queued transactions, the pending ones and the channel are exactly the messages sent, each once and in order. |
| `Submitter.StoppedHasAll` | src/submitter/submitter.rs:95-100 | When the loop has returned, everything sent is carried by a started transaction. |
| `Submitter.StartsInOrder` | src/submitter/submitter.rs:117-131 | Transactions start in the order they were built, and finalized ones stay finalized. |
| `Submitter.PollsExhaust` | src/submitter/submitter.rs:155-176 | After a submission exactly the configured number of polls without a result, but at least one, lead to the next submission. |
| `Submitter.OthersLeaveTask` | src/submitter/submitter.rs:130-185 | What the loop and the other tasks do meanwhile does not change this task. |
| `Submitter.MessageLoop.Gather` | src/submitter/submitter.rs:91-119 | One pass of the loop empties the channel into one batch and takes the first transaction off the queue. |
| `Submitter.PassIsGather` | src/submitter/submitter.rs:91-119 | The steps of the state machine and that pass take the same messages and give the same transactions. |
| `FeedSubmission.FeedConserved` | src/main.rs:152-183 | Conservation for the feed's own payload builder, read back with its own parser. |
| `FeedOnChain.ParseTransaction` | src/rollups/nitro/nitro.rs:74-99 | The current format first, the legacy format only if it fails, all entries at the height of the block. |
| `FeedOrigin.TxMessagesIff` | src/rollups/nitro/nitro.rs:74-99 | A transaction yields a message exactly when it is in the current format and holds it as a trusted one, or is not in that format and a listed signer wrote it in the older one. |
| `FeedOrigin.EntryOriginIff` | src/rollups/nitro/nitro.rs:64-107 | An entry is read from a range of blocks exactly when the block at its height has such a transaction. |
| `FeedOnChain.FeedReachesStreamer` | src/rollups/nitro/nitro.rs:64-107 | When the submitter has stopped and its transactions are on the chain, in any order, with any repetition and among any others, the entries parsed from the blocks hold exactly the messages that were sent and those of the other transactions. |
| `FeedToStreamer.FeedIsKnown` | src/streamer/streamer.rs:240-323 | A streamer that has read those blocks knows the number of every message sent that is at or above its start and above the finalized index, at the lowest of these blocks that carries the number. |
| `Certificate.Decoder.ReadBytes` | src/da_api/nitro/certificate/utils.rs:37-44 | The next bytes and an advanced position, or an error that leaves the position alone. |
| `Certificate.Decoder.ReadU64` | src/da_api/nitro/certificate/utils.rs:46-51 | The number whose big-endian form are the next eight bytes. |
| `Certificate.ToBytes` | src/da_api/nitro/certificate/mod.rs:117-156 | The wire format, or an error for a header that is empty, of another version or of another length. |
| `Certificate.FromBytes` | src/da_api/nitro/certificate/mod.rs:159-197 | Succeeds exactly on at least 137 bytes that start with the version byte, and then returns the certificate with these bytes; each failure has its error. |
| `Certificate.SerializedInjective` | src/da_api/nitro/certificate/mod.rs:117-156 | Different certificates have different bytes, so the two are inverse to each other. |
| `Certificate.SerializedLayout` | src/da_api/nitro/certificate/mod.rs:135-160 | Where each field of a certificate stands in its bytes. |
| `Certificate.RoundTrip` | src/da_api/nitro/certificate/mod.rs:117-197 | Writing a certificate and reading it back gives the same certificate. |
| `Certificate.BuildPayload` | src/da_api/nitro/certificate/mod.rs:296-314 | The signed payload: counts before and after the batch, the other claims, the downstream certificate. |
| `Certificate.SignedLayout` | src/da_api/nitro/certificate/mod.rs:296-315 | The signed bytes read, at every eighth byte, as the start position, the end position plus 1 with wrap-around, the start block, the delayed count and the lowest block left, and then the downstream certificate. |
| `CertifiedBatch.SignedForAccepted` | src/da_api/nitro/server.rs:329-374 | The bytes signed for an accepted batch describe it: they read as the numbers of the entries it was compared with and of those behind them, the second being where the next batch starts. |
| `CertifiedBatch.CertificatesJoin` | src/da_api/nitro/server.rs:329-374 | The bytes signed for the next batch start with the count where those of the batch before ended. |
| `Certificate.IssuedMeans` | src/da_api/nitro/certificate/mod.rs:199-235 | An issued certificate has the version byte and an otherwise empty header, the claims as given, and the signature over the signed bytes. |
| `Certificate.SignedPayloadInjective` | src/da_api/nitro/certificate/mod.rs:296-314 | A signed payload belongs to one set of claims and one downstream certificate only, also where the count wraps around. |
| `Certificate.ExtractDownstream` | src/da_api/nitro/utils.rs:13-36 | Succeeds exactly when the bytes behind the sequencer header are a certificate valid for the expected signer, and then returns header and downstream part. |
| `Certificate.CarriesIff` | src/da_api/nitro/utils.rs:19-36 | Read on the bytes: there are at least 179 of them, the one behind the sequencer header is the version byte, and the signature recovers to the expected signer over the claims and the downstream part. |
| `Certificate.StoreThenExtract` | src/da_api/nitro/certificate/mod.rs:199-294 | Under a key whose signatures recover to its address, storing and extracting returns the sequencer header followed by the downstream certificate; a downstream part below two bytes and a failed signing are errors. |

## Left out

- HandleHotshotTransactions: the transaction parser is a parameter here; `FeedOnChain.ParseTransaction` is the one in use.
- Forward: a client that lags, times out or fails to be written to is disconnected; the model has only the time while it is connected.
- WriteMessage: a message whose text is longer than a vector can be is not considered.
- PollHotshotBlocks: back-off, waiting and stall warnings are not modelled; a turn that waits changes nothing.
- The failure branch for the version tag that cannot be encoded as JSON: encoding a constant does not fail, so the tag is a constant.
- The light client, HTTP and RPC clients, the proxy, the websocket handshake and TLS.
- Routing of the data availability API and its fallback order, which only pass values on.
- The key manager, attestation and configuration loading.
- Timers, back-off, logging, pings and client counters.
- The reconnecting feed client; the only state of interest there is the next number to ask for.
- The shutdown branches of the relay; of its loop the model has the order in which it passes messages on.
- Hash preimages for signatures: signing and recovery are functions of the bytes that are hashed.
- HotShot heights are unbounded numbers, while the code keeps them in 64 bits.
- The size counter carried by feed messages, which is never serialized.
- The bounded capacity of the submitter's input channel: a full channel only delays the sender.
