/** The feed messages, batch messages and queue entries that the other modules exchange. */
module Messages {
  import opened Common

  datatype L1Header = L1Header(
    kind: Byte,
    poster: Bytes,
    blockNumber: U64,
    timestamp: U64,
    requestId: Option<Bytes>,
    l1BaseFee: Option<nat>)

  datatype BatchDataStats = BatchDataStats(length: U64, nonZeros: U64)

  datatype L1IncomingMessage = L1IncomingMessage(
    header: Option<L1Header>,
    l2msg: Bytes,
    legacyBatchGasCost: Option<U64>,
    batchDataStats: Option<BatchDataStats>)

  datatype MessageWithMetadata = MessageWithMetadata(
    message: Option<L1IncomingMessage>,
    delayedMessagesRead: U64)

  datatype FeedMessage = FeedMessage(
    sequenceNumber: U64,
    message: MessageWithMetadata,
    blockHash: Option<Bytes>,
    signature: Bytes,
    blockMetadata: Bytes)

  datatype Entry = Entry(feedMessage: FeedMessage, hotshotHeight: nat) {
    function Seq(): U64 { feedMessage.sequenceNumber }

    function Delayed(): U64 { feedMessage.message.delayedMessagesRead }
  }

  function FeedOf(entries: seq<Entry>): (r: seq<FeedMessage>)
    ensures |r| == |entries|
    ensures forall i :: 0 <= i < |r| ==> r[i] == entries[i].feedMessage
  {
    seq(|entries|, i requires 0 <= i < |entries| => entries[i].feedMessage)
  }

  datatype BatchMessage = L2Msg(content: Bytes) | DelayedMsg

  /** Where the next batch starts, as read from L1. */
  datatype BatchCursor = BatchCursor(lastBatchDelayedMessagesRead: U64, nextBatchStartPos: U64)

  const DEFAULT_CURSOR := BatchCursor(1, 1)
}
