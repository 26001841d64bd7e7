/** The loop that polls HotShot for new blocks and forwards them to the streamer in ranges. */
module Poller {
  import opened Common
  import opened Messages
  import opened HotShot

  /** What one turn of the loop meets: the reported height, whether the range could be fetched, and the channel. */
  datatype Reply =
    | HeightFailed
    | Reported(latest: U64, fetchSucceeds: bool, channelOpen: bool)

  /** A forwarded range: its blocks and the height of the first. */
  datatype Chunk = Chunk(blocks: seq<Block>, height: nat)

  /** Chunks in order, without hole or overlap, covering `[start, end)` of the chain. */
  ghost predicate Tiles(chain: seq<Block>, chunks: seq<Chunk>, start: nat, end: nat) {
    if chunks == [] then start == end
    else
      var last := chunks[|chunks| - 1];
      && last.height + |last.blocks| == end <= |chain|
      && last.blocks == chain[last.height..end]
      && Tiles(chain, chunks[..|chunks| - 1], start, last.height)
  }

  /** The loop's progress: what was forwarded, the next block to read, and whether the channel closed under it. */
  datatype Progress = Progress(sent: seq<Chunk>, fromBlock: nat, closed: bool)

  function RangeEnd(from: nat, latest: U64): nat {
    Min(Min(from + HOTSHOT_RANGE_LIMIT, U64_MAX), latest)
  }

  /** A turn that forwards a range. */
  predicate Forwards(chain: seq<Block>, p: Progress, reply: Reply) {
    && reply.Reported? && reply.fetchSucceeds && p.fromBlock < reply.latest
    && RangeEnd(p.fromBlock, reply.latest) <= |chain|
  }

  function Turn(chain: seq<Block>, p: Progress, reply: Reply): Progress {
    if p.closed || !Forwards(chain, p, reply) then p
    else if !reply.channelOpen then p.(closed := true)
    else
      var end := RangeEnd(p.fromBlock, reply.latest);
      Progress(p.sent + [Chunk(chain[p.fromBlock..end], p.fromBlock)], end, false)
  }

  function Poll(chain: seq<Block>, start: nat, replies: seq<Reply>): Progress {
    if replies == [] then Progress([], start, false)
    else Turn(chain, Poll(chain, start, replies[..|replies| - 1]), replies[|replies| - 1])
  }

  method PollHotshotBlocks(chain: seq<Block>, start: nat, replies: seq<Reply>)
    returns (sent: seq<Chunk>, fromBlock: nat, closed: bool)
    ensures Progress(sent, fromBlock, closed) == Poll(chain, start, replies)
  {
    fromBlock, sent, closed := start, [], false;
    for i := 0 to |replies|
      invariant Progress(sent, fromBlock, false) == Poll(chain, start, replies[..i])
    {
      assert replies[..i + 1][..i] == replies[..i];
      if replies[i].HeightFailed? {
        continue;
      }
      var latest := replies[i].latest;
      if fromBlock >= latest {
        continue;
      }
      var toBlock := Min(Min(fromBlock + HOTSHOT_RANGE_LIMIT, U64_MAX), latest);
      if !replies[i].fetchSucceeds || toBlock > |chain| {
        continue;
      }
      if !replies[i].channelOpen {
        ClosedForGood(chain, start, replies, i + 1);
        return sent, fromBlock, true;
      }
      sent := sent + [Chunk(chain[fromBlock..toBlock], fromBlock)];
      fromBlock := toBlock;
    }
    assert replies[..|replies|] == replies;
    return sent, fromBlock, false;
  }

  lemma {:induction false} ClosedForGood(chain: seq<Block>, start: nat, replies: seq<Reply>, i: nat)
    requires i <= |replies| && Poll(chain, start, replies[..i]).closed
    ensures Poll(chain, start, replies) == Poll(chain, start, replies[..i])
  {
    if i < |replies| {
      assert replies[..|replies| - 1][..i] == replies[..i];
      ClosedForGood(chain, start, replies[..|replies| - 1], i);
    } else {
      assert replies[..i] == replies;
    }
  }

  /** 1 to 100 blocks, none of them past a height that was reported. */
  ghost predicate Bounded(chunk: Chunk, replies: seq<Reply>) {
    && 1 <= |chunk.blocks| <= 100
    && exists r :: r in replies && r.Reported? && chunk.height + |chunk.blocks| <= r.latest
  }

  /** For any reported heights, even regressing ones, and any failures, the forwarded ranges tile what has been read. */
  lemma {:induction false} PollTiles(chain: seq<Block>, start: nat, replies: seq<Reply>)
    ensures var p := Poll(chain, start, replies);
      && Tiles(chain, p.sent, start, p.fromBlock)
      && (forall k :: 0 <= k < |p.sent| ==> Bounded(p.sent[k], replies))
  {
    if replies != [] {
      var init, reply := replies[..|replies| - 1], replies[|replies| - 1];
      PollTiles(chain, start, init);
      var before, p := Poll(chain, start, init), Poll(chain, start, replies);
      forall k | 0 <= k < |before.sent| ensures Bounded(before.sent[k], replies) {
        var r :| r in init && r.Reported? && before.sent[k].height + |before.sent[k].blocks| <= r.latest;
        assert r in replies;
      }
      if p.sent != before.sent {
        var chunk := p.sent[|before.sent|];
        assert reply in replies && chunk.height + |chunk.blocks| <= reply.latest;
        assert p.sent[..|before.sent|] == before.sent;
      }
    }
  }

  /** `n` undisturbed turns at a reported height read at least `100 * n` blocks or everything that was reported. */
  lemma {:induction false} PollCatchesUp(chain: seq<Block>, start: nat, replies: seq<Reply>, latest: U64)
    requires start <= latest <= |chain|
    requires forall i :: 0 <= i < |replies| ==> replies[i] == Reported(latest, true, true)
    ensures !Poll(chain, start, replies).closed
    ensures Poll(chain, start, replies).fromBlock == Min(start + 100 * |replies|, latest)
  {
    if replies != [] {
      PollCatchesUp(chain, start, replies[..|replies| - 1], latest);
    }
  }

  /** All entries of the forwarded ranges, parsed one range at a time. */
  ghost function ParsedChunks(parse: TxParser, chunks: seq<Chunk>): seq<Entry> {
    if chunks == [] then []
    else
      var last := chunks[|chunks| - 1];
      ParsedChunks(parse, chunks[..|chunks| - 1]) + Entries(parse, last.blocks, last.height)
  }

  /** Parsing the ranges one by one yields what parsing everything read at once would, with true block heights. */
  lemma {:induction false} ChunksParseAsWhole(parse: TxParser, chain: seq<Block>, chunks: seq<Chunk>, start: nat, end: nat)
    requires Tiles(chain, chunks, start, end) && start <= |chain|
    ensures start <= end <= |chain|
    ensures ParsedChunks(parse, chunks) == Entries(parse, chain[start..end], start)
  {
    if chunks == [] {
      assert chain[start..end] == [];
    } else {
      var last := chunks[|chunks| - 1];
      ChunksParseAsWhole(parse, chain, chunks[..|chunks| - 1], start, last.height);
      RangeParsesInTwo(parse, chain, start, last.height, end);
    }
  }
}
