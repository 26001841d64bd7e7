/** HotShot blocks of one namespace and their parsing into queue entries. */
module HotShot {
  import opened Common
  import opened Messages

  /** Most blocks that one request to the reader asks for. */
  const HOTSHOT_RANGE_LIMIT: nat := 100

  type Tx = Bytes

  type Block = seq<Tx>

  /**
   * The feed messages that one transaction payload yields: the V1 framing if it parses, otherwise the
   * legacy framing. Signature checks, JSON and the legacy format are inside this function.
   */
  type TxParser = Tx -> seq<FeedMessage>

  function Tag(messages: seq<FeedMessage>, height: nat): (r: seq<Entry>)
    ensures |r| == |messages|
    ensures forall i :: 0 <= i < |r| ==> r[i] == Entry(messages[i], height)
  {
    seq(|messages|, i requires 0 <= i < |messages| => Entry(messages[i], height))
  }

  function BlockEntries(parse: TxParser, block: Block, height: nat): seq<Entry> {
    if block == [] then []
    else Tag(parse(block[0]), height) + BlockEntries(parse, block[1..], height)
  }

  /** The entries of consecutive blocks, the first of which is at `start`. */
  function Entries(parse: TxParser, blocks: seq<Block>, start: nat): seq<Entry> {
    if blocks == [] then []
    else BlockEntries(parse, blocks[0], start) + Entries(parse, blocks[1..], start + 1)
  }

  /** Parsing one more transaction at the end of a block appends its messages. */
  lemma {:induction false} BlockEntriesSnoc(parse: TxParser, block: Block, tx: Tx, height: nat)
    ensures BlockEntries(parse, block + [tx], height)
         == BlockEntries(parse, block, height) + Tag(parse(tx), height)
  {
    if block == [] {
      assert block + [tx] == [tx];
    } else {
      assert (block + [tx])[1..] == block[1..] + [tx];
      BlockEntriesSnoc(parse, block[1..], tx, height);
    }
  }

  /** Parsing ranges separately and concatenating is parsing the joined range, with true heights. */
  lemma {:induction false} EntriesConcat(parse: TxParser, a: seq<Block>, b: seq<Block>, start: nat)
    ensures Entries(parse, a + b, start) == Entries(parse, a, start) + Entries(parse, b, start + |a|)
  {
    if a == [] {
      assert a + b == b;
    } else {
      assert (a + b)[1..] == a[1..] + b;
      EntriesConcat(parse, a[1..], b, start + 1);
    }
  }

  lemma RangeParsesInTwo(parse: TxParser, chain: seq<Block>, lo: nat, mid: nat, hi: nat)
    requires lo <= mid <= hi <= |chain|
    ensures Entries(parse, chain[lo..hi], lo) == Entries(parse, chain[lo..mid], lo) + Entries(parse, chain[mid..hi], mid)
  {
    assert chain[lo..hi] == chain[lo..mid] + chain[mid..hi];
    EntriesConcat(parse, chain[lo..mid], chain[mid..hi], lo);
  }

  lemma EntriesOne(parse: TxParser, block: Block, height: nat)
    ensures Entries(parse, [block], height) == BlockEntries(parse, block, height)
  {
    assert [block][1..] == [];
    assert Entries(parse, [], height + 1) == [];
  }

  lemma {:induction false} BlockHeight(parse: TxParser, block: Block, height: nat, e: Entry)
    requires e in BlockEntries(parse, block, height)
    ensures e.hotshotHeight == height
  {
    if e !in Tag(parse(block[0]), height) {
      BlockHeight(parse, block[1..], height, e);
    }
  }

  /** An entry is in the block at its own height of the given range. */
  predicate InRange(parse: TxParser, blocks: seq<Block>, start: nat, e: Entry) {
    && start <= e.hotshotHeight < start + |blocks|
    && e in BlockEntries(parse, blocks[e.hotshotHeight - start], e.hotshotHeight)
  }

  /** The entries of a range are exactly those of the block at their own height. */
  lemma {:induction false} EntryOfRange(parse: TxParser, blocks: seq<Block>, start: nat, e: Entry)
    ensures e in Entries(parse, blocks, start) <==> InRange(parse, blocks, start, e)
  {
    if blocks != [] {
      var head, rest := BlockEntries(parse, blocks[0], start), Entries(parse, blocks[1..], start + 1);
      assert Entries(parse, blocks, start) == head + rest;
      EntryOfRange(parse, blocks[1..], start + 1, e);
      if e in head {
        BlockHeight(parse, blocks[0], start, e);
      }
    }
  }

  /** Mirrors the outer loop: every block advances the height, even an empty one. */
  method ParseHotshotTransactions(parse: TxParser, blocks: seq<Block>, start: nat) returns (entries: seq<Entry>)
    ensures entries == Entries(parse, blocks, start)
  {
    entries := [];
    var height := start;
    for b := 0 to |blocks|
      invariant height == start + b
      invariant entries == Entries(parse, blocks[..b], start)
    {
      var parsed := ParseBlock(parse, blocks[b], height);
      entries := entries + parsed;
      EntriesConcat(parse, blocks[..b], [blocks[b]], start);
      assert blocks[..b + 1] == blocks[..b] + [blocks[b]];
      EntriesOne(parse, blocks[b], height);
      height := height + 1;
    }
    assert blocks[..|blocks|] == blocks;
  }

  /** Mirrors the inner loops over the transactions of one block and the messages of each. */
  method ParseBlock(parse: TxParser, block: Block, height: nat) returns (entries: seq<Entry>)
    ensures entries == BlockEntries(parse, block, height)
  {
    entries := [];
    for t := 0 to |block|
      invariant entries == BlockEntries(parse, block[..t], height)
    {
      var messages := parse(block[t]);
      BlockEntriesSnoc(parse, block[..t], block[t], height);
      assert block[..t + 1] == block[..t] + [block[t]];
      ghost var before := entries;
      for k := 0 to |messages|
        invariant entries == before + Tag(messages, height)[..k]
      {
        entries := entries + [Entry(messages[k], height)];
      }
    }
    assert block[..|block|] == block;
  }
}
