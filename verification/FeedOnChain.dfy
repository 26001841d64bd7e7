/** From the submitter through the chain to the entries the streamer reads. */
module FeedOnChain {
  import opened Common
  import opened Messages
  import HotShot
  import LegacyPayload
  import opened Payload
  import opened Submitter
  import opened FeedSubmission

  /** What the parser of legacy payloads needs: signer recovery and the listed signers. */
  datatype Legacy = Legacy(recover: (Bytes, Bytes) -> Option<Bytes>, signers: seq<Bytes>)

  /** Messages of a transaction: the current format if it parses, otherwise the legacy one. */
  function TxMessages(c: Codec, legacy: Legacy, tx: Bytes): seq<FeedMessage> {
    match Parse(c, tx)
    case Ok(messages) => messages
    case Err(_) => FeedOf(LegacyPayload.Entries(legacy.recover, legacy.signers, tx, 0))
  }

  function Parser(c: Codec, legacy: Legacy): HotShot.TxParser {
    (tx: Bytes) => TxMessages(c, legacy, tx)
  }

  lemma {:induction false} DecodableTagged(read: LegacyPayload.MessageReader, items: seq<LegacyPayload.Item>, height: nat)
    ensures LegacyPayload.Decodable(read, items, height) == HotShot.Tag(FeedOf(LegacyPayload.Decodable(read, items, 0)), height)
    decreases |items|
  {
    if items != [] {
      DecodableTagged(read, items[..|items| - 1], height);
    }
  }

  /** One transaction, with the height of its block. */
  method ParseTransaction(c: Codec, legacy: Legacy, tx: Bytes, height: nat) returns (entries: seq<Entry>)
    ensures entries == HotShot.Tag(TxMessages(c, legacy, tx), height)
  {
    var current := ParsePayload(c, tx);
    if current.Ok? {
      entries := [];
      for i := 0 to |current.value|
        invariant entries == HotShot.Tag(current.value[..i], height)
      {
        entries := entries + [Entry(current.value[i], height)];
      }
      assert current.value[..|current.value|] == current.value;
      return;
    }
    entries := LegacyPayload.ParseLegacyPayload(legacy.recover, legacy.signers, tx, height);
    match LegacyPayload.Parse(tx) {
      case Ok(p) => DecodableTagged(LegacyPayload.ReadMessage, p.items, height);
      case Err(_) =>
    }
  }

  // ---- everything sent is read back ----

  lemma {:induction false} CarriedMember<M, T>(carried: T -> seq<M>, txs: seq<T>, m: M)
    ensures m in Carried(carried, txs) <==> exists i :: 0 <= i < |txs| && m in carried(txs[i])
  {
    if txs != [] {
      var n := |txs| - 1;
      var init := txs[..n];
      CarriedMember(carried, init, m);
      assert Carried(carried, txs) == Carried(carried, init) + carried(txs[n]);
      if m in Carried(carried, init) {
        var i :| 0 <= i < |init| && m in carried(init[i]);
        assert m in carried(txs[i]);
      }
      if i :| 0 <= i < |txs| && m in carried(txs[i]) {
        if i < n {
          assert init[i] == txs[i];
        }
      }
    }
  }

  /** A message is read from a block exactly when some transaction of the block holds it. */
  lemma {:induction false} BlockMember(parse: HotShot.TxParser, block: seq<Bytes>, height: nat, m: FeedMessage)
    ensures Entry(m, height) in HotShot.BlockEntries(parse, block, height) <==> exists i :: 0 <= i < |block| && m in parse(block[i])
  {
    if block != [] {
      var rest := block[1..];
      BlockMember(parse, rest, height, m);
      TagMember(parse(block[0]), height, m);
      if Entry(m, height) in HotShot.BlockEntries(parse, rest, height) {
        var i :| 0 <= i < |rest| && m in parse(rest[i]);
        assert m in parse(block[i + 1]);
      }
      if i :| 0 <= i < |block| && m in parse(block[i]) {
        assert i > 0 ==> rest[i - 1] == block[i];
      }
    }
  }

  lemma TagMember(messages: seq<FeedMessage>, height: nat, m: FeedMessage)
    ensures Entry(m, height) in HotShot.Tag(messages, height) <==> m in messages
  {
    if m in messages {
      var i :| 0 <= i < |messages| && messages[i] == m;
      assert HotShot.Tag(messages, height)[i] == Entry(m, height);
    }
  }

  /** These transactions are in the blocks, in any order, any number of times and among any others. */
  predicate Includes(blocks: seq<seq<Bytes>>, txs: seq<Bytes>) {
    forall k :: 0 <= k < |txs| ==> exists b :: 0 <= b < |blocks| && txs[k] in blocks[b]
  }

  /** The message is in some entry of the blocks. */
  ghost predicate Read(parse: HotShot.TxParser, blocks: seq<seq<Bytes>>, start: nat, m: FeedMessage) {
    exists e :: e in HotShot.Entries(parse, blocks, start) && e.feedMessage == m
  }

  /** Some transaction of the blocks, out of those not in `own` if `foreign`, holds the message. */
  ghost predicate HeldBy(parse: HotShot.TxParser, blocks: seq<seq<Bytes>>, own: seq<Bytes>, foreign: bool, m: FeedMessage) {
    exists b, i ::
      && 0 <= b < |blocks| && 0 <= i < |blocks[b]|
      && (foreign <==> blocks[b][i] !in own) && m in parse(blocks[b][i])
  }

  lemma ReadIff(parse: HotShot.TxParser, blocks: seq<seq<Bytes>>, start: nat, own: seq<Bytes>, m: FeedMessage)
    ensures Read(parse, blocks, start, m) <==> HeldBy(parse, blocks, own, false, m) || HeldBy(parse, blocks, own, true, m)
  {
    if Read(parse, blocks, start, m) {
      var e :| e in HotShot.Entries(parse, blocks, start) && e.feedMessage == m;
      HotShot.EntryOfRange(parse, blocks, start, e);
      var b := e.hotshotHeight - start;
      BlockMember(parse, blocks[b], e.hotshotHeight, m);
      var i :| 0 <= i < |blocks[b]| && m in parse(blocks[b][i]);
    }
    forall b, i | 0 <= b < |blocks| && 0 <= i < |blocks[b]| && m in parse(blocks[b][i]) ensures Read(parse, blocks, start, m) {
      BlockMember(parse, blocks[b], start + b, m);
      HotShot.EntryOfRange(parse, blocks, start, Entry(m, start + b));
    }
  }

  /** When all of `own` is in the blocks, their own transactions hold exactly the messages of `own`. */
  lemma OwnIff(parse: HotShot.TxParser, blocks: seq<seq<Bytes>>, own: seq<Bytes>, m: FeedMessage)
    requires Includes(blocks, own)
    ensures HeldBy(parse, blocks, own, false, m) <==> exists k :: 0 <= k < |own| && m in parse(own[k])
  {
    if HeldBy(parse, blocks, own, false, m) {
      var b, i :| 0 <= b < |blocks| && 0 <= i < |blocks[b]| && blocks[b][i] in own && m in parse(blocks[b][i]);
      var k :| 0 <= k < |own| && own[k] == blocks[b][i];
    }
    if k :| 0 <= k < |own| && m in parse(own[k]) {
      var b :| 0 <= b < |blocks| && own[k] in blocks[b];
      var i :| 0 <= i < |blocks[b]| && blocks[b][i] == own[k];
      assert blocks[b][i] in own && m in parse(blocks[b][i]);
    }
  }

  predicate AllParse(c: Codec, payloads: seq<Bytes>) {
    forall i :: 0 <= i < |payloads| ==> Parse(c, payloads[i]).Ok?
  }

  lemma {:induction false} ParseAllParses(c: Codec, payloads: seq<Bytes>)
    requires ParseAll(c, payloads).Ok?
    ensures AllParse(c, payloads)
    decreases |payloads|
  {
    if payloads != [] {
      ParseAllParses(c, payloads[1..]);
      assert forall i :: 0 < i < |payloads| ==> payloads[i] == payloads[1..][i - 1];
    }
  }

  lemma DeliverableSlice(c: Codec, sent: seq<FeedMessage>, i: nat, j: nat)
    requires Deliverable(c, sent) && i <= j <= |sent|
    ensures Deliverable(c, sent[i..j])
  {
    assert forall k :: 0 <= k < j - i ==> sent[i..j][k] == sent[i + k];
    LawfulSlice(c, sent, i, j);
  }

  lemma {:induction false} BuiltParse(c: Codec, batches: seq<seq<FeedMessage>>, sent: seq<FeedMessage>)
    requires Deliverable(c, sent) && Flatten(batches) <= sent
    ensures AllParse(c, Built(Pack(c), batches))
    decreases |batches|
  {
    if batches != [] {
      var init, last := batches[..|batches| - 1], batches[|batches| - 1];
      var i := |Flatten(init)|;
      assert Flatten(init) == Flatten(batches)[..i];
      BuiltParse(c, init, sent);
      assert last == sent[i..i + |last|];
      DeliverableSlice(c, sent, i, i + |last|);
      ChunksCarry(c, last);
      ParseAllParses(c, Chunks(c, last));
    }
  }

  /**
   * When the submitter has stopped and its started transactions are on the chain, in any order, with any repetition by
   * resubmission and among any other transactions of the namespace: the entries read from the chain hold exactly the
   * messages that were sent and those of the other transactions.
   */
  lemma FeedReachesStreamer(
    maxInFlight: nat, maxPolls: nat, c: Codec, legacy: Legacy, actions: seq<Action<FeedMessage>>,
    blocks: seq<seq<Bytes>>, start: nat, m: FeedMessage)
    requires var s := Run(Config(maxInFlight, maxPolls, Pack(c)), actions);
      s.phase == Stopped && Deliverable(c, s.sent) && Includes(blocks, s.started)
    ensures var s := Run(Config(maxInFlight, maxPolls, Pack(c)), actions);
      Read(Parser(c, legacy), blocks, start, m) <==> m in s.sent || HeldBy(Parser(c, legacy), blocks, s.started, true, m)
  {
    var s := Run(Config(maxInFlight, maxPolls, Pack(c)), actions);
    ReadIff(Parser(c, legacy), blocks, start, s.started, m);
    OwnIff(Parser(c, legacy), blocks, s.started, m);
    StartedHold(maxInFlight, maxPolls, c, legacy, actions, m);
  }

  lemma StartedHold(
    maxInFlight: nat, maxPolls: nat, c: Codec, legacy: Legacy, actions: seq<Action<FeedMessage>>, m: FeedMessage)
    requires var s := Run(Config(maxInFlight, maxPolls, Pack(c)), actions); s.phase == Stopped && Deliverable(c, s.sent)
    ensures var s := Run(Config(maxInFlight, maxPolls, Pack(c)), actions);
      m in s.sent <==> exists k :: 0 <= k < |s.started| && m in Parser(c, legacy)(s.started[k])
  {
    var cfg := Config(maxInFlight, maxPolls, Pack(c));
    var s := Run(cfg, actions);
    PackPlaces(c, s.sent);
    StoppedHasAll(cfg, Unpack(c), actions);
    StartedParse(cfg, c, actions);
    CarriedMember(Unpack(c), s.started, m);
    assert forall k :: 0 <= k < |s.started| ==> Parser(c, legacy)(s.started[k]) == Unpack(c)(s.started[k]);
  }

  lemma StartedParse(cfg: Config<FeedMessage, Bytes>, c: Codec, actions: seq<Action<FeedMessage>>)
    requires cfg.build == Pack(c) && Deliverable(c, Run(cfg, actions).sent)
    ensures AllParse(c, Run(cfg, actions).started)
  {
    var s := Run(cfg, actions);
    RunKeeps(cfg, actions);
    assert Flatten(s.batches) <= s.sent;
    BuiltParse(c, s.batches, s.sent);
    StartedAreBuilt(cfg, actions);
    assert forall k :: 0 <= k < |s.started| ==> s.started[k] == Built(cfg.build, s.batches)[k];
  }
}
