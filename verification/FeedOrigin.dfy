/** Where an entry that the streamer reads comes from: the bytes of a transaction, and whose word is taken for them. */
module FeedOrigin {
  import opened Common
  import opened Messages
  import HotShot
  import LegacyPayload
  import LegacyForm
  import opened Payload
  import PayloadForm
  import opened FeedOnChain

  /** The transaction is in the current format and holds the message as a trusted one. */
  ghost predicate Current(c: Codec, tx: Bytes, m: FeedMessage) {
    exists ms :: PayloadForm.InForm(c, tx, ms) && m in ms
  }

  /** The transaction is in the older format only, and a listed signer wrote the message. */
  ghost predicate Older(c: Codec, legacy: Legacy, tx: Bytes, m: FeedMessage) {
    && (forall ms :: !PayloadForm.InForm(c, tx, ms))
    && LegacyForm.SignedEntry(legacy.recover, legacy.signers, tx, 0, Entry(m, 0))
  }

  lemma TxMessagesIff(c: Codec, legacy: Legacy, tx: Bytes, m: FeedMessage)
    ensures m in TxMessages(c, legacy, tx) <==> Current(c, tx, m) || Older(c, legacy, tx, m)
  {
    forall ms: seq<FeedMessage> ensures Parse(c, tx) == Ok(ms) <==> PayloadForm.InForm(c, tx, ms) {
      PayloadForm.ParseIff(c, tx, ms);
    }
    if Parse(c, tx).Ok? {
      assert PayloadForm.InForm(c, tx, Parse(c, tx).value);
    } else {
      LegacyMember(legacy, tx, m);
    }
  }

  lemma LegacyMember(legacy: Legacy, tx: Bytes, m: FeedMessage)
    ensures m in FeedOf(LegacyPayload.Entries(legacy.recover, legacy.signers, tx, 0))
       <==> LegacyForm.SignedEntry(legacy.recover, legacy.signers, tx, 0, Entry(m, 0))
  {
    var entries := LegacyPayload.Entries(legacy.recover, legacy.signers, tx, 0);
    LegacyForm.EntriesIff(legacy.recover, legacy.signers, tx, 0, Entry(m, 0));
    forall e | e in entries ensures e.hotshotHeight == 0 {
      LegacyForm.EntriesIff(legacy.recover, legacy.signers, tx, 0, e);
    }
    FeedMember(entries, m);
  }

  lemma FeedMember(entries: seq<Entry>, m: FeedMessage)
    requires forall e :: e in entries ==> e.hotshotHeight == 0
    ensures m in FeedOf(entries) <==> Entry(m, 0) in entries
  {
    if m in FeedOf(entries) {
      var i :| 0 <= i < |entries| && FeedOf(entries)[i] == m;
      assert entries[i] in entries;
    }
    if Entry(m, 0) in entries {
      var i :| 0 <= i < |entries| && entries[i] == Entry(m, 0);
      assert FeedOf(entries)[i] == m;
    }
  }

  /** Some transaction of the block holds the message. */
  ghost predicate HeldIn(c: Codec, legacy: Legacy, block: HotShot.Block, m: FeedMessage) {
    exists tx :: tx in block && (Current(c, tx, m) || Older(c, legacy, tx, m))
  }

  /**
   * An entry is read from a range of blocks exactly when the block at its height has a transaction that holds its
   * message, trusted in the current format or written by a listed signer in the older one.
   */
  lemma EntryOriginIff(c: Codec, legacy: Legacy, blocks: seq<HotShot.Block>, start: nat, e: Entry)
    ensures e in HotShot.Entries(Parser(c, legacy), blocks, start) <==>
      && start <= e.hotshotHeight < start + |blocks|
      && HeldIn(c, legacy, blocks[e.hotshotHeight - start], e.feedMessage)
  {
    if start <= e.hotshotHeight < start + |blocks| {
      BlockOriginIff(c, legacy, blocks[e.hotshotHeight - start], e.hotshotHeight, e.feedMessage);
    }
    RangeHeld(Parser(c, legacy), blocks, start, e);
  }

  lemma RangeHeld(parse: HotShot.TxParser, blocks: seq<HotShot.Block>, start: nat, e: Entry)
    ensures e in HotShot.Entries(parse, blocks, start) <==>
      && start <= e.hotshotHeight < start + |blocks|
      && Entry(e.feedMessage, e.hotshotHeight)
           in HotShot.BlockEntries(parse, blocks[e.hotshotHeight - start], e.hotshotHeight)
  {
    HotShot.EntryOfRange(parse, blocks, start, e);
    assert e == Entry(e.feedMessage, e.hotshotHeight);
  }

  lemma BlockOriginIff(c: Codec, legacy: Legacy, block: HotShot.Block, height: nat, m: FeedMessage)
    ensures Entry(m, height) in HotShot.BlockEntries(Parser(c, legacy), block, height) <==> HeldIn(c, legacy, block, m)
  {
    BlockMember(Parser(c, legacy), block, height, m);
    forall tx: Bytes ensures m in Parser(c, legacy)(tx) <==> Current(c, tx, m) || Older(c, legacy, tx, m) {
      TxMessagesIff(c, legacy, tx, m);
    }
    if tx :| tx in block && (Current(c, tx, m) || Older(c, legacy, tx, m)) {
      var i :| 0 <= i < |block| && block[i] == tx;
      assert m in Parser(c, legacy)(block[i]);
    }
  }
}
