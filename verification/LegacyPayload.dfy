/** Payloads of the older binary format: a signature, then numbered RLP messages. */
module LegacyPayload {
  import opened Common
  import opened BigEndianInts
  import opened Messages
  import opened Rlp
  import opened MessageRlp

  datatype LegacyError = ShortSignatureSize | ShortSignature | ShortIndex | ShortMessage

  datatype Item = Item(index: U64, message: Bytes)

  /** `signed` is the part of the payload that the signature covers. */
  datatype Parsed = Parsed(signature: Bytes, signed: Bytes, items: seq<Item>)

  // ---- the format ----

  function EncodeItem(x: Item): Bytes {
    Fixed(x.index, WORD_SIZE) + Fixed(|x.message|, WORD_SIZE) + x.message
  }

  function EncodeItems(items: seq<Item>): Bytes {
    if items == [] then [] else EncodeItem(items[0]) + EncodeItems(items[1..])
  }

  function Encode(signature: Bytes, items: seq<Item>): Bytes {
    Fixed(|signature|, WORD_SIZE) + signature + EncodeItems(items)
  }

  /** The item at the front of `buf`. */
  function FirstItem(buf: Bytes): (r: Result<Item, LegacyError>)
    ensures r.Ok? ==> WORD_SIZE + WORD_SIZE + |r.value.message| <= |buf|
  {
    if |buf| < WORD_SIZE + WORD_SIZE then Err(ShortIndex)
    else
      var size := ReadWord(buf[8..16]);
      if |buf| - 16 < size then Err(ShortMessage) else Ok(Item(ReadWord(buf[..8]), buf[16..16 + size]))
  }

  /** All items, also those without a message. */
  function CutItems(buf: Bytes): Result<seq<Item>, LegacyError>
    decreases |buf|
  {
    if buf == [] then Ok([])
    else
      var x :- FirstItem(buf);
      Followed([x], CutItems(buf[16 + |x.message|..]))
  }

  function NonEmpty(items: seq<Item>): seq<Item> {
    if items == [] then []
    else NonEmpty(items[..|items| - 1]) + (if items[|items| - 1].message == [] then [] else [items[|items| - 1]])
  }

  function Parse(payload: Bytes): Result<Parsed, LegacyError> {
    if |payload| < WORD_SIZE then Err(ShortSignatureSize)
    else
      var n := ReadWord(payload[..8]);
      if |payload| - WORD_SIZE < n then Err(ShortSignature)
      else
        var items :- CutItems(payload[8 + n..]);
        Ok(Parsed(payload[8..8 + n], payload[8 + n..], NonEmpty(items)))
  }

  // ---- the loop ----

  function Indices(items: seq<Item>): seq<U64> {
    seq(|items|, i requires 0 <= i < |items| => items[i].index)
  }

  function Contents(items: seq<Item>): seq<Bytes> {
    seq(|items|, i requires 0 <= i < |items| => items[i].message)
  }

  /** The reads of one turn: index, size and message at `pos`. */
  method ReadItem(payload: Bytes, pos: nat) returns (r: Result<Item, LegacyError>)
    requires pos <= |payload|
    ensures r == FirstItem(payload[pos..])
  {
    ghost var buf := payload[pos..];
    if |payload[pos..]| < WORD_SIZE + WORD_SIZE {
      return Err(ShortIndex);
    }
    var index := ReadWord(payload[pos..pos + WORD_SIZE]);
    var size: nat := ReadWord(payload[pos + WORD_SIZE..pos + WORD_SIZE + WORD_SIZE]);
    assert buf[..8] == payload[pos..pos + 8] && buf[8..16] == payload[pos + 8..pos + 16];
    var next := pos + WORD_SIZE + WORD_SIZE;
    if |payload[next..]| < size {
      return Err(ShortMessage);
    }
    assert buf[16..16 + size] == payload[next..next + size];
    r := Ok(Item(index, payload[next..next + size]));
  }

  /** Two lists grow together; items without a message are dropped. */
  method ParseItems(payload: Bytes, start: nat) returns (r: Result<(seq<U64>, seq<Bytes>), LegacyError>, ghost items: seq<Item>)
    requires start <= |payload|
    ensures r.Ok? ==> CutItems(payload[start..]) == Ok(items)
    ensures r.Ok? ==> r.value.0 == Indices(NonEmpty(items)) && r.value.1 == Contents(NonEmpty(items))
    ensures r.Err? ==> CutItems(payload[start..]) == Err(r.error)
  {
    var indices: seq<U64> := [];
    var messages: seq<Bytes> := [];
    var pos := start;
    items := [];
    CutFromEnds(payload, start, []);
    while pos < |payload|
      invariant pos <= |payload|
      invariant CutFrom(payload, pos, items) == CutFrom(payload, start, [])
      invariant indices == Indices(NonEmpty(items)) && messages == Contents(NonEmpty(items))
    {
      CutAt(payload, pos, items);
      var x := ReadItem(payload, pos);
      if x.Err? {
        return Err(x.error), items;
      }
      var index, message := x.value.index, x.value.message;
      pos := pos + WORD_SIZE + WORD_SIZE + |message|;
      NonEmptySnoc(items, x.value);
      items := items + [x.value];
      if message == [] {
        continue;
      }
      indices := indices + [index];
      messages := messages + [message];
    }
    CutFromEnds(payload, pos, items);
    return Ok((indices, messages)), items;
  }

  /** The items found before `pos`, and then those from there on. */
  ghost function CutFrom(payload: Bytes, pos: nat, items: seq<Item>): Result<seq<Item>, LegacyError>
    requires pos <= |payload|
  {
    Followed(items, CutItems(payload[pos..]))
  }

  lemma CutFromEnds(payload: Bytes, pos: nat, items: seq<Item>)
    requires pos <= |payload|
    ensures CutFrom(payload, pos, []) == CutItems(payload[pos..])
    ensures pos == |payload| ==> CutFrom(payload, pos, items) == Ok(items)
  {
    FollowedEnds(items, CutItems(payload[pos..]));
  }

  lemma NonEmptySnoc(items: seq<Item>, x: Item)
    ensures NonEmpty(items + [x]) == NonEmpty(items) + (if x.message == [] then [] else [x])
    ensures x.message == [] ==> NonEmpty(items + [x]) == NonEmpty(items)
    ensures x.message != [] ==>
      && Indices(NonEmpty(items + [x])) == Indices(NonEmpty(items)) + [x.index]
      && Contents(NonEmpty(items + [x])) == Contents(NonEmpty(items)) + [x.message]
  {
    assert (items + [x])[..|items|] == items;
  }

  /** What one turn of the loop adds. */
  lemma CutAt(payload: Bytes, pos: nat, items: seq<Item>)
    requires pos < |payload|
    ensures match FirstItem(payload[pos..])
      case Err(e) => CutFrom(payload, pos, items) == Err(e)
      case Ok(x) => CutFrom(payload, pos, items) == CutFrom(payload, pos + 16 + |x.message|, items + [x])
  {
    var buf := payload[pos..];
    if FirstItem(buf).Ok? {
      var x := FirstItem(buf).value;
      assert buf[16 + |x.message|..] == payload[pos + 16 + |x.message|..];
      FollowedConcat(items, [x], CutItems(buf[16 + |x.message|..]));
    }
  }

  /** The entries of a payload whose signature recovers, over the signed part, to a listed signer. */
  function Entries(recover: (Bytes, Bytes) -> Option<Bytes>, signers: seq<Bytes>, payload: Bytes, height: nat): seq<Entry> {
    match Parse(payload)
    case Err(_) => []
    case Ok(p) =>
      match recover(p.signed, p.signature)
      case None => []
      case Some(signer) => if signer in signers then Decodable(ReadMessage, p.items, height) else []
  }

  function ReadMessage(b: Bytes): Result<MessageWithMetadata, Error> {
    Exact(DecodeMessageWithMetadata(b))
  }

  type MessageReader = Bytes -> Result<MessageWithMetadata, Error>

  function EntryAt(index: U64, m: MessageWithMetadata, height: nat): Entry {
    Entry(FeedMessage(index, m, None, [], []), height)
  }

  /** Items that decode, in order; the others are skipped. */
  function Decodable(read: MessageReader, items: seq<Item>, height: nat): seq<Entry> {
    if items == [] then []
    else Decodable(read, items[..|items| - 1], height) + DecodeOne(read, items[|items| - 1], height)
  }

  function DecodeOne(read: MessageReader, x: Item, height: nat): seq<Entry> {
    match read(x.message)
    case Err(_) => []
    case Ok(m) => [EntryAt(x.index, m, height)]
  }

  /** The parsed transaction: numbers and messages in two lists. */
  datatype Transaction = Transaction(signature: Bytes, signed: Bytes, indices: seq<U64>, messages: seq<Bytes>)

  function AsTransaction(p: Parsed): Transaction {
    Transaction(p.signature, p.signed, Indices(p.items), Contents(p.items))
  }

  method ParsePayloadBytes(payload: Bytes) returns (r: Result<Transaction, LegacyError>)
    ensures r == match Parse(payload) case Err(e) => Err(e) case Ok(p) => Ok(AsTransaction(p))
  {
    if |payload| < WORD_SIZE {
      return Err(ShortSignatureSize);
    }
    var n: nat := ReadWord(payload[..8]);
    if |payload[8..]| < n {
      return Err(ShortSignature);
    }
    var parsed, items := ParseItems(payload, 8 + n);
    if parsed.Err? {
      return Err(parsed.error);
    }
    r := Ok(Transaction(payload[8..8 + n], payload[8 + n..], parsed.value.0, parsed.value.1));
  }

  method ParseLegacyPayload(recover: (Bytes, Bytes) -> Option<Bytes>, signers: seq<Bytes>, payload: Bytes, height: nat)
    returns (entries: seq<Entry>)
    ensures entries == Entries(recover, signers, payload, height)
  {
    var parsed := ParsePayloadBytes(payload);
    if parsed.Err? {
      return [];
    }
    var tx := parsed.value;
    var signer := recover(tx.signed, tx.signature);
    if signer.None? || signer.value !in signers {
      return [];
    }
    entries := DecodeAll(ReadMessage, tx.indices, tx.messages, height, Parse(payload).value.items);
  }

  /** The two lists have the same length, so the length check between them never fails. */
  method DecodeAll(read: MessageReader, indices: seq<U64>, messages: seq<Bytes>, height: nat, ghost items: seq<Item>)
    returns (entries: seq<Entry>)
    requires indices == Indices(items) && messages == Contents(items)
    ensures entries == Decodable(read, items, height)
  {
    entries := [];
    for i := 0 to |messages|
      invariant entries == Decodable(read, items[..i], height)
    {
      assert items[..i + 1][..i] == items[..i];
      var m := read(messages[i]);
      if m.Ok? {
        entries := entries + [EntryAt(indices[i], m.value, height)];
      }
    }
    assert items[..|items|] == items;
  }

  // ---- round trips ----

  lemma FirstOfEncoded(x: Item, rest: Bytes)
    requires |x.message| <= U64_MAX
    ensures FirstItem(EncodeItem(x) + rest) == Ok(x)
    ensures (EncodeItem(x) + rest)[16 + |x.message|..] == rest
  {
    var buf := EncodeItem(x) + rest;
    Pow256OfWord();
    FixedInverse(x.index, WORD_SIZE);
    FixedInverse(|x.message|, WORD_SIZE);
    assert buf[..8] == Fixed(x.index, 8) && buf[8..16] == Fixed(|x.message|, 8);
    assert buf[16..16 + |x.message|] == x.message;
  }

  predicate Sized(items: seq<Item>) {
    forall i :: 0 <= i < |items| ==> |items[i].message| <= U64_MAX
  }

  lemma {:induction false} CutEncoded(items: seq<Item>)
    requires Sized(items)
    ensures CutItems(EncodeItems(items)) == Ok(items)
  {
    if items != [] {
      CutEncoded(items[1..]);
      FirstOfEncoded(items[0], EncodeItems(items[1..]));
      assert items == [items[0]] + items[1..];
    }
  }

  lemma EncodedFirst(buf: Bytes)
    requires FirstItem(buf).Ok?
    ensures buf == EncodeItem(FirstItem(buf).value) + buf[16 + |FirstItem(buf).value.message|..]
  {
    FixedOf(buf[..8]);
    FixedOf(buf[8..16]);
  }

  lemma {:induction false} EncodedCut(buf: Bytes)
    requires CutItems(buf).Ok?
    ensures EncodeItems(CutItems(buf).value) == buf && Sized(CutItems(buf).value)
    decreases |buf|
  {
    if buf != [] {
      var x := FirstItem(buf).value;
      var rest := buf[16 + |x.message|..];
      EncodedFirst(buf);
      EncodedCut(rest);
      assert ([x] + CutItems(rest).value)[1..] == CutItems(rest).value;
    }
  }

  /** The items found are exactly those written, and nothing but a list of items is accepted. */
  lemma CutIff(buf: Bytes, items: seq<Item>)
    ensures CutItems(buf) == Ok(items) <==> buf == EncodeItems(items) && Sized(items)
  {
    if CutItems(buf) == Ok(items) {
      EncodedCut(buf);
    }
    if Sized(items) {
      CutEncoded(items);
    }
  }

  /** The entries the items stand for, when the reader finds these messages in them. */
  function EntriesOf(indices: seq<U64>, messages: seq<MessageWithMetadata>, height: nat): seq<Entry>
    requires |indices| == |messages|
  {
    seq(|indices|, i requires 0 <= i < |indices| => EntryAt(indices[i], messages[i], height))
  }

  predicate Holds(read: MessageReader, items: seq<Item>, messages: seq<MessageWithMetadata>) {
    && |items| == |messages|
    && forall i :: 0 <= i < |items| ==> items[i].message != [] && read(items[i].message) == Ok(messages[i])
  }

  lemma {:induction false} AllNonEmpty(items: seq<Item>)
    requires forall i :: 0 <= i < |items| ==> items[i].message != []
    ensures NonEmpty(items) == items
  {
    if items != [] {
      AllNonEmpty(items[..|items| - 1]);
    }
  }

  lemma EntriesOfSnoc(indices: seq<U64>, messages: seq<MessageWithMetadata>, height: nat)
    requires |indices| == |messages| > 0
    ensures var n := |indices| - 1;
      EntriesOf(indices, messages, height)
      == EntriesOf(indices[..n], messages[..n], height) + [EntryAt(indices[n], messages[n], height)]
  {
  }

  lemma {:induction false} AllDecode(read: MessageReader, items: seq<Item>, messages: seq<MessageWithMetadata>, height: nat)
    requires Holds(read, items, messages)
    ensures Decodable(read, items, height) == EntriesOf(Indices(items), messages, height)
    decreases |items|
  {
    if items != [] {
      var n := |items| - 1;
      AllDecode(read, items[..n], messages[..n], height);
      assert Indices(items)[..n] == Indices(items[..n]);
      EntriesOfSnoc(Indices(items), messages, height);
      assert DecodeOne(read, items[n], height) == [EntryAt(items[n].index, messages[n], height)];
    }
  }

  lemma ParseEncoded(signature: Bytes, items: seq<Item>)
    requires |signature| <= U64_MAX && Sized(items)
    ensures Parse(Encode(signature, items)) == Ok(Parsed(signature, EncodeItems(items), NonEmpty(items)))
  {
    CutEncoded(items);
    var payload := Encode(signature, items);
    Pow256OfWord();
    FixedInverse(|signature|, WORD_SIZE);
    assert payload[..8] == Fixed(|signature|, 8);
    assert payload[8..8 + |signature|] == signature && payload[8 + |signature|..] == EncodeItems(items);
  }

  predicate Writable(m: MessageWithMetadata) {
    (m.message.Some? ==> ValidMessage(m.message.value)) && |WithMetadata(m)[0]| <= MAX_VEC
  }

  /** The items carry these messages, written as a node of the rollup writes them. */
  predicate Written(items: seq<Item>, messages: seq<MessageWithMetadata>) {
    && |items| == |messages|
    && forall i :: 0 <= i < |items| ==> Writable(messages[i]) && items[i].message == EncodeMessageWithMetadata(messages[i])
  }

  function Received(messages: seq<MessageWithMetadata>): seq<MessageWithMetadata> {
    seq(|messages|, i requires 0 <= i < |messages| => NormWithMetadata(messages[i]))
  }

  /**
   * Messages written in the old format and signed by a listed signer come back as entries in the same order, with
   * their numbers, the height of the block and the normal form of their contents.
   */
  lemma LegacyRoundTrip(
    recover: (Bytes, Bytes) -> Option<Bytes>, signers: seq<Bytes>, signer: Bytes, signature: Bytes,
    items: seq<Item>, messages: seq<MessageWithMetadata>, height: nat)
    requires Written(items, messages) && |signature| <= U64_MAX
    requires signer in signers && recover(EncodeItems(items), signature) == Some(signer)
    ensures Entries(recover, signers, Encode(signature, items), height)
         == EntriesOf(Indices(items), Received(messages), height)
  {
    forall i | 0 <= i < |items|
      ensures items[i].message != [] && |items[i].message| <= U64_MAX && ReadMessage(items[i].message) == Ok(Received(messages)[i])
    {
      MetadataExact(messages[i]);
    }
    ParseEncoded(signature, items);
    AllNonEmpty(items);
    AllDecode(ReadMessage, items, Received(messages), height);
  }
}
