/** Which bytes are payloads of the older format, and which entries they yield. */
module LegacyForm {
  import opened Common
  import opened BigEndianInts
  import opened Messages
  import opened LegacyPayload

  /** A signature and items, written out. */
  ghost predicate Form(payload: Bytes, signature: Bytes, items: seq<Item>) {
    payload == Encode(signature, items) && |signature| <= U64_MAX && Sized(items)
  }

  lemma ParseForm(payload: Bytes) returns (items: seq<Item>)
    requires Parse(payload).Ok?
    ensures var p := Parse(payload).value;
      Form(payload, p.signature, items) && p.signed == EncodeItems(items) && p.items == NonEmpty(items)
  {
    var n := ReadWord(payload[..8]);
    items := CutItems(payload[8 + n..]).value;
    EncodedCut(payload[8 + n..]);
    SignatureForm(payload, n);
  }

  lemma SignatureForm(payload: Bytes, n: nat)
    requires 8 + n <= |payload| && n == ReadWord(payload[..8])
    ensures payload == Fixed(n, WORD_SIZE) + payload[8..8 + n] + payload[8 + n..]
  {
    WordOf(payload[..8]);
    assert payload == payload[..8] + payload[8..8 + n] + payload[8 + n..];
  }

  lemma {:induction false} NonEmptyMember(items: seq<Item>, x: Item)
    ensures x in NonEmpty(items) <==> x in items && x.message != []
  {
    if items != [] {
      var n := |items| - 1;
      NonEmptyMember(items[..n], x);
      assert items == items[..n] + [items[n]];
    }
  }

  /** The entry is what the message of an item decodes to, under the item's number and at this height. */
  ghost predicate ReadFrom(read: MessageReader, x: Item, height: nat, e: Entry) {
    read(x.message).Ok? && e == Entry(FeedMessage(x.index, read(x.message).value, None, [], []), height)
  }

  lemma {:induction false} DecodableMember(read: MessageReader, items: seq<Item>, height: nat, e: Entry)
    ensures e in Decodable(read, items, height) <==> exists x :: x in items && ReadFrom(read, x, height, e)
  {
    if items != [] {
      var n := |items| - 1;
      DecodableMember(read, items[..n], height, e);
      assert items == items[..n] + [items[n]] && items[n] in items;
      assert e in DecodeOne(read, items[n], height) <==> ReadFrom(read, items[n], height, e);
      if x :| x in items[..n] && ReadFrom(read, x, height, e) {
        assert x in items;
      }
    }
  }

  /** `payload` is written by a listed signer, and `e` is read from one of its items with a message. */
  ghost predicate SignedEntry(
    recover: (Bytes, Bytes) -> Option<Bytes>, signers: seq<Bytes>, payload: Bytes, height: nat, e: Entry)
  {
    exists signature: Bytes, items: seq<Item>, x: Item ::
      && Form(payload, signature, items)
      && Listed(recover(EncodeItems(items), signature), signers)
      && x in items && x.message != [] && ReadFrom(ReadMessage, x, height, e)
  }

  predicate Listed(signer: Option<Bytes>, signers: seq<Bytes>) {
    signer.Some? && signer.value in signers
  }

  /** An entry is read from a payload exactly when a listed signer wrote it there. */
  lemma EntriesIff(
    recover: (Bytes, Bytes) -> Option<Bytes>, signers: seq<Bytes>, payload: Bytes, height: nat, e: Entry)
    ensures e in Entries(recover, signers, payload, height) <==> SignedEntry(recover, signers, payload, height, e)
  {
    if e in Entries(recover, signers, payload, height) {
      var p := Parse(payload).value;
      var items := ParseForm(payload);
      DecodableMember(ReadMessage, p.items, height, e);
      var x :| x in p.items && ReadFrom(ReadMessage, x, height, e);
      NonEmptyMember(items, x);
      assert Form(payload, p.signature, items);
    }
    forall signature: Bytes, items: seq<Item>, x: Item
      | Form(payload, signature, items) && Listed(recover(EncodeItems(items), signature), signers)
        && x in items && x.message != [] && ReadFrom(ReadMessage, x, height, e)
      ensures e in Entries(recover, signers, payload, height)
    {
      ParseEncoded(signature, items);
      NonEmptyMember(items, x);
      DecodableMember(ReadMessage, NonEmpty(items), height, e);
    }
  }

  /** Nothing is read from a payload unless it is in this form and its signature recovers to a listed signer. */
  lemma StrangerYieldsNothing(
    recover: (Bytes, Bytes) -> Option<Bytes>, signers: seq<Bytes>, payload: Bytes, height: nat)
    requires Entries(recover, signers, payload, height) != []
    ensures exists signature, items ::
      Form(payload, signature, items) && Listed(recover(EncodeItems(items), signature), signers)
  {
    var e := Entries(recover, signers, payload, height)[0];
    EntriesIff(recover, signers, payload, height, e);
    var signature: Bytes, items: seq<Item>, x: Item :|
      && Form(payload, signature, items)
      && Listed(recover(EncodeItems(items), signature), signers)
      && x in items && x.message != [] && ReadFrom(ReadMessage, x, height, e);
  }
}
