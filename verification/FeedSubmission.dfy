/** The submitter run with the payload builder of the feed. */
module FeedSubmission {
  import opened Common
  import opened Messages
  import opened Payload
  import opened Submitter

  /** The constructor handed to the submitter, on lists it finishes with. */
  function Pack(c: Codec): seq<FeedMessage> -> seq<Bytes> {
    (msgs: seq<FeedMessage>) => if AllPlaceable(c, msgs) then Chunks(c, msgs) else []
  }

  /** What a reader of the chain finds in a payload. */
  function Unpack(c: Codec): Bytes -> seq<FeedMessage> {
    (payload: Bytes) => match Parse(c, payload) case Ok(msgs) => msgs case Err(_) => []
  }

  /** Every message can be encoded, fits a payload and passes the signature check. */
  predicate Deliverable(c: Codec, msgs: seq<FeedMessage>) {
    && Lawful(c, msgs) && AllPlaceable(c, msgs)
    && forall i :: 0 <= i < |msgs| ==> KeptOne(c, msgs[i]) == [msgs[i]]
  }

  lemma {:induction false} KeptAll(c: Codec, msgs: seq<FeedMessage>)
    requires forall i :: 0 <= i < |msgs| ==> KeptOne(c, msgs[i]) == [msgs[i]]
    ensures Kept(c, msgs) == msgs
    decreases |msgs|
  {
    if msgs != [] {
      KeptAll(c, msgs[1..]);
      assert msgs == [msgs[0]] + msgs[1..];
    }
  }

  lemma {:induction false} ParseAllIsCarried(c: Codec, payloads: seq<Bytes>)
    requires ParseAll(c, payloads).Ok?
    ensures Carried(Unpack(c), payloads) == ParseAll(c, payloads).value
    decreases |payloads|
  {
    if payloads != [] {
      var first, rest := payloads[..1], payloads[1..];
      ParseAllIsCarried(c, rest);
      CarriedConcat(Unpack(c), first, rest);
      assert first + rest == payloads;
      CarriedOne(c, payloads[0]);
      assert first == [payloads[0]];
    }
  }

  lemma CarriedOne(c: Codec, payload: Bytes)
    ensures Carried(Unpack(c), [payload]) == Unpack(c)(payload)
  {
    assert [payload][..0] == [];
  }

  lemma PackPlaces(c: Codec, sent: seq<FeedMessage>)
    requires Deliverable(c, sent)
    ensures Places(Pack(c), Unpack(c), sent)
  {
    forall i, j | 0 <= i <= j <= |sent| ensures Carried(Unpack(c), Pack(c)(sent[i..j])) == sent[i..j] {
      var part := sent[i..j];
      assert forall k :: 0 <= k < |part| ==> part[k] == sent[i + k];
      LawfulSlice(c, sent, i, j);
      ChunksCarry(c, part);
      KeptAll(c, part);
      ParseAllIsCarried(c, Chunks(c, part));
    }
  }

  /**
   * In every run over deliverable messages, reading the started payloads back, then the held and the queued ones, then
   * the pending messages and the channel, gives exactly the messages sent, in order.
   */
  lemma FeedConserved(maxInFlight: nat, maxPolls: nat, c: Codec, actions: seq<Action<FeedMessage>>)
    requires Deliverable(c, Run(Config(maxInFlight, maxPolls, Pack(c)), actions).sent)
    ensures var s := Run(Config(maxInFlight, maxPolls, Pack(c)), actions);
            s.sent == Carried(Unpack(c), s.started) + Carried(Unpack(c), s.held) + Carried(Unpack(c), s.queue) + s.pending + s.channel
  {
    var cfg := Config(maxInFlight, maxPolls, Pack(c));
    PackPlaces(c, Run(cfg, actions).sent);
    MessagesConserved(cfg, Unpack(c), actions);
  }
}
