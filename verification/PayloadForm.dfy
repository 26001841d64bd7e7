/** Which bytes are payloads of the current format, and what they hold. */
module PayloadForm {
  import opened Common
  import opened BigEndianInts
  import opened Messages
  import opened Payload

  function FrameAll(bodies: seq<Bytes>): Bytes {
    if bodies == [] then [] else Frame(bodies[0]) + FrameAll(bodies[1..])
  }

  /** Each body decodes to the message at its place. */
  ghost predicate Decodes(c: Codec, bodies: seq<Bytes>, all: seq<FeedMessage>) {
    && |bodies| == |all|
    && forall i :: 0 <= i < |bodies| ==> |bodies[i]| <= U64_MAX && c.decode(bodies[i]) == Some(all[i])
  }

  function Trusted(c: Codec, all: seq<FeedMessage>): seq<FeedMessage> {
    if all == [] then [] else (if c.trusted(all[0]) then [all[0]] else []) + Trusted(c, all[1..])
  }

  lemma {:induction false} TrustedMember(c: Codec, all: seq<FeedMessage>, m: FeedMessage)
    ensures m in Trusted(c, all) <==> m in all && c.trusted(m)
  {
    if all != [] {
      TrustedMember(c, all[1..], m);
      assert all == [all[0]] + all[1..];
    }
  }

  /** The bytes behind a size that fits begin with a frame. */
  lemma Unframe(buf: Bytes) returns (body: Bytes, rest: Bytes)
    requires |buf| >= WORD_SIZE && FromBigEndian(buf[..WORD_SIZE]) <= |buf| - WORD_SIZE
    ensures |body| == FromBigEndian(buf[..WORD_SIZE]) <= U64_MAX && buf == Frame(body) + rest
    ensures body == buf[WORD_SIZE..WORD_SIZE + |body|] && rest == buf[WORD_SIZE + |body|..]
  {
    var size := FromBigEndian(buf[..WORD_SIZE]);
    body, rest := buf[WORD_SIZE..WORD_SIZE + size], buf[WORD_SIZE + size..];
    WordOf(buf[..WORD_SIZE]);
    assert buf == buf[..WORD_SIZE] + body + rest;
  }

  lemma {:induction false} FramesForm(c: Codec, buf: Bytes) returns (bodies: seq<Bytes>, all: seq<FeedMessage>)
    requires ParseFrames(c, buf).Ok?
    ensures Decodes(c, bodies, all) && buf == FrameAll(bodies) && ParseFrames(c, buf) == Ok(Trusted(c, all))
    decreases |buf|
  {
    if buf == [] {
      return [], [];
    }
    var body, rest := Unframe(buf);
    var m := c.decode(body).value;
    var more, others := FramesForm(c, rest);
    bodies, all := [body] + more, [m] + others;
    assert bodies[1..] == more && all[1..] == others;
  }

  lemma {:induction false} FormParses(c: Codec, bodies: seq<Bytes>, all: seq<FeedMessage>)
    requires Decodes(c, bodies, all)
    ensures ParseFrames(c, FrameAll(bodies)) == Ok(Trusted(c, all))
    decreases |bodies|
  {
    if bodies != [] {
      FormParses(c, bodies[1..], all[1..]);
      ParseFrame(c, bodies[0], all[0], FrameAll(bodies[1..]));
    }
  }

  /** The framed version tag, then framed messages; `ms` are the trusted ones among them, in order. */
  ghost predicate InForm(c: Codec, payload: Bytes, ms: seq<FeedMessage>) {
    exists header, bodies, all ::
      && payload == Frame(header) + FrameAll(bodies)
      && |header| <= U64_MAX && c.isV1(header)
      && Decodes(c, bodies, all) && ms == Trusted(c, all)
  }

  lemma HeaderParses(c: Codec, header: Bytes, rest: Bytes)
    requires |header| <= U64_MAX && c.isV1(header)
    ensures Parse(c, Frame(header) + rest) == ParseFrames(c, rest)
  {
    var payload := Frame(header) + rest;
    Pow256OfWord();
    FixedInverse(|header|, WORD_SIZE);
    assert payload[..WORD_SIZE] == Fixed(|header|, WORD_SIZE);
    assert payload[WORD_SIZE..WORD_SIZE + |header|] == header;
    assert payload[WORD_SIZE + |header|..] == rest;
  }

  /** A payload parses to these messages exactly when it has that form. */
  lemma ParseIff(c: Codec, payload: Bytes, ms: seq<FeedMessage>)
    ensures Parse(c, payload) == Ok(ms) <==> InForm(c, payload, ms)
  {
    if Parse(c, payload) == Ok(ms) {
      var header, rest := Unframe(payload);
      var bodies, all := FramesForm(c, rest);
      assert payload == Frame(header) + FrameAll(bodies);
    }
    forall header: Bytes, bodies: seq<Bytes>, all: seq<FeedMessage>
      | payload == Frame(header) + FrameAll(bodies) && |header| <= U64_MAX && c.isV1(header)
        && Decodes(c, bodies, all) && ms == Trusted(c, all)
      ensures Parse(c, payload) == Ok(ms)
    {
      HeaderParses(c, header, FrameAll(bodies));
      FormParses(c, bodies, all);
    }
  }
}
