/** Packs feed messages into transaction payloads and unpacks them again. */
module Payload {
  import opened Common
  import opened BigEndianInts
  import opened Messages

  const MAX_SIZE: nat := 900 * 1024
  /** The version tag as JSON: the text V1 in quotes. */
  const HEADER: Bytes := [0x22, 0x56, 0x31, 0x22]

  /** The JSON codec of messages, its reader of the version tag, and the signature check. */
  datatype Codec = Codec(
    encode: FeedMessage -> Option<Bytes>,
    decode: Bytes -> Option<FeedMessage>,
    isV1: Bytes -> bool,
    trusted: FeedMessage -> bool)

  /** On these messages decoding undoes encoding, and the length fits the size field. */
  predicate Lawful(c: Codec, msgs: seq<FeedMessage>) {
    && c.isV1(HEADER)
    && forall i :: 0 <= i < |msgs| && c.encode(msgs[i]).Some? ==>
         |c.encode(msgs[i]).value| <= U64_MAX && c.decode(c.encode(msgs[i]).value) == Some(msgs[i])
  }

  // ---- building ----

  function Frame(b: Bytes): Bytes {
    Fixed(|b|, WORD_SIZE) + b
  }

  function Framed(c: Codec, m: FeedMessage): Bytes {
    match c.encode(m)
    case None => []
    case Some(b) => Frame(b)
  }

  function AllFramed(c: Codec, msgs: seq<FeedMessage>): Bytes {
    if msgs == [] then [] else AllFramed(c, msgs[..|msgs| - 1]) + Framed(c, msgs[|msgs| - 1])
  }

  /** The payload that carries exactly these messages. */
  function Carrying(c: Codec, msgs: seq<FeedMessage>): Bytes {
    Frame(HEADER) + AllFramed(c, msgs)
  }

  function FrameSize(c: Codec, m: FeedMessage): nat {
    match c.encode(m)
    case None => 0
    case Some(b) => WORD_SIZE + |b|
  }

  /** Size of the payload that carries the first `n` messages. */
  function Size(c: Codec, msgs: seq<FeedMessage>, n: nat): nat
    requires n <= |msgs|
  {
    if n == 0 then WORD_SIZE + |HEADER| else Size(c, msgs, n - 1) + FrameSize(c, msgs[n - 1])
  }

  /** `n` is the longest prefix that fits: it fits, and the next message does not. */
  predicate Longest(c: Codec, msgs: seq<FeedMessage>, n: nat) {
    n <= |msgs| && Size(c, msgs, n) <= MAX_SIZE && (n < |msgs| ==> Size(c, msgs, n + 1) > MAX_SIZE)
  }

  lemma CarryingSnoc(c: Codec, msgs: seq<FeedMessage>, n: nat)
    requires n < |msgs|
    ensures Carrying(c, msgs[..n + 1]) == Carrying(c, msgs[..n]) + Framed(c, msgs[n])
  {
    assert msgs[..n + 1][..n] == msgs[..n];
  }

  lemma {:induction false} SizeIsLength(c: Codec, msgs: seq<FeedMessage>, n: nat)
    requires n <= |msgs|
    ensures |Carrying(c, msgs[..n])| == Size(c, msgs, n)
  {
    if n > 0 {
      SizeIsLength(c, msgs, n - 1);
      CarryingSnoc(c, msgs, n - 1);
    }
  }

  /** A vector of messages that the builder drains. */
  class Pending {
    var messages: seq<FeedMessage>

    constructor (messages: seq<FeedMessage>)
      ensures this.messages == messages
    {
      this.messages := messages;
    }
  }

  /** Takes messages off the front until the payload is full; messages that cannot be encoded are dropped. */
  method BuildPayload(c: Codec, pending: Pending) returns (payload: Bytes, ghost n: nat)
    modifies pending
    ensures Longest(c, old(pending.messages), n)
    ensures payload == Carrying(c, old(pending.messages)[..n]) && |payload| <= MAX_SIZE
    ensures pending.messages == old(pending.messages)[n..]
  {
    var messages := pending.messages;
    payload := Fixed(|HEADER|, WORD_SIZE) + HEADER;
    assert payload == Carrying(c, messages[..0]);
    var count := 0;
    while count < |messages|
      invariant 0 <= count <= |messages|
      invariant payload == Carrying(c, messages[..count])
      invariant |payload| == Size(c, messages, count) <= MAX_SIZE
    {
      CarryingSnoc(c, messages, count);
      var encoded := c.encode(messages[count]);
      if encoded.Some? {
        if |payload| + WORD_SIZE + |encoded.value| > MAX_SIZE {
          // The version tag is already there, so the branch for an empty payload is never taken.
          assert payload != [];
          break;
        }
        payload := payload + (Fixed(|encoded.value|, WORD_SIZE) + encoded.value);
      }
      count := count + 1;
    }
    pending.messages, n := messages[count..], count;
  }

  lemma {:induction false} SizeGrows(c: Codec, msgs: seq<FeedMessage>, i: nat, j: nat)
    requires i <= j <= |msgs|
    ensures Size(c, msgs, i) <= Size(c, msgs, j)
    decreases j - i
  {
    if i < j {
      SizeGrows(c, msgs, i, j - 1);
    }
  }

  /** So the messages taken are determined. */
  lemma LongestIsUnique(c: Codec, msgs: seq<FeedMessage>, i: nat, j: nat)
    requires Longest(c, msgs, i) && Longest(c, msgs, j)
    ensures i == j
  {
    if i < j {
      SizeGrows(c, msgs, i + 1, j);
    } else if j < i {
      SizeGrows(c, msgs, j + 1, i);
    }
  }

  // ---- parsing ----

  datatype PayloadError = ShortHeaderSize | ShortHeader | BadHeader | ShortSize | ShortMessage | BadMessage

  /** The trusted messages of a run of frames. */
  function ParseFrames(c: Codec, buf: Bytes): Result<seq<FeedMessage>, PayloadError>
    decreases |buf|
  {
    if buf == [] then Ok([])
    else if |buf| < WORD_SIZE then Err(ShortSize)
    else
      var size := FromBigEndian(buf[..WORD_SIZE]);
      if |buf| - WORD_SIZE < size then Err(ShortMessage)
      else
        match c.decode(buf[WORD_SIZE..WORD_SIZE + size])
        case None => Err(BadMessage)
        case Some(m) =>
          var more :- ParseFrames(c, buf[WORD_SIZE + size..]);
          Ok((if c.trusted(m) then [m] else []) + more)
  }

  function Parse(c: Codec, payload: Bytes): Result<seq<FeedMessage>, PayloadError> {
    if |payload| < WORD_SIZE then Err(ShortHeaderSize)
    else
      var size := FromBigEndian(payload[..WORD_SIZE]);
      if |payload| - WORD_SIZE < size then Err(ShortHeader)
      else if !c.isV1(payload[WORD_SIZE..WORD_SIZE + size]) then Err(BadHeader)
      else ParseFrames(c, payload[WORD_SIZE + size..])
  }

  /** The messages found before `pos`, and then those from there on. */
  ghost function FramesFrom(c: Codec, payload: Bytes, pos: nat, messages: seq<FeedMessage>)
    : Result<seq<FeedMessage>, PayloadError>
    requires pos <= |payload|
  {
    Followed(messages, ParseFrames(c, payload[pos..]))
  }

  lemma FramesFromEnds(c: Codec, payload: Bytes, pos: nat, messages: seq<FeedMessage>)
    requires pos <= |payload|
    ensures FramesFrom(c, payload, pos, []) == ParseFrames(c, payload[pos..])
    ensures pos == |payload| ==> FramesFrom(c, payload, pos, messages) == Ok(messages)
  {
    FollowedEnds(messages, ParseFrames(c, payload[pos..]));
  }

  lemma FrameStep(c: Codec, payload: Bytes, pos: nat, size: nat, m: FeedMessage, messages: seq<FeedMessage>)
    requires pos + WORD_SIZE + size <= |payload| && size == FromBigEndian(payload[pos..pos + WORD_SIZE])
    requires c.decode(payload[pos + WORD_SIZE..pos + WORD_SIZE + size]) == Some(m)
    ensures FramesFrom(c, payload, pos, messages)
         == FramesFrom(c, payload, pos + WORD_SIZE + size, if c.trusted(m) then messages + [m] else messages)
  {
    var buf := payload[pos..];
    assert buf[..WORD_SIZE] == payload[pos..pos + WORD_SIZE];
    assert buf[WORD_SIZE..WORD_SIZE + size] == payload[pos + WORD_SIZE..pos + WORD_SIZE + size];
    assert buf[WORD_SIZE + size..] == payload[pos + WORD_SIZE + size..];
    var one := if c.trusted(m) then [m] else [];
    FollowedConcat(messages, one, ParseFrames(c, payload[pos + WORD_SIZE + size..]));
    assert messages + [] == messages;
  }

  lemma ShortStep(c: Codec, payload: Bytes, pos: nat, messages: seq<FeedMessage>)
    requires pos < |payload|
    ensures |payload| - pos < WORD_SIZE ==> FramesFrom(c, payload, pos, messages) == Err(ShortSize)
    ensures |payload| - pos >= WORD_SIZE ==>
      var size := FromBigEndian(payload[pos..pos + WORD_SIZE]);
      && (|payload| - pos - WORD_SIZE < size ==> FramesFrom(c, payload, pos, messages) == Err(ShortMessage))
      && (|payload| - pos - WORD_SIZE >= size && c.decode(payload[pos + WORD_SIZE..pos + WORD_SIZE + size]).None? ==>
            FramesFrom(c, payload, pos, messages) == Err(BadMessage))
  {
    var buf := payload[pos..];
    if |buf| >= WORD_SIZE {
      var size := FromBigEndian(payload[pos..pos + WORD_SIZE]);
      assert buf[..WORD_SIZE] == payload[pos..pos + WORD_SIZE];
      if |buf| - WORD_SIZE >= size {
        assert buf[WORD_SIZE..WORD_SIZE + size] == payload[pos + WORD_SIZE..pos + WORD_SIZE + size];
      }
    }
  }

  method ParseMessages(c: Codec, payload: Bytes, start: nat) returns (r: Result<seq<FeedMessage>, PayloadError>)
    requires start <= |payload|
    ensures r == ParseFrames(c, payload[start..])
  {
    var messages: seq<FeedMessage> := [];
    var pos := start;
    FramesFromEnds(c, payload, start, []);
    while pos < |payload|
      invariant pos <= |payload|
      invariant FramesFrom(c, payload, pos, messages) == FramesFrom(c, payload, start, [])
    {
      ShortStep(c, payload, pos, messages);
      if |payload[pos..]| < WORD_SIZE {
        return Err(ShortSize);
      }
      var size := FromBigEndian(payload[pos..pos + WORD_SIZE]);
      if |payload[pos + WORD_SIZE..]| < size {
        return Err(ShortMessage);
      }
      var m := c.decode(payload[pos + WORD_SIZE..pos + WORD_SIZE + size]);
      if m.None? {
        return Err(BadMessage);
      }
      FrameStep(c, payload, pos, size, m.value, messages);
      pos := pos + WORD_SIZE + size;
      if c.trusted(m.value) {
        messages := messages + [m.value];
      }
    }
    FramesFromEnds(c, payload, pos, messages);
    return Ok(messages);
  }

  method ParsePayload(c: Codec, payload: Bytes) returns (r: Result<seq<FeedMessage>, PayloadError>)
    ensures r == Parse(c, payload)
  {
    if |payload| < WORD_SIZE {
      return Err(ShortHeaderSize);
    }
    var headerSize := FromBigEndian(payload[..WORD_SIZE]);
    if |payload[WORD_SIZE..]| < headerSize {
      return Err(ShortHeader);
    }
    if !c.isV1(payload[WORD_SIZE..WORD_SIZE + headerSize]) {
      return Err(BadHeader);
    }
    r := ParseMessages(c, payload, WORD_SIZE + headerSize);
  }

  // ---- round trip ----

  /** The messages that survive packing and unpacking. */
  function Kept(c: Codec, msgs: seq<FeedMessage>): seq<FeedMessage> {
    if msgs == [] then [] else KeptOne(c, msgs[0]) + Kept(c, msgs[1..])
  }

  function KeptOne(c: Codec, m: FeedMessage): seq<FeedMessage> {
    if c.encode(m).Some? && c.trusted(m) then [m] else []
  }

  lemma {:induction false} AllFramedCons(c: Codec, msgs: seq<FeedMessage>)
    requires msgs != []
    ensures AllFramed(c, msgs) == Framed(c, msgs[0]) + AllFramed(c, msgs[1..])
  {
    if |msgs| > 1 {
      var init, tail, last := msgs[..|msgs| - 1], msgs[1..], msgs[|msgs| - 1];
      AllFramedCons(c, init);
      var mid := init[1..];
      assert tail[..|tail| - 1] == mid && tail[|tail| - 1] == last;
      assert AllFramed(c, tail) == AllFramed(c, mid) + Framed(c, last);
      assert Framed(c, msgs[0]) + (AllFramed(c, mid) + Framed(c, last)) == Framed(c, msgs[0]) + AllFramed(c, mid) + Framed(c, last);
    } else {
      assert msgs[..0] == msgs[1..] == [];
    }
  }

  /** A frame in front of anything gives its message and leaves the rest. */
  lemma ParseFrame(c: Codec, b: Bytes, m: FeedMessage, rest: Bytes)
    requires |b| <= U64_MAX && c.decode(b) == Some(m)
    ensures ParseFrames(c, Frame(b) + rest) == Followed(if c.trusted(m) then [m] else [], ParseFrames(c, rest))
  {
    var buf := Frame(b) + rest;
    Pow256OfWord();
    FixedInverse(|b|, WORD_SIZE);
    assert buf[..WORD_SIZE] == Fixed(|b|, WORD_SIZE);
    assert buf[WORD_SIZE..WORD_SIZE + |b|] == b;
    assert buf[WORD_SIZE + |b|..] == rest;
  }

  lemma {:induction false} FramesRoundTrip(c: Codec, msgs: seq<FeedMessage>)
    requires Lawful(c, msgs)
    ensures ParseFrames(c, AllFramed(c, msgs)) == Ok(Kept(c, msgs))
  {
    if msgs != [] {
      var m, more := msgs[0], msgs[1..];
      FramesRoundTrip(c, more);
      AllFramedCons(c, msgs);
      if c.encode(m).Some? {
        ParseFrame(c, c.encode(m).value, m, AllFramed(c, more));
      } else {
        assert [] + AllFramed(c, more) == AllFramed(c, more);
        assert [] + Kept(c, more) == Kept(c, more);
      }
    }
  }

  lemma PayloadRoundTrip(c: Codec, msgs: seq<FeedMessage>)
    requires Lawful(c, msgs)
    ensures Parse(c, Carrying(c, msgs)) == Ok(Kept(c, msgs))
  {
    var payload := Carrying(c, msgs);
    FramesRoundTrip(c, msgs);
    Pow256OfWord();
    FixedInverse(|HEADER|, WORD_SIZE);
    assert payload[..WORD_SIZE] == Fixed(|HEADER|, WORD_SIZE);
    assert payload[WORD_SIZE..WORD_SIZE + |HEADER|] == HEADER;
    assert payload[WORD_SIZE + |HEADER|..] == AllFramed(c, msgs);
  }

  // ---- splitting a list over several payloads ----

  /** The message fits a payload of its own. */
  predicate Placeable(c: Codec, m: FeedMessage) {
    WORD_SIZE + |HEADER| + FrameSize(c, m) <= MAX_SIZE
  }

  predicate AllPlaceable(c: Codec, msgs: seq<FeedMessage>) {
    forall i :: 0 <= i < |msgs| ==> Placeable(c, msgs[i])
  }

  /** A payload takes at least one message exactly when the first one fits at all. */
  lemma ProgressIff(c: Codec, msgs: seq<FeedMessage>, n: nat)
    requires Longest(c, msgs, n) && msgs != []
    ensures n > 0 <==> Placeable(c, msgs[0])
  {
    assert Size(c, msgs, 1) == Size(c, msgs, 0) + FrameSize(c, msgs[0]);
    if n > 0 {
      SizeGrows(c, msgs, 1, n);
    }
  }

  /** `Parse` of several payloads, one after the other. */
  function ParseAll(c: Codec, payloads: seq<Bytes>): Result<seq<FeedMessage>, PayloadError> {
    if payloads == [] then Ok([])
    else
      var first :- Parse(c, payloads[0]);
      Followed(first, ParseAll(c, payloads[1..]))
  }

  lemma KeptCons(c: Codec, m: FeedMessage, msgs: seq<FeedMessage>)
    ensures Kept(c, [m] + msgs) == KeptOne(c, m) + Kept(c, msgs)
  {
    assert ([m] + msgs)[1..] == msgs;
  }

  lemma {:induction false} KeptConcat(c: Codec, a: seq<FeedMessage>, b: seq<FeedMessage>)
    ensures Kept(c, a + b) == Kept(c, a) + Kept(c, b)
    decreases |a|
  {
    if a == [] {
      assert a + b == b;
    } else {
      KeptConcat(c, a[1..], b);
      KeptConcatStep(c, a[0], a[1..], b);
      assert [a[0]] + a[1..] == a;
    }
  }

  lemma KeptConcatStep(c: Codec, m: FeedMessage, more: seq<FeedMessage>, b: seq<FeedMessage>)
    requires Kept(c, more + b) == Kept(c, more) + Kept(c, b)
    ensures Kept(c, [m] + more + b) == Kept(c, [m] + more) + Kept(c, b)
  {
    KeptCons(c, m, more + b);
    KeptCons(c, m, more);
    Regroup([m], more, b);
    Regroup(KeptOne(c, m), Kept(c, more), Kept(c, b));
  }

  lemma LawfulSlice(c: Codec, msgs: seq<FeedMessage>, i: nat, j: nat)
    requires Lawful(c, msgs) && i <= j <= |msgs|
    ensures Lawful(c, msgs[i..j])
  {
    var part := msgs[i..j];
    forall k | 0 <= k < |part| && c.encode(part[k]).Some?
      ensures |c.encode(part[k]).value| <= U64_MAX && c.decode(c.encode(part[k]).value) == Some(part[k])
    {
      assert part[k] == msgs[i + k];
    }
  }

  /** How many messages are taken when `n` fit already. */
  function Take(c: Codec, msgs: seq<FeedMessage>, n: nat): (m: nat)
    requires n <= |msgs| && Size(c, msgs, n) <= MAX_SIZE
    ensures n <= m && Longest(c, msgs, m)
    decreases |msgs| - n
  {
    if n < |msgs| && Size(c, msgs, n + 1) <= MAX_SIZE then Take(c, msgs, n + 1) else n
  }

  function FirstChunk(c: Codec, msgs: seq<FeedMessage>): (n: nat)
    requires msgs != [] && AllPlaceable(c, msgs)
    ensures 0 < n && Longest(c, msgs, n) && AllPlaceable(c, msgs[n..])
  {
    var n := Take(c, msgs, 0);
    ProgressIff(c, msgs, n);
    assert forall i :: 0 <= i < |msgs[n..]| ==> msgs[n..][i] == msgs[n + i];
    n
  }

  function Chunks(c: Codec, msgs: seq<FeedMessage>): seq<Bytes>
    requires AllPlaceable(c, msgs)
    decreases |msgs|
  {
    if msgs == [] then []
    else [Carrying(c, msgs[..FirstChunk(c, msgs)])] + Chunks(c, msgs[FirstChunk(c, msgs)..])
  }

  /** The payloads built so far and the messages left. */
  datatype Progress = Progress(payloads: seq<Bytes>, remaining: seq<FeedMessage>)

  /** At most `k` rounds of the splitting loop. */
  function Rounds(c: Codec, msgs: seq<FeedMessage>, k: nat): Progress
    decreases k
  {
    if msgs == [] || k == 0 then Progress([], msgs)
    else
      var n := Take(c, msgs, 0);
      var rest := Rounds(c, msgs[n..], k - 1);
      Progress([Carrying(c, msgs[..n])] + rest.payloads, rest.remaining)
  }

  /** The splitting loop, stopped after any number of rounds if it has not ended by itself. */
  method BuildTransactions(c: Codec, messages: seq<FeedMessage>, rounds: nat)
    returns (payloads: seq<Bytes>, remaining: seq<FeedMessage>)
    ensures Progress(payloads, remaining) == Rounds(c, messages, rounds)
  {
    payloads := [];
    var msgs := new Pending(messages);
    var left := rounds;
    RoundsStart(c, messages, rounds);
    while msgs.messages != [] && left > 0
      invariant Outcome(c, payloads, msgs.messages, left) == Outcome(c, [], messages, rounds)
      decreases left
    {
      var payload := BuildNext(c, msgs, payloads, left);
      payloads, left := payloads + [payload], left - 1;
    }
    remaining := msgs.messages;
    RoundsOver(c, payloads, remaining, left);
  }

  /** One round: the payload it builds leaves the outcome of the loop as it was. */
  method BuildNext(c: Codec, msgs: Pending, ghost payloads: seq<Bytes>, ghost left: nat) returns (payload: Bytes)
    requires msgs.messages != [] && left > 0
    modifies msgs
    ensures Outcome(c, payloads + [payload], msgs.messages, left - 1) == Outcome(c, payloads, old(msgs.messages), left)
  {
    ghost var before := msgs.messages;
    ghost var n;
    payload, n := BuildPayload(c, msgs);
    RoundAdds(c, payloads, before, n, left, payload, msgs.messages);
  }

  /** What was built already, and then what `k` rounds make of the messages left. */
  ghost function Outcome(c: Codec, payloads: seq<Bytes>, msgs: seq<FeedMessage>, k: nat): Progress {
    Onward(payloads, Rounds(c, msgs, k))
  }

  lemma RoundsStart(c: Codec, msgs: seq<FeedMessage>, k: nat)
    ensures Outcome(c, [], msgs, k) == Rounds(c, msgs, k)
  {
    assert [] + Rounds(c, msgs, k).payloads == Rounds(c, msgs, k).payloads;
  }

  lemma RoundAdds(
    c: Codec, payloads: seq<Bytes>, msgs: seq<FeedMessage>, n: nat, k: nat, payload: Bytes, rest: seq<FeedMessage>)
    requires msgs != [] && k > 0 && Longest(c, msgs, n) && payload == Carrying(c, msgs[..n]) && rest == msgs[n..]
    ensures Outcome(c, payloads, msgs, k) == Outcome(c, payloads + [payload], rest, k - 1)
  {
    NextRound(c, msgs, n, k);
    OnwardConcat(payloads, [payload], Rounds(c, rest, k - 1));
  }

  lemma RoundsOver(c: Codec, payloads: seq<Bytes>, msgs: seq<FeedMessage>, k: nat)
    requires msgs == [] || k == 0
    ensures Outcome(c, payloads, msgs, k) == Progress(payloads, msgs)
  {
    assert payloads + [] == payloads;
  }

  lemma NextRound(c: Codec, msgs: seq<FeedMessage>, n: nat, k: nat)
    requires msgs != [] && k > 0 && Longest(c, msgs, n)
    ensures Rounds(c, msgs, k) == Onward([Carrying(c, msgs[..n])], Rounds(c, msgs[n..], k - 1))
  {
    LongestIsUnique(c, msgs, n, Take(c, msgs, 0));
  }

  function Onward(payloads: seq<Bytes>, p: Progress): Progress {
    Progress(payloads + p.payloads, p.remaining)
  }

  lemma OnwardConcat(a: seq<Bytes>, b: seq<Bytes>, p: Progress)
    ensures Onward(a, Onward(b, p)) == Onward(a + b, p)
  {
    Regroup(a, b, p.payloads);
  }

  /** When every message fits, as many rounds as there are messages are enough. */
  lemma {:induction false} RoundsFinish(c: Codec, msgs: seq<FeedMessage>, k: nat)
    requires AllPlaceable(c, msgs) && |msgs| <= k
    ensures Rounds(c, msgs, k) == Progress(Chunks(c, msgs), [])
    decreases k
  {
    if msgs != [] {
      RoundsFinish(c, msgs[FirstChunk(c, msgs)..], k - 1);
    }
  }

  /** Once the first message left does not fit, every further round builds a payload without messages. */
  lemma {:induction false} RoundsStall(c: Codec, msgs: seq<FeedMessage>, k: nat)
    requires msgs != [] && !Placeable(c, msgs[0])
    ensures Rounds(c, msgs, k) == Progress(seq(k, _ => Carrying(c, [])), msgs)
    decreases k
  {
    if k > 0 {
      ProgressIff(c, msgs, Take(c, msgs, 0));
      assert msgs[0..] == msgs && msgs[..0] == [];
      RoundsStall(c, msgs, k - 1);
    }
  }

  lemma {:induction false} ChunksFit(c: Codec, msgs: seq<FeedMessage>)
    requires AllPlaceable(c, msgs)
    ensures forall i :: 0 <= i < |Chunks(c, msgs)| ==> |Chunks(c, msgs)[i]| <= MAX_SIZE
    decreases |msgs|
  {
    if msgs != [] {
      var n := FirstChunk(c, msgs);
      ChunksFit(c, msgs[n..]);
      SizeIsLength(c, msgs, n);
    }
  }

  lemma {:induction false} ChunksParse(c: Codec, msgs: seq<FeedMessage>)
    requires AllPlaceable(c, msgs) && Lawful(c, msgs)
    ensures ParseAll(c, Chunks(c, msgs)) == Ok(Kept(c, msgs))
    decreases |msgs|
  {
    if msgs != [] {
      var n := FirstChunk(c, msgs);
      PartsLawful(c, msgs, n);
      ChunksParse(c, msgs[n..]);
      PayloadRoundTrip(c, msgs[..n]);
      NextChunk(c, msgs[..n], msgs[n..], Carrying(c, msgs[..n]), Chunks(c, msgs[n..]));
    }
  }

  lemma PartsLawful(c: Codec, msgs: seq<FeedMessage>, n: nat)
    requires Lawful(c, msgs) && n <= |msgs|
    ensures Lawful(c, msgs[..n]) && Lawful(c, msgs[n..]) && msgs[..n] + msgs[n..] == msgs
  {
    LawfulSlice(c, msgs, 0, n);
    LawfulSlice(c, msgs, n, |msgs|);
    assert msgs[0..n] == msgs[..n] && msgs[n..|msgs|] == msgs[n..];
  }

  /** Every payload is within the limit, and together they carry the whole list in order. */
  lemma ChunksCarry(c: Codec, msgs: seq<FeedMessage>)
    requires AllPlaceable(c, msgs) && Lawful(c, msgs)
    ensures forall i :: 0 <= i < |Chunks(c, msgs)| ==> |Chunks(c, msgs)[i]| <= MAX_SIZE
    ensures ParseAll(c, Chunks(c, msgs)) == Ok(Kept(c, msgs))
  {
    ChunksFit(c, msgs);
    ChunksParse(c, msgs);
  }

  lemma NextChunk(c: Codec, first: seq<FeedMessage>, rest: seq<FeedMessage>, payload: Bytes, payloads: seq<Bytes>)
    requires Parse(c, payload) == Ok(Kept(c, first)) && ParseAll(c, payloads) == Ok(Kept(c, rest))
    ensures ParseAll(c, [payload] + payloads) == Ok(Kept(c, first + rest))
  {
    KeptConcat(c, first, rest);
    ParseAllCons(c, payload, payloads);
  }

  lemma ParseAllCons(c: Codec, first: Bytes, payloads: seq<Bytes>)
    requires Parse(c, first).Ok?
    ensures ParseAll(c, [first] + payloads) == Followed(Parse(c, first).value, ParseAll(c, payloads))
  {
    assert ([first] + payloads)[1..] == payloads;
  }

  /** Every message taken would also have fitted on its own. */
  lemma TakenFits(c: Codec, msgs: seq<FeedMessage>, n: nat, i: nat)
    requires Longest(c, msgs, n) && i < n
    ensures Placeable(c, msgs[i])
  {
    SizeGrows(c, msgs, i + 1, n);
    SizeGrows(c, msgs, 0, i);
  }

  lemma {:induction false} FinishedFits(c: Codec, msgs: seq<FeedMessage>, k: nat, i: nat)
    requires Rounds(c, msgs, k).remaining == [] && i < |msgs|
    ensures Placeable(c, msgs[i])
    decreases k
  {
    var n := Take(c, msgs, 0);
    if i < n {
      TakenFits(c, msgs, n, i);
    } else {
      assert msgs[n..][i - n] == msgs[i];
      FinishedFits(c, msgs[n..], k - 1, i - n);
    }
  }

  /** The splitting loop ends exactly when every message fits a payload of its own. */
  lemma SplittingEndsIff(c: Codec, msgs: seq<FeedMessage>)
    ensures (exists k: nat :: Rounds(c, msgs, k).remaining == []) <==> AllPlaceable(c, msgs)
  {
    if AllPlaceable(c, msgs) {
      RoundsFinish(c, msgs, |msgs|);
    }
    if exists k: nat :: Rounds(c, msgs, k).remaining == [] {
      var k: nat :| Rounds(c, msgs, k).remaining == [];
      forall i: nat | i < |msgs| ensures Placeable(c, msgs[i]) {
        FinishedFits(c, msgs, k, i);
      }
    }
  }

  /** A lawful codec whose encoding of `m` alone is as large as a payload may be. */
  function Bulky(m: FeedMessage): Codec {
    Codec(_ => Some(seq(MAX_SIZE, _ => 0)), _ => Some(m), _ => true, _ => true)
  }

  /** With it the loop never ends: it goes on building payloads without messages. */
  lemma OversizedNeverEnds(m: FeedMessage, k: nat)
    ensures Lawful(Bulky(m), [m]) && !Placeable(Bulky(m), m)
    ensures Rounds(Bulky(m), [m], k) == Progress(seq(k, _ => Carrying(Bulky(m), [])), [m])
  {
    RoundsStall(Bulky(m), [m], k);
  }
}
