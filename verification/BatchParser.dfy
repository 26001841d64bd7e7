/** Turns a sequencer batch into the message stream that is checked against the queue. */
module BatchParser {
  import opened Common
  import opened BigEndianInts
  import opened Messages
  import opened Rlp

  const MAX_DECOMPRESSED_LEN: nat := 1024 * 1024 * 16
  const MAX_L2_MESSAGE_SIZE: nat := 256 * 1024
  const MAX_SEGMENTS: nat := 100 * 1024

  const BROTLI_HEADER_BYTE: Byte := 0x00
  const L2_MESSAGE: Byte := 0
  const L2_MESSAGE_BROTLI: Byte := 1
  const DELAYED_MESSAGES: Byte := 2
  const ADVANCE_TIMESTAMP: Byte := 3
  const ADVANCE_L1_BLOCK_NUMBER: Byte := 4

  datatype ParseError =
    | EmptyMessage
    | UnsupportedHeader(byte: Byte)
    | BadPayload
    | TooManySegments
    | BadSegment(cause: Error)
    | BadCompressedSegment
    | UnknownKind(kind: Byte)

  /** The Brotli decoder; `None` for input it rejects. */
  type Brotli = Bytes -> Option<Bytes>

  function Decompress(brotli: Brotli, input: Bytes, max: nat): Option<Bytes> {
    match brotli(input)
    case None => None
    case Some(output) => if |output| > max then None else Some(output)
  }

  // ---- cutting the data into segments ----

  /** Reads one string off the front of its input. */
  type Reader = Bytes -> Result<Decoded<Bytes>, Error>

  /** The segments of `buf`, of which at most `room` are allowed; a last one that ends early is dropped. */
  function Segments(next: Reader, buf: Bytes, room: nat): Result<seq<Bytes>, ParseError>
    decreases room
  {
    if buf == [] then Ok([])
    else if room == 0 then Err(TooManySegments)
    else
      match next(buf)
      case Err(e) => if e == InputTooShort then Ok([]) else Err(BadSegment(e))
      case Ok(d) => Followed([d.value], Segments(next, d.rest, room - 1))
  }

  method CutSegments(next: Reader, data: Bytes) returns (r: Result<seq<Bytes>, ParseError>)
    ensures r == Segments(next, data, MAX_SEGMENTS)
  {
    var segments: seq<Bytes> := [];
    var buf := data;
    FollowedEnds(segments, Segments(next, data, MAX_SEGMENTS));
    while buf != []
      invariant |segments| <= MAX_SEGMENTS
      invariant Segments(next, data, MAX_SEGMENTS) == Followed(segments, Segments(next, buf, MAX_SEGMENTS - |segments|))
      decreases MAX_SEGMENTS - |segments|
    {
      if |segments| >= MAX_SEGMENTS {
        return Err(TooManySegments);
      }
      match next(buf) {
        case Ok(d) =>
          FollowedConcat(segments, [d.value], Segments(next, d.rest, MAX_SEGMENTS - |segments| - 1));
          segments := segments + [d.value];
          buf := d.rest;
        case Err(e) =>
          if e != InputTooShort {
            return Err(BadSegment(e));
          }
          break;
      }
    }
    FollowedEnds<Bytes, ParseError>(segments, Ok([]));
    return Ok(segments);
  }

  // ---- classifying segments ----

  function Classify(brotli: Brotli, segment: Bytes): Result<seq<BatchMessage>, ParseError> {
    if segment == [] then Ok([])
    else
      var kind, data := segment[0], segment[1..];
      if kind == L2_MESSAGE then Ok([L2Msg(data)])
      else if kind == L2_MESSAGE_BROTLI then
        match Decompress(brotli, data, MAX_L2_MESSAGE_SIZE)
        case None => Err(BadCompressedSegment)
        case Some(content) => Ok([L2Msg(content)])
      else if kind == DELAYED_MESSAGES then Ok([DelayedMsg])
      else if kind == ADVANCE_TIMESTAMP || kind == ADVANCE_L1_BLOCK_NUMBER then Ok([])
      else Err(UnknownKind(kind))
  }

  function ClassifyAll(brotli: Brotli, segments: seq<Bytes>): Result<seq<BatchMessage>, ParseError> {
    if segments == [] then Ok([])
    else
      var first :- Classify(brotli, segments[0]);
      Followed(first, ClassifyAll(brotli, segments[1..]))
  }

  method ClassifySegments(brotli: Brotli, segments: seq<Bytes>) returns (r: Result<seq<BatchMessage>, ParseError>)
    ensures r == ClassifyAll(brotli, segments)
  {
    var messages: seq<BatchMessage> := [];
    assert segments[0..] == segments;
    FollowedEnds(messages, ClassifyAll(brotli, segments));
    for i := 0 to |segments|
      invariant ClassifyAll(brotli, segments) == Followed(messages, ClassifyAll(brotli, segments[i..]))
    {
      var segment := segments[i];
      assert segments[i..][1..] == segments[i + 1..];
      FollowedEnds([], ClassifyAll(brotli, segments[i + 1..]));
      if segment == [] {
        continue;
      }
      var kind, data := segment[0], segment[1..];
      if kind == L2_MESSAGE {
        FollowedConcat(messages, [L2Msg(data)], ClassifyAll(brotli, segments[i + 1..]));
        messages := messages + [L2Msg(data)];
      } else if kind == L2_MESSAGE_BROTLI {
        var content := Decompress(brotli, data, MAX_L2_MESSAGE_SIZE);
        if content.None? {
          return Err(BadCompressedSegment);
        }
        FollowedConcat(messages, [L2Msg(content.value)], ClassifyAll(brotli, segments[i + 1..]));
        messages := messages + [L2Msg(content.value)];
      } else if kind == DELAYED_MESSAGES {
        FollowedConcat(messages, [DelayedMsg], ClassifyAll(brotli, segments[i + 1..]));
        messages := messages + [DelayedMsg];
      } else if kind == ADVANCE_TIMESTAMP || kind == ADVANCE_L1_BLOCK_NUMBER {
      } else {
        return Err(UnknownKind(kind));
      }
    }
    FollowedEnds<BatchMessage, ParseError>(messages, Ok([]));
    return Ok(messages);
  }

  /** The data behind the header byte, decompressed. */
  function SegmentData(brotli: Brotli, content: Bytes): Result<Bytes, ParseError> {
    if content == [] then Err(EmptyMessage)
    else if content[0] != BROTLI_HEADER_BYTE then Err(UnsupportedHeader(content[0]))
    else
      match Decompress(brotli, content[1..], MAX_DECOMPRESSED_LEN)
      case None => Err(BadPayload)
      case Some(data) => Ok(data)
  }

  function Parsed(brotli: Brotli, content: Bytes): Result<seq<BatchMessage>, ParseError> {
    var data :- SegmentData(brotli, content);
    var segments :- Segments(DecodeBytes, data, MAX_SEGMENTS);
    ClassifyAll(brotli, segments)
  }

  method ParseBatch(brotli: Brotli, content: Bytes) returns (r: Result<seq<BatchMessage>, ParseError>)
    ensures r == Parsed(brotli, content)
  {
    if content == [] {
      return Err(EmptyMessage);
    }
    if content[0] != BROTLI_HEADER_BYTE {
      return Err(UnsupportedHeader(content[0]));
    }
    var data := Decompress(brotli, content[1..], MAX_DECOMPRESSED_LEN);
    if data.None? {
      return Err(BadPayload);
    }
    var segments := CutSegments(DecodeBytes, data.value);
    if segments.Err? {
      return Err(segments.error);
    }
    r := ClassifySegments(brotli, segments.value);
  }

  // ---- what a cut means ----

  /** The reader takes an encoding off whatever follows it, and succeeds on nothing else. */
  ghost predicate Strict(next: Reader) {
    ReadsEncodings(next) && ReadsNothingElse(next)
  }

  ghost predicate ReadsEncodings(next: Reader) {
    forall s: Bytes, rest: Bytes :: |BigEndian(|s|)| <= 8 ==> next(EncodeStr(s) + rest) == Ok(Decoded(s, rest))
  }

  ghost predicate ReadsNothingElse(next: Reader) {
    forall b: Bytes :: next(b).Ok? ==> Canonical(b, next(b).value)
  }

  predicate Canonical(b: Bytes, d: Decoded<Bytes>) {
    |BigEndian(|d.value|)| <= 8 && b == EncodeStr(d.value) + d.rest
  }

  lemma DecodeBytesIsStrict()
    ensures Strict(DecodeBytes)
  {
    forall s: Bytes, rest: Bytes | |BigEndian(|s|)| <= 8 ensures DecodeBytes(EncodeStr(s) + rest) == Ok(Decoded(s, rest)) {
      DecodeEncodedStr(s, rest);
    }
    forall b: Bytes | DecodeBytes(b).Ok? ensures Canonical(b, DecodeBytes(b).value) {
      DecodingIsCanonical(b);
    }
  }

  predicate Encodable(segments: seq<Bytes>) {
    forall i :: 0 <= i < |segments| ==> |BigEndian(|segments[i]|)| <= 8
  }

  function Encoded(segments: seq<Bytes>): Bytes
    requires Encodable(segments)
  {
    if segments == [] then [] else EncodeStr(segments[0]) + Encoded(segments[1..])
  }

  lemma EncodedCons(s: Bytes, more: seq<Bytes>)
    requires |BigEndian(|s|)| <= 8 && Encodable(more)
    ensures Encodable([s] + more) && Encoded([s] + more) == EncodeStr(s) + Encoded(more)
  {
    assert ([s] + more)[1..] == more;
  }

  lemma NotEmpty(s: Bytes)
    requires |BigEndian(|s|)| <= 8
    ensures EncodeStr(s) != []
  {
  }

  /** `data` is the encodings of `segments` one after the other, and `tail` behind them. */
  predicate CutsInto(data: Bytes, segments: seq<Bytes>, tail: Bytes) {
    Encodable(segments) && data == Encoded(segments) + tail
  }

  /** Nothing more can be cut off `tail`: it is empty, or the reader runs out of input. */
  predicate Spent(next: Reader, tail: Bytes) {
    tail == [] || next(tail) == Err(InputTooShort)
  }

  /** Whatever is cut was written there: the segments found, re-encoded, are the data up to a tail that ends early. */
  lemma {:induction false} CutIsFaithful(next: Reader, buf: Bytes, room: nat) returns (tail: Bytes)
    requires ReadsNothingElse(next) && Segments(next, buf, room).Ok?
    ensures CutsInto(buf, Segments(next, buf, room).value, tail) && Spent(next, tail)
    ensures |Segments(next, buf, room).value| <= room && (|Segments(next, buf, room).value| == room ==> tail == [])
    decreases room
  {
    if buf == [] || next(buf).Err? {
      tail := buf;
      assert CutsInto(buf, [], tail);
    } else {
      var d := next(buf).value;
      tail := CutIsFaithful(next, d.rest, room - 1);
      var more := Segments(next, d.rest, room - 1).value;
      assert Canonical(buf, d);
      EncodedCons(d.value, more);
      Regroup(EncodeStr(d.value), Encoded(more), tail);
    }
  }

  /** Cutting what was written, with anything behind it. */
  function CutWritten(next: Reader, segments: seq<Bytes>, tail: Bytes, room: nat): Result<seq<Bytes>, ParseError>
    requires Encodable(segments)
  {
    Segments(next, Encoded(segments) + tail, room)
  }

  /** Encodings in front of anything are cut off one by one. */
  lemma {:induction false} CutEncoded(
    next: Reader, segments: seq<Bytes>, tail: Bytes, left: nat, rest: Result<seq<Bytes>, ParseError>)
    requires ReadsEncodings(next) && Encodable(segments) && Segments(next, tail, left) == rest
    ensures CutWritten(next, segments, tail, |segments| + left) == Followed(segments, rest)
    decreases |segments|
  {
    if segments == [] {
      CutNone(next, tail, left);
    } else {
      CutEncoded(next, segments[1..], tail, left, rest);
      CutOneMore(next, segments[0], segments[1..], tail, |segments| - 1 + left, rest);
      assert [segments[0]] + segments[1..] == segments;
    }
  }

  lemma CutNone(next: Reader, tail: Bytes, left: nat)
    ensures CutWritten(next, [], tail, left) == Followed([], Segments(next, tail, left))
  {
    assert Encoded([]) + tail == tail;
    FollowedEnds([], Segments(next, tail, left));
  }

  lemma CutOneMore(
    next: Reader, s: Bytes, more: seq<Bytes>, tail: Bytes, room: nat, rest: Result<seq<Bytes>, ParseError>)
    requires ReadsEncodings(next) && |BigEndian(|s|)| <= 8 && Encodable(more)
    requires CutWritten(next, more, tail, room) == Followed(more, rest)
    ensures Encodable([s] + more) && CutWritten(next, [s] + more, tail, room + 1) == Followed([s] + more, rest)
  {
    EncodedCons(s, more);
    Regroup(EncodeStr(s), Encoded(more), tail);
    CutStep(next, s, Encoded(more) + tail, room + 1);
    FollowedConcat([s], more, rest);
  }

  lemma CutStep(next: Reader, s: Bytes, rest: Bytes, room: nat)
    requires ReadsEncodings(next) && |BigEndian(|s|)| <= 8 && room > 0
    ensures Segments(next, EncodeStr(s) + rest, room) == Followed([s], Segments(next, rest, room - 1))
  {
    NotEmpty(s);
    assert next(EncodeStr(s) + rest) == Ok(Decoded(s, rest));
  }

  /** Whatever was written is cut, whether or not the last segment is complete. */
  lemma CutIsComplete(next: Reader, data: Bytes, segments: seq<Bytes>, tail: Bytes, room: nat)
    requires ReadsEncodings(next) && CutsInto(data, segments, tail) && Spent(next, tail)
    requires |segments| <= room && (|segments| == room ==> tail == [])
    ensures Segments(next, data, room) == Ok(segments)
  {
    assert Segments(next, tail, room - |segments|) == Ok([]);
    CutEncoded(next, segments, tail, room - |segments|, Ok([]));
    FollowedEnds<Bytes, ParseError>(segments, Ok([]));
  }

  predicate WithinLimit(segments: seq<Bytes>, tail: Bytes) {
    |segments| < 102400 || (|segments| == 102400 && tail == [])
  }

  /** A cut is found exactly when the data is such a sequence of encodings and it fits the limit. */
  lemma CutIff(next: Reader, data: Bytes, segments: seq<Bytes>)
    requires Strict(next)
    ensures Segments(next, data, MAX_SEGMENTS) == Ok(segments)
       <==> exists tail :: CutsInto(data, segments, tail) && Spent(next, tail) && WithinLimit(segments, tail)
  {
    if Segments(next, data, MAX_SEGMENTS) == Ok(segments) {
      var tail := CutIsFaithful(next, data, MAX_SEGMENTS);
      assert CutsInto(data, segments, tail) && Spent(next, tail) && WithinLimit(segments, tail);
    }
    forall tail: Bytes | CutsInto(data, segments, tail) && Spent(next, tail) && WithinLimit(segments, tail)
      ensures Segments(next, data, MAX_SEGMENTS) == Ok(segments)
    {
      CutIsComplete(next, data, segments, tail, MAX_SEGMENTS);
    }
  }

  /** The encodings of segments, then a tail that ends early, within the limit. */
  ghost predicate CutForm(data: Bytes, segments: seq<Bytes>) {
    exists tail :: CutsInto(data, segments, tail) && EndsEarly(tail) && WithinLimit(segments, tail)
  }

  /**
   * On the bytes: segments are found exactly when the data is their encodings one after the other, then nothing or
   * bytes that end before the string or list they begin, within the limit.
   */
  lemma SegmentsIff(data: Bytes, segments: seq<Bytes>)
    ensures Segments(DecodeBytes, data, MAX_SEGMENTS) == Ok(segments) <==> CutForm(data, segments)
  {
    DecodeBytesIsStrict();
    CutIff(DecodeBytes, data, segments);
    forall tail: Bytes ensures Spent(DecodeBytes, tail) <==> EndsEarly(tail) {
      TooShortIff(tail);
    }
  }

  /** Losing the end of the last segment gives the result of the complete ones before it. */
  lemma TruncatedSegmentIsDropped(segments: seq<Bytes>, last: Bytes, k: nat)
    requires Encodable(segments) && |BigEndian(|last|)| <= 8 && k < |EncodeStr(last)|
    requires |segments| < MAX_SEGMENTS
    ensures Segments(DecodeBytes, Encoded(segments) + EncodeStr(last)[..k], MAX_SEGMENTS) == Ok(segments)
    ensures Segments(DecodeBytes, Encoded(segments), MAX_SEGMENTS) == Ok(segments)
  {
    DecodeBytesIsStrict();
    CutShort(last, k);
    CutIsComplete(DecodeBytes, Encoded(segments) + EncodeStr(last)[..k], segments, EncodeStr(last)[..k], MAX_SEGMENTS);
    CutIsComplete(DecodeBytes, Encoded(segments), segments, [], MAX_SEGMENTS);
  }

  // ---- from the bytes of a batch to its messages ----

  /** What a segment stands for: its first byte is the kind, the rest the contents. */
  ghost predicate Means(brotli: Brotli, segment: Bytes, ms: seq<BatchMessage>) {
    if segment == [] then ms == []
    else
      var kind, data := segment[0], segment[1..];
      || (kind == 0 && ms == [L2Msg(data)])
      || (kind == 1 && exists content :: brotli(data) == Some(content) && |content| <= 256 * 1024 && ms == [L2Msg(content)])
      || (kind == 2 && ms == [DelayedMsg])
      || ((kind == 3 || kind == 4) && ms == [])
  }

  lemma ClassifyIff(brotli: Brotli, segment: Bytes, ms: seq<BatchMessage>)
    ensures Classify(brotli, segment) == Ok(ms) <==> Means(brotli, segment, ms)
  {
  }

  /** The segments stand, one by one, for these parts of the batch. */
  ghost predicate MeansEach(brotli: Brotli, segments: seq<Bytes>, parts: seq<seq<BatchMessage>>) {
    |parts| == |segments| && forall i :: 0 <= i < |segments| ==> Means(brotli, segments[i], parts[i])
  }

  lemma {:induction false} ClassifyAllParts(brotli: Brotli, segments: seq<Bytes>) returns (parts: seq<seq<BatchMessage>>)
    requires ClassifyAll(brotli, segments).Ok?
    ensures MeansEach(brotli, segments, parts) && ClassifyAll(brotli, segments) == Ok(Flatten(parts))
  {
    if segments == [] {
      return [];
    }
    var first := Classify(brotli, segments[0]).value;
    ClassifyIff(brotli, segments[0], first);
    var more := ClassifyAllParts(brotli, segments[1..]);
    parts := [first] + more;
    FlattenCons(first, more);
  }

  lemma {:induction false} PartsClassify(brotli: Brotli, segments: seq<Bytes>, parts: seq<seq<BatchMessage>>)
    requires MeansEach(brotli, segments, parts)
    ensures ClassifyAll(brotli, segments) == Ok(Flatten(parts))
    decreases |segments|
  {
    if segments != [] {
      ClassifyIff(brotli, segments[0], parts[0]);
      PartsClassify(brotli, segments[1..], parts[1..]);
      FlattenCons(parts[0], parts[1..]);
      assert [parts[0]] + parts[1..] == parts;
    }
  }

  /** A zero byte, then data of at most 16 MiB, compressed. */
  ghost predicate Compressed(brotli: Brotli, content: Bytes, data: Bytes) {
    exists z :: content == [0] + z && brotli(z) == Some(data) && |data| <= 16 * 1024 * 1024
  }

  lemma CompressedIff(brotli: Brotli, content: Bytes, data: Bytes)
    ensures SegmentData(brotli, content) == Ok(data) <==> Compressed(brotli, content, data)
  {
    if Compressed(brotli, content, data) {
      var z :| content == [0] + z && brotli(z) == Some(data) && |data| <= 16 * 1024 * 1024;
      assert content[1..] == z;
    }
    if content != [] {
      assert content == [content[0]] + content[1..];
    }
  }

  /** The bytes of a batch with these segments. */
  ghost predicate Written(brotli: Brotli, content: Bytes, segments: seq<Bytes>) {
    exists data :: Compressed(brotli, content, data) && CutForm(data, segments)
  }

  lemma WrittenIff(brotli: Brotli, content: Bytes, segments: seq<Bytes>)
    ensures Written(brotli, content, segments) <==>
      var data := SegmentData(brotli, content); data.Ok? && Segments(DecodeBytes, data.value, MAX_SEGMENTS) == Ok(segments)
  {
    forall data: Bytes
      ensures SegmentData(brotli, content) == Ok(data) <==> Compressed(brotli, content, data)
      ensures Segments(DecodeBytes, data, MAX_SEGMENTS) == Ok(segments) <==> CutForm(data, segments)
    {
      CompressedIff(brotli, content, data);
      SegmentsIff(data, segments);
    }
  }

  /** A batch parses to these messages exactly when its bytes are segments that stand, one by one, for parts of them. */
  lemma ParsedIff(brotli: Brotli, content: Bytes, ms: seq<BatchMessage>)
    ensures Parsed(brotli, content) == Ok(ms) <==>
      exists segments, parts :: Written(brotli, content, segments) && MeansEach(brotli, segments, parts) && ms == Flatten(parts)
  {
    if Parsed(brotli, content) == Ok(ms) {
      var segments := Segments(DecodeBytes, SegmentData(brotli, content).value, MAX_SEGMENTS).value;
      WrittenIff(brotli, content, segments);
      var parts := ClassifyAllParts(brotli, segments);
    }
    forall segments, parts | Written(brotli, content, segments) && MeansEach(brotli, segments, parts) && ms == Flatten(parts)
      ensures Parsed(brotli, content) == Ok(ms)
    {
      WrittenIff(brotli, content, segments);
      PartsClassify(brotli, segments, parts);
    }
  }
}
