/** RLP of feed messages, following Go's rules for nil pointers and optional tail fields. */
module MessageRlp {
  import opened Common
  import opened BigEndianInts
  import opened Messages
  import opened Rlp

  /** The longest vector the program can hold. */
  const MAX_VEC: nat := 0x7FFF_FFFF_FFFF_FFFF

  predicate ValidHeader(h: L1Header) {
    && |h.poster| == 20
    && (h.requestId.Some? ==> |h.requestId.value| == 32)
    && (h.l1BaseFee.Some? ==> h.l1BaseFee.value < Pow256(32))
  }

  predicate ValidMessage(m: L1IncomingMessage) {
    (m.header.Some? ==> ValidHeader(m.header.value)) && |m.l2msg| <= MAX_VEC
  }

  // ---- items ----

  const EMPTY_LIST: Bytes := [0xC0]
  const EMPTY_STRING: Bytes := [0x80]

  function Uint64(n: U64): (r: Bytes)
    ensures |r| <= 9 && Item(r)
  {
    U64Fits(n);
    Pow256OfWord();
    DecodeEncodedUint(n, 8, []);
    EncodeUint(n)
  }

  function Uint256(n: nat): (r: Bytes)
    requires n < Pow256(32)
    ensures |r| <= 33 && Item(r)
  {
    BigEndianFits(n, 32);
    DecodeEncodedUint(n, 32, []);
    EncodeUint(n)
  }

  function Text(s: Bytes): (r: Bytes)
    requires |s| <= U64_MAX
    ensures |r| <= |s| + 9 && Item(r)
  {
    U64Fits(|s|);
    StrItem(s);
    EncodeStr(s)
  }

  function List(items: seq<Bytes>): (r: Bytes)
    requires |Concat(items)| <= U64_MAX
    ensures |r| <= |Concat(items)| + 9 && Item(r)
  {
    U64Fits(|Concat(items)|);
    ListItem(Concat(items));
    EncodeList(Concat(items))
  }

  /** Total size of items each no longer than `each`. */
  lemma {:induction false} ConcatBound(items: seq<Bytes>, each: nat)
    requires forall i :: 0 <= i < |items| ==> |items[i]| <= each
    ensures |Concat(items)| <= |items| * each
  {
    if items != [] {
      ConcatBound(items[1..], each);
    }
  }

  lemma ConcatPair(items: seq<Bytes>)
    requires |items| == 2
    ensures Concat(items) == items[0] + items[1]
  {
    var last := items[1..];
    assert Concat(last) == last[0] + Concat(last[1..]);
  }

  function HeaderItems(h: L1Header): (r: seq<Bytes>)
    requires ValidHeader(h)
    ensures |r| == 6 && forall i :: 0 <= i < 6 ==> Item(r[i]) && |r[i]| <= 41
  {
    [ Uint64(h.kind),
      Text(h.poster),
      Uint64(h.blockNumber),
      Uint64(h.timestamp),
      if h.requestId.Some? then Text(h.requestId.value) else EMPTY_LIST,
      if h.l1BaseFee.Some? then Uint256(h.l1BaseFee.value) else EMPTY_STRING ]
  }

  function EncodeHeader(h: L1Header): (r: Bytes)
    requires ValidHeader(h)
    ensures |r| <= 255 && Item(r)
  {
    ConcatBound(HeaderItems(h), 41);
    List(HeaderItems(h))
  }

  function StatsItems(stats: BatchDataStats): seq<Bytes> {
    [Uint64(stats.length), Uint64(stats.nonZeros)]
  }

  function EncodeStats(stats: BatchDataStats): (r: Bytes)
    ensures |r| <= 27 && Item(r)
  {
    ConcatBound(StatsItems(stats), 9);
    List(StatsItems(stats))
  }

  /** Optional tail fields are left out from the end while they are nil. */
  function MessageItems(m: L1IncomingMessage): (r: seq<Bytes>)
    requires ValidMessage(m)
    ensures 2 <= |r| <= 4 && forall i :: 0 <= i < |r| ==> Item(r[i])
  {
    var head := [if m.header.Some? then EncodeHeader(m.header.value) else EMPTY_LIST, Text(m.l2msg)];
    if m.legacyBatchGasCost.None? && m.batchDataStats.None? then head
    else
      var cost := if m.legacyBatchGasCost.Some? then Uint64(m.legacyBatchGasCost.value) else EMPTY_STRING;
      if m.batchDataStats.None? then head + [cost] else head + [cost, EncodeStats(m.batchDataStats.value)]
  }

  lemma MessageFits(m: L1IncomingMessage)
    requires ValidMessage(m)
    ensures |Concat(MessageItems(m))| <= |m.l2msg| + 1024
  {
    var items := MessageItems(m);
    var tail := items[2..];
    forall i | 0 <= i < |tail| ensures |tail[i]| <= 27 {
      assert tail[i] == items[i + 2];
    }
    ConcatBound(tail, 27);
    assert items[1..][1..] == tail;
  }

  function EncodeMessage(m: L1IncomingMessage): (r: Bytes)
    requires ValidMessage(m)
    ensures Item(r)
  {
    MessageFits(m);
    List(MessageItems(m))
  }

  // ---- decoding ----

  datatype NilPolicy = EmptyStringOnly | EmptyListOnly

  function DecodeU64(buf: Bytes): Result<Decoded<U64>, Error> {
    Pow256OfWord();
    var d :- DecodeUint(buf, 8);
    Ok(Decoded(d.value, d.rest))
  }

  function Fields(buf: Bytes): Result<Decoded<seq<Bytes>>, Error> {
    var d :- DecodeRaw(buf);
    match d.value
    case Str(_) => Err(UnexpectedString)
    case Items(items) => Ok(Decoded(items, d.rest))
  }

  /** The empty value of the policy's kind is nil; the other kind is an error; otherwise `whole` decides. */
  function DecodeOptionalField<T>(buf: Bytes, policy: NilPolicy, whole: Result<T, Error>): Result<Option<T>, Error> {
    var d :- DecodeRaw(buf);
    match d.value
    case Str(bytes) =>
      if policy == EmptyListOnly then Err(UnexpectedString)
      else if bytes == [] then Ok(None)
      else var v :- whole; Ok(Some(v))
    case Items(items) =>
      if policy == EmptyStringOnly then Err(UnexpectedList)
      else if items == [] then Ok(None)
      else var v :- whole; Ok(Some(v))
  }

  function DecodeOptionalHash(buf: Bytes): Result<Option<Bytes>, Error> {
    var d :- DecodeRaw(buf);
    match d.value
    case Str(bytes) =>
      if bytes == [] then Ok(None) else if |bytes| == 32 then Ok(Some(bytes)) else Err(UnexpectedLength)
    case Items(items) =>
      if items == [] then Ok(None) else Err(UnexpectedList)
  }

  function DecodeKind(buf: Bytes): Result<Byte, Error> {
    Pow256OfWord();
    var kind :- Exact(DecodeUint(buf, 1));
    Ok(kind)
  }

  function DecodeL1Header(buf: Bytes): Result<Decoded<L1Header>, Error> {
    var d :- Fields(buf);
    var h :- HeaderOf(d.value);
    Ok(Decoded(h, d.rest))
  }

  function HeaderOf(f: seq<Bytes>): Result<L1Header, Error> {
    if |f| < 4 then Err(ListLengthMismatch)
    else
      var plain :- PlainFields(f);
      var nil :- NilFields(f);
      Ok(plain.(requestId := nil.0, l1BaseFee := nil.1))
  }

  function PlainFields(f: seq<Bytes>): Result<L1Header, Error>
    requires |f| >= 4
  {
    var kind :- DecodeKind(f[0]);
    var poster :- Exact(DecodeFixed(f[1], 20));
    var blockNumber :- Exact(DecodeU64(f[2]));
    var timestamp :- Exact(DecodeU64(f[3]));
    Ok(L1Header(kind, poster, blockNumber, timestamp, None, None))
  }

  function NilFields(f: seq<Bytes>): Result<(Option<Bytes>, Option<nat>), Error> {
    var requestId :- if |f| > 4 then DecodeOptionalHash(f[4]) else Ok(None);
    var fee :- if |f| > 5 then DecodeOptionalField(f[5], EmptyStringOnly, Exact(DecodeUint(f[5], 32))) else Ok(None);
    Ok((requestId, fee))
  }

  /** The fields are read on from the header, and only their total length is compared with it. */
  function DecodeStats(buf: Bytes): Result<Decoded<BatchDataStats>, Error> {
    var h :- DecodeHeader(buf);
    if !h.list then Err(UnexpectedString)
    else
      var length :- DecodeU64(buf[h.size..]);
      var nonZeros :- DecodeU64(length.rest);
      if |buf| - |nonZeros.rest| != h.size + h.payload then Err(ListLengthMismatch)
      else Ok(Decoded(BatchDataStats(length.value, nonZeros.value), nonZeros.rest))
  }

  function DecodeMessage(buf: Bytes): Result<Decoded<L1IncomingMessage>, Error> {
    var d :- Fields(buf);
    var f := d.value;
    if |f| < 2 then Err(ListLengthMismatch)
    else
      var header :- DecodeOptionalField(f[0], EmptyListOnly, Exact(DecodeL1Header(f[0])));
      var l2msg :- Exact(DecodeBytes(f[1]));
      var cost :- if |f| > 2 then DecodeOptionalField(f[2], EmptyStringOnly, Exact(DecodeU64(f[2]))) else Ok(None);
      var stats :- if |f| > 3 then DecodeOptionalField(f[3], EmptyListOnly, Exact(DecodeStats(f[3]))) else Ok(None);
      Ok(Decoded(L1IncomingMessage(header, l2msg, cost, stats), d.rest))
  }

  function DecodeMessageWithMetadata(buf: Bytes): Result<Decoded<MessageWithMetadata>, Error> {
    var d :- Fields(buf);
    var f := d.value;
    if f == [] then Err(ListLengthMismatch)
    else
      var message :- DecodeOptionalField(f[0], EmptyListOnly, Exact(DecodeMessage(f[0])));
      var read :- if |f| > 1 then Exact(DecodeU64(f[1])) else Ok(0);
      Ok(Decoded(MessageWithMetadata(message, read), d.rest))
  }

  // ---- round trips ----

  /** Nil and zero share one encoding. */
  function NonZero<T(==)>(v: Option<T>, zero: T): Option<T> {
    if v == Some(zero) then None else v
  }

  function Norm(m: L1IncomingMessage): L1IncomingMessage {
    m.(header := if m.header.Some? then Some(m.header.value.(l1BaseFee := NonZero(m.header.value.l1BaseFee, 0))) else None,
       legacyBatchGasCost := NonZero(m.legacyBatchGasCost, 0))
  }

  lemma U64RoundTrip(n: U64, rest: Bytes)
    ensures DecodeU64(Uint64(n) + rest) == Ok(Decoded(n, rest))
  {
    Pow256OfWord();
    DecodeEncodedUint(n, 8, rest);
  }

  lemma U64Exact(n: U64)
    ensures Exact(DecodeU64(Uint64(n))) == Ok(n)
  {
    U64RoundTrip(n, []);
    assert Uint64(n) + [] == Uint64(n);
  }

  lemma TextExact(s: Bytes)
    requires |s| <= U64_MAX
    ensures DecodeBytes(Text(s)) == Ok(Decoded(s, []))
    ensures DecodeRaw(Text(s)) == Ok(Decoded(Str(s), []))
  {
    U64Fits(|s|);
    DecodeEncodedStr(s, []);
    StrItem(s);
    assert Text(s) + [] == Text(s);
  }

  lemma ListExact(items: seq<Bytes>, rest: Bytes)
    requires |Concat(items)| <= U64_MAX
    requires forall i :: 0 <= i < |items| ==> Item(items[i])
    ensures Fields(List(items) + rest) == Ok(Decoded(items, rest))
    ensures DecodeRaw(List(items) + rest) == Ok(Decoded(Items(items), rest))
  {
    U64Fits(|Concat(items)|);
    DecodeEncodedList(items, rest);
  }

  lemma KindExact(k: Byte)
    ensures DecodeKind(Uint64(k)) == Ok(k)
  {
    Pow256OfWord();
    DecodeEncodedUint(k, 1, []);
    assert Uint64(k) + [] == Uint64(k);
  }

  lemma EmptyExact()
    ensures DecodeRaw(EMPTY_LIST) == Ok(Decoded(Items([]), []))
    ensures DecodeRaw(EMPTY_STRING) == Ok(Decoded(Str([]), []))
  {
    var list, str := EMPTY_LIST, EMPTY_STRING;
    assert |list[1..1]| == |list[1..]| == |str[1..1]| == |str[1..]| == 0;
  }

  lemma HashExact(id: Option<Bytes>)
    requires id.Some? ==> |id.value| == 32
    ensures DecodeOptionalHash(if id.Some? then Text(id.value) else EMPTY_LIST) == Ok(id)
  {
    EmptyExact();
    if id.Some? {
      TextExact(id.value);
    }
  }

  lemma RawStr(e: Bytes)
    requires Item(e) && !DecodeHeader(e).value.list
    ensures DecodeRaw(e) == Ok(Decoded(Str(Payload(e)), []))
  {
    var h := DecodeHeader(e).value;
    assert e[h.size..h.size + h.payload] == Payload(e) && |e[h.size + h.payload..]| == 0;
  }

  lemma UintExact(n: nat)
    requires n < Pow256(32)
    ensures |BigEndian(n)| < 56
    ensures Exact(DecodeUint(EncodeUint(n), 32)) == Ok(n)
  {
    DecodeEncodedUint(n, 32, []);
    assert EncodeUint(n) + [] == EncodeUint(n);
  }

  lemma UintRaw(n: nat)
    requires n < Pow256(32)
    ensures |BigEndian(n)| < 56
    ensures DecodeRaw(EncodeUint(n)) == Ok(Decoded(Str(BigEndian(n)), []))
    ensures BigEndian(n) == [] <==> n == 0
  {
    BigEndianFits(n, 32);
    UintIsStr(n);
    StrItem(BigEndian(n));
    RawStr(EncodeUint(n));
    BigEndianInverse(n);
  }

  lemma FeeExact(fee: Option<nat>)
    requires fee.Some? ==> fee.value < Pow256(32)
    ensures var e := if fee.Some? then Uint256(fee.value) else EMPTY_STRING;
            DecodeOptionalField(e, EmptyStringOnly, Exact(DecodeUint(e, 32))) == Ok(NonZero(fee, 0))
  {
    EmptyExact();
    if fee.Some? {
      UintRaw(fee.value);
      UintExact(fee.value);
    }
  }

  lemma CostExact(cost: Option<U64>)
    ensures var e := if cost.Some? then Uint64(cost.value) else EMPTY_STRING;
            DecodeOptionalField(e, EmptyStringOnly, Exact(DecodeU64(e))) == Ok(NonZero(cost, 0))
  {
    EmptyExact();
    if cost.Some? {
      Pow256OfWord();
      Pow256Monotone(8, 32);
      UintRaw(cost.value);
      U64Exact(cost.value);
    }
  }

  lemma HeaderRoundTrips(h: L1Header, rest: Bytes)
    requires ValidHeader(h)
    ensures DecodeL1Header(EncodeHeader(h) + rest) == Ok(Decoded(h.(l1BaseFee := NonZero(h.l1BaseFee, 0)), rest))
  {
    var items := HeaderItems(h);
    ConcatBound(items, 41);
    ListExact(items, rest);
    HeaderOfItems(h, 6, items);
  }

  /** The first `n` fields of a header are read, missing ones are nil, and items behind the last are ignored. */
  lemma HeaderOfItems(h: L1Header, n: nat, f: seq<Bytes>)
    requires ValidHeader(h) && 4 <= n <= 6 && n <= |f| && (n < 6 ==> |f| == n)
    requires forall i :: 0 <= i < n ==> f[i] == HeaderItems(h)[i]
    ensures HeaderOf(f) == Ok(h.(
      requestId := if n > 4 then h.requestId else None, l1BaseFee := if n > 5 then NonZero(h.l1BaseFee, 0) else None))
  {
    PlainFieldsOf(h, f);
    NilFieldsOf(h, n, f);
  }

  lemma PlainFieldsOf(h: L1Header, f: seq<Bytes>)
    requires ValidHeader(h) && |f| >= 4 && forall i :: 0 <= i < 4 ==> f[i] == HeaderItems(h)[i]
    ensures PlainFields(f) == Ok(h.(requestId := None, l1BaseFee := None))
  {
    KindExact(h.kind);
    TextExact(h.poster);
    U64Exact(h.blockNumber);
    U64Exact(h.timestamp);
  }

  lemma NilFieldsOf(h: L1Header, n: nat, f: seq<Bytes>)
    requires ValidHeader(h) && 4 <= n <= 6 && n <= |f| && (n < 6 ==> |f| == n)
    requires forall i :: 0 <= i < n ==> f[i] == HeaderItems(h)[i]
    ensures NilFields(f) == Ok((if n > 4 then h.requestId else None, if n > 5 then NonZero(h.l1BaseFee, 0) else None))
  {
    HashExact(h.requestId);
    FeeExact(h.l1BaseFee);
  }

  lemma StatsRoundTrips(stats: BatchDataStats)
    ensures Exact(DecodeStats(EncodeStats(stats))) == Ok(stats)
  {
    var items: seq<Bytes> := StatsItems(stats);
    var body := Uint64(stats.length) + Uint64(stats.nonZeros);
    ConcatBound(items, 9);
    ConcatPair(items);
    U64Fits(|body|);
    ListItem(body);
    U64RoundTrip(stats.length, Uint64(stats.nonZeros));
    U64RoundTrip(stats.nonZeros, []);
    assert Uint64(stats.nonZeros) + [] == Uint64(stats.nonZeros);
  }

  /** A list with at least one item is not nil. */
  lemma SomeList<T>(items: seq<Bytes>, v: T)
    requires |Concat(items)| <= U64_MAX && items != []
    requires forall i :: 0 <= i < |items| ==> Item(items[i])
    ensures DecodeOptionalField(List(items), EmptyListOnly, Ok(v)) == Ok(Some(v))
  {
    ListExact(items, []);
    assert List(items) + [] == List(items);
  }

  lemma OptionalHeader(h: Option<L1Header>)
    requires h.Some? ==> ValidHeader(h.value)
    ensures var e := if h.Some? then EncodeHeader(h.value) else EMPTY_LIST;
            DecodeOptionalField(e, EmptyListOnly, Exact(DecodeL1Header(e)))
            == Ok(if h.Some? then Some(h.value.(l1BaseFee := NonZero(h.value.l1BaseFee, 0))) else None)
  {
    EmptyExact();
    if h.Some? {
      var e := EncodeHeader(h.value);
      HeaderRoundTrips(h.value, []);
      assert e + [] == e;
      ConcatBound(HeaderItems(h.value), 41);
      SomeList(HeaderItems(h.value), Exact(DecodeL1Header(e)).value);
    }
  }

  lemma OptionalStats(stats: BatchDataStats)
    ensures DecodeOptionalField(EncodeStats(stats), EmptyListOnly, Exact(DecodeStats(EncodeStats(stats)))) == Ok(Some(stats))
  {
    StatsRoundTrips(stats);
    ConcatBound(StatsItems(stats), 9);
    SomeList(StatsItems(stats), stats);
  }

  /** Decoding undoes encoding up to the zero fields, and leaves whatever follows. */
  lemma MessageRoundTrips(m: L1IncomingMessage, rest: Bytes)
    requires ValidMessage(m)
    ensures DecodeMessage(EncodeMessage(m) + rest) == Ok(Decoded(Norm(m), rest))
  {
    MessageFits(m);
    ListExact(MessageItems(m), rest);
    OptionalHeader(m.header);
    TextExact(m.l2msg);
    CostExact(m.legacyBatchGasCost);
    if m.batchDataStats.Some? {
      OptionalStats(m.batchDataStats.value);
    }
  }

  /** No field of `m` is a zero that nil is encoded like. */
  predicate ZeroFree(m: L1IncomingMessage) {
    m.legacyBatchGasCost != Some(0) && (m.header.Some? ==> m.header.value.l1BaseFee != Some(0))
  }

  /** The exact condition for a message to survive the round trip unchanged. */
  lemma MessageSurvivesIff(m: L1IncomingMessage)
    requires ValidMessage(m)
    ensures Exact(DecodeMessage(EncodeMessage(m))) == Ok(m) <==> ZeroFree(m)
  {
    MessageRoundTrips(m, []);
    assert EncodeMessage(m) + [] == EncodeMessage(m);
  }

  /** The optional tail is written. */
  predicate HasTail(m: L1IncomingMessage) {
    m.legacyBatchGasCost.Some? || m.batchDataStats.Some?
  }

  lemma HeaderOfNorm(h: L1Header)
    requires ValidHeader(h)
    ensures EncodeHeader(h.(l1BaseFee := NonZero(h.l1BaseFee, 0))) == EncodeHeader(h)
  {
    var norm := h.(l1BaseFee := NonZero(h.l1BaseFee, 0));
    assert HeaderItems(norm) == HeaderItems(h);
  }

  /** Two messages with the same normal form are written alike when both have a tail or neither has. */
  lemma SameNormSameItems(m: L1IncomingMessage, n: L1IncomingMessage)
    requires ValidMessage(m) && ValidMessage(n) && Norm(m) == Norm(n) && (HasTail(m) <==> HasTail(n))
    ensures MessageItems(m) == MessageItems(n)
  {
    if m.header.Some? {
      HeaderOfNorm(m.header.value);
      HeaderOfNorm(n.header.value);
    }
    assert EncodeUint(0) == EMPTY_STRING;
    CostOfNorm(m.legacyBatchGasCost, n.legacyBatchGasCost);
  }

  lemma CostOfNorm(a: Option<U64>, b: Option<U64>)
    requires NonZero(a, 0) == NonZero(b, 0)
    ensures (if a.Some? then Uint64(a.value) else EMPTY_STRING) == (if b.Some? then Uint64(b.value) else EMPTY_STRING)
  {
  }

  /** Two messages have the same bytes exactly when they differ in nothing but nil against zero and both have a tail or neither has. */
  lemma EncodingIdentifies(m: L1IncomingMessage, n: L1IncomingMessage)
    requires ValidMessage(m) && ValidMessage(n)
    ensures EncodeMessage(m) == EncodeMessage(n) <==> Norm(m) == Norm(n) && (HasTail(m) <==> HasTail(n))
  {
    MessageRoundTrips(m, []);
    MessageRoundTrips(n, []);
    MessageFits(m);
    MessageFits(n);
    ListExact(MessageItems(m), []);
    ListExact(MessageItems(n), []);
    if Norm(m) == Norm(n) && (HasTail(m) <==> HasTail(n)) {
      SameNormSameItems(m, n);
    }
  }

  /** The list a Go node writes: nil message as the empty list, then the counter. */
  function EncodeMessageWithMetadata(m: MessageWithMetadata): (r: Bytes)
    requires m.message.Some? ==> ValidMessage(m.message.value)
    requires |WithMetadata(m)[0]| <= MAX_VEC
    ensures Item(r) && |r| <= U64_MAX
  {
    MetadataFits(m);
    List(WithMetadata(m))
  }

  function WithMetadata(m: MessageWithMetadata): (r: seq<Bytes>)
    requires m.message.Some? ==> ValidMessage(m.message.value)
    ensures |r| == 2 && Item(r[0]) && Item(r[1])
  {
    [if m.message.Some? then EncodeMessage(m.message.value) else EMPTY_LIST, Uint64(m.delayedMessagesRead)]
  }

  lemma MetadataFits(m: MessageWithMetadata)
    requires m.message.Some? ==> ValidMessage(m.message.value)
    requires |WithMetadata(m)[0]| <= MAX_VEC
    ensures |Concat(WithMetadata(m))| <= U64_MAX - 9
  {
    ConcatPair(WithMetadata(m));
  }

  lemma OptionalMessage(m: Option<L1IncomingMessage>)
    requires m.Some? ==> ValidMessage(m.value)
    ensures var e := if m.Some? then EncodeMessage(m.value) else EMPTY_LIST;
            DecodeOptionalField(e, EmptyListOnly, Exact(DecodeMessage(e))) == Ok(if m.Some? then Some(Norm(m.value)) else None)
  {
    EmptyExact();
    if m.Some? {
      MessageRoundTrips(m.value, []);
      assert EncodeMessage(m.value) + [] == EncodeMessage(m.value);
      MessageFits(m.value);
      SomeList(MessageItems(m.value), Norm(m.value));
    }
  }

  /** What a message with metadata looks like after a round trip. */
  function NormWithMetadata(m: MessageWithMetadata): MessageWithMetadata {
    m.(message := if m.message.Some? then Some(Norm(m.message.value)) else None)
  }

  lemma MetadataRoundTrips(m: MessageWithMetadata, rest: Bytes)
    requires m.message.Some? ==> ValidMessage(m.message.value)
    requires |WithMetadata(m)[0]| <= MAX_VEC
    ensures DecodeMessageWithMetadata(EncodeMessageWithMetadata(m) + rest)
         == Ok(Decoded(NormWithMetadata(m), rest))
  {
    MetadataFits(m);
    ListExact(WithMetadata(m), rest);
    OptionalMessage(m.message);
    U64Exact(m.delayedMessagesRead);
  }

  lemma MetadataExact(m: MessageWithMetadata)
    requires m.message.Some? ==> ValidMessage(m.message.value)
    requires |WithMetadata(m)[0]| <= MAX_VEC
    ensures Exact(DecodeMessageWithMetadata(EncodeMessageWithMetadata(m))) == Ok(NormWithMetadata(m))
  {
    MetadataRoundTrips(m, []);
    var e := EncodeMessageWithMetadata(m);
    assert e + [] == e;
  }
}
