/** What the decoders of feed messages take beyond what the encoders write. */
module MessageForms {
  import opened Common
  import opened Messages
  import opened Rlp
  import opened MessageRlp

  /** A request id is nil as the empty string too, otherwise it has 32 bytes. */
  lemma HashOfString(s: Bytes)
    requires |s| <= U64_MAX
    ensures DecodeOptionalHash(Text(s))
         == if s == [] then Ok(None) else if |s| == 32 then Ok(Some(s)) else Err(UnexpectedLength)
  {
    TextExact(s);
  }

  /** As a list it is nil only if that is empty. */
  lemma HashOfList(items: seq<Bytes>)
    requires |Concat(items)| <= U64_MAX && forall i :: 0 <= i < |items| ==> Item(items[i])
    ensures DecodeOptionalHash(List(items)) == if items == [] then Ok(None) else Err(UnexpectedList)
  {
    ListExact(items, []);
    assert List(items) + [] == List(items);
  }

  /** Other optional fields are nil in one way only; the empty value of the other kind is an error. */
  lemma WrongNil<T>(whole: Result<T, Error>)
    ensures DecodeOptionalField(EMPTY_STRING, EmptyStringOnly, whole) == Ok(None)
    ensures DecodeOptionalField(EMPTY_LIST, EmptyListOnly, whole) == Ok(None)
    ensures DecodeOptionalField(EMPTY_STRING, EmptyListOnly, whole) == Err(UnexpectedString)
    ensures DecodeOptionalField(EMPTY_LIST, EmptyStringOnly, whole) == Err(UnexpectedList)
  {
    EmptyExact();
  }

  /** A header with its first `n` fields, and any items behind a complete one. */
  ghost predicate HeaderForm(h: L1Header, n: nat, extra: seq<Bytes>, items: seq<Bytes>) {
    && ValidHeader(h) && 4 <= n <= 6 && (n < 6 ==> extra == [])
    && items == HeaderItems(h)[..n] + extra
    && (forall i :: 0 <= i < |items| ==> Item(items[i])) && |Concat(items)| <= U64_MAX
  }

  /** Missing tail fields are nil, and items behind the last field are ignored. */
  lemma HeaderTolerates(h: L1Header, n: nat, extra: seq<Bytes>, items: seq<Bytes>, rest: Bytes)
    requires HeaderForm(h, n, extra, items)
    ensures DecodeL1Header(List(items) + rest) == Ok(Decoded(
      h.(requestId := if n > 4 then h.requestId else None,
         l1BaseFee := if n > 5 then NonZero(h.l1BaseFee, 0) else None), rest))
  {
    ListExact(items, rest);
    assert forall i :: 0 <= i < n ==> items[i] == HeaderItems(h)[i];
    HeaderOfItems(h, n, items);
  }

  /** A message without its counter has read no delayed messages. */
  lemma MissingCounter(m: MessageWithMetadata, rest: Bytes)
    requires m.message.Some? ==> ValidMessage(m.message.value)
    requires |WithMetadata(m)[0]| <= MAX_VEC && |Concat([WithMetadata(m)[0]])| <= U64_MAX
    ensures DecodeMessageWithMetadata(List([WithMetadata(m)[0]]) + rest)
         == Ok(Decoded(NormWithMetadata(m).(delayedMessagesRead := 0), rest))
  {
    ListExact([WithMetadata(m)[0]], rest);
    OptionalMessage(m.message);
  }
}
