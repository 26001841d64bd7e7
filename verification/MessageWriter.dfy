/** The two halves of the encoder: the length computed up front and the bytes written behind it. */
module MessageWriter {
  import opened Common
  import opened BigEndianInts
  import opened Messages
  import opened Rlp
  import opened MessageRlp

  function UintLength(n: nat): (r: nat)
    requires |BigEndian(n)| < 56
    ensures r == |EncodeUint(n)|
  {
    if n < 0x80 then 1 else 1 + |BigEndian(n)|
  }

  function StrLength(s: Bytes): (r: nat)
    requires |s| <= U64_MAX
    ensures r == |Text(s)|
  {
    if |s| == 1 && s[0] < 0x80 then 1 else |s| + LengthOfLength(|s|)
  }

  lemma {:induction false} ConcatSnoc(items: seq<Bytes>, last: Bytes)
    ensures Concat(items + [last]) == Concat(items) + last
  {
    if items == [] {
      assert [last][1..] == [];
    } else {
      ConcatSnoc(items[1..], last);
      assert (items + [last])[1..] == items[1..] + [last];
    }
  }

  lemma ConcatTake(items: seq<Bytes>, k: nat)
    requires k < |items|
    ensures Concat(items[..k + 1]) == Concat(items[..k]) + items[k]
  {
    ConcatSnoc(items[..k], items[k]);
    assert items[..k + 1] == items[..k] + [items[k]];
  }

  /** Total length of the first `k` items. */
  function Size(items: seq<Bytes>, k: nat): nat
    requires k <= |items|
  {
    if k == 0 then 0 else Size(items, k - 1) + |items[k - 1]|
  }

  lemma {:induction false} SizeIsLength(items: seq<Bytes>, k: nat)
    requires k <= |items|
    ensures Size(items, k) == |Concat(items[..k])|
  {
    if k > 0 {
      SizeIsLength(items, k - 1);
      ConcatTake(items, k - 1);
    }
  }

  lemma SizeOfAll(items: seq<Bytes>)
    ensures Size(items, |items|) == |Concat(items)|
  {
    SizeIsLength(items, |items|);
    assert items[..|items|] == items;
  }

  lemma SizeOfSix(items: seq<Bytes>)
    requires |items| == 6
    ensures |Concat(items)| == |items[0]| + |items[1]| + |items[2]| + |items[3]| + |items[4]| + |items[5]|
  {
    SizeOfAll(items);
    assert Size(items, 1) == |items[0]|;
    assert Size(items, 3) == Size(items, 2) + |items[2]|;
    assert Size(items, 5) == Size(items, 4) + |items[4]|;
  }

  /** The bytes that have been written so far. */
  class Output {
    var bytes: Bytes

    constructor ()
      ensures bytes == []
    {
      bytes := [];
    }

    /** Holds `front` and behind it the first `k` of `items`. */
    ghost predicate Wrote(front: Bytes, items: seq<Bytes>, k: nat)
      requires k <= |items|
      reads this
    {
      bytes == front + Concat(items[..k])
    }

    method Put(more: Bytes)
      modifies this
      ensures bytes == old(bytes) + more
    {
      bytes := bytes + more;
    }

    method PutListHeader(payload: nat, ghost items: seq<Bytes>)
      requires payload == |Concat(items)| <= U64_MAX
      modifies this
      ensures |BigEndian(payload)| <= 8
      ensures Wrote(old(bytes) + HeaderBytes(true, payload), items, 0)
    {
      U64Fits(payload);
      Put(HeaderBytes(true, payload));
    }

    method PutItem(e: Bytes, ghost front: Bytes, ghost items: seq<Bytes>, ghost k: nat)
      requires k < |items| && e == items[k] && Wrote(front, items, k)
      modifies this
      ensures Wrote(front, items, k + 1)
    {
      Put(e);
      WroteNext(front, items, k, old(bytes));
    }

    lemma WroteNext(front: Bytes, items: seq<Bytes>, k: nat, before: Bytes)
      requires k < |items| && before == front + Concat(items[..k])
      requires bytes == before + items[k]
      ensures Wrote(front, items, k + 1)
    {
      ConcatTake(items, k);
    }

    lemma WroteAll(front: Bytes, items: seq<Bytes>)
      requires Wrote(front, items, |items|)
      ensures bytes == front + Concat(items)
    {
      assert items[..|items|] == items;
    }
  }

  function HeaderPayloadLength(h: L1Header): (n: nat)
    requires ValidHeader(h)
    ensures n == |Concat(HeaderItems(h))|
  {
    U64Fits(h.kind);
    U64Fits(h.blockNumber);
    U64Fits(h.timestamp);
    SizeOfSix(HeaderItems(h));
    UintLength(h.kind) + StrLength(h.poster) + UintLength(h.blockNumber) + UintLength(h.timestamp)
    + (if h.requestId.Some? then StrLength(h.requestId.value) else 1)
    + (if h.l1BaseFee.Some? then BigEndianFits(h.l1BaseFee.value, 32); UintLength(h.l1BaseFee.value) else 1)
  }

  method WriteHeader(h: L1Header, out: Output)
    requires ValidHeader(h)
    modifies out
    ensures out.bytes == old(out.bytes) + EncodeHeader(h)
  {
    ghost var items := HeaderItems(h);
    ConcatBound(items, 41);
    var n := HeaderPayloadLength(h);
    out.PutListHeader(n, items);
    ghost var front := old(out.bytes) + HeaderBytes(true, n);
    WritePlainFields(h, out, front);
    WriteNilFields(h, out, front);
    out.WroteAll(front, items);
  }

  method WritePlainFields(h: L1Header, out: Output, ghost front: Bytes)
    requires ValidHeader(h) && out.Wrote(front, HeaderItems(h), 0)
    modifies out
    ensures out.Wrote(front, HeaderItems(h), 4)
  {
    ghost var items := HeaderItems(h);
    out.PutItem(Uint64(h.kind), front, items, 0);
    out.PutItem(Text(h.poster), front, items, 1);
    out.PutItem(Uint64(h.blockNumber), front, items, 2);
    out.PutItem(Uint64(h.timestamp), front, items, 3);
  }

  method WriteNilFields(h: L1Header, out: Output, ghost front: Bytes)
    requires ValidHeader(h) && out.Wrote(front, HeaderItems(h), 4)
    modifies out
    ensures out.Wrote(front, HeaderItems(h), 6)
  {
    ghost var items := HeaderItems(h);
    if h.requestId.Some? {
      out.PutItem(Text(h.requestId.value), front, items, 4);
    } else {
      out.PutItem(EMPTY_LIST, front, items, 4);
    }
    if h.l1BaseFee.Some? {
      out.PutItem(Uint256(h.l1BaseFee.value), front, items, 5);
    } else {
      out.PutItem(EMPTY_STRING, front, items, 5);
    }
  }

  /** Length of a list with header, from the length of its payload. */
  function ListLength(payload: nat): nat {
    LengthOfLength(payload) + payload
  }

  lemma ListLengthExact(items: seq<Bytes>)
    requires |Concat(items)| <= U64_MAX
    ensures ListLength(|Concat(items)|) == |List(items)|
  {
    U64Fits(|Concat(items)|);
  }

  /** The length announced in the list header is the length of what follows it. */
  method MessagePayloadLength(m: L1IncomingMessage) returns (len: nat)
    requires ValidMessage(m)
    ensures len == |Concat(MessageItems(m))|
  {
    ghost var items := MessageItems(m);
    if m.header.Some? {
      ConcatBound(HeaderItems(m.header.value), 41);
      ListLengthExact(HeaderItems(m.header.value));
      len := ListLength(HeaderPayloadLength(m.header.value));
    } else {
      len := 1;
    }
    assert len == Size(items, 1);
    len := len + StrLength(m.l2msg);
    assert len == Size(items, 2);
    if m.legacyBatchGasCost.Some? || m.batchDataStats.Some? {
      if m.legacyBatchGasCost.Some? {
        U64Fits(m.legacyBatchGasCost.value);
        len := len + UintLength(m.legacyBatchGasCost.value);
      } else {
        len := len + 1;
      }
      assert len == Size(items, 3);
    }
    if m.batchDataStats.Some? {
      var stats := StatsLength(m.batchDataStats.value);
      len := len + stats;
    }
    SizeOfAll(items);
  }

  method StatsLength(stats: BatchDataStats) returns (len: nat)
    ensures len == |EncodeStats(stats)|
  {
    U64Fits(stats.length);
    U64Fits(stats.nonZeros);
    ConcatPair(StatsItems(stats));
    ConcatBound(StatsItems(stats), 9);
    ListLengthExact(StatsItems(stats));
    len := ListLength(UintLength(stats.length) + UintLength(stats.nonZeros));
  }

  method WriteMessage(m: L1IncomingMessage, out: Output)
    requires ValidMessage(m)
    modifies out
    ensures out.bytes == old(out.bytes) + EncodeMessage(m)
  {
    ghost var items := MessageItems(m);
    MessageFits(m);
    var n := MessagePayloadLength(m);
    out.PutListHeader(n, items);
    ghost var front := old(out.bytes) + HeaderBytes(true, n);
    WriteOptionalHeader(m.header, out, front, items);
    WriteTextAndTail(m, out, front);
    out.WroteAll(front, items);
  }

  method WriteTextAndTail(m: L1IncomingMessage, out: Output, ghost front: Bytes)
    requires ValidMessage(m) && out.Wrote(front, MessageItems(m), 1)
    modifies out
    ensures out.Wrote(front, MessageItems(m), |MessageItems(m)|)
  {
    out.PutItem(Text(m.l2msg), front, MessageItems(m), 1);
    WriteTail(m, out, front);
  }

  method WriteTail(m: L1IncomingMessage, out: Output, ghost front: Bytes)
    requires ValidMessage(m) && out.Wrote(front, MessageItems(m), 2)
    modifies out
    ensures out.Wrote(front, MessageItems(m), |MessageItems(m)|)
  {
    ghost var items := MessageItems(m);
    if m.legacyBatchGasCost.Some? || m.batchDataStats.Some? {
      if m.legacyBatchGasCost.Some? {
        out.PutItem(Uint64(m.legacyBatchGasCost.value), front, items, 2);
      } else {
        out.PutItem(EMPTY_STRING, front, items, 2);
      }
    }
    if m.batchDataStats.Some? {
      out.PutItem(EncodeStats(m.batchDataStats.value), front, items, 3);
    }
  }

  method WriteOptionalHeader(h: Option<L1Header>, out: Output, ghost front: Bytes, ghost items: seq<Bytes>)
    requires h.Some? ==> ValidHeader(h.value)
    requires items != [] && items[0] == (if h.Some? then EncodeHeader(h.value) else EMPTY_LIST)
    requires out.Wrote(front, items, 0)
    modifies out
    ensures out.Wrote(front, items, 1)
  {
    if h.Some? {
      WriteHeader(h.value, out);
      out.WroteNext(front, items, 0, old(out.bytes));
    } else {
      out.PutItem(EMPTY_LIST, front, items, 0);
    }
  }
}
