/** Recursive length prefix encoding (Ethereum Yellow Paper, Appendix B), with the strictness of the decoder in use. */
module Rlp {
  import opened Common
  import opened BigEndianInts

  datatype Error =
    | InputTooShort
    | NonCanonicalSingleByte
    | NonCanonicalSize
    | LeadingZero
    | Overflow
    | UnexpectedString
    | UnexpectedList
    | UnexpectedLength
    | ListLengthMismatch

  // ---- headers ----

  datatype Header = Header(list: bool, size: nat, payload: nat)

  /** Reads the header at the front of `buf`; a single byte below 0x80 is its own payload. */
  function DecodeHeader(buf: Bytes): (r: Result<Header, Error>)
    ensures r.Ok? ==> 0 < r.value.size + r.value.payload <= |buf|
  {
    if buf == [] then Err(InputTooShort)
    else if buf[0] < 0x80 then Ok(Header(false, 0, 1))
    else if buf[0] < 0xB8 then
      if buf[0] == 0x81 && |buf| < 2 then Err(InputTooShort)
      else if buf[0] == 0x81 && buf[1] < 0x80 then Err(NonCanonicalSingleByte)
      else Fit(buf, Header(false, 1, buf[0] - 0x80))
    else if buf[0] < 0xC0 then LongHeader(buf, false, buf[0] - 0xB7)
    else if buf[0] < 0xF8 then Fit(buf, Header(true, 1, buf[0] - 0xC0))
    else LongHeader(buf, true, buf[0] - 0xF7)
  }

  function Fit(buf: Bytes, h: Header): Result<Header, Error> {
    if |buf| < h.size + h.payload then Err(InputTooShort) else Ok(h)
  }

  function LongHeader(buf: Bytes, list: bool, n: nat): Result<Header, Error>
    requires buf != [] && n > 0
  {
    if |buf| < 1 + n then Err(InputTooShort)
    else if buf[1] == 0 then Err(LeadingZero)
    else
      var len := FromBigEndian(buf[1..1 + n]);
      if len < 56 then Err(NonCanonicalSize) else Fit(buf, Header(list, 1 + n, len))
  }

  function HeaderBytes(list: bool, len: nat): Bytes
    requires |BigEndian(len)| <= 8
  {
    var code := if list then 0xC0 else 0x80;
    if len < 56 then [code + len] else [code + 55 + |BigEndian(len)|] + BigEndian(len)
  }

  function LengthOfLength(len: nat): nat {
    if len < 56 then 1 else 1 + |BigEndian(len)|
  }

  // ---- items ----

  /** `e` is exactly one item. */
  predicate Item(e: Bytes) {
    DecodeHeader(e).Ok? && DecodeHeader(e).value.size + DecodeHeader(e).value.payload == |e|
  }

  function Payload(e: Bytes): Bytes
    requires Item(e)
  {
    e[DecodeHeader(e).value.size..]
  }

  function EncodeStr(s: Bytes): Bytes
    requires |BigEndian(|s|)| <= 8
  {
    if |s| == 1 && s[0] < 0x80 then s else HeaderBytes(false, |s|) + s
  }

  function EncodeUint(n: nat): Bytes
    requires |BigEndian(n)| < 56
  {
    if n == 0 then [0x80]
    else if n < 0x80 then [n]
    else [0x80 + |BigEndian(n)|] + BigEndian(n)
  }

  function EncodeList(payload: Bytes): Bytes
    requires |BigEndian(|payload|)| <= 8
  {
    HeaderBytes(true, |payload|) + payload
  }

  /** A header that is not short of input does not look past its item. */
  lemma HeaderIgnoresRest(e: Bytes, rest: Bytes)
    requires DecodeHeader(e).Ok?
    ensures DecodeHeader(e + rest) == DecodeHeader(e)
  {
    var b := e + rest;
    assert b[0] == e[0];
    if e[0] >= 0xF8 {
      assert b[1..1 + (e[0] - 0xF7)] == e[1..1 + (e[0] - 0xF7)];
    } else if 0xB8 <= e[0] < 0xC0 {
      assert b[1..1 + (e[0] - 0xB7)] == e[1..1 + (e[0] - 0xB7)];
    }
  }

  lemma HeaderRoundTrip(list: bool, payload: Bytes)
    requires |BigEndian(|payload|)| <= 8
    requires list || |payload| != 1 || payload[0] >= 0x80
    ensures DecodeHeader(HeaderBytes(list, |payload|) + payload)
         == Ok(Header(list, |HeaderBytes(list, |payload|)|, |payload|))
  {
    var n := |payload|;
    var b := HeaderBytes(list, n) + payload;
    BigEndianInverse(n);
    if n >= 56 {
      var be := BigEndian(n);
      assert b[1..1 + |be|] == be;
    }
  }

  lemma StrItem(s: Bytes)
    requires |BigEndian(|s|)| <= 8
    ensures Item(EncodeStr(s)) && Payload(EncodeStr(s)) == s
    ensures !DecodeHeader(EncodeStr(s)).value.list
  {
    if !(|s| == 1 && s[0] < 0x80) {
      HeaderRoundTrip(false, s);
    }
  }

  lemma ListItem(payload: Bytes)
    requires |BigEndian(|payload|)| <= 8
    ensures Item(EncodeList(payload)) && Payload(EncodeList(payload)) == payload
    ensures DecodeHeader(EncodeList(payload)).value.list
  {
    HeaderRoundTrip(true, payload);
  }

  lemma UintIsStr(n: nat)
    requires |BigEndian(n)| < 56
    ensures |BigEndian(|BigEndian(n)|)| <= 8
    ensures EncodeUint(n) == EncodeStr(BigEndian(n))
  {
    BigEndianInverse(n);
    U64Fits(|BigEndian(n)|);
    if 0 < n < 0x80 {
      assert BigEndian(n / 256) == [] && BigEndian(n) == [n];
    } else if n >= 0x80 && |BigEndian(n)| == 1 {
      assert BigEndian(n)[0] == n % 256 && BigEndian(n / 256) == [];
      BigEndianInverse(n / 256);
    }
  }

  // ---- decoding ----

  /** A decoded value and the input left behind it. */
  datatype Decoded<+T> = Decoded(value: T, rest: Bytes)

  function DecodeBytes(buf: Bytes): Result<Decoded<Bytes>, Error> {
    var h :- DecodeHeader(buf);
    if h.list then Err(UnexpectedList)
    else Ok(Decoded(buf[h.size..h.size + h.payload], buf[h.size + h.payload..]))
  }

  /** Integers of at most `width` bytes without leading zero. */
  function DecodeUint(buf: Bytes, width: nat): (r: Result<Decoded<nat>, Error>)
    ensures r.Ok? ==> r.value.value < Pow256(width)
  {
    var d :- DecodeBytes(buf);
    if |d.value| > width then Err(Overflow)
    else if d.value != [] && d.value[0] == 0 then Err(LeadingZero)
    else
      FromBigEndianBound(d.value);
      Pow256Monotone(|d.value|, width);
      Ok(Decoded(FromBigEndian(d.value), d.rest))
  }

  function DecodeFixed(buf: Bytes, width: nat): Result<Decoded<Bytes>, Error> {
    var d :- DecodeBytes(buf);
    if |d.value| != width then Err(UnexpectedLength) else Ok(d)
  }

  /** Accepts a decoded value only if it used up the whole input. */
  function Exact<T>(r: Result<Decoded<T>, Error>): Result<T, Error> {
    var d :- r;
    if d.rest == [] then Ok(d.value) else Err(UnexpectedLength)
  }

  datatype View = Str(bytes: Bytes) | Items(items: seq<Bytes>)

  /** Cuts a list payload into its raw items. */
  function SplitItems(payload: Bytes): Result<seq<Bytes>, Error>
    decreases |payload|
  {
    if payload == [] then Ok([])
    else
      var h :- DecodeHeader(payload);
      var n := h.size + h.payload;
      var items :- SplitItems(payload[n..]);
      Ok([payload[..n]] + items)
  }

  function DecodeRaw(buf: Bytes): Result<Decoded<View>, Error> {
    var h :- DecodeHeader(buf);
    var n := h.size + h.payload;
    var payload := buf[h.size..n];
    if !h.list then Ok(Decoded(Str(payload), buf[n..]))
    else
      var items :- SplitItems(payload);
      Ok(Decoded(Items(items), buf[n..]))
  }

  function Concat(items: seq<Bytes>): Bytes {
    if items == [] then [] else items[0] + Concat(items[1..])
  }

  /** Splitting undoes concatenation of items. */
  lemma {:induction false} SplitConcat(items: seq<Bytes>)
    requires forall i :: 0 <= i < |items| ==> Item(items[i])
    ensures SplitItems(Concat(items)) == Ok(items)
  {
    if items != [] {
      var e, more := items[0], Concat(items[1..]);
      HeaderIgnoresRest(e, more);
      SplitConcat(items[1..]);
      assert (e + more)[..|e|] == e && (e + more)[|e|..] == more;
      assert items == [e] + items[1..];
    }
  }

  lemma DecodeStrItem(e: Bytes, rest: Bytes)
    requires Item(e) && !DecodeHeader(e).value.list
    ensures DecodeBytes(e + rest) == Ok(Decoded(Payload(e), rest))
  {
    HeaderIgnoresRest(e, rest);
  }

  lemma DecodeEncodedUint(n: nat, width: nat, rest: Bytes)
    requires n < Pow256(width) && width <= 32
    ensures |BigEndian(n)| < 56
    ensures Item(EncodeUint(n)) && !DecodeHeader(EncodeUint(n)).value.list
    ensures DecodeUint(EncodeUint(n) + rest, width) == Ok(Decoded(n, rest))
  {
    BigEndianFits(n, width);
    UintIsStr(n);
    StrItem(BigEndian(n));
    DecodeStrItem(EncodeUint(n), rest);
    BigEndianInverse(n);
  }

  lemma DecodeEncodedStr(s: Bytes, rest: Bytes)
    requires |BigEndian(|s|)| <= 8
    ensures Item(EncodeStr(s)) && DecodeBytes(EncodeStr(s) + rest) == Ok(Decoded(s, rest))
  {
    StrItem(s);
    DecodeStrItem(EncodeStr(s), rest);
  }

  lemma DecodeEncodedList(items: seq<Bytes>, rest: Bytes)
    requires |BigEndian(|Concat(items)|)| <= 8
    requires forall i :: 0 <= i < |items| ==> Item(items[i])
    ensures Item(EncodeList(Concat(items)))
    ensures DecodeRaw(EncodeList(Concat(items)) + rest) == Ok(Decoded(Items(items), rest))
  {
    var e := EncodeList(Concat(items));
    ListItem(Concat(items));
    HeaderIgnoresRest(e, rest);
    SplitConcat(items);
    var h := DecodeHeader(e).value;
    assert (e + rest)[h.size..|e|] == Payload(e);
    assert (e + rest)[|e|..] == rest;
  }

  // ---- canonical forms ----

  lemma LongHeaderIsCanonical(buf: Bytes, list: bool, n: nat)
    requires buf != [] && 0 < n <= 8 && buf[0] == (if list then 0xF7 else 0xB7) + n
    requires LongHeader(buf, list, n).Ok?
    ensures var len := LongHeader(buf, list, n).value.payload;
            len >= 56 && |BigEndian(len)| <= 8 && HeaderBytes(list, len) == buf[..1 + n]
  {
    FromBigEndianInverse(buf[1..1 + n]);
  }

  lemma ShortHeaderIsCanonical(buf: Bytes)
    requires buf != [] && buf[0] < 0xB8 && DecodeHeader(buf).Ok?
    ensures var h := DecodeHeader(buf).value;
            |BigEndian(h.payload)| <= 8 && EncodeStr(buf[h.size..h.size + h.payload]) == buf[..h.size + h.payload]
  {
    U64Fits(DecodeHeader(buf).value.payload);
  }

  /** There is one way to write a string: what decodes to `s` starts with the encoding of `s`. */
  lemma DecodingIsCanonical(buf: Bytes)
    requires DecodeBytes(buf).Ok?
    ensures var d := DecodeBytes(buf).value;
            |BigEndian(|d.value|)| <= 8 && buf == EncodeStr(d.value) + d.rest
  {
    var h, d := DecodeHeader(buf).value, DecodeBytes(buf).value;
    var n := h.size + h.payload;
    assert buf == buf[..n] + d.rest;
    if buf[0] >= 0xB8 {
      LongHeaderIsCanonical(buf, false, buf[0] - 0xB7);
      assert buf[..n] == buf[..h.size] + d.value;
    } else {
      ShortHeaderIsCanonical(buf);
    }
  }

  /** There is one way to write an integer. */
  lemma UintIff(buf: Bytes, width: nat, n: nat, rest: Bytes)
    requires width <= 32
    ensures DecodeUint(buf, width) == Ok(Decoded(n, rest))
       <==> n < Pow256(width) && |BigEndian(n)| < 56 && buf == EncodeUint(n) + rest
  {
    if DecodeUint(buf, width) == Ok(Decoded(n, rest)) {
      var s := DecodeBytes(buf).value.value;
      DecodingIsCanonical(buf);
      FromBigEndianInverse(s);
      UintIsStr(n);
    }
    if n < Pow256(width) && |BigEndian(n)| < 56 && buf == EncodeUint(n) + rest {
      DecodeEncodedUint(n, width, rest);
    }
  }

  /** The header is found in the item alone too. */
  lemma HeaderOfItem(buf: Bytes)
    requires DecodeHeader(buf).Ok?
    ensures var h := DecodeHeader(buf).value; DecodeHeader(buf[..h.size + h.payload]) == Ok(h)
  {
    var h := DecodeHeader(buf).value;
    var e := buf[..h.size + h.payload];
    assert e[0] == buf[0];
    if buf[0] >= 0xF8 {
      assert e[1..1 + (e[0] - 0xF7)] == buf[1..1 + (e[0] - 0xF7)];
    } else if 0xB8 <= buf[0] < 0xC0 {
      assert e[1..1 + (e[0] - 0xB7)] == buf[1..1 + (e[0] - 0xB7)];
    }
  }

  lemma {:induction false} SplitIsConcat(payload: Bytes, items: seq<Bytes>)
    requires SplitItems(payload) == Ok(items)
    ensures Concat(items) == payload
    decreases |payload|
  {
    if payload != [] {
      var n, more := FirstSplit(payload);
      SplitIsConcat(payload[n..], more);
      assert items[1..] == more;
      assert payload == payload[..n] + payload[n..];
    }
  }

  lemma {:induction false} SplitItemAt(payload: Bytes, items: seq<Bytes>, i: nat)
    requires SplitItems(payload) == Ok(items) && i < |items|
    ensures Item(items[i])
    decreases |payload|
  {
    var n, more := FirstSplit(payload);
    if i == 0 {
      FrontItem(payload, |items[0]|);
    } else {
      SplitItemAt(payload[n..], more, i - 1);
      assert items[i] == more[i - 1];
    }
  }

  lemma FirstSplit(payload: Bytes) returns (n: nat, more: seq<Bytes>)
    requires payload != [] && SplitItems(payload).Ok?
    ensures 0 < n <= |payload|
    ensures SplitItems(payload[n..]) == Ok(more) && SplitItems(payload) == Ok([payload[..n]] + more)
  {
    var h := DecodeHeader(payload).value;
    n := h.size + h.payload;
    more := SplitItems(payload[n..]).value;
  }

  lemma FrontItem(buf: Bytes, n: nat)
    requires DecodeHeader(buf).Ok? && n == DecodeHeader(buf).value.size + DecodeHeader(buf).value.payload
    ensures Item(buf[..n])
  {
    HeaderOfItem(buf);
  }

  lemma ListHeaderIsCanonical(buf: Bytes)
    requires DecodeHeader(buf).Ok? && DecodeHeader(buf).value.list
    ensures var h := DecodeHeader(buf).value; |BigEndian(h.payload)| <= 8 && buf[..h.size] == HeaderBytes(true, h.payload)
  {
    if buf[0] >= 0xF8 {
      LongHeaderIsCanonical(buf, true, buf[0] - 0xF7);
    } else {
      U64Fits(DecodeHeader(buf).value.payload);
    }
  }

  ghost predicate AllItems(items: seq<Bytes>) {
    forall i :: 0 <= i < |items| ==> Item(items[i])
  }

  /** The one encoding of a list of items, and anything behind it. */
  ghost predicate ListForm(buf: Bytes, items: seq<Bytes>, rest: Bytes) {
    AllItems(items) && |BigEndian(|Concat(items)|)| <= 8 && buf == EncodeList(Concat(items)) + rest
  }

  lemma ListParts(buf: Bytes) returns (head: Bytes, payload: Bytes, rest: Bytes)
    requires DecodeHeader(buf).Ok? && DecodeHeader(buf).value.list
    ensures buf == head + payload + rest && |BigEndian(|payload|)| <= 8 && head == HeaderBytes(true, |payload|)
    ensures var h := DecodeHeader(buf).value;
      payload == buf[h.size..h.size + h.payload] && rest == buf[h.size + h.payload..]
  {
    var h := DecodeHeader(buf).value;
    head, payload, rest := buf[..h.size], buf[h.size..h.size + h.payload], buf[h.size + h.payload..];
    ListHeaderIsCanonical(buf);
    ThreeParts(buf, h.size, h.size + h.payload);
  }

  lemma ListIsCanonical(buf: Bytes, items: seq<Bytes>, rest: Bytes)
    requires DecodeRaw(buf) == Ok(Decoded(Items(items), rest))
    ensures ListForm(buf, items, rest)
  {
    var head, payload, tail := ListParts(buf);
    assert SplitItems(payload) == Ok(items) && tail == rest;
    SplitIsConcat(payload, items);
    forall i | 0 <= i < |items| ensures Item(items[i]) {
      SplitItemAt(payload, items, i);
    }
  }

  /** A list is read exactly from that. */
  lemma ListIff(buf: Bytes, items: seq<Bytes>, rest: Bytes)
    ensures DecodeRaw(buf) == Ok(Decoded(Items(items), rest)) <==> ListForm(buf, items, rest)
  {
    if DecodeRaw(buf) == Ok(Decoded(Items(items), rest)) {
      ListIsCanonical(buf, items, rest);
    }
    if ListForm(buf, items, rest) {
      DecodeEncodedList(items, rest);
    }
  }

  /** An encoding cut short is recognised as such. */
  lemma CutShort(s: Bytes, k: nat)
    requires |BigEndian(|s|)| <= 8 && k < |EncodeStr(s)|
    ensures DecodeBytes(EncodeStr(s)[..k]) == Err(InputTooShort)
  {
    if 0 < k && |s| >= 56 {
      LongCutShort(s, EncodeStr(s), k);
    }
  }

  lemma LongCutShort(s: Bytes, e: Bytes, k: nat)
    requires 56 <= |s| && |BigEndian(|s|)| <= 8 && e == HeaderBytes(false, |s|) + s && 0 < k < |e|
    ensures DecodeBytes(e[..k]) == Err(InputTooShort)
  {
    var be, cut := BigEndian(|s|), e[..k];
    BigEndianInverse(|s|);
    assert cut[0] == 0xB7 + |be|;
    assert e[1..1 + |be|] == be;
    if k > |be| {
      assert cut[1..1 + |be|] == be;
    }
  }

  // ---- what counts as cut short ----

  /** How many length bytes follow the first byte of an item, for strings and lists alike. */
  function LengthBytes(first: Byte): nat {
    if 0xB8 <= first < 0xC0 then first - 0xB7 else if first >= 0xF8 then first - 0xF7 else 0
  }

  /** The payload length that the first byte holds itself; a byte below 0x80 is its own payload. */
  function ShortLength(first: Byte): nat {
    if first < 0x80 then 0 else if first < 0xB8 then first - 0x80 else if 0xC0 <= first < 0xF8 then first - 0xC0 else 0
  }

  /**
   * The bytes end before the item they begin: inside the length bytes, or inside the announced payload. A length that
   * starts with a zero byte or would have fitted the first byte is malformed instead, as soon as it is complete.
   */
  predicate EndsEarly(b: Bytes) {
    b == [] ||
    var n := LengthBytes(b[0]);
    if |b| < 1 + n + ShortLength(b[0]) then true
    else n > 0 && b[1] != 0 && FromBigEndian(b[1..1 + n]) >= 56 && |b| < 1 + n + FromBigEndian(b[1..1 + n])
  }

  lemma TooShortIff(b: Bytes)
    ensures DecodeBytes(b) == Err(InputTooShort) <==> EndsEarly(b)
  {
  }
}
