/** The certificate: wire format, signed payload, and extraction of the downstream certificate. */
module Certificate {
  import opened Common
  import opened BigEndianInts

  const CERT_HEADER_SIZE: nat := 32
  const CAS_SIG_SIZE: nat := 65
  const ESPRESSO_CERT_SIZE: nat := 137
  const SEQUENCER_HEADER_LEN: nat := 40
  const VERSION: Byte := 0x70

  datatype DaApiError =
    | InvalidCertificateLength(length: nat)
    | UnknownVersion(byte: Byte)
    | SerializationFailed
    | EmptyHeader
    | InvalidHeaderByte(byte: Byte)
    | InvalidHeaderLength(length: nat)
    | InvalidCasSignature
    | Signing
    | InvalidSequencerMessageLength(length: nat)

  type Signature = b: Bytes | |b| == CAS_SIG_SIZE witness seq(CAS_SIG_SIZE, _ => 0)

  /** The claims a certificate makes about the batch it covers. */
  datatype Claims = Claims(
    startMessagePos: U64,
    endMessagePos: U64,
    startHotshotBlock: U64,
    afterDelayedMessagesRead: U64,
    minHotshotBlockStillInQueue: U64)

  datatype CasCertificate = CasCertificate(header: Bytes, claims: Claims, signature: Signature, downstream: Bytes)

  /** The number in eight bytes of the data. */
  function WordAt(data: Bytes, i: nat): U64
    requires i + 8 <= |data|
  {
    ReadWord(data[i..i + 8])
  }

  function Words(a: U64, b: U64, c: U64, d: U64, e: U64): (r: Bytes)
    ensures |r| == 40
  {
    Word(a) + Word(b) + Word(c) + Word(d) + Word(e)
  }

  function ClaimBytes(c: Claims): Bytes {
    Words(c.startMessagePos, c.endMessagePos, c.startHotshotBlock, c.afterDelayedMessagesRead, c.minHotshotBlockStillInQueue)
  }

  function Serialized(cert: CasCertificate): Result<Bytes, DaApiError> {
    if cert.header == [] || cert.header[0] != VERSION || |cert.header| != CERT_HEADER_SIZE then Err(SerializationFailed)
    else Ok(cert.header + ClaimBytes(cert.claims) + cert.signature + cert.downstream)
  }

  // ---- encoder and decoder ----

  class Encoder {
    var buf: Bytes

    constructor ()
      ensures buf == []
    {
      buf := [];
    }

    method PushBytes(bytes: Bytes)
      modifies this
      ensures buf == old(buf) + bytes
    {
      buf := buf + bytes;
    }

    method PushWords(a: U64, b: U64, c: U64, d: U64, e: U64)
      modifies this
      ensures buf == old(buf) + Words(a, b, c, d, e)
    {
      PushBytes(Word(a));
      PushBytes(Word(b));
      PushBytes(Word(c));
      PushBytes(Word(d));
      PushBytes(Word(e));
    }
  }

  class Decoder {
    const data: Bytes
    var position: nat

    ghost predicate Valid()
      reads this
    {
      position <= |data|
    }

    constructor (data: Bytes)
      ensures Valid() && this.data == data && position == 0
    {
      this.data, position := data, 0;
    }

    method ReadBytes(len: nat) returns (r: Result<Bytes, DaApiError>)
      requires Valid()
      modifies this
      ensures Valid()
      ensures |data| - old(position) < len ==> r == Err(InvalidCertificateLength(|data|)) && position == old(position)
      ensures |data| - old(position) >= len ==>
                r == Ok(data[old(position)..old(position) + len]) && position == old(position) + len
    {
      if |data| - position < len {
        return Err(InvalidCertificateLength(|data|));
      }
      r := Ok(data[position..position + len]);
      position := position + len;
    }

    /** The next eight bytes as a number. */
    method ReadU64() returns (r: Result<U64, DaApiError>)
      requires Valid()
      modifies this
      ensures Valid()
      ensures |data| - old(position) < WORD_SIZE ==> r == Err(InvalidCertificateLength(|data|)) && position == old(position)
      ensures |data| - old(position) >= WORD_SIZE ==>
                && position == old(position) + WORD_SIZE
                && r.Ok? && Word(r.value) == data[old(position)..position]
    {
      var b := ReadBytes(WORD_SIZE);
      if b.Err? {
        return Err(b.error);
      }
      WordOf(b.value);
      r := Ok(FromBigEndian(b.value));
    }

    method ReadRest() returns (r: Bytes)
      requires Valid()
      modifies this
      ensures Valid() && r == data[old(position)..] && position == |data|
    {
      r := data[position..];
      position := |data|;
    }
  }

  method ToBytes(cert: CasCertificate) returns (r: Result<Bytes, DaApiError>)
    ensures r == Serialized(cert)
  {
    if cert.header == [] || cert.header[0] != VERSION {
      return Err(SerializationFailed);
    }
    var enc := new Encoder();
    if |cert.header| != CERT_HEADER_SIZE {
      return Err(SerializationFailed);
    }
    enc.PushBytes(cert.header);
    assert enc.buf == cert.header;
    var c := cert.claims;
    enc.PushWords(c.startMessagePos, c.endMessagePos, c.startHotshotBlock, c.afterDelayedMessagesRead, c.minHotshotBlockStillInQueue);
    enc.PushBytes(cert.signature);
    enc.PushBytes(cert.downstream);
    r := Ok(enc.buf);
  }

  /** The claims are the next forty bytes. */
  method ReadClaims(dec: Decoder) returns (r: Result<Claims, DaApiError>)
    requires dec.Valid()
    modifies dec
    ensures dec.Valid()
    ensures |dec.data| - old(dec.position) < 40 ==> r == Err(InvalidCertificateLength(|dec.data|))
    ensures |dec.data| - old(dec.position) >= 40 ==>
              && dec.position == old(dec.position) + 40
              && r.Ok? && ClaimBytes(r.value) == dec.data[old(dec.position)..dec.position]
  {
    var a :- dec.ReadU64();
    var b :- dec.ReadU64();
    var c :- dec.ReadU64();
    var d :- dec.ReadU64();
    var e :- dec.ReadU64();
    r := Ok(Claims(a, b, c, d, e));
    ghost var bytes, p := dec.data, old(dec.position);
    assert bytes[p..p + 40]
        == bytes[p..p + 8] + bytes[p + 8..p + 16] + bytes[p + 16..p + 24] + bytes[p + 24..p + 32] + bytes[p + 32..p + 40];
  }

  /**
   * Succeeds exactly on data that starts with the version byte and is long enough for the fixed part, and then
   * returns the certificate with these very bytes.
   */
  method FromBytes(data: Bytes) returns (r: Result<CasCertificate, DaApiError>)
    ensures data == [] ==> r == Err(InvalidCertificateLength(0))
    ensures data != [] && data[0] != VERSION ==> r == Err(UnknownVersion(data[0]))
    ensures data != [] && data[0] == VERSION && |data| < ESPRESSO_CERT_SIZE ==> r == Err(InvalidCertificateLength(|data|))
    ensures |data| >= ESPRESSO_CERT_SIZE && data[0] == VERSION ==> r.Ok? && Serialized(r.value) == Ok(data)
  {
    if data == [] {
      return Err(InvalidCertificateLength(0));
    }
    if data[0] != VERSION {
      return Err(UnknownVersion(data[0]));
    }
    if |data| < CERT_HEADER_SIZE + WORD_SIZE + CAS_SIG_SIZE {
      return Err(InvalidCertificateLength(|data|));
    }
    var dec := new Decoder(data);
    // The length check leaves room for the header and the claims, but not for the signature.
    var header := dec.ReadBytes(CERT_HEADER_SIZE);
    var claims := ReadClaims(dec);
    var signature :- dec.ReadBytes(CAS_SIG_SIZE);
    var downstream := dec.ReadRest();
    r := Ok(CasCertificate(header.value, claims.value, signature, downstream));
    assert data == data[..32] + data[32..72] + data[72..137] + data[137..];
  }

  lemma WordsInjective(a: U64, b: U64, c: U64, d: U64, e: U64, a': U64, b': U64, c': U64, d': U64, e': U64)
    requires Words(a, b, c, d, e) == Words(a', b', c', d', e')
    ensures a == a' && b == b' && c == c' && d == d' && e == e'
  {
    var x, y := Words(a, b, c, d, e), Words(a', b', c', d', e');
    assert Word(a) == x[..8] == y[..8] == Word(a');
    assert Word(b) == x[8..16] == y[8..16] == Word(b');
    assert Word(c) == x[16..24] == y[16..24] == Word(c');
    assert Word(d) == x[24..32] == y[24..32] == Word(d');
    assert Word(e) == x[32..] == y[32..] == Word(e');
    WordInjective(a, a');
    WordInjective(b, b');
    WordInjective(c, c');
    WordInjective(d, d');
    WordInjective(e, e');
  }

  /** Five words in front of anything are read at every eighth byte. */
  lemma WordsRead(data: Bytes, i: nat, a: U64, b: U64, c: U64, d: U64, e: U64)
    requires i + 40 <= |data| && data[i..i + 40] == Words(a, b, c, d, e)
    ensures WordAt(data, i) == a && WordAt(data, i + 8) == b && WordAt(data, i + 16) == c
    ensures WordAt(data, i + 24) == d && WordAt(data, i + 32) == e
  {
    WordReadAt(data, i, 0, a, Words(a, b, c, d, e));
    WordReadAt(data, i, 8, b, Words(a, b, c, d, e));
    WordReadAt(data, i, 16, c, Words(a, b, c, d, e));
    WordReadAt(data, i, 24, d, Words(a, b, c, d, e));
    WordReadAt(data, i, 32, e, Words(a, b, c, d, e));
  }

  lemma WordReadAt(data: Bytes, i: nat, k: nat, n: U64, words: Bytes)
    requires |words| == 40 && i + 40 <= |data| && data[i..i + 40] == words && k + 8 <= 40
    requires words[k..k + 8] == Word(n)
    ensures WordAt(data, i + k) == n
  {
    var x, y := data[i + k..i + k + 8], words[k..k + 8];
    forall j | 0 <= j < 8 ensures x[j] == y[j] {
      assert data[i..i + 40][k + j] == data[i + k + j];
    }
    assert x == y;
    ReadWritten(n);
  }

  /** The bytes of a certificate: version and header, five numbers, the signature, and the downstream certificate. */
  lemma SerializedLayout(cert: CasCertificate)
    requires Serialized(cert).Ok?
    ensures var b := Serialized(cert).value;
      && |b| == 137 + |cert.downstream| && b[0] == 0x70 && b[..32] == cert.header
      && WordAt(b, 32) == cert.claims.startMessagePos
      && WordAt(b, 40) == cert.claims.endMessagePos
      && WordAt(b, 48) == cert.claims.startHotshotBlock
      && WordAt(b, 56) == cert.claims.afterDelayedMessagesRead
      && WordAt(b, 64) == cert.claims.minHotshotBlockStillInQueue
      && b[72..137] == cert.signature && b[137..] == cert.downstream
  {
    var b, c := Serialized(cert).value, cert.claims;
    assert b[32..72] == ClaimBytes(c);
    WordsRead(b, 32,
      c.startMessagePos, c.endMessagePos, c.startHotshotBlock, c.afterDelayedMessagesRead, c.minHotshotBlockStillInQueue);
  }

  /** Different certificates have different bytes. */
  lemma SerializedInjective(x: CasCertificate, y: CasCertificate)
    requires Serialized(x).Ok? && Serialized(x) == Serialized(y)
    ensures x == y
  {
    var b := Serialized(x).value;
    assert x.header == b[..32] == y.header;
    assert ClaimBytes(x.claims) == b[32..72] == ClaimBytes(y.claims);
    assert x.signature == b[72..137] == y.signature;
    assert x.downstream == b[137..] == y.downstream;
    var c, d := x.claims, y.claims;
    WordsInjective(
      c.startMessagePos, c.endMessagePos, c.startHotshotBlock, c.afterDelayedMessagesRead, c.minHotshotBlockStillInQueue,
      d.startMessagePos, d.endMessagePos, d.startHotshotBlock, d.afterDelayedMessagesRead, d.minHotshotBlockStillInQueue);
  }

  /** Writing a certificate and reading it back gives the same certificate. */
  method RoundTrip(cert: CasCertificate) returns (r: Result<CasCertificate, DaApiError>)
    ensures Serialized(cert).Ok? ==> r == Ok(cert)
    ensures Serialized(cert).Err? ==> r == Err(SerializationFailed)
  {
    var bytes :- ToBytes(cert);
    r := FromBytes(bytes);
    SerializedInjective(cert, r.value);
  }

  // ---- signing and validation ----

  /** Signing with the service's key, and recovery of the signer's address from a payload and its signature. */
  datatype Scheme = Scheme(sign: Bytes -> Option<Signature>, recover: (Bytes, Signature) -> Option<Bytes>)

  /** What is signed: the counts before and after the batch, the other claims, and the downstream certificate. */
  function SignedPayload(c: Claims, downstream: Bytes): Bytes {
    Words(
      c.startMessagePos,
      Wrap(c.endMessagePos + 1),
      c.startHotshotBlock,
      c.afterDelayedMessagesRead,
      c.minHotshotBlockStillInQueue)
    + downstream
  }

  method BuildPayload(c: Claims, downstream: Bytes) returns (r: Bytes)
    ensures r == SignedPayload(c, downstream)
  {
    var prevMessageCount := c.startMessagePos;
    var newMessageCount := Wrap(c.endMessagePos + 1);
    var enc := new Encoder();
    enc.PushWords(
      prevMessageCount, newMessageCount, c.startHotshotBlock, c.afterDelayedMessagesRead, c.minHotshotBlockStillInQueue);
    assert enc.buf == Words(
      prevMessageCount, newMessageCount, c.startHotshotBlock, c.afterDelayedMessagesRead, c.minHotshotBlockStillInQueue);
    enc.PushBytes(downstream);
    r := enc.buf;
  }

  /** The bytes that are signed: the counts before and after the batch, three more numbers, the downstream certificate. */
  lemma SignedLayout(c: Claims, downstream: Bytes)
    ensures var p := SignedPayload(c, downstream);
      && |p| == 40 + |downstream|
      && WordAt(p, 0) == c.startMessagePos
      && WordAt(p, 8) == (if c.endMessagePos == U64_MAX then 0 else c.endMessagePos + 1)
      && WordAt(p, 16) == c.startHotshotBlock
      && WordAt(p, 24) == c.afterDelayedMessagesRead
      && WordAt(p, 32) == c.minHotshotBlockStillInQueue
      && p[40..] == downstream
  {
    var p := SignedPayload(c, downstream);
    assert p[0..40] == p[..40];
    WordsRead(p, 0,
      c.startMessagePos, Wrap(c.endMessagePos + 1), c.startHotshotBlock, c.afterDelayedMessagesRead, c.minHotshotBlockStillInQueue);
  }

  lemma NextCountInjective(a: U64, b: U64)
    requires Wrap(a + 1) == Wrap(b + 1)
    ensures a == b
  {
  }

  /** A signature is for one set of claims and one downstream certificate only. */
  lemma SignedPayloadInjective(c: Claims, x: Bytes, d: Claims, y: Bytes)
    requires SignedPayload(c, x) == SignedPayload(d, y)
    ensures c == d && x == y
  {
    var p := SignedPayload(c, x);
    var q := SignedPayload(d, y);
    assert p[40..] == x && q[40..] == y;
    assert p[..40] == q[..40];
    WordsInjective(
      c.startMessagePos, Wrap(c.endMessagePos + 1), c.startHotshotBlock, c.afterDelayedMessagesRead, c.minHotshotBlockStillInQueue,
      d.startMessagePos, Wrap(d.endMessagePos + 1), d.startHotshotBlock, d.afterDelayedMessagesRead, d.minHotshotBlockStillInQueue);
    NextCountInjective(c.endMessagePos, d.endMessagePos);
  }

  function NewHeader(): (r: Bytes)
    ensures |r| == CERT_HEADER_SIZE && r[0] == VERSION
  {
    [VERSION] + seq(CERT_HEADER_SIZE - 1, _ => 0)
  }

  function Issued(s: Scheme, c: Claims, downstream: Bytes): Result<CasCertificate, DaApiError> {
    if |downstream| < 2 then Err(InvalidCertificateLength(|downstream|))
    else
      match s.sign(SignedPayload(c, downstream))
      case None => Err(Signing)
      case Some(signature) => Ok(CasCertificate(NewHeader(), c, signature, downstream))
  }

  /** An issued certificate has an otherwise empty header, the claims as given, and a signature over the signed bytes. */
  lemma IssuedMeans(s: Scheme, c: Claims, downstream: Bytes)
    requires Issued(s, c, downstream).Ok?
    ensures var cert := Issued(s, c, downstream).value;
      && Serialized(cert).Ok? && (forall i :: 0 <= i < 32 ==> cert.header[i] == if i == 0 then 0x70 else 0)
      && cert.claims == c && cert.downstream == downstream
      && s.sign(SignedPayload(c, downstream)) == Some(cert.signature)
  {
  }

  function StructureError(cert: CasCertificate): Option<DaApiError> {
    if cert.header == [] then Some(EmptyHeader)
    else if cert.header[0] != VERSION then Some(InvalidHeaderByte(cert.header[0]))
    else if |cert.header| != CERT_HEADER_SIZE then Some(InvalidHeaderLength(|cert.header|))
    else if |cert.downstream| < 2 then Some(InvalidCertificateLength(|cert.downstream|))
    else None
  }

  function Validated(s: Scheme, cert: CasCertificate, signer: Bytes): Option<DaApiError> {
    match StructureError(cert)
    case Some(e) => Some(e)
    case None =>
      if s.recover(SignedPayload(cert.claims, cert.downstream), cert.signature) == Some(signer) then None
      else Some(InvalidCasSignature)
  }

  /**
   * Strips the certificate from a sequencer message. On success the message holds, behind its header, a certificate for
   * the downstream part whose signature recovers to the expected signer.
   */
  method ExtractDownstream(s: Scheme, msg: Bytes, signer: Bytes) returns (r: Result<Bytes, DaApiError>, ghost cert: CasCertificate)
    ensures r.Ok? <==> Carries(s, msg, signer)
    ensures r.Ok? ==>
      && Serialized(cert) == Ok(msg[SEQUENCER_HEADER_LEN..]) && Validated(s, cert, signer).None?
      && r.value == msg[..SEQUENCER_HEADER_LEN] + cert.downstream
    ensures |msg| <= SEQUENCER_HEADER_LEN ==> r == Err(InvalidSequencerMessageLength(|msg|))
  {
    cert := CasCertificate([], Claims(0, 0, 0, 0, 0), seq(CAS_SIG_SIZE, _ => 0), []);
    if |msg| <= SEQUENCER_HEADER_LEN {
      return Err(InvalidSequencerMessageLength(|msg|)), cert;
    }
    var parsed := FromBytes(msg[SEQUENCER_HEADER_LEN..]);
    if parsed.Err? {
      return Err(parsed.error), cert;
    }
    var found := parsed.value;
    cert := found;
    OnlyCertificate(s, msg, signer, found);
    var error := Validated(s, found, signer);
    if error.Some? {
      return Err(error.value), cert;
    }
    r := Ok(msg[..SEQUENCER_HEADER_LEN] + found.downstream);
  }

  /** Behind the sequencer header of `msg` stands a certificate that is valid for `signer`. */
  ghost predicate Carries(s: Scheme, msg: Bytes, signer: Bytes) {
    |msg| > SEQUENCER_HEADER_LEN &&
    exists cert :: Serialized(cert) == Ok(msg[SEQUENCER_HEADER_LEN..]) && Validated(s, cert, signer).None?
  }

  lemma OnlyCertificate(s: Scheme, msg: Bytes, signer: Bytes, cert: CasCertificate)
    requires |msg| > SEQUENCER_HEADER_LEN && Serialized(cert) == Ok(msg[SEQUENCER_HEADER_LEN..])
    ensures Carries(s, msg, signer) <==> Validated(s, cert, signer).None?
  {
    forall other: CasCertificate | Serialized(other) == Serialized(cert) ensures other == cert {
      SerializedInjective(other, cert);
    }
  }

  /** The certificate with these bytes. */
  function CertificateOf(data: Bytes): CasCertificate
    requires |data| >= ESPRESSO_CERT_SIZE
  {
    var claims := Claims(WordAt(data, 32), WordAt(data, 40), WordAt(data, 48), WordAt(data, 56), WordAt(data, 64));
    CasCertificate(data[..32], claims, data[72..137], data[137..])
  }

  lemma ClaimsOf(data: Bytes)
    requires |data| >= ESPRESSO_CERT_SIZE
    ensures ClaimBytes(CertificateOf(data).claims) == data[32..72]
  {
    WordOf(data[32..40]);
    WordOf(data[40..48]);
    WordOf(data[48..56]);
    WordOf(data[56..64]);
    WordOf(data[64..72]);
    assert data[32..72] == data[32..40] + data[40..48] + data[48..56] + data[56..64] + data[64..72];
  }

  lemma CertificateOfSerializes(data: Bytes)
    requires |data| >= ESPRESSO_CERT_SIZE && data[0] == VERSION
    ensures Serialized(CertificateOf(data)) == Ok(data)
  {
    ClaimsOf(data);
    assert data == data[..32] + data[32..72] + data[72..137] + data[137..];
  }

  lemma SerializedShape(cert: CasCertificate)
    requires Serialized(cert).Ok?
    ensures |Serialized(cert).value| == ESPRESSO_CERT_SIZE + |cert.downstream| && Serialized(cert).value[0] == VERSION
  {
  }

  /** On the bytes of a message: extraction succeeds exactly when this holds. */
  lemma CarriesIff(s: Scheme, msg: Bytes, signer: Bytes)
    ensures Carries(s, msg, signer) <==>
      && |msg| >= SEQUENCER_HEADER_LEN + ESPRESSO_CERT_SIZE + 2 && msg[SEQUENCER_HEADER_LEN] == VERSION
      && var cert := CertificateOf(msg[SEQUENCER_HEADER_LEN..]);
         s.recover(SignedPayload(cert.claims, cert.downstream), cert.signature) == Some(signer)
  {
    if Carries(s, msg, signer) {
      var cert :| Serialized(cert) == Ok(msg[SEQUENCER_HEADER_LEN..]) && Validated(s, cert, signer).None?;
      SerializedShape(cert);
    }
    if |msg| >= SEQUENCER_HEADER_LEN + ESPRESSO_CERT_SIZE && msg[SEQUENCER_HEADER_LEN] == VERSION {
      var data := msg[SEQUENCER_HEADER_LEN..];
      CertificateOfSerializes(data);
      OnlyCertificate(s, msg, signer, CertificateOf(data));
    }
  }

  /** What the key signs recovers to its address. */
  ghost predicate Owns(s: Scheme, address: Bytes) {
    forall p: Bytes :: s.sign(p).Some? ==> s.recover(p, s.sign(p).value) == Some(address)
  }

  /** Storing and then extracting gives the sequencer header and the downstream certificate back. */
  method StoreThenExtract(s: Scheme, address: Bytes, c: Claims, header: Bytes, downstream: Bytes)
    returns (r: Result<Bytes, DaApiError>)
    requires Owns(s, address) && |header| == SEQUENCER_HEADER_LEN
    ensures |downstream| < 2 ==> r == Err(InvalidCertificateLength(|downstream|))
    ensures |downstream| >= 2 && s.sign(SignedPayload(c, downstream)).None? ==> r == Err(Signing)
    ensures |downstream| >= 2 && s.sign(SignedPayload(c, downstream)).Some? ==> r == Ok(header + downstream)
  {
    var issued := Issued(s, c, downstream);
    if issued.Err? {
      return Err(issued.error);
    }
    var bytes := ToBytes(issued.value);
    var msg := header + bytes.value;
    assert msg[SEQUENCER_HEADER_LEN..] == bytes.value && msg[..SEQUENCER_HEADER_LEN] == header;
    OnlyCertificate(s, msg, address, issued.value);
    ghost var cert;
    r, cert := ExtractDownstream(s, msg, address);
    SerializedInjective(cert, issued.value);
  }
}
