/** The `Attribute` trait of crates/stun-types/src/attributes/mod.rs and its
    thirteen implementations, as one datatype with one case per attribute:
    the type code (`TYPE`), `encode_len`, `encode` into a builder's buffer
    and `decode` from a parsed message. */
module StunAttribute {
  import opened Stun
  import opened Wire
  import opened StunValues
  import opened StunMsg
  import opened StunAddr
  import opened StunPasswordAlgs
  import StunErrorCode
  import opened StunIntegrity

  datatype Attr =
    | Username(username: Text)
    | Realm(realm: Text)
    | Nonce(nonce: seq<byte>)
    | UnknownAttributes(codes: seq<u16>)
    | Software(software: Text)
    | AlternateDomain(domain: seq<byte>)
    | MappedAddress(mapped: SocketAddr)
    | XorMappedAddress(xorMapped: SocketAddr)
    | AlternateServer(server: SocketAddr)
    | PasswordAlgorithms(algorithms: seq<Algorithm>)
    | ErrorCode(errorCode: StunErrorCode.ErrorCode)
    | MessageIntegrity
    | MessageIntegritySha256

  /** The attribute a caller asks `get_attr_with` for: the Rust type `A`. */
  datatype Kind =
    | UsernameKind | RealmKind | NonceKind | UnknownAttributesKind | SoftwareKind
    | AlternateDomainKind | MappedAddressKind | XorMappedAddressKind | AlternateServerKind
    | PasswordAlgorithmsKind | ErrorCodeKind | MessageIntegrityKind | MessageIntegritySha256Kind

  /** `Attribute::Context`: `()` for all but the two integrity attributes,
      which take their keyed HMAC. */
  datatype Context = NoContext | Sha1Key(sha1: Sha1Mac) | Sha256Key(sha256: Sha256Mac)

  /** The Rust type of an attribute value. */
  function KindOf(a: Attr): (k: Kind)
    ensures IsAddress(a) <==> k == MappedAddressKind || k == XorMappedAddressKind || k == AlternateServerKind
    ensures Fits(k, NoContext) <==> !a.MessageIntegrity? && !a.MessageIntegritySha256?
  {
    match a
    case Username(_) => UsernameKind
    case Realm(_) => RealmKind
    case Nonce(_) => NonceKind
    case UnknownAttributes(_) => UnknownAttributesKind
    case Software(_) => SoftwareKind
    case AlternateDomain(_) => AlternateDomainKind
    case MappedAddress(_) => MappedAddressKind
    case XorMappedAddress(_) => XorMappedAddressKind
    case AlternateServer(_) => AlternateServerKind
    case PasswordAlgorithms(_) => PasswordAlgorithmsKind
    case ErrorCode(_) => ErrorCodeKind
    case MessageIntegrity => MessageIntegrityKind
    case MessageIntegritySha256 => MessageIntegritySha256Kind
  }

  /** `Attribute::TYPE`: four of the attributes have codes in the
      comprehension-optional range 0x8000-0xFFFF of section 18.3 of
      RFC 8489, the others in the comprehension-required range. */
  function TypeOf(k: Kind): (t: u16)
    ensures 0x8000 <= t <==> k in {SoftwareKind, AlternateDomainKind, AlternateServerKind, PasswordAlgorithmsKind}
  {
    match k
    case UsernameKind => 0x0006
    case RealmKind => 0x0014
    case NonceKind => 0x0015
    case UnknownAttributesKind => 0x000A
    case SoftwareKind => 0x8022
    case AlternateDomainKind => 0x8003
    case MappedAddressKind => 0x0001
    case XorMappedAddressKind => 0x0020
    case AlternateServerKind => 0x8023
    case PasswordAlgorithmsKind => 0x8002
    case ErrorCodeKind => 0x0009
    case MessageIntegrityKind => 0x0008
    case MessageIntegritySha256Kind => 0x001C
  }

  /** Every attribute has a type code of its own. */
  lemma TypesDistinct(k1: Kind, k2: Kind)
    ensures TypeOf(k1) == TypeOf(k2) <==> k1 == k2
  {
  }

  /** The context fits the attribute as the Rust types require. */
  predicate Fits(k: Kind, ctx: Context) {
    match k
    case MessageIntegrityKind => ctx.Sha1Key?
    case MessageIntegritySha256Kind => ctx.Sha256Key?
    case _ => ctx.NoContext?
  }

  /** `Attribute::encode_len`. The three addresses return 64 or 160, their
      size in bits (`AddrEncodeLen`); only UNKNOWN-ATTRIBUTES, the text and
      byte attributes, ERROR-CODE and PASSWORD-ALGORITHMS can fail, with the
      overflow of a 16-bit length. */
  function EncodeLen(a: Attr): (r: Result<u16>)
    ensures IsAddress(a) ==> r == Ok(if AddrOf(a).V4? then 64 else 160)
    ensures a.MessageIntegrity? ==> r == Ok(SHA1_LEN)
    ensures a.MessageIntegritySha256? ==> r == Ok(SHA256_LEN)
    ensures r.Err? ==> r.error == IntegerOverflow
  {
    match a
    case Username(t) => LengthU16(|t|)
    case Realm(t) => LengthU16(|t|)
    case Nonce(b) => LengthU16(|b|)
    case UnknownAttributes(codes) => CodesEncodeLen(codes)
    case Software(t) => LengthU16(|t|)
    case AlternateDomain(b) => LengthU16(|b|)
    case MappedAddress(addr) => AddrEncodeLen(addr)
    case XorMappedAddress(addr) => AddrEncodeLen(addr)
    case AlternateServer(addr) => AddrEncodeLen(addr)
    case PasswordAlgorithms(algs) => LengthU16(EncodedLen(algs))
    case ErrorCode(e) => StunErrorCode.ErrorCodeEncodeLen(e)
    case MessageIntegrity => LengthU16(SHA1_LEN)
    case MessageIntegritySha256 => LengthU16(SHA256_LEN)
  }

  /** `encode_len` as the address attributes evidently mean it: their
      value's size in bytes (`AddrValueLen`); the others as written. */
  function IntendedEncodeLen(a: Attr): (r: Result<u16>)
    ensures IsAddress(a) ==> r == Ok(if AddrOf(a).V4? then 8 else 20)
    ensures !IsAddress(a) ==> r == EncodeLen(a)
  {
    if IsAddress(a) then AddrValueLen(AddrOf(a)) else EncodeLen(a)
  }

  predicate IsAddress(a: Attr) {
    a.MappedAddress? || a.XorMappedAddress? || a.AlternateServer?
  }

  /** `Attribute::encode` on a builder whose id is `id` and whose buffer
      holds `data`: what is appended and the result. */
  function Encoding(a: Attr, ctx: Context, id: u128, host: Endian, data: seq<byte>): (r: Encoded)
    requires Fits(KindOf(a), ctx)
    requires a.MessageIntegrity? || a.MessageIntegritySha256? ==> |data| >= 4
    ensures r.outcome.Fail? ==> a.PasswordAlgorithms?
    ensures IsAddress(a) ==> |r.bytes| == if AddrOf(a).V4? then 8 else 20
  {
    match a
    case Username(t) => Encoded(t, Pass)
    case Realm(t) => Encoded(t, Pass)
    case Nonce(b) => Encoded(b, Pass)
    case UnknownAttributes(codes) => Encoded(CodeBytes(codes), Pass)
    case Software(t) => Encoded(t, Pass)
    case AlternateDomain(b) => Encoded(b, Pass)
    case MappedAddress(addr) => Encoded(AddrBytes(addr, PlainKey, host), Pass)
    case XorMappedAddress(addr) => Encoded(AddrBytes(addr, XorMappedKeyAsWritten(id), host), Pass)
    case AlternateServer(addr) => Encoded(AddrBytes(addr, PlainKey, host), Pass)
    case PasswordAlgorithms(algs) => EncodeAlgs(algs)
    case ErrorCode(e) => Encoded(StunErrorCode.ErrorCodeBytes(e), Pass)
    case MessageIntegrity => Encoded(ctx.sha1(data[..|data| - 4]), Pass)
    case MessageIntegritySha256 => Encoded(ctx.sha256(data[..|data| - 4]), Pass)
  }

  /** `encode_len` and `encode` agree on every attribute but the three
      addresses, which announce eight times the bytes they write. */
  lemma EncodeLenAgrees(a: Attr, ctx: Context, id: u128, host: Endian, data: seq<byte>)
    requires Fits(KindOf(a), ctx)
    requires a.MessageIntegrity? || a.MessageIntegritySha256? ==> |data| >= 4
    requires EncodeLen(a).Ok? && Encoding(a, ctx, id, host, data).outcome.Pass?
    ensures !IsAddress(a) ==> EncodeLen(a).value == |Encoding(a, ctx, id, host, data).bytes|
    ensures IsAddress(a) ==> EncodeLen(a).value == 8 * |Encoding(a, ctx, id, host, data).bytes|
  {
    if a.PasswordAlgorithms? {
      EncodedLength(a.algorithms);
    }
  }

  /** With the intended lengths every attribute writes exactly what
      `encode_len` announces. */
  lemma IntendedEncodeLenAgrees(a: Attr, ctx: Context, id: u128, host: Endian, data: seq<byte>)
    requires Fits(KindOf(a), ctx)
    requires a.MessageIntegrity? || a.MessageIntegritySha256? ==> |data| >= 4
    requires IntendedEncodeLen(a).Ok? && Encoding(a, ctx, id, host, data).outcome.Pass?
    ensures IntendedEncodeLen(a).value == |Encoding(a, ctx, id, host, data).bytes|
  {
    if !IsAddress(a) {
      EncodeLenAgrees(a, ctx, id, host, data);
    }
  }

  /** `encode`, dispatched. */
  method Encode(a: Attr, ctx: Context, id: u128, host: Endian, buf: ByteBuffer) returns (o: Outcome)
    requires Fits(KindOf(a), ctx)
    requires a.MessageIntegrity? || a.MessageIntegritySha256? ==> |buf.data| >= 4
    modifies buf
    ensures buf.data == old(buf.data) + Encoding(a, ctx, id, host, old(buf.data)).bytes
    ensures o == Encoding(a, ctx, id, host, old(buf.data)).outcome
  {
    o := Pass;
    match a
    case Username(t) => buf.ExtendFromSlice(t);
    case Realm(t) => buf.ExtendFromSlice(t);
    case Nonce(b) => buf.ExtendFromSlice(b);
    case UnknownAttributes(codes) => WriteCodes(buf, codes);
    case Software(t) => buf.ExtendFromSlice(t);
    case AlternateDomain(b) => buf.ExtendFromSlice(b);
    case MappedAddress(addr) => EncodeAddr(buf, addr, PlainKey, host);
    case XorMappedAddress(addr) => EncodeAddr(buf, addr, XorMappedKeyAsWritten(id), host);
    case AlternateServer(addr) => EncodeAddr(buf, addr, PlainKey, host);
    case PasswordAlgorithms(algs) => o := WriteAlgs(buf, algs);
    case ErrorCode(e) => StunErrorCode.WriteErrorCode(buf, e);
    case MessageIntegrity => WriteIntegrity(buf, ctx.sha1);
    case MessageIntegritySha256 => WriteIntegrity(buf, ctx.sha256);
  }

  /** `Attribute::decode` of the attribute `attr` of the message `msg`: a
      value of the kind asked for, or an error; NONCE and ALTERNATE-DOMAIN
      take any bytes and UNKNOWN-ATTRIBUTES any even number of bytes.
      PASSWORD-ALGORITHMS is read by `DecodeAlgs`, four
      bytes per record. */
  function Decoding(k: Kind, ctx: Context, msg: ParsedMessage, attr: ParsedAttr, host: Endian): (r: Result<Attr>)
    requires Fits(k, ctx)
    requires k == MessageIntegrityKind || k == MessageIntegritySha256Kind ==> attr.attrIdx <= |msg.buffer|
    ensures k == NonceKind || k == AlternateDomainKind ==> r.Ok?
    ensures k == UnknownAttributesKind ==> (r.Ok? <==> |attr.value| % 2 == 0)
  {
    match k
    case UsernameKind => TextAttr(k, attr.value)
    case RealmKind => TextAttr(k, attr.value)
    case NonceKind => Ok(Nonce(attr.value))
    case UnknownAttributesKind => CodesAttr(attr.value)
    case SoftwareKind => TextAttr(k, attr.value)
    case AlternateDomainKind => Ok(AlternateDomain(attr.value))
    case MappedAddressKind => AddrAttr(k, attr.value, msg.id)
    case XorMappedAddressKind => AddrAttr(k, attr.value, msg.id)
    case AlternateServerKind => AddrAttr(k, attr.value, msg.id)
    case PasswordAlgorithmsKind => AlgsAttr(attr.value)
    case ErrorCodeKind => ErrorCodeAttr(attr.value, host)
    case MessageIntegrityKind => IntegrityAttr(ctx.sha1, msg.buffer, attr, MessageIntegrity)
    case MessageIntegritySha256Kind => IntegrityAttr(ctx.sha256, msg.buffer, attr, MessageIntegritySha256)
  }

  /** USERNAME, REALM and SOFTWARE: the value must be UTF-8. */
  function TextAttr(k: Kind, value: seq<byte>): Result<Attr>
    requires k == UsernameKind || k == RealmKind || k == SoftwareKind
  {
    var t :- DecodeText(value);
    Ok(if k == UsernameKind then Username(t) else if k == RealmKind then Realm(t) else Software(t))
  }

  /** UNKNOWN-ATTRIBUTES: the codes in network order. */
  function CodesAttr(value: seq<byte>): Result<Attr> {
    var codes :- DecodeCodes(value);
    Ok(UnknownAttributes(codes))
  }

  /** The three addresses, unmasked with their key. */
  function AddrAttr(k: Kind, value: seq<byte>, id: u128): Result<Attr>
    requires k == MappedAddressKind || k == XorMappedAddressKind || k == AlternateServerKind
  {
    var addr :- DecodeAddr(value, AddrKey(k, id));
    Ok(if k == MappedAddressKind then MappedAddress(addr)
       else if k == XorMappedAddressKind then XorMappedAddress(addr)
       else AlternateServer(addr))
  }

  /** PASSWORD-ALGORITHMS, read by `DecodeAlgs`. */
  function AlgsAttr(value: seq<byte>): Result<Attr> {
    var algs :- DecodeAlgs(value);
    Ok(PasswordAlgorithms(algs))
  }

  /** ERROR-CODE, its head read in the host's byte order. */
  function ErrorCodeAttr(value: seq<byte>, host: Endian): Result<Attr> {
    var e :- StunErrorCode.DecodeErrorCode(value, host);
    Ok(ErrorCode(e))
  }

  /** The integrity attributes: the check of `message_integrity_decode`. */
  function IntegrityAttr(mac: seq<byte> -> seq<byte>, buffer: seq<byte>, attr: ParsedAttr, a: Attr): (r: Result<Attr>)
    requires attr.attrIdx <= |buffer|
    ensures r.Ok? <==> mac(buffer[..attr.attrIdx]) == attr.value
    ensures r.Ok? ==> r.value == a
    ensures r.Err? ==> r.error == InvalidData(VERIFY_FAILED)
  {
    var v := VerifyIntegrity(mac, buffer, attr);
    if v.Fail? then Err(v.error) else Ok(a)
  }

  /** The keys `new_hmac_sha1` makes of passwords: MESSAGE-INTEGRITY holding
      the HMAC of the data in front of it under `password`'s key passes
      the check keyed by `password`, and the check keyed by `other` exactly
      when `other`'s key gives the same HMAC of that data. */
  lemma PasswordKeys(hmac: (seq<byte>, seq<byte>) -> seq<byte>, md5: seq<byte> -> seq<byte>,
                     password: Text, other: Text, msg: ParsedMessage, attr: ParsedAttr, host: Endian)
    requires forall k, m :: |hmac(k, m)| == SHA1_LEN
    requires attr.attrIdx <= |msg.buffer| && attr.value == hmac(md5(password), msg.buffer[..attr.attrIdx])
    ensures Decoding(MessageIntegrityKind, Sha1Key(NewHmacSha1(hmac, md5, password)), msg, attr, host)
         == Ok(MessageIntegrity)
    ensures Decoding(MessageIntegrityKind, Sha1Key(NewHmacSha1(hmac, md5, other)), msg, attr, host)
         == Ok(MessageIntegrity)
        <==> hmac(md5(other), msg.buffer[..attr.attrIdx]) == attr.value
  {
    Sha1PasswordChecks(hmac, md5, password, msg, attr, host);
    Sha1PasswordChecks(hmac, md5, other, msg, attr, host);
  }

  /** The same for MESSAGE-INTEGRITY-SHA256 and `new_hmac_sha256`. */
  lemma PasswordKeysSha256(hmac: (seq<byte>, seq<byte>) -> seq<byte>, md5: seq<byte> -> seq<byte>,
                           password: Text, other: Text, msg: ParsedMessage, attr: ParsedAttr, host: Endian)
    requires forall k, m :: |hmac(k, m)| == SHA256_LEN
    requires attr.attrIdx <= |msg.buffer| && attr.value == hmac(md5(password), msg.buffer[..attr.attrIdx])
    ensures Decoding(MessageIntegritySha256Kind, Sha256Key(NewHmacSha256(hmac, md5, password)), msg, attr, host)
         == Ok(MessageIntegritySha256)
    ensures Decoding(MessageIntegritySha256Kind, Sha256Key(NewHmacSha256(hmac, md5, other)), msg, attr, host)
         == Ok(MessageIntegritySha256)
        <==> hmac(md5(other), msg.buffer[..attr.attrIdx]) == attr.value
  {
    Sha256PasswordChecks(hmac, md5, password, msg, attr, host);
    Sha256PasswordChecks(hmac, md5, other, msg, attr, host);
  }

  /** The MESSAGE-INTEGRITY arm of `Decoding` passes exactly when the key
      gives the attribute's value as the MAC of the data in front of it. */
  lemma Sha1Checks(mac: Sha1Mac, msg: ParsedMessage, attr: ParsedAttr, host: Endian)
    requires attr.attrIdx <= |msg.buffer|
    ensures Decoding(MessageIntegrityKind, Sha1Key(mac), msg, attr, host) == Ok(MessageIntegrity)
        <==> mac(msg.buffer[..attr.attrIdx]) == attr.value
  {
    assert Decoding(MessageIntegrityKind, Sha1Key(mac), msg, attr, host)
        == IntegrityAttr(mac, msg.buffer, attr, MessageIntegrity);
  }

  /** The MESSAGE-INTEGRITY-SHA256 arm of `Decoding` passes exactly when the key
      gives the attribute's value as the MAC of the data in front of it. */
  lemma Sha256Checks(mac: Sha256Mac, msg: ParsedMessage, attr: ParsedAttr, host: Endian)
    requires attr.attrIdx <= |msg.buffer|
    ensures Decoding(MessageIntegritySha256Kind, Sha256Key(mac), msg, attr, host) == Ok(MessageIntegritySha256)
        <==> mac(msg.buffer[..attr.attrIdx]) == attr.value
  {
    assert Decoding(MessageIntegritySha256Kind, Sha256Key(mac), msg, attr, host)
        == IntegrityAttr(mac, msg.buffer, attr, MessageIntegritySha256);
  }

  /** The MESSAGE-INTEGRITY check keyed by `password` passes exactly when the
      HMAC of the data in front of the attribute under `password`'s key is
      the attribute's value. */
  lemma Sha1PasswordChecks(hmac: (seq<byte>, seq<byte>) -> seq<byte>, md5: seq<byte> -> seq<byte>,
                         password: Text, msg: ParsedMessage, attr: ParsedAttr, host: Endian)
    requires forall k, m :: |hmac(k, m)| == SHA1_LEN
    requires attr.attrIdx <= |msg.buffer|
    ensures Decoding(MessageIntegrityKind, Sha1Key(NewHmacSha1(hmac, md5, password)), msg, attr, host)
         == Ok(MessageIntegrity)
        <==> hmac(md5(password), msg.buffer[..attr.attrIdx]) == attr.value
  {
    Sha1Checks(NewHmacSha1(hmac, md5, password), msg, attr, host);
  }

  /** The MESSAGE-INTEGRITY-SHA256 check keyed by `password` passes exactly when the
      HMAC of the data in front of the attribute under `password`'s key is
      the attribute's value. */
  lemma Sha256PasswordChecks(hmac: (seq<byte>, seq<byte>) -> seq<byte>, md5: seq<byte> -> seq<byte>,
                         password: Text, msg: ParsedMessage, attr: ParsedAttr, host: Endian)
    requires forall k, m :: |hmac(k, m)| == SHA256_LEN
    requires attr.attrIdx <= |msg.buffer|
    ensures Decoding(MessageIntegritySha256Kind, Sha256Key(NewHmacSha256(hmac, md5, password)), msg, attr, host)
         == Ok(MessageIntegritySha256)
        <==> hmac(md5(password), msg.buffer[..attr.attrIdx]) == attr.value
  {
    Sha256Checks(NewHmacSha256(hmac, md5, password), msg, attr, host);
  }

  /** The value round trip: an attribute decodes to itself from the bytes it
      encodes to, on a big-endian host, for every attribute whose codec
      preserves it there (error codes of 1600 or more wrap, as their own
      module shows, and PASSWORD-ALGORITHMS records with parameters are
      misread, see `RoundTripNeedsEmptyParams`). */
  lemma ValueRoundTrip(a: Attr, id: u128, msg: ParsedMessage, attr: ParsedAttr)
    requires !a.MessageIntegrity? && !a.MessageIntegritySha256?
    requires a.PasswordAlgorithms? ==> forall i :: 0 <= i < |a.algorithms| ==> a.algorithms[i].params == []
    requires a.ErrorCode? ==> a.errorCode.number < 1600
    requires msg.id == id
    requires attr.value == Encoding(a, NoContext, id, BigEndian, []).bytes
    ensures Encoding(a, NoContext, id, BigEndian, []).outcome.Pass?
    ensures Decoding(KindOf(a), NoContext, msg, attr, BigEndian) == Ok(a)
  {
    if IsAddress(a) {
      AddressRoundTrip(a, id, msg, attr);
    } else if a.PasswordAlgorithms? {
      EmptyParamsRoundTrip(a.algorithms);
      AlgorithmsRoundTrip(a, id, msg, attr);
    } else if a.ErrorCode? {
      ErrorCodeRoundTrip(a, id, msg, attr);
    } else {
      HostIndependentRoundTrip(a, BigEndian, msg, attr);
    }
  }

  /** The PASSWORD-ALGORITHMS part of `ValueRoundTrip`: the attribute
      decodes to itself exactly when no record carries parameters. */
  lemma AlgorithmsRoundTrip(a: Attr, id: u128, msg: ParsedMessage, attr: ParsedAttr)
    requires a.PasswordAlgorithms? && Encoding(a, NoContext, id, BigEndian, []).outcome.Pass?
    requires attr.value == Encoding(a, NoContext, id, BigEndian, []).bytes
    ensures Decoding(KindOf(a), NoContext, msg, attr, BigEndian) == Ok(a)
        <==> forall i :: 0 <= i < |a.algorithms| ==> a.algorithms[i].params == []
  {
    var algs := a.algorithms;
    assert Encoding(a, NoContext, id, BigEndian, []) == EncodeAlgs(algs);
    if forall i :: 0 <= i < |algs| ==> algs[i].params == [] {
      EmptyParamsRoundTrip(algs);
    } else if DecodeAlgs(attr.value) == Ok(algs) {
      RoundTripNeedsEmptyParams(algs);
    }
  }

  /** The ERROR-CODE part of `ValueRoundTrip`. */
  lemma ErrorCodeRoundTrip(a: Attr, id: u128, msg: ParsedMessage, attr: ParsedAttr)
    requires a.ErrorCode? && a.errorCode.number < 1600
    requires attr.value == Encoding(a, NoContext, id, BigEndian, []).bytes
    ensures Encoding(a, NoContext, id, BigEndian, []).outcome.Pass?
    ensures Decoding(KindOf(a), NoContext, msg, attr, BigEndian) == Ok(a)
  {
    StunErrorCode.RoundTripBigEndian(a.errorCode);
  }

  /** The address part of `ValueRoundTrip`. */
  lemma AddressRoundTrip(a: Attr, id: u128, msg: ParsedMessage, attr: ParsedAttr)
    requires IsAddress(a) && msg.id == id
    requires attr.value == Encoding(a, NoContext, id, BigEndian, []).bytes
    ensures Encoding(a, NoContext, id, BigEndian, []).outcome.Pass?
    ensures Decoding(KindOf(a), NoContext, msg, attr, BigEndian) == Ok(a)
  {
    AddrEncoding(a, id, BigEndian);
    AddrRoundTripBigEndian(AddrOf(a), AddrKey(KindOf(a), id));
    DecodedAddress(a, msg, attr);
  }

  /** An address attribute encodes as `encode_addr` writes its address
      under the attribute's key. */
  lemma AddrEncoding(a: Attr, id: u128, host: Endian)
    requires IsAddress(a)
    ensures Encoding(a, NoContext, id, host, []) == Encoded(AddrBytes(AddrOf(a), AddrKey(KindOf(a), id), host), Pass)
  {
  }

  /** The key an address attribute is masked with: only XOR-MAPPED-ADDRESS
      is masked, its port with the low half of the cookie. */
  function AddrKey(k: Kind, id: u128): (key: XorKey)
    ensures k != XorMappedAddressKind <==> key == PlainKey
    ensures k == XorMappedAddressKind ==> key.x16 == COOKIE % 0x1_0000 && key.x32 == COOKIE && key.x128 == id
  {
    if k == XorMappedAddressKind then XorMappedKeyAsWritten(id) else PlainKey
  }

  /** The address an address attribute carries: the attribute is one of
      the three address attributes built from it. */
  function AddrOf(a: Attr): (addr: SocketAddr)
    requires IsAddress(a)
    ensures a == MappedAddress(addr) || a == XorMappedAddress(addr) || a == AlternateServer(addr)
  {
    match a
    case MappedAddress(addr) => addr
    case XorMappedAddress(addr) => addr
    case AlternateServer(addr) => addr
  }

  /** An address attribute decodes to what `decode_addr` gives its value. */
  lemma DecodedAddress(a: Attr, msg: ParsedMessage, attr: ParsedAttr)
    requires IsAddress(a)
    requires DecodeAddr(attr.value, AddrKey(KindOf(a), msg.id)) == Ok(AddrOf(a))
    ensures Decoding(KindOf(a), NoContext, msg, attr, BigEndian) == Ok(a)
  {
  }

  /** Text and byte attributes and UNKNOWN-ATTRIBUTES do not depend on the
      host: they round-trip on either byte order. */
  lemma HostIndependentRoundTrip(a: Attr, host: Endian, msg: ParsedMessage, attr: ParsedAttr)
    requires a.Username? || a.Realm? || a.Nonce? || a.Software? || a.AlternateDomain? || a.UnknownAttributes?
    requires attr.value == Encoding(a, NoContext, msg.id, host, []).bytes
    ensures Encoding(a, NoContext, msg.id, host, []).outcome.Pass?
    ensures Decoding(KindOf(a), NoContext, msg, attr, host) == Ok(a)
  {
    if a.UnknownAttributes? {
      CodesRoundTrip(a.codes);
    }
  }
}
