/** What a message built by the eager `MessageBuilder` of
    crates/stun-types/src/builder.rs looks like to the parser of
    crates/stun-types/src/msg.rs: the header and every TLV it appends, the
    length bookkeeping, the integrity self-check, and the two ways a
    message can come out unparsable (the address attributes' lengths, and a
    big-endian host). */
module StunBuilderFraming {
  import opened Stun
  import opened Wire
  import StunHeader
  import opened StunMsg
  import opened StunAttribute
  import opened StunIntegrity
  import opened StunBuilder
  import StunAddr

  /** The header words are read back from the bytes the builder keeps. */
  lemma HeaderWords(data: seq<byte>, head: StunHeader.MessageHead, id: u128)
    requires |data| >= 20 && data[..4] == U32Bytes(head) && data[4..20] == U128Bytes(id)
    ensures U32At(data, 0) == head && U128At(data, 4) == id
  {
    Pow256Values();
    BeValueOfBytes(head, 4);
    BeValueOfBytes(id, 16);
    assert data[0..4] == data[..4];
  }

  /** A buffer holding a head word and an id with the STUN gates passed and
      a tiling of attributes behind them parses to exactly those. */
  lemma BuiltParses(data: seq<byte>, head: StunHeader.MessageHead, id: u128, attrs: seq<ParsedAttr>)
    requires |data| >= 20 && data[..4] == U32Bytes(head) && data[4..20] == U128Bytes(id)
    requires StunHeader.HeadZ(head) == 0 && StunHeader.IdCookie(id) == COOKIE
    requires StunHeader.MethodBits(StunHeader.HeadTyp(head)) == 0x0001
    requires Tiles(data, 20, attrs)
    ensures ParseSpec(data)
         == Parsed(ParsedMessage(data, head, id, StunHeader.ClassTryFrom(StunHeader.HeadTyp(head)).value,
                                 StunHeader.Binding, StunHeader.IdTsxId(id), attrs))
  {
    HeaderWords(data, head, id);
    ParseAttrsIffTiles(data, 20, attrs);
  }

  /** `MessageBuilder::new` followed by `finish`: on either host the 20
      bytes parse as a message of the requested class, Binding, with the
      transaction id and no attributes. */
  lemma NewMessageParses(c: StunHeader.Class, head: StunHeader.MessageHead, id: u128)
    requires StunHeader.HeadTyp(head) == StunHeader.MessageType(c, StunHeader.Binding)
    requires StunHeader.HeadZ(head) == 0 && StunHeader.IdCookie(id) == COOKIE
    ensures ParseSpec(NewMessage(head, id))
         == Parsed(ParsedMessage(NewMessage(head, id), head, id, c, StunHeader.Binding,
                                 StunHeader.IdTsxId(id), []))
  {
    NewMessageParts(head, id);
    BuiltParses(NewMessage(head, id), head, id, []);
  }

  /** The TLV header sits at the old end of the buffer: the type code, then
      `enc + pad` (cut to 16 bits) or `enc` as the flag says. */
  lemma TlvFields(data: seq<byte>, head: StunHeader.MessageHead, padInValue: bool, c: Codec, host: Endian)
    requires |data| >= 20 && |data| + 4 - 20 < 0x1_0000
    ensures var r := AddAttr(data, head, padInValue, c, host);
      && |r.data| >= |data| + 4
      && U16At(r.data, |data|) == c.typ
      && U16At(r.data, |data| + 2) == TlvLength(c.encLen, padInValue)
  {
    var r := AddAttr(data, head, padInValue, c, host);
    var tlv := TlvHeader(c, padInValue);
    assert |r.data| >= |data| + 4 && r.data[|data|..|data| + 4] == tlv by {
      AddAttrFrames(data, head, padInValue, c, host);
      var framed := Framed(data, head, padInValue, c, host);
      assert r.data[|data|..|data| + 4] == framed[4..][|data| - 4..] == (data + tlv)[|data|..] == tlv;
    }
    U16PairRoundTrip(c.typ, TlvLength(c.encLen, padInValue), r.data, |data|);
  }

  /** The buffer stays within what a `u16` length field can describe once
      this attribute and its padding are in. */
  predicate RoomFor(data: seq<byte>, c: Codec) {
    |data| - 20 + 4 + c.encLen + PaddingU16(c.encLen) < 0x1_0000
  }

  /** When the encoder writes exactly `encode_len` bytes and succeeds, the
      header length is everything after the 20-byte header, and a buffer of
      whole words stays one. */
  lemma AddAttrLength(data: seq<byte>, head: StunHeader.MessageHead, padInValue: bool, c: Codec, host: Endian)
    requires |data| >= 20 && RoomFor(data, c)
    requires WritesEncodeLen(c, Framed(data, head, padInValue, c, host))
    ensures var r := AddAttr(data, head, padInValue, c, host);
      r.outcome.Pass? ==>
        && StunHeader.HeadLen(r.head) == |r.data| - 20
        && (|data| % 4 == 0 ==> |r.data| % 4 == 0)
  {
    var r := AddAttr(data, head, padInValue, c, host);
    var e := c.encode(Framed(data, head, padInValue, c, host));
    AddAttrSize(data, head, padInValue, c, host);
    if r.outcome.Pass? {
      var pad := PaddingU16(c.encLen);
      var n := |data| + 4 - 20 + c.encLen + pad;
      assert |e.bytes| == c.encLen;
      PaddingAgree(c.encLen);
      assert |r.data| == n + 20;
      StunHeader.SmallMod(n, 0x1_0000);
      assert StunHeader.HeadLen(r.head) == NewLength(data, c) == n;
      WordsAfter(|data|, c.encLen + pad);
    }
  }

  /** The lengths `add_attr_with` leaves, without the bytes. */
  lemma AddAttrSize(data: seq<byte>, head: StunHeader.MessageHead, padInValue: bool, c: Codec, host: Endian)
    requires |data| >= 20 && |data| + 4 - 20 < 0x1_0000
    ensures var r := AddAttr(data, head, padInValue, c, host);
      var e := c.encode(Framed(data, head, padInValue, c, host));
      && r.head == StunHeader.HeadSetLen(head, NewLength(data, c))
      && r.outcome == e.outcome
      && (r.outcome.Pass? ==> |r.data| == |data| + 4 + |e.bytes| + PaddingUsize(c.encLen))
  {
  }

  lemma WordsAfter(d: nat, k: nat)
    requires k % 4 == 0
    ensures d % 4 == 0 ==> (d + 4 + k) % 4 == 0
  {
  }

  /** The attribute the parser reads back where `add_attr_with` wrote it:
      with the flag on, its value is the encoding followed by the padding
      (the length field counts it); with the flag off, the encoding alone. */
  function Appended(data: seq<byte>, head: StunHeader.MessageHead, padInValue: bool, c: Codec,
                    host: Endian): (x: ParsedAttr)
    requires |data| >= 20
    ensures x.attrIdx == |data| && x.typ == c.typ
  {
    var e := c.encode(Framed(data, head, padInValue, c, host));
    ParsedAttr(|data|, c.typ, e.bytes + if padInValue then Zeros(PaddingU16(c.encLen)) else [])
  }

  /** A successful `add_attr_with` whose encoder writes `encode_len` bytes
      appends one well-formed TLV that ends the buffer. */
  lemma AppendedReadsBack(data: seq<byte>, head: StunHeader.MessageHead, padInValue: bool, c: Codec,
                          host: Endian)
    requires |data| >= 20 && RoomFor(data, c)
    requires WritesEncodeLen(c, Framed(data, head, padInValue, c, host))
    requires AddAttr(data, head, padInValue, c, host).outcome.Pass?
    ensures Tiles(AddAttr(data, head, padInValue, c, host).data, |data|, [Appended(data, head, padInValue, c, host)])
  {
    var r := AddAttr(data, head, padInValue, c, host);
    var framed := Framed(data, head, padInValue, c, host);
    var e := c.encode(framed);
    AddAttrFrames(data, head, padInValue, c, host);
    TlvFields(data, head, padInValue, c, host);
    TlvBehind(r.data, framed, |data|, e.bytes, padInValue, c.typ, c.encLen,
              Appended(data, head, padInValue, c, host));
  }

  /** `AppendedReadsBack` on the bytes alone: a TLV header at `pos`, then
      the encoding of `encLen` bytes and its padding to the end. */
  lemma TlvBehind(input: seq<byte>, framed: seq<byte>, pos: nat, bytes: seq<byte>, padInValue: bool,
                  typ: u16, encLen: u16, x: ParsedAttr)
    requires |framed| == pos + 4 && input == framed + bytes + Zeros(PaddingUsize(encLen))
    requires |bytes| == encLen && encLen + PaddingU16(encLen) < 0x1_0000
    requires U16At(input, pos) == typ
    requires U16At(input, pos + 2) == TlvLength(encLen, padInValue)
    requires x == ParsedAttr(pos, typ, bytes + if padInValue then Zeros(PaddingU16(encLen)) else [])
    ensures Tiles(input, pos, [x])
  {
    var pad := PaddingU16(encLen);
    PaddingAgree(encLen);
    StunHeader.SmallMod(encLen + pad, 0x1_0000);
    assert input[..pos + 4] == framed;
    TlvAtEnd(input, pos, bytes, pad, padInValue, x);
  }

  /** The bytes behind a TLV header: the encoding and its padding, read back
      with or without the padding as the length field says. */
  lemma TlvAtEnd(input: seq<byte>, pos: nat, bytes: seq<byte>, pad: nat, padInValue: bool, x: ParsedAttr)
    requires pos + 4 <= |input| && input == input[..pos + 4] + bytes + Zeros(pad)
    requires pad == PaddingUsize(|bytes|)
    requires U16At(input, pos + 2) == if padInValue then |bytes| + pad else |bytes|
    requires x == ParsedAttr(pos, U16At(input, pos), bytes + if padInValue then Zeros(pad) else [])
    ensures Tiles(input, pos, [x])
  {
    assert input[pos + 4..] == bytes + Zeros(pad);
    if padInValue {
      PaddedValue(input, pos, bytes, pad);
    } else {
      assert bytes + [] == bytes;
      UnpaddedValue(input, pos, bytes, pad);
    }
    OneTlv(input, pos, x);
  }

  /** The value with its padding is the rest of the buffer. */
  lemma PaddedValue(input: seq<byte>, pos: nat, bytes: seq<byte>, pad: nat)
    requires pos + 4 <= |input| && input[pos + 4..] == bytes + Zeros(pad)
    requires (|bytes| + pad) % 4 == 0
    ensures var v := bytes + Zeros(pad);
      pos + 4 + |v| + PaddingUsize(|v|) == |input| && input[pos + 4..pos + 4 + |v|] == v
  {
  }

  /** The value without its padding is followed by exactly the padding. */
  lemma UnpaddedValue(input: seq<byte>, pos: nat, bytes: seq<byte>, pad: nat)
    requires pos + 4 <= |input| && input[pos + 4..] == bytes + Zeros(pad)
    requires pad == PaddingUsize(|bytes|)
    ensures pos + 4 + |bytes| + PaddingUsize(|bytes|) == |input| && input[pos + 4..pos + 4 + |bytes|] == bytes
  {
    assert input[pos + 4..pos + 4 + |bytes|] == input[pos + 4..][..|bytes|];
  }

  /** One TLV that fills the buffer from `pos` on. */
  lemma OneTlv(input: seq<byte>, pos: nat, x: ParsedAttr)
    requires x.attrIdx == pos && AttrEnd(x) == |input|
    requires U16At(input, pos) == x.typ && U16At(input, pos + 2) == |x.value|
    requires input[pos + 4..pos + 4 + |x.value|] == x.value
    ensures Tiles(input, pos, [x])
  {
    assert [x][1..] == [];
  }

  /** Bytes 20..|data| are kept by `add_attr_with`. */
  lemma AddAttrKeepsAttributes(data: seq<byte>, head: StunHeader.MessageHead, padInValue: bool, c: Codec,
                               host: Endian)
    requires |data| >= 20 && |data| + 4 - 20 < 0x1_0000
    ensures var r := AddAttr(data, head, padInValue, c, host);
      |data| <= |r.data| && r.data[20..|data|] == data[20..]
  {
    var r := AddAttr(data, head, padInValue, c, host);
    AddAttrFrames(data, head, padInValue, c, host);
    var withTlv := data + TlvHeader(c, padInValue);
    var framed := Framed(data, head, padInValue, c, host);
    assert r.data[20..|data|] == r.data[..|data| + 4][20..|data|];
    assert framed[20..|data|] == framed[4..][16..|data| - 4];
    assert withTlv[4..][16..|data| - 4] == data[20..];
  }

  /** The attribute walk over a built message: the attributes already there,
      then the new one. */
  lemma AddAttrExtendsTiling(data: seq<byte>, head: StunHeader.MessageHead, padInValue: bool, c: Codec,
                             host: Endian, attrs: seq<ParsedAttr>)
    requires |data| >= 20 && RoomFor(data, c)
    requires WritesEncodeLen(c, Framed(data, head, padInValue, c, host))
    requires AddAttr(data, head, padInValue, c, host).outcome.Pass?
    requires Tiles(data, 20, attrs)
    ensures Tiles(AddAttr(data, head, padInValue, c, host).data, 20,
                  attrs + [Appended(data, head, padInValue, c, host)])
  {
    var r := AddAttr(data, head, padInValue, c, host);
    var x := Appended(data, head, padInValue, c, host);
    AddAttrKeepsAttributes(data, head, padInValue, c, host);
    AppendedReadsBack(data, head, padInValue, c, host);
    ParseAcrossPrefix(data, r.data, 20, attrs);
    ParseAttrsIffTiles(r.data, |data|, [x]);
    ParseAttrsIffTiles(r.data, 20, attrs + [x]);
  }

  /** A message the builder holds on a little-endian host: the header words
      in network order, the STUN gates passed, and a tiling behind them. */
  predicate WellBuilt(data: seq<byte>, head: StunHeader.MessageHead, id: u128, attrs: seq<ParsedAttr>) {
    && |data| >= 20 && data[..4] == U32Bytes(head) && data[4..20] == U128Bytes(id)
    && StunHeader.HeadZ(head) == 0 && StunHeader.IdCookie(id) == COOKIE
    && StunHeader.MethodBits(StunHeader.HeadTyp(head)) == 0x0001
    && Tiles(data, 20, attrs)
  }

  /** On a little-endian host a successful `add_attr_with` whose encoder
      writes `encode_len` bytes keeps the message parsable: the same header
      fields, the stored length equal to what follows the header, the
      attributes already there and then the new one. */
  lemma BuiltMessageParses(data: seq<byte>, head: StunHeader.MessageHead, padInValue: bool, c: Codec,
                           id: u128, attrs: seq<ParsedAttr>)
    requires WellBuilt(data, head, id, attrs) && RoomFor(data, c)
    requires WritesEncodeLen(c, Framed(data, head, padInValue, c, LittleEndian))
    requires AddAttr(data, head, padInValue, c, LittleEndian).outcome.Pass?
    ensures var r := AddAttr(data, head, padInValue, c, LittleEndian);
      && StunHeader.HeadLen(r.head) == |r.data| - 20
      && ParseSpec(r.data)
         == Parsed(ParsedMessage(r.data, r.head, id, StunHeader.ClassTryFrom(StunHeader.HeadTyp(head)).value,
                                 StunHeader.Binding, StunHeader.IdTsxId(id),
                                 attrs + [Appended(data, head, padInValue, c, LittleEndian)]))
  {
    var r := AddAttr(data, head, padInValue, c, LittleEndian);
    AddAttrKeepsValid(data, head, padInValue, c, id, LittleEndian);
    AddAttrFrames(data, head, padInValue, c, LittleEndian);
    AddAttrExtendsTiling(data, head, padInValue, c, LittleEndian, attrs);
    AddAttrLength(data, head, padInValue, c, LittleEndian);
    BuiltParses(r.data, r.head, id, attrs + [Appended(data, head, padInValue, c, LittleEndian)]);
  }

  /** The same for an attribute value with the intended lengths: every
      one writes what `encode_len` announces, so the message stays
      parsable. For every attribute but the three addresses the intended
      codec is `CodecOf`, so this is the builder as written. */
  lemma AttributeKeepsMessage(data: seq<byte>, head: StunHeader.MessageHead, padInValue: bool, a: Attr,
                              ctx: Context, id: u128, attrs: seq<ParsedAttr>)
    requires Fits(KindOf(a), ctx) && EncodeLen(a).Ok?
    requires WellBuilt(data, head, id, attrs) && RoomFor(data, IntendedCodecOf(a, ctx, id, LittleEndian))
    requires AddAttr(data, head, padInValue, IntendedCodecOf(a, ctx, id, LittleEndian), LittleEndian).outcome.Pass?
    ensures var c := IntendedCodecOf(a, ctx, id, LittleEndian);
      var r := AddAttr(data, head, padInValue, c, LittleEndian);
      && StunHeader.HeadLen(r.head) == |r.data| - 20
      && ParseSpec(r.data)
         == Parsed(ParsedMessage(r.data, r.head, id, StunHeader.ClassTryFrom(StunHeader.HeadTyp(head)).value,
                                 StunHeader.Binding, StunHeader.IdTsxId(id),
                                 attrs + [Appended(data, head, padInValue, c, LittleEndian)]))
  {
    var c := IntendedCodecOf(a, ctx, id, LittleEndian);
    IntendedCodecWrites(a, ctx, id, LittleEndian, Framed(data, head, padInValue, c, LittleEndian));
    BuiltMessageParses(data, head, padInValue, c, id, attrs);
  }

  /** The keyed MAC an integrity attribute is written with. */
  function MacOf(ctx: Context): seq<byte> -> seq<byte>
    requires !ctx.NoContext?
  {
    if ctx.Sha1Key? then ctx.sha1 else ctx.sha256
  }

  /** What the integrity encoders append: the MAC of the buffer without
      its last four bytes, a whole number of words, as `encode_len` says. */
  lemma IntegrityCodec(a: Attr, ctx: Context, id: u128, host: Endian, framed: seq<byte>)
    requires a.MessageIntegrity? || a.MessageIntegritySha256?
    requires Fits(KindOf(a), ctx) && |framed| >= 4
    ensures EncodeLen(a).Ok?
    ensures var c := CodecOf(a, ctx, id, host);
      && c.encode(framed) == Encoded(MacOf(ctx)(framed[..|framed| - 4]), Pass)
      && PaddingU16(c.encLen) == 0 && c.encLen <= 32
      && WritesEncodeLen(c, framed)
  {
    assert Encoding(a, ctx, id, host, framed) == Encoded(MacOf(ctx)(framed[..|framed| - 4]), Pass);
  }

  /** Integrity verifies on the message it was written into, on either host:
      the encoder MACs the buffer up to the TLV header it follows, and that
      prefix is exactly what the decoder MACs, header length included,
      because `set_len` ran before the encoder. */
  lemma IntegrityVerifies(data: seq<byte>, head: StunHeader.MessageHead, padInValue: bool, a: Attr,
                          ctx: Context, id: u128, host: Endian)
    requires a.MessageIntegrity? || a.MessageIntegritySha256?
    requires |data| >= 20 && Fits(KindOf(a), ctx)
    requires |data| + 4 - 20 < 0x1_0000
    ensures EncodeLen(a).Ok?
    ensures var c := CodecOf(a, ctx, id, host);
      var r := AddAttr(data, head, padInValue, c, host);
      var x := Appended(data, head, padInValue, c, host);
      && r.outcome == Pass && x.attrIdx <= |r.data|
      && VerifyIntegrity(MacOf(ctx), r.data, x) == Pass
  {
    var framed0 := Zeros(4);
    IntegrityCodec(a, ctx, id, host, framed0);
    var c := CodecOf(a, ctx, id, host);
    var framed := Framed(data, head, padInValue, c, host);
    IntegrityCodec(a, ctx, id, host, framed);
    MacVerifies(data, head, padInValue, c, host, MacOf(ctx));
  }

  /** The generic half of `IntegrityVerifies`: an encoder that appends the
      MAC of the buffer in front of its own TLV header. */
  lemma MacVerifies(data: seq<byte>, head: StunHeader.MessageHead, padInValue: bool, c: Codec, host: Endian,
                    mac: seq<byte> -> seq<byte>)
    requires |data| >= 20 && |data| + 4 - 20 < 0x1_0000 && PaddingU16(c.encLen) == 0
    requires var framed := Framed(data, head, padInValue, c, host);
      c.encode(framed) == Encoded(mac(framed[..|framed| - 4]), Pass)
    ensures var r := AddAttr(data, head, padInValue, c, host);
      var x := Appended(data, head, padInValue, c, host);
      && r.outcome == Pass && x.attrIdx <= |r.data|
      && VerifyIntegrity(mac, r.data, x) == Pass
  {
    var r := AddAttr(data, head, padInValue, c, host);
    var x := Appended(data, head, padInValue, c, host);
    AddAttrFrames(data, head, padInValue, c, host);
    var framed := Framed(data, head, padInValue, c, host);
    var e := c.encode(framed);
    assert framed[..|framed| - 4] == r.data[..|data|];
    assert x.value == e.bytes by {
      assert e.bytes + [] == e.bytes;
    }
    WrittenMacVerifies(mac, r.data[..|data|], r.data, x);
  }

  /** The self-check: a MESSAGE-INTEGRITY (or -SHA256) attribute added last
      by the builder on a little-endian host is parsed back as the last
      attribute, and decoding it with the same key succeeds. */
  lemma IntegritySelfCheck(data: seq<byte>, head: StunHeader.MessageHead, padInValue: bool, a: Attr,
                           ctx: Context, id: u128, attrs: seq<ParsedAttr>)
    requires a.MessageIntegrity? || a.MessageIntegritySha256?
    requires WellBuilt(data, head, id, attrs) && Fits(KindOf(a), ctx)
    requires |data| - 20 + 4 + 32 < 0x1_0000
    ensures EncodeLen(a).Ok?
    ensures var m := ParseSpec(AddAttr(data, head, padInValue, CodecOf(a, ctx, id, LittleEndian), LittleEndian).data);
      && m.Parsed? && |m.msg.attributes| == |attrs| + 1
      && m.msg.attributes[..|attrs|] == attrs
      && m.msg.attributes[|attrs|].typ == TypeOf(KindOf(a))
      && m.msg.attributes[|attrs|].attrIdx == |data|
      && m.msg.attributes[|attrs|].attrIdx <= |m.msg.buffer|
      && Decoding(KindOf(a), ctx, m.msg, m.msg.attributes[|attrs|], LittleEndian) == Ok(a)
  {
    IntegrityVerifies(data, head, padInValue, a, ctx, id, LittleEndian);
    var c := CodecOf(a, ctx, id, LittleEndian);
    var x := Appended(data, head, padInValue, c, LittleEndian);
    IntegrityCodec(a, ctx, id, LittleEndian, Framed(data, head, padInValue, c, LittleEndian));
    BuiltMessageParses(data, head, padInValue, c, id, attrs);
    assert (attrs + [x])[|attrs|] == x;
    assert (attrs + [x])[..|attrs|] == attrs;
  }

  /** What the address encoders write: 8 or 20 bytes, while `encode_len`
      announces eight times as many. */
  lemma AddressCodec(a: Attr, id: u128, host: Endian, framed: seq<byte>)
    requires IsAddress(a) && |framed| >= 4
    ensures var c := CodecOf(a, NoContext, id, host);
      var e := c.encode(framed);
      && e.outcome == Pass && (c.encLen == 64 || c.encLen == 160) && c.encLen == 8 * |e.bytes|
  {
    EncodeLenAgrees(a, NoContext, id, host, framed);
  }

  /** With the lengths as written, an address attribute breaks the
      framing: its TLV length field holds 64 or 160 while 8 or 20 bytes
      follow, so the attribute walk fails with the length error at the new
      TLV. */
  lemma AddressBreaksFraming(data: seq<byte>, head: StunHeader.MessageHead, padInValue: bool, a: Attr,
                             id: u128, host: Endian)
    requires |data| >= 20 && IsAddress(a)
    requires |data| + 4 - 20 < 0x1_0000
    ensures var r := AddAttr(data, head, padInValue, CodecOf(a, NoContext, id, host), host);
      |data| < |r.data| && ParseAttrs(r.data, |data|) == Err(InvalidData(INVALID_ATTR_LEN))
  {
    var c := CodecOf(a, NoContext, id, host);
    AddressCodec(a, id, host, Framed(data, head, padInValue, c, host));
    OvershootingLength(data, head, padInValue, c, host);
  }

  /** The generic half: a length field that overshoots what the encoder wrote. */
  lemma OvershootingLength(data: seq<byte>, head: StunHeader.MessageHead, padInValue: bool, c: Codec,
                           host: Endian)
    requires |data| >= 20 && |data| + 4 - 20 < 0x1_0000
    requires var e := c.encode(Framed(data, head, padInValue, c, host));
      e.outcome == Pass && (c.encLen == 64 || c.encLen == 160) && c.encLen == 8 * |e.bytes|
    ensures var r := AddAttr(data, head, padInValue, c, host);
      |data| < |r.data| && ParseAttrs(r.data, |data|) == Err(InvalidData(INVALID_ATTR_LEN))
  {
    var r := AddAttr(data, head, padInValue, c, host);
    AddAttrFrames(data, head, padInValue, c, host);
    TlvFields(data, head, padInValue, c, host);
    var e := c.encode(Framed(data, head, padInValue, c, host));
    AddressLengthField(c.encLen, |e.bytes|, padInValue);
    assert |r.data| == |data| + 4 + |e.bytes|;
    ParseAttrsStep(r.data, |data|);
  }

  /** The address lengths are whole words, so the flag does not change the
      length field, which overshoots the bytes written. */
  lemma AddressLengthField(enc: u16, written: nat, padInValue: bool)
    requires enc == 8 * written && 0 < written
    requires enc == 64 || enc == 160
    ensures PaddingU16(enc) == 0 && PaddingUsize(enc) == 0
    ensures TlvLength(enc, padInValue) == enc
    ensures written < enc
  {
  }

  /** The failure carries over to the whole message: on a little-endian
      host, parsing a message built with the lengths as written fails with
      the length error. */
  lemma AddressBreaksMessage(data: seq<byte>, head: StunHeader.MessageHead, padInValue: bool, a: Attr,
                             id: u128, attrs: seq<ParsedAttr>)
    requires WellBuilt(data, head, id, attrs) && IsAddress(a)
    requires |data| + 4 - 20 < 0x1_0000
    ensures ParseSpec(AddAttr(data, head, padInValue, CodecOf(a, NoContext, id, LittleEndian), LittleEndian).data)
         == Failed(InvalidData(INVALID_ATTR_LEN))
  {
    var c := CodecOf(a, NoContext, id, LittleEndian);
    var r := AddAttr(data, head, padInValue, c, LittleEndian);
    AddAttrKeepsValid(data, head, padInValue, c, id, LittleEndian);
    AddAttrKeepsAttributes(data, head, padInValue, c, LittleEndian);
    AddressBreaksFraming(data, head, padInValue, a, id, LittleEndian);
    ParseAcrossPrefix(data, r.data, 20, attrs);
    HeaderWords(r.data, r.head, id);
  }

  /** On a big-endian host `set_len` stores the head word byte-reversed
      (it reverses `to_ne_bytes`, which is already in network order there),
      while `new` wrote it in network order with `put_u32`. */
  lemma BigEndianHeaderReversed(data: seq<byte>, head: StunHeader.MessageHead, padInValue: bool, c: Codec)
    requires |data| >= 20 && |data| + 4 - 20 < 0x1_0000
    ensures var r := AddAttr(data, head, padInValue, c, BigEndian);
      |r.data| >= 4 && r.data[..4] == Reverse(U32Bytes(r.head))
  {
    var r := AddAttr(data, head, padInValue, c, BigEndian);
    AddAttrFrames(data, head, padInValue, c, BigEndian);
    assert r.data[..4] == r.data[..|data| + 4][..4];
    HeaderBytesBigEndian(r.head);
  }

  /** The reversal makes a built message unreadable: a Binding request
      with a four-byte NONCE, built on a big-endian host, starts with the
      bytes 08 00 01 00, whose type field 0x0800 names no known method, so
      the parser reaches the `unwrap` of `Method::try_from` and panics. */
  lemma BigEndianBindingPanics(id: u128)
    requires StunHeader.IdCookie(id) == COOKIE
    ensures var head: StunHeader.MessageHead := 0x0001_0000;
      var c := CodecOf(Nonce([1, 2, 3, 4]), NoContext, id, BigEndian);
      ParseSpec(AddAttr(NewMessage(head, id), head, true, c, BigEndian).data) == Panicked
  {
    var c := CodecOf(Nonce([1, 2, 3, 4]), NoContext, id, BigEndian);
    assert c.encLen == 4;
    FourBytesPanic(id, c);
  }

  /** The same for any attribute of four bytes: only the header matters. */
  lemma FourBytesPanic(id: u128, c: Codec)
    requires StunHeader.IdCookie(id) == COOKIE && c.encLen == 4
    ensures var head: StunHeader.MessageHead := 0x0001_0000;
      ParseSpec(AddAttr(NewMessage(head, id), head, true, c, BigEndian).data) == Panicked
  {
    var head: StunHeader.MessageHead := 0x0001_0000;
    var data := NewMessage(head, id);
    var r := AddAttr(data, head, true, c, BigEndian);
    assert r.head == 0x0001_0008 by {
      assert |data| + 4 - 20 + c.encLen + PaddingU16(c.encLen) == 8;
      assert NewLength(data, c) == 8;
      assert r.head == StunHeader.HeadSetLen(head, 8) == 0x0001_0008;
    }
    assert |r.data| >= 20 && r.data[..4] == Reverse(U32Bytes(0x0001_0008)) && r.data[4..20] == U128Bytes(id) by {
      BigEndianHeaderReversed(data, head, true, c);
      NewMessageParts(head, id);
      AddAttrKeepsValid(data, head, true, c, id, BigEndian);
    }
    ReversedBindingPanics(r.data, id);
  }

  /** Bytes that start with the reversed head word of a Binding request
      of length 8 and then the id panic the parser. */
  lemma ReversedBindingPanics(s: seq<byte>, id: u128)
    requires StunHeader.IdCookie(id) == COOKIE
    requires |s| >= 20 && s[..4] == Reverse(U32Bytes(0x0001_0008)) && s[4..20] == U128Bytes(id)
    ensures ParseSpec(s) == Panicked
  {
    ReversedBindingHead(s);
    IdWord(s, id);
    ParsePanics(s);
  }

  /** A message whose gates pass but whose method is unknown panics. */
  lemma ParsePanics(s: seq<byte>)
    requires |s| >= 20 && StunHeader.HeadZ(U32At(s, 0)) == 0 && StunHeader.IdCookie(U128At(s, 4)) == COOKIE
    requires StunHeader.MethodTryFrom(StunHeader.HeadTyp(U32At(s, 0))).Err?
    ensures ParseSpec(s) == Panicked
  {
  }

  /** The id is read back from the bytes after the header word. */
  lemma IdWord(s: seq<byte>, id: u128)
    requires |s| >= 20 && s[4..20] == U128Bytes(id)
    ensures U128At(s, 4) == id
  {
    Pow256Values();
    BeValueOfBytes(id, 16);
  }

  /** The four header bytes of that message, read back by the parser. */
  lemma ReversedBindingHead(s: seq<byte>)
    requires |s| >= 4 && s[..4] == Reverse(U32Bytes(0x0001_0008))
    ensures var h := U32At(s, 0);
      StunHeader.HeadZ(h) == 0 && StunHeader.HeadTyp(h) == 0x0800
      && StunHeader.MethodTryFrom(StunHeader.HeadTyp(h)).Err?
  {
    assert U32Bytes(0x0001_0008) == [0x00, 0x01, 0x00, 0x08] by {
      assert BeBytes(0x0001_0008, 4) == BeBytes(0x100, 3) + [0x08];
      assert BeBytes(0x100, 3) == BeBytes(1, 2) + [0x00];
      assert BeBytes(1, 2) == BeBytes(0, 1) + [0x01];
    }
    assert s[0] == 0x08 && s[1] == 0x00 && s[2] == 0x01 && s[3] == 0x00;
    U32Halves(s, 0);
    var h := U32At(s, 0);
    assert h == 0x0800_0100;
    assert StunHeader.HeadZ(0x0800_0100) == 0 && StunHeader.HeadTyp(0x0800_0100) == 0x0800;
    assert StunHeader.MethodBits(0x0800) == 0x0800;
  }
}
