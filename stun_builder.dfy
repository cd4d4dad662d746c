/** The eager `MessageBuilder` of crates/stun-types/src/builder.rs: the
    header and id are written at construction, and every attribute is
    appended as a TLV whose length is fixed in the header BEFORE the
    attribute's encoder runs, so that an integrity encoder hashes a prefix
    whose length field is already final. */
module StunBuilder {
  import opened Stun
  import opened Wire
  import StunHeader
  import opened StunMsg
  import opened StunAttribute

  /** The four bytes `set_len` stores: `to_ne_bytes` of the head, reversed. */
  function HeaderBytes(host: Endian, head: u32): (s: seq<byte>)
    ensures |s| == 4
  {
    Reverse(ToNeBytes(host, head, 4))
  }

  /** On a little-endian host the reversal yields network order. */
  lemma HeaderBytesLittleEndian(head: u32)
    ensures HeaderBytes(LittleEndian, head) == U32Bytes(head)
  {
    ReverseReverse(BeBytes(head, 4));
  }

  /** On a big-endian host the header is stored byte-reversed. */
  lemma HeaderBytesBigEndian(head: u32)
    ensures HeaderBytes(BigEndian, head) == Reverse(U32Bytes(head))
  {
  }

  /** What `add_attr_with` uses of an attribute type `A`: `A::TYPE`,
      `encode_len` (unwrapped by the `expect`) and `encode`, as the bytes it
      appends to the buffer it is given and its result. */
  datatype Codec = Codec(typ: u16, encLen: u16, encode: seq<byte> -> Encoded)

  /** The codec of an attribute value with its context, on a builder with
      id `id` on a host of byte order `host`. The encoder is only ever run
      on a buffer holding at least a message header. */
  function CodecOf(a: Attr, ctx: Context, id: u128, host: Endian): (c: Codec)
    requires Fits(KindOf(a), ctx) && EncodeLen(a).Ok?
    ensures c.typ == TypeOf(KindOf(a)) && c.encLen == EncodeLen(a).value
  {
    Codec(TypeOf(KindOf(a)), EncodeLen(a).value,
          (d: seq<byte>) => if |d| >= 4 then Encoding(a, ctx, id, host, d) else Encoded([], Pass))
  }

  /** On a buffer holding a message header the codec runs the encoder. */
  lemma CodecEncodes(a: Attr, ctx: Context, id: u128, host: Endian, d: seq<byte>)
    requires Fits(KindOf(a), ctx) && EncodeLen(a).Ok? && |d| >= 4
    ensures CodecOf(a, ctx, id, host).encode(d) == Encoding(a, ctx, id, host, d)
  {
  }

  /** The codec writes `encode_len` bytes when it succeeds on `d`. */
  predicate WritesEncodeLen(c: Codec, d: seq<byte>) {
    c.encode(d).outcome.Pass? ==> |c.encode(d).bytes| == c.encLen
  }

  /** Every attribute but the three addresses writes what `encode_len`
      announces. */
  lemma CodecWritesEncodeLen(a: Attr, ctx: Context, id: u128, host: Endian, d: seq<byte>)
    requires Fits(KindOf(a), ctx) && EncodeLen(a).Ok? && |d| >= 4 && !IsAddress(a)
    ensures WritesEncodeLen(CodecOf(a, ctx, id, host), d)
  {
    if Encoding(a, ctx, id, host, d).outcome.Pass? {
      EncodeLenAgrees(a, ctx, id, host, d);
    }
  }

  /** The codec with the intended `encode_len`: the same type and encoder,
      with the addresses' lengths in bytes (`IntendedEncodeLen`). */
  function IntendedCodecOf(a: Attr, ctx: Context, id: u128, host: Endian): (c: Codec)
    requires Fits(KindOf(a), ctx) && EncodeLen(a).Ok?
    ensures c.typ == TypeOf(KindOf(a)) && c.encLen == IntendedEncodeLen(a).value
    ensures c.encode == CodecOf(a, ctx, id, host).encode
    ensures !IsAddress(a) ==> c == CodecOf(a, ctx, id, host)
  {
    CodecOf(a, ctx, id, host).(encLen := IntendedEncodeLen(a).value)
  }

  /** With the intended lengths every attribute writes what `encode_len`
      announces. */
  lemma IntendedCodecWrites(a: Attr, ctx: Context, id: u128, host: Endian, d: seq<byte>)
    requires Fits(KindOf(a), ctx) && EncodeLen(a).Ok? && |d| >= 4
    ensures WritesEncodeLen(IntendedCodecOf(a, ctx, id, host), d)
  {
    if Encoding(a, ctx, id, host, d).outcome.Pass? {
      IntendedEncodeLenAgrees(a, ctx, id, host, d);
    }
  }

  /** The TLV header of an attribute's codec: its type code, then its
      encoded length with or without the padding. */
  lemma TlvHeaderOf(a: Attr, ctx: Context, id: u128, host: Endian, padInValue: bool)
    requires Fits(KindOf(a), ctx) && EncodeLen(a).Ok?
    ensures TlvHeader(CodecOf(a, ctx, id, host), padInValue)
         == U16Bytes(TypeOf(KindOf(a))) + U16Bytes(TlvLength(EncodeLen(a).value, padInValue))
  {
  }

  lemma AppendAssoc(d: seq<byte>, x: seq<byte>, y: seq<byte>)
    ensures d + x + y == d + (x + y)
  {
  }

  /** The TLV header `add_attr_with` appends: the type, then the length,
      which counts the padding when `padInValue` is set (a `u16` sum that
      wraps). */
  function TlvHeader(c: Codec, padInValue: bool): (s: seq<byte>)
    ensures |s| == 4
  {
    U16Bytes(c.typ) + U16Bytes(TlvLength(c.encLen, padInValue))
  }

  /** The length field: `enc_len + padding` (a `u16` sum that wraps) or
      `enc_len` alone. */
  function TlvLength(enc: u16, padInValue: bool): u16 {
    if padInValue then (enc as int + PaddingU16(enc)) % 0x1_0000 else enc
  }

  /** The state `add_attr_with` leaves: the buffer, the head word and the
      result. */
  datatype Added = Added(data: seq<byte>, head: StunHeader.MessageHead, outcome: Outcome)

  /** The length `add_attr_with` stores in the header: everything after
      the 20-byte header once this attribute and its padding are in, a
      `u16` sum that wraps. */
  function NewLength(data: seq<byte>, c: Codec): (n: u16)
    requires |data| >= 20
  {
    (|data| + 4 - 20 + c.encLen + PaddingU16(c.encLen)) % 0x1_0000
  }

  /** The buffer the encoder runs on: the TLV header appended, then bytes
      0..4 rewritten by `set_len` with the final length. */
  function Framed(data: seq<byte>, head: StunHeader.MessageHead, padInValue: bool, c: Codec,
                  host: Endian): (s: seq<byte>)
    requires |data| >= 20
    ensures |s| == |data| + 4
  {
    HeaderBytes(host, StunHeader.HeadSetLen(head, NewLength(data, c))) + (data + TlvHeader(c, padInValue))[4..]
  }

  /** `add_attr_with` on a builder whose buffer holds `data` and whose head
      word is `head`: the TLV header is appended; the `u16::try_from` of
      the length after it can fail, and the `?` returns with the TLV header
      left in place; otherwise `set_len` stores the final length, the
      encoder runs, and the padding follows a successful encoding. */
  function AddAttr(data: seq<byte>, head: StunHeader.MessageHead, padInValue: bool, c: Codec,
                   host: Endian): Added
    requires |data| >= 20
  {
    var n := LengthU16(|data| + 4 - 20);
    if n.Err? then Added(data + TlvHeader(c, padInValue), head, Fail(n.error))
    else
      var framed := Framed(data, head, padInValue, c, host);
      var e := c.encode(framed);
      Added(framed + e.bytes + (if e.outcome.Pass? then Zeros(PaddingUsize(c.encLen)) else []),
            StunHeader.HeadSetLen(head, NewLength(data, c)), e.outcome)
  }

  /** The 20 bytes a new builder holds. */
  function NewMessage(head: StunHeader.MessageHead, id: u128): (s: seq<byte>)
    ensures |s| == 20
  {
    U32Bytes(head) + U128Bytes(id)
  }

  /** The head and the id of a new message of class `c` and method `m`:
      the message type, a zero length, the cookie and the transaction id
      cut to 96 bits. */
  predicate Started(head: StunHeader.MessageHead, id: StunHeader.MessageId,
                    c: StunHeader.Class, m: StunHeader.Method, tsxId: u128)
  {
    && StunHeader.HeadTyp(head) == StunHeader.MessageType(c, m)
    && StunHeader.HeadLen(head) == 0 && StunHeader.HeadZ(head) == 0
    && StunHeader.IdCookie(id) == COOKIE && StunHeader.IdTsxId(id) == tsxId % TSX_BOUND
  }

  /** The head and the id `new` starts a message with. */
  method StartHeader(c: StunHeader.Class, m: StunHeader.Method, tsxId: u128)
    returns (head: StunHeader.MessageHead, id: StunHeader.MessageId)
    ensures Started(head, id, c, m, tsxId)
  {
    var typ := StunHeader.ComposeType(c, m);
    head := NewHead(typ);
    id := NewMessageId(tsxId);
  }

  /** `let mut head = MessageHead(0); head.set_typ(typ)`. */
  method NewHead(typ: u16) returns (head: StunHeader.MessageHead)
    requires typ < 0x4000
    ensures StunHeader.HeadTyp(head) == typ && StunHeader.HeadLen(head) == 0 && StunHeader.HeadZ(head) == 0
  {
    head := 0;
    head := StunHeader.HeadSetTyp(head, typ);
  }

  /** `let mut id = MessageId::new(); id.set_tsx_id(tsx_id)`. */
  method NewMessageId(tsxId: u128) returns (id: StunHeader.MessageId)
    ensures StunHeader.IdCookie(id) == COOKIE && StunHeader.IdTsxId(id) == tsxId % TSX_BOUND
  {
    id := StunHeader.NewId();
    id := StunHeader.IdSetTsxId(id, tsxId);
  }

  /** The header and id are the first 4 and the next 16 bytes. */
  lemma NewMessageParts(head: StunHeader.MessageHead, id: u128)
    ensures NewMessage(head, id)[..4] == U32Bytes(head)
    ensures NewMessage(head, id)[4..20] == U128Bytes(id)
  {
  }

  /** The two writes of `new`: `put_u32` of the head, `put_u128` of the id. */
  method PutHeader(b: ByteBuffer, head: StunHeader.MessageHead, id: u128)
    modifies b
    ensures b.data == old(b.data) + NewMessage(head, id)
  {
    b.PutU32(head);
    b.PutU128(id);
  }

  /** A fresh buffer holding the header and the id. */
  method NewBuffer(head: StunHeader.MessageHead, id: u128) returns (b: ByteBuffer)
    ensures fresh(b) && b.data == NewMessage(head, id)
    ensures |b.data| >= 20 && b.data[..4] == U32Bytes(head) && b.data[4..20] == U128Bytes(id)
  {
    b := new ByteBuffer();
    PutHeader(b, head, id);
    NewMessageParts(head, id);
  }

  /** `MessageBuilder.Valid` on the builder's values. */
  predicate ValidParts(head: StunHeader.MessageHead, id: StunHeader.MessageId, data: seq<byte>, host: Endian) {
    && StunHeader.IdCookie(id) == COOKIE
    && StunHeader.HeadZ(head) == 0
    && |data| >= 20
    && data[4..20] == U128Bytes(id)
    && (host == LittleEndian ==> data[..4] == U32Bytes(head))
  }

  class MessageBuilder {
    var head: StunHeader.MessageHead
    var id: StunHeader.MessageId
    var paddingInValueLen: bool
    const buffer: ByteBuffer
    /** The byte order of the machine, which `to_ne_bytes` depends on. */
    const host: Endian

    /** The id keeps its cookie, the buffer holds the header and the id,
        and the TLVs after them do not touch bytes 4..20; on a little-endian
        host the first four bytes are the head word in network order. */
    predicate Valid()
      reads this, buffer
    {
      ValidParts(head, id, buffer.data, host)
    }

    /** `MessageBuilder::new`: the type from the class and method, a zero
        length, the cookie and the transaction id (cut to 96 bits), and
        `padding_in_value_len` on. */
    constructor (c: StunHeader.Class, m: StunHeader.Method, tsxId: u128, host: Endian)
      ensures Valid() && fresh(buffer) && Started(head, id, c, m, tsxId)
      ensures paddingInValueLen && this.host == host
      ensures buffer.data == NewMessage(head, id)
    {
      var h, i := StartHeader(c, m, tsxId);
      var b := NewBuffer(h, i);
      assert ValidParts(h, i, b.data, host);
      head := h;
      id := i;
      paddingInValueLen := true;
      buffer := b;
      this.host := host;
    }

    /** `padding_in_value_len`. */
    method SetPaddingInValueLen(b: bool)
      modifies this
      ensures paddingInValueLen == b
      ensures head == old(head) && id == old(id)
    {
      paddingInValueLen := b;
    }

    /** `id()`: the id word, which carries the cookie and sits at bytes
        4..20 of the buffer. */
    function Id(): (r: u128)
      requires Valid()
      reads this, buffer
      ensures StunHeader.IdCookie(r) == COOKIE
      ensures U128At(buffer.data, 4) == r
    {
      Pow256Values();
      BeValueOfBytes(id, 16);
      id
    }

    /** `set_len`: the head's length field, then the four header bytes. */
    method SetLen(len: u16)
      requires |buffer.data| >= 4
      modifies this, buffer
      ensures head == StunHeader.HeadSetLen(old(head), len)
      ensures buffer.data == HeaderBytes(host, head) + old(buffer.data)[4..]
      ensures id == old(id) && paddingInValueLen == old(paddingInValueLen)
    {
      head := StunHeader.HeadSetLen(head, len);
      var bs := ToNeBytes(host, head, 4);
      buffer.SetByte(0, bs[3]);
      buffer.SetByte(1, bs[2]);
      buffer.SetByte(2, bs[1]);
      buffer.SetByte(3, bs[0]);
      assert HeaderBytes(host, head) == [bs[3], bs[2], bs[1], bs[0]];
    }

    /** `add_attr_with`. The `expect` on `encode_len` is the precondition. */
    method AddAttrWith(a: Attr, ctx: Context) returns (o: Outcome)
      requires Valid() && Fits(KindOf(a), ctx) && EncodeLen(a).Ok?
      modifies this, buffer
      ensures Valid()
      ensures var r := AddAttr(old(buffer.data), old(head), paddingInValueLen, CodecOf(a, ctx, id, host), host);
        buffer.data == r.data && head == r.head && o == r.outcome
      ensures id == old(id) && paddingInValueLen == old(paddingInValueLen)
    {
      ghost var data, h, c := buffer.data, head, CodecOf(a, ctx, id, host);
      o := AppendAttr(a, ctx);
      AddAttrDefinition(data, h, paddingInValueLen, c, host);
      AddAttrKeepsValid(data, h, paddingInValueLen, c, id, host);
    }

    /** The steps of `add_attr_with`: the TLV header, the length check,
        `set_len`, then the encoder and the padding. */
    method AppendAttr(a: Attr, ctx: Context) returns (o: Outcome)
      requires |buffer.data| >= 20 && Fits(KindOf(a), ctx) && EncodeLen(a).Ok?
      modifies this, buffer
      ensures id == old(id) && paddingInValueLen == old(paddingInValueLen)
      ensures var c := CodecOf(a, ctx, id, host);
        var withTlv := old(buffer.data) + TlvHeader(c, paddingInValueLen);
        if |old(buffer.data)| + 4 - 20 >= 0x1_0000 then
          buffer.data == withTlv && head == old(head) && o == Fail(IntegerOverflow)
        else
          var framed := Framed(old(buffer.data), old(head), paddingInValueLen, c, host);
          var e := c.encode(framed);
          && head == StunHeader.HeadSetLen(old(head), NewLength(old(buffer.data), c)) && o == e.outcome
          && buffer.data == framed + e.bytes + (if e.outcome.Pass? then Zeros(PaddingUsize(c.encLen)) else [])
    {
      ghost var data, h0, c := buffer.data, head, CodecOf(a, ctx, id, host);
      PutTlvHeader(a, ctx);
      var n := LengthU16(|buffer.data| - 20);
      if n.Err? {
        return Fail(n.error);
      }
      var enc := EncodeLen(a).value;
      var len := (n.value as int + enc + PaddingU16(enc)) % 0x1_0000;
      assert len == NewLength(data, c) by {
        assert n.value == |data| + 4 - 20 && c.encLen == enc;
        NewLengthOf(data, c, n.value, enc);
      }
      SetLen(len);
      assert buffer.data == Framed(data, h0, paddingInValueLen, c, host);
      o := EncodePadded(a, ctx);
    }

    /** The TLV header: `put_u16` of the type, then of the length. */
    method PutTlvHeader(a: Attr, ctx: Context)
      requires Fits(KindOf(a), ctx) && EncodeLen(a).Ok?
      modifies buffer
      ensures buffer.data == old(buffer.data) + TlvHeader(CodecOf(a, ctx, id, host), paddingInValueLen)
    {
      ghost var d0 := buffer.data;
      var typ, len := TypeOf(KindOf(a)), TlvLength(EncodeLen(a).value, paddingInValueLen);
      buffer.PutU16(typ);
      buffer.PutU16(len);
      TlvHeaderOf(a, ctx, id, host, paddingInValueLen);
      AppendAssoc(d0, U16Bytes(typ), U16Bytes(len));
    }

    /** The end of `add_attr_with`: the encoder, then the padding if it
        succeeded (`?` returns before the padding otherwise). */
    method EncodePadded(a: Attr, ctx: Context) returns (o: Outcome)
      requires Fits(KindOf(a), ctx) && EncodeLen(a).Ok? && |buffer.data| >= 4
      modifies buffer
      ensures var e := CodecOf(a, ctx, id, host).encode(old(buffer.data));
        && o == e.outcome
        && buffer.data == old(buffer.data) + e.bytes
                          + (if o.Pass? then Zeros(PaddingUsize(EncodeLen(a).value)) else [])
    {
      ghost var d0 := buffer.data;
      CodecEncodes(a, ctx, id, host, d0);
      o := Encode(a, ctx, id, host, buffer);
      if o.Pass? {
        buffer.ExtendZeros(PaddingUsize(EncodeLen(a).value));
      }
    }

    /** `finish`: the bytes of the message. */
    method Finish() returns (bytes: seq<byte>)
      requires Valid()
      ensures bytes == buffer.data
      ensures |bytes| >= 20 && U128At(bytes, 4) == id
    {
      Pow256Values();
      BeValueOfBytes(id, 16);
      bytes := buffer.data;
    }
  }

  lemma NewLengthOf(data: seq<byte>, c: Codec, n: nat, enc: u16)
    requires |data| >= 20 && n == |data| + 4 - 20 && c.encLen == enc
    ensures NewLength(data, c) == (n + enc + PaddingU16(enc)) % 0x1_0000
  {
  }

  /** `AddAttr` spelled out by cases. */
  lemma AddAttrDefinition(data: seq<byte>, head: StunHeader.MessageHead, padInValue: bool, c: Codec,
                          host: Endian)
    requires |data| >= 20
    ensures var r := AddAttr(data, head, padInValue, c, host);
      var withTlv := data + TlvHeader(c, padInValue);
      if |data| + 4 - 20 >= 0x1_0000 then r == Added(withTlv, head, Fail(IntegerOverflow))
      else
        var framed := Framed(data, head, padInValue, c, host);
        var e := c.encode(framed);
        r == Added(framed + e.bytes + (if e.outcome.Pass? then Zeros(PaddingUsize(c.encLen)) else []),
                   StunHeader.HeadSetLen(head, NewLength(data, c)), e.outcome)
  {
  }

  /** When the buffer is short enough for `u16::try_from`, the encoder runs
      on the framed buffer: its first four bytes hold the final length and
      it ends with the TLV header; bytes 4..|data| are untouched, and a
      failing encoding is not rolled back. */
  lemma AddAttrFrames(data: seq<byte>, head: StunHeader.MessageHead, padInValue: bool, c: Codec,
                      host: Endian)
    requires |data| >= 20 && |data| + 4 - 20 < 0x1_0000
    ensures var r := AddAttr(data, head, padInValue, c, host);
      var framed := Framed(data, head, padInValue, c, host);
      var e := c.encode(framed);
      && r.head == StunHeader.HeadSetLen(head, NewLength(data, c))
      && framed[..4] == HeaderBytes(host, r.head)
      && framed[4..] == (data + TlvHeader(c, padInValue))[4..]
      && r.outcome == e.outcome
      && r.data == framed + e.bytes + (if e.outcome.Pass? then Zeros(PaddingUsize(c.encLen)) else [])
      && |r.data| >= |data| + 4 && r.data[..|data| + 4] == framed
  {
    var r := AddAttr(data, head, padInValue, c, host);
    var framed := Framed(data, head, padInValue, c, host);
    var e := c.encode(framed);
    var pad := if e.outcome.Pass? then Zeros(PaddingUsize(c.encLen)) else [];
    assert r.data == framed + (e.bytes + pad);
  }

  /** The id bytes survive `add_attr_with`, and on a little-endian host the
      header bytes are the head word in network order. */
  lemma AddAttrKeepsValid(data: seq<byte>, head: StunHeader.MessageHead, padInValue: bool, c: Codec,
                          id: u128, host: Endian)
    requires |data| >= 20
    requires data[4..20] == U128Bytes(id)
    requires host == LittleEndian ==> data[..4] == U32Bytes(head)
    ensures var r := AddAttr(data, head, padInValue, c, host);
      && |r.data| >= 20 && r.data[4..20] == U128Bytes(id)
      && (host == LittleEndian ==> r.data[..4] == U32Bytes(r.head))
  {
    var r := AddAttr(data, head, padInValue, c, host);
    var withTlv := data + TlvHeader(c, padInValue);
    if |data| + 4 - 20 >= 0x1_0000 {
      assert r.data == withTlv;
      assert withTlv[4..20] == data[4..20] && withTlv[..4] == data[..4];
    } else {
      AddAttrFrames(data, head, padInValue, c, host);
      var framed := Framed(data, head, padInValue, c, host);
      assert r.data[4..20] == framed[4..][..16];
      assert withTlv[4..][..16] == data[4..20];
      assert r.data[..4] == framed[..4];
      if host == LittleEndian {
        HeaderBytesLittleEndian(r.head);
      }
    }
  }
}
