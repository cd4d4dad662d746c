/** What the queued builder of crates/stun-types/src/msg.rs:114-209 writes:
    because `finish` puts the head with `put_u32`, which is network order on
    every machine, a finished message whose queued sizes fit 16 bits and
    which holds no address attribute parses back on either host, attribute
    by attribute. An address attribute counts its size in bits, so a queue
    holding one is not honest. */
module StunQueueFraming {
  import opened Stun
  import opened Wire
  import StunHeader
  import opened StunMsg
  import opened StunAttribute
  import opened StunBuilder
  import opened StunBuilderFraming
  import opened StunQueue

  /** The bytes one closure appends: the TLV header, the encoding and its
      padding. */
  function CodecSize(c: Codec): nat {
    4 + c.encLen + PaddingU16(c.encLen)
  }

  /** The sum of `CodecSize` from index `i` on. */
  function CodecSizeFrom(cs: seq<Codec>, i: nat): nat
    decreases |cs| - i
  {
    if i >= |cs| then 0 else CodecSize(cs[i]) + CodecSizeFrom(cs, i + 1)
  }

  /** The sizes `add_attr_with` summed are the sizes of the codecs `finish`
      runs. */
  lemma {:induction false} SizesAgree(ps: seq<Pending>, id: u128, host: Endian, i: nat)
    requires AllReady(ps)
    ensures SizeFrom(ps, i) == CodecSizeFrom(QueuedCodecs(ps, id, host), i)
    decreases |ps| - i
  {
    if i < |ps| {
      SizesAgree(ps, id, host, i + 1);
      var p := ps[i];
      assert Ready(p);
      assert QueuedCodecs(ps, id, host)[i] == CodecOf(p.attr, p.ctx, id, host);
      SizeOfCodec(p, id, host);
    }
  }

  /** The size `add_attr_with` adds for one closure is the size of the
      codec it runs. */
  lemma SizeOfCodec(p: Pending, id: u128, host: Endian)
    requires Ready(p)
    ensures TlvSize(p) == CodecSize(CodecOf(p.attr, p.ctx, id, host))
  {
  }

  /** Every codec to run writes exactly what it announces. */
  ghost predicate Honest(cs: seq<Codec>) {
    forall j, d: seq<byte> :: 0 <= j < |cs| && |d| >= 4 ==> WritesEncodeLen(cs[j], d)
  }

  /** No address attribute is queued: their `encode_len` counts bits. */
  predicate NoAddresses(ps: seq<Pending>) {
    forall i :: 0 <= i < |ps| ==> !IsAddress(ps[i].attr)
  }

  /** The queued codecs are honest when no address is queued. */
  lemma QueuedHonest(ps: seq<Pending>, id: u128, host: Endian)
    requires AllReady(ps) && NoAddresses(ps)
    ensures Honest(QueuedCodecs(ps, id, host))
  {
    var cs := QueuedCodecs(ps, id, host);
    forall j, d: seq<byte> | 0 <= j < |cs| && |d| >= 4
      ensures WritesEncodeLen(cs[j], d)
    {
      assert Ready(ps[j]);
      CodecWritesEncodeLen(ps[j].attr, ps[j].ctx, id, host, d);
    }
  }

  /** An address in the queue makes it dishonest: its closure writes an
      eighth of the bytes its size counted. */
  lemma QueuedAddressDishonest(ps: seq<Pending>, id: u128, host: Endian, j: nat)
    requires AllReady(ps) && j < |ps| && IsAddress(ps[j].attr)
    ensures !Honest(QueuedCodecs(ps, id, host))
  {
    var cs, d := QueuedCodecs(ps, id, host), Zeros(4);
    assert Ready(ps[j]);
    AddressCodec(ps[j].attr, id, host, d);
    assert !WritesEncodeLen(cs[j], d);
  }

  /** The attribute the parser reads where the closure run on `d` wrote:
      its value is the encoding and the padding the length field counts. */
  function Written(d: seq<byte>, c: Codec): (x: ParsedAttr)
    ensures x.attrIdx == |d| && x.typ == c.typ
  {
    ParsedAttr(|d|, c.typ, c.encode(d + TlvHeader(c, true)).bytes + Zeros(PaddingU16(c.encLen)))
  }

  /** The attributes the closures from `i` on write, up to the first
      failure. */
  function RunAttrs(d: seq<byte>, cs: seq<Codec>, i: nat): (attrs: seq<ParsedAttr>)
    decreases |cs| - i
    ensures attrs != [] ==> i < |cs| && attrs[0] == Written(d, cs[i])
  {
    if i >= |cs| then []
    else
      match RunOne(d, cs[i])
      case Err(_) => []
      case Ok(d1) => [Written(d, cs[i])] + RunAttrs(d1, cs, i + 1)
  }

  /** The type codes of parsed attributes, in order. */
  function AttrTypes(attrs: seq<ParsedAttr>): (ts: seq<u16>)
    ensures |ts| == |attrs|
  {
    if attrs == [] then [] else [attrs[0].typ] + AttrTypes(attrs[1..])
  }

  /** The type codes of the codecs from `i` on. */
  function CodecTypes(cs: seq<Codec>, i: nat): seq<u16>
    decreases |cs| - i
  {
    if i >= |cs| then [] else [cs[i].typ] + CodecTypes(cs, i + 1)
  }

  /** The type codes of the queued attributes from `i` on. */
  function PendingTypes(ps: seq<Pending>, i: nat): seq<u16>
    decreases |ps| - i
  {
    if i >= |ps| then [] else [TypeOf(KindOf(ps[i].attr))] + PendingTypes(ps, i + 1)
  }

  /** When every closure succeeds, each attribute has the type of the
      closure that wrote it. */
  lemma {:induction false} RunAttrsTypes(d: seq<byte>, cs: seq<Codec>, i: nat)
    requires RunFrom(d, cs, i).Ok?
    ensures AttrTypes(RunAttrs(d, cs, i)) == CodecTypes(cs, i)
    decreases |cs| - i
  {
    if i < |cs| {
      var d1 := RunOne(d, cs[i]).value;
      RunAttrsTypes(d1, cs, i + 1);
      var x, rest := Written(d, cs[i]), RunAttrs(d1, cs, i + 1);
      assert RunAttrs(d, cs, i) == [x] + rest;
      assert ([x] + rest)[1..] == rest;
    }
  }

  /** The codecs carry the types of the attributes queued. */
  lemma {:induction false} QueuedTypes(ps: seq<Pending>, id: u128, host: Endian, i: nat)
    requires AllReady(ps)
    ensures CodecTypes(QueuedCodecs(ps, id, host), i) == PendingTypes(ps, i)
    decreases |ps| - i
  {
    if i < |ps| {
      QueuedTypes(ps, id, host, i + 1);
      var cs, p := QueuedCodecs(ps, id, host), ps[i];
      assert Ready(p);
      var t := TypeOf(KindOf(p.attr));
      assert cs[i].typ == t;
      assert CodecTypes(cs, i) == [t] + CodecTypes(cs, i + 1);
      assert PendingTypes(ps, i) == [t] + PendingTypes(ps, i + 1);
    }
  }

  /** One honest closure that succeeds appends `CodecSize` bytes holding
      one TLV. */
  lemma OneRun(d: seq<byte>, c: Codec)
    requires WritesEncodeLen(c, d + TlvHeader(c, true)) && RunOne(d, c).Ok?
    requires c.encLen + PaddingU16(c.encLen) < 0x1_0000
    ensures var d1 := RunOne(d, c).value;
      && |d1| == |d| + CodecSize(c) && d1[..|d|] == d
      && Tiles(d1, |d|, [Written(d, c)])
  {
    var withTlv := d + TlvHeader(c, true);
    var e := c.encode(withTlv);
    var d1 := RunOne(d, c).value;
    PaddingAgree(c.encLen);
    assert d1 == withTlv + e.bytes + Zeros(PaddingUsize(c.encLen));
    assert d1[|d|..|d| + 2] == U16Bytes(c.typ);
    assert d1[|d| + 2..|d| + 4] == U16Bytes((c.encLen + PaddingU16(c.encLen)) % 0x1_0000);
    U16RoundTrip(c.typ, d1, |d|);
    U16RoundTrip((c.encLen + PaddingU16(c.encLen)) % 0x1_0000, d1, |d| + 2);
    TlvBehind(d1, withTlv, |d|, e.bytes, true, c.typ, c.encLen, Written(d, c));
  }

  /** An attribute read from a buffer is read the same from any longer
      buffer that starts with it. */
  lemma ReadAtPrefix(a: seq<byte>, b: seq<byte>, x: ParsedAttr)
    requires ReadAt(a, x) && |a| <= |b| && b[..|a|] == a
    ensures ReadAt(b, x)
  {
    var i := x.attrIdx;
    assert b[i] == a[i] && b[i + 1] == a[i + 1] && b[i + 2] == a[i + 2] && b[i + 3] == a[i + 3];
    assert b[i + 4..i + 4 + |x.value|] == b[..|a|][i + 4..i + 4 + |x.value|];
  }

  /** The closures from `i` on, all honest and with sizes that fit 16 bits,
      keep what was in the buffer, add the sum of their sizes, and leave
      behind it one TLV per closure, in order. */
  lemma {:induction false} RunFromTiles(d: seq<byte>, cs: seq<Codec>, i: nat, r: seq<byte>)
    requires i <= |cs| && Honest(cs) && CodecSizeFrom(cs, i) < 0x1_0000
    requires RunFrom(d, cs, i) == Ok(r)
    ensures |r| == |d| + CodecSizeFrom(cs, i) && r[..|d|] == d
    ensures Tiles(r, |d|, RunAttrs(d, cs, i)) && |RunAttrs(d, cs, i)| == |cs| - i
    decreases |cs| - i
  {
    if i < |cs| {
      var c := cs[i];
      assert WritesEncodeLen(c, d + TlvHeader(c, true));
      var d1 := RunOne(d, c).value;
      OneRun(d, c);
      RunFromTiles(d1, cs, i + 1, r);
      var x := Written(d, c);
      var rest := RunAttrs(d1, cs, i + 1);
      assert ReadAt(d1, x) && AttrEnd(x) == |d1|;
      assert r[..|d1|] == d1;
      ReadAtPrefix(d1, r, x);
      assert r[..|d|] == d1[..|d|];
      assert RunAttrs(d, cs, i) == [x] + rest;
      TilesCons(r, x, rest);
    }
  }

  /** One attribute read at `pos`, then a tiling from its end, tile the
      input from `pos`. */
  lemma TilesCons(input: seq<byte>, x: ParsedAttr, rest: seq<ParsedAttr>)
    requires ReadAt(input, x) && Tiles(input, AttrEnd(x), rest)
    ensures Tiles(input, x.attrIdx, [x] + rest)
  {
    assert ([x] + rest)[0] == x && ([x] + rest)[1..] == rest;
  }

  /** The queued closures run behind the 20 header bytes: with a total
      that fits 16 bits, they add `TotalLen` bytes and tile them with one
      attribute per closure. */
  lemma QueuedTiles(start: seq<byte>, ps: seq<Pending>, id: u128, host: Endian, r: seq<byte>)
    requires AllReady(ps) && NoAddresses(ps) && TotalLen(ps) < 0x1_0000
    requires RunFrom(start, QueuedCodecs(ps, id, host), 0) == Ok(r)
    ensures var attrs := RunAttrs(start, QueuedCodecs(ps, id, host), 0);
      && |r| == |start| + TotalLen(ps) && r[..|start|] == start
      && Tiles(r, |start|, attrs) && |attrs| == |ps|
  {
    var cs := QueuedCodecs(ps, id, host);
    QueuedHonest(ps, id, host);
    SizesAgree(ps, id, host, 0);
    RunFromTiles(start, cs, 0, r);
  }

  /** `finish` on a queue without addresses whose sizes fit 16 bits: on
      either host the header announces everything after it, and the
      message parses to one attribute per queued closure, in order,
      each with the type of its attribute. */
  lemma QueuedMessageParses(head: StunHeader.MessageHead, id: u128, attrsLen: u16, ps: seq<Pending>,
                            host: Endian)
    requires AllReady(ps) && NoAddresses(ps)
    requires TotalLen(ps) < 0x1_0000 && attrsLen == TotalLen(ps) % 0x1_0000
    requires StunHeader.HeadZ(head) == 0 && StunHeader.IdCookie(id) == COOKIE
    requires StunHeader.MethodBits(StunHeader.HeadTyp(head)) == 0x0001
    requires Finished(head, id, attrsLen, ps, host).Ok?
    ensures var r := Finished(head, id, attrsLen, ps, host).value;
      var h := StunHeader.HeadSetLen(head, attrsLen);
      var attrs := RunAttrs(NewMessage(h, id), QueuedCodecs(ps, id, host), 0);
      && StunHeader.HeadLen(h) == |r| - 20
      && ParseSpec(r)
         == Parsed(ParsedMessage(r, h, id, StunHeader.ClassTryFrom(StunHeader.HeadTyp(head)).value,
                                 StunHeader.Binding, StunHeader.IdTsxId(id), attrs))
      && AttrTypes(attrs) == PendingTypes(ps, 0)
  {
    var r := Finished(head, id, attrsLen, ps, host).value;
    var h := StunHeader.HeadSetLen(head, attrsLen);
    var start := NewMessage(h, id);
    var attrs := RunAttrs(start, QueuedCodecs(ps, id, host), 0);
    QueuedTiles(start, ps, id, host, r);
    RunAttrsTypes(start, QueuedCodecs(ps, id, host), 0);
    QueuedTypes(ps, id, host, 0);
    StunHeader.SmallMod(TotalLen(ps), 0x1_0000);
    NewMessageParts(h, id);
    assert r[..4] == start[..4] && r[4..20] == start[4..20];
    BuiltParses(r, h, id, attrs);
  }
}
