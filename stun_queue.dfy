/** The older, queued builder of crates/stun-types/src/msg.rs:114-209: an
    `AttrInsertQueue` collects one encoder closure per attribute and sums
    their sizes up front, and `MessageBuilder::finish` writes the header with
    that sum as its length before running the closures in order. */
module StunQueue {
  import opened Stun
  import opened Wire
  import StunHeader
  import opened StunMsg
  import opened StunAttribute
  import opened StunIntegrity
  import opened StunBuilder

  /** A queued closure: the attribute it encodes and the context it was
      queued with. */
  datatype Pending = Pending(attr: Attr, ctx: Context)

  /** What `add_attr_with` demands: the context fits the attribute and
      `encode_len` succeeds (the `expect` would panic otherwise). */
  predicate Ready(p: Pending) {
    Fits(KindOf(p.attr), p.ctx) && EncodeLen(p.attr).Ok?
  }

  predicate AllReady(ps: seq<Pending>) {
    forall i :: 0 <= i < |ps| ==> Ready(ps[i])
  }

  /** The bytes one queued attribute announces: the TLV header, the
      encoding and its padding (nothing for a closure that could not have
      been queued). */
  function TlvSize(p: Pending): nat
  {
    if Ready(p) then 4 + EncodeLen(p.attr).value + PaddingU16(EncodeLen(p.attr).value) else 0
  }

  /** The sum of the announced sizes from index `i` on, without
      wrap-around. */
  function SizeFrom(ps: seq<Pending>, i: nat): nat
    decreases |ps| - i
  {
    if i >= |ps| then 0 else TlvSize(ps[i]) + SizeFrom(ps, i + 1)
  }

  /** The sum of the announced sizes. */
  function TotalLen(ps: seq<Pending>): nat
  {
    SizeFrom(ps, 0)
  }

  /** Queuing one more attribute adds its size to the sum. */
  lemma {:induction false} SizeFromAppend(ps: seq<Pending>, p: Pending, i: nat)
    requires i <= |ps|
    ensures SizeFrom(ps + [p], i) == SizeFrom(ps, i) + TlvSize(p)
    decreases |ps| - i
  {
    if i == |ps| {
      assert (ps + [p])[i] == p;
    } else {
      assert (ps + [p])[i] == ps[i];
      SizeFromAppend(ps, p, i + 1);
    }
  }

  lemma ReadyAppend(ps: seq<Pending>, p: Pending)
    requires AllReady(ps) && Ready(p)
    ensures AllReady(ps + [p])
  {
    forall i | 0 <= i < |ps| + 1
      ensures Ready((ps + [p])[i])
    {
      if i < |ps| {
        assert (ps + [p])[i] == ps[i];
      }
    }
  }

  /** Every announced size is a whole number of words, so the sum is too. */
  lemma {:induction false} SizeFromWords(ps: seq<Pending>, i: nat)
    ensures SizeFrom(ps, i) % 4 == 0
    decreases |ps| - i
  {
    if i < |ps| {
      var a, b := TlvSize(ps[i]), SizeFrom(ps, i + 1);
      assert a % 4 == 0 by { TlvSizeWords(ps[i]); }
      assert b % 4 == 0 by { SizeFromWords(ps, i + 1); }
      WordsAdd(a, b);
    }
  }

  /** One announced size is a whole number of words. */
  lemma TlvSizeWords(p: Pending)
    ensures TlvSize(p) % 4 == 0
  {
    if Ready(p) {
      var n := EncodeLen(p.attr).value;
      assert (n + PaddingU16(n)) % 4 == 0;
    }
  }

  lemma WordsAdd(a: nat, b: nat)
    requires a % 4 == 0 && b % 4 == 0
    ensures (a + b) % 4 == 0
  {
  }

  /** `(x % m + y) % m == (x + y) % m`, the step of a wrapping sum. */
  lemma WrapStep(x: nat, y: nat)
    ensures (x % 0x1_0000 + y) % 0x1_0000 == (x + y) % 0x1_0000
  {
    var q := x / 0x1_0000;
    assert x == q * 0x1_0000 + x % 0x1_0000;
    assert x + y == q * 0x1_0000 + (x % 0x1_0000 + y);
  }

  /** Adding one more size to a wrapped sum wraps the new sum. */
  lemma QueueStep(ps: seq<Pending>, p: Pending, len: u16)
    requires AllReady(ps) && Ready(p) && len == TotalLen(ps) % 0x1_0000
    ensures AllReady(ps + [p]) && (len as int + TlvSize(p)) % 0x1_0000 == TotalLen(ps + [p]) % 0x1_0000
  {
    var t, z := TotalLen(ps), TlvSize(p);
    ReadyAppend(ps, p);
    SizeFromAppend(ps, p, 0);
    assert TotalLen(ps + [p]) == t + z;
    WrapStep(t, z);
  }

  class AttrInsertQueue {
    /** `attrs_len`, a `u16` sum. */
    var attrsLen: u16
    /** The `builder` vector of boxed closures, as what each one encodes. */
    var pending: seq<Pending>

    /** `attrs_len` is the announced total, cut to 16 bits. */
    predicate Valid()
      reads this
    {
      AllReady(pending) && attrsLen == TotalLen(pending) % 0x1_0000
    }

    /** `AttrInsertQueue::new` (the `Default`): nothing queued. */
    constructor ()
      ensures Valid() && attrsLen == 0 && pending == []
    {
      attrsLen := 0;
      pending := [];
    }

    /** `add_attr_with`: queue the closure and add `4 + enc_len + padding`
        to `attrs_len`, a `u16` addition that wraps. */
    method AddAttrWith(a: Attr, ctx: Context)
      requires Valid() && Fits(KindOf(a), ctx) && EncodeLen(a).Ok?
      modifies this
      ensures Valid()
      ensures pending == old(pending) + [Pending(a, ctx)]
      ensures attrsLen == (old(attrsLen) as int + TlvSize(Pending(a, ctx))) % 0x1_0000
    {
      var encLen := EncodeLen(a).value;
      var padding := PaddingU16(encLen);
      var p := Pending(a, ctx);
      var next := WrapU16(attrsLen as int + 4 + encLen + padding);
      assert next == (attrsLen as int + TlvSize(p)) % 0x1_0000 by {
        assert TlvSize(p) == 4 + encLen as int + padding as int;
      }
      QueueStep(pending, p, attrsLen);
      pending := pending + [p];
      attrsLen := next;
    }

    /** `add_attr`: `add_attr_with` without a context. */
    method AddAttr(a: Attr)
      requires Valid() && Fits(KindOf(a), NoContext) && EncodeLen(a).Ok?
      modifies this
      ensures Valid()
      ensures pending == old(pending) + [Pending(a, NoContext)]
      ensures attrsLen == (old(attrsLen) as int + TlvSize(Pending(a, NoContext))) % 0x1_0000
    {
      AddAttrWith(a, NoContext);
    }
  }

  /** While the total fits 16 bits, `attrs_len` is exactly the total. */
  lemma QueueLength(q: AttrInsertQueue)
    requires q.Valid() && TotalLen(q.pending) < 0x1_0000
    ensures q.attrsLen == TotalLen(q.pending) && q.attrsLen % 4 == 0
  {
    SizeFromWords(q.pending, 0);
  }

  /** The queued closures as codecs, once the id of the builder that runs
      them is known. */
  function QueuedCodecs(ps: seq<Pending>, id: u128, host: Endian): (cs: seq<Codec>)
    requires AllReady(ps)
    ensures |cs| == |ps|
    ensures forall i :: 0 <= i < |ps| ==> cs[i] == CodecOf(ps[i].attr, ps[i].ctx, id, host)
  {
    seq(|ps|, i requires 0 <= i < |ps| => CodecOf(ps[i].attr, ps[i].ctx, id, host))
  }

  /** One closure run on a buffer holding `d`: `put_u16` of the type and of
      `enc_len + padding` (a `u16` sum that wraps), the encoder, whose
      failure the `?` returns, then the padding. */
  function RunOne(d: seq<byte>, c: Codec): Result<seq<byte>> {
    var withTlv := d + TlvHeader(c, true);
    var e := c.encode(withTlv);
    if e.outcome.Fail? then Err(e.outcome.error)
    else Ok(withTlv + e.bytes + Zeros(PaddingUsize(c.encLen)))
  }

  /** The closures from index `i` on run in the order they were queued;
      the first failure ends `finish`. */
  function RunFrom(d: seq<byte>, cs: seq<Codec>, i: nat): Result<seq<byte>>
    decreases |cs| - i
  {
    if i >= |cs| then Ok(d)
    else
      match RunOne(d, cs[i])
      case Err(e) => Err(e)
      case Ok(d1) => RunFrom(d1, cs, i + 1)
  }

  /** `RunFrom` after the closure at `i`. */
  lemma RunFromStep(d: seq<byte>, cs: seq<Codec>, i: nat)
    requires i < |cs|
    ensures var o := RunOne(d, cs[i]);
      RunFrom(d, cs, i) == if o.Err? then Err(o.error) else RunFrom(o.value, cs, i + 1)
  {
  }

  /** What `finish` returns: the header with `attrs_len` as its length and
      the id, both in network order, then every queued attribute. */
  function Finished(head: StunHeader.MessageHead, id: u128, attrsLen: u16, ps: seq<Pending>,
                    host: Endian): Result<seq<byte>>
    requires AllReady(ps)
  {
    RunFrom(NewMessage(StunHeader.HeadSetLen(head, attrsLen), id), QueuedCodecs(ps, id, host), 0)
  }

  class MessageBuilder {
    var head: StunHeader.MessageHead
    var id: StunHeader.MessageId
    const buffer: ByteBuffer
    /** The byte order of the machine the encoders run on. */
    const host: Endian

    /** `MessageBuilder::new`: the type from the class and method, a zero
        length, the cookie and the transaction id (cut to 96 bits), and an
        empty buffer. */
    constructor (c: StunHeader.Class, m: StunHeader.Method, tsxId: u128, host: Endian)
      ensures fresh(buffer) && buffer.data == [] && this.host == host
      ensures Started(head, id, c, m, tsxId)
    {
      var b := new ByteBuffer();
      var h, i := StartHeader(c, m, tsxId);
      head := h;
      id := i;
      buffer := b;
      this.host := host;
    }

    /** `finish`: `set_len(attrs_len)`, the header and the id, then each
        queued closure in order. */
    method Finish(q: AttrInsertQueue) returns (r: Result<seq<byte>>)
      requires AllReady(q.pending) && buffer.data == []
      modifies this, buffer
      ensures r == Finished(old(head), id, q.attrsLen, q.pending, host)
      ensures head == StunHeader.HeadSetLen(old(head), q.attrsLen) && id == old(id)
    {
      var pending, attrsLen := q.pending, q.attrsLen;
      head := StunHeader.HeadSetLen(head, attrsLen);
      PutHeader(buffer, head, id);
      assert buffer.data == NewMessage(head, id);
      ghost var cs := QueuedCodecs(pending, id, host);
      r := RunAll(cs, pending);
      assert r == RunFrom(NewMessage(head, id), cs, 0);
    }

    /** The queued closures in order, stopping at the first failure. */
    method RunAll(ghost cs: seq<Codec>, pending: seq<Pending>) returns (r: Result<seq<byte>>)
      requires AllReady(pending) && cs == QueuedCodecs(pending, id, host)
      modifies buffer
      ensures r == RunFrom(old(buffer.data), cs, 0)
    {
      ghost var goal := RunFrom(buffer.data, cs, 0);
      var i: nat := 0;
      while i < |pending|
        invariant i <= |pending| == |cs|
        invariant RunFrom(buffer.data, cs, i) == goal
        decreases |pending| - i
      {
        var p := pending[i];
        assert Ready(pending[i]) && cs[i] == CodecOf(p.attr, p.ctx, id, host);
        RunFromStep(buffer.data, cs, i);
        var o := Run(cs[i], p.attr, p.ctx);
        if o.Fail? {
          return Err(o.error);
        }
        i := i + 1;
      }
      return Ok(buffer.data);
    }

    /** One queued closure on the buffer. */
    method Run(ghost c: Codec, a: Attr, ctx: Context) returns (o: Outcome)
      requires Fits(KindOf(a), ctx) && EncodeLen(a).Ok? && c == CodecOf(a, ctx, id, host)
      modifies buffer
      ensures var r := RunOne(old(buffer.data), c);
        && (o.Fail? <==> r.Err?) && (o.Fail? ==> o.error == r.error)
        && (o.Pass? ==> buffer.data == r.value)
    {
      PutTlv(a, ctx);
      o := EncodePadded(a, ctx);
    }

    /** `put_u16` of the type, then of `enc_len + padding`. */
    method PutTlv(a: Attr, ctx: Context)
      requires Fits(KindOf(a), ctx) && EncodeLen(a).Ok?
      modifies buffer
      ensures buffer.data == old(buffer.data) + TlvHeader(CodecOf(a, ctx, id, host), true)
    {
      ghost var d0 := buffer.data;
      var typ, len := TypeOf(KindOf(a)), TlvLength(EncodeLen(a).value, true);
      buffer.PutU16(typ);
      buffer.PutU16(len);
      TlvHeaderOf(a, ctx, id, host, true);
      AppendAssoc(d0, U16Bytes(typ), U16Bytes(len));
    }

    /** The encoder, then the padding if it succeeded. */
    method EncodePadded(a: Attr, ctx: Context) returns (o: Outcome)
      requires Fits(KindOf(a), ctx) && EncodeLen(a).Ok? && |buffer.data| >= 4
      modifies buffer
      ensures var e := CodecOf(a, ctx, id, host).encode(old(buffer.data));
        && o == e.outcome
        && (o.Pass? ==> buffer.data == old(buffer.data) + e.bytes + Zeros(PaddingUsize(EncodeLen(a).value)))
    {
      ghost var d0 := buffer.data;
      CodecEncodes(a, ctx, id, host, d0);
      o := Encode(a, ctx, id, host, buffer);
      if o.Pass? {
        buffer.ExtendZeros(PaddingUsize(EncodeLen(a).value));
      }
    }
  }
}
