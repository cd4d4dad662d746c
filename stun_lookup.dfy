/** Looking an attribute up in a parsed message
    (crates/stun-types/src/msg.rs:322-337): the first attribute whose type
    code is the requested one is decoded; a message without one gives
    nothing. */
module StunLookup {
  import opened Stun
  import opened Wire
  import opened StunMsg
  import opened StunAttribute
  import opened StunBuilder
  import opened StunBuilderFraming
  import StunHeader

  datatype Option<+T> = None | Some(value: T)

  /** `iter().find(|attr| attr.typ == typ)` from index `i` on: the index of
      the first attribute with that type code. */
  function FindFrom(attrs: seq<ParsedAttr>, typ: u16, i: nat): (r: Option<nat>)
    decreases |attrs| - i
    ensures r.Some? ==> i <= r.value < |attrs| && attrs[r.value].typ == typ
    ensures r.Some? ==> forall j :: i <= j < r.value ==> attrs[j].typ != typ
    ensures r.None? <==> forall j :: i <= j < |attrs| ==> attrs[j].typ != typ
  {
    if i >= |attrs| then None
    else if attrs[i].typ == typ then Some(i)
    else FindFrom(attrs, typ, i + 1)
  }

  /** Every attribute starts inside the buffer, as the MAC check needs. */
  predicate InBuffer(msg: ParsedMessage) {
    forall j :: 0 <= j < |msg.attributes| ==> msg.attributes[j].attrIdx <= |msg.buffer|
  }

  /** `get_attr_with`: nothing when no attribute has the kind's type code,
      otherwise the decoding of the first one that does. */
  function GetAttrWith(k: Kind, ctx: Context, msg: ParsedMessage, host: Endian): (r: Option<Result<Attr>>)
    requires Fits(k, ctx) && InBuffer(msg)
    ensures r.None? <==> forall j :: 0 <= j < |msg.attributes| ==> msg.attributes[j].typ != TypeOf(k)
    ensures r.Some? ==>
      exists j :: && 0 <= j < |msg.attributes|
                  && msg.attributes[j].typ == TypeOf(k)
                  && (forall i :: 0 <= i < j ==> msg.attributes[i].typ != TypeOf(k))
                  && r.value == Decoding(k, ctx, msg, msg.attributes[j], host)
  {
    match FindFrom(msg.attributes, TypeOf(k), 0)
    case None => None
    case Some(j) => Some(Decoding(k, ctx, msg, msg.attributes[j], host))
  }

  /** `get_attr`: `get_attr_with` with no context. */
  function GetAttr(k: Kind, msg: ParsedMessage, host: Endian): (r: Option<Result<Attr>>)
    requires Fits(k, NoContext) && InBuffer(msg)
    ensures r.None? <==> forall j :: 0 <= j < |msg.attributes| ==> msg.attributes[j].typ != TypeOf(k)
    ensures r.Some? ==>
      exists j :: && 0 <= j < |msg.attributes|
                  && msg.attributes[j].typ == TypeOf(k)
                  && (forall i :: 0 <= i < j ==> msg.attributes[i].typ != TypeOf(k))
                  && r.value == Decoding(k, NoContext, msg, msg.attributes[j], host)
  {
    GetAttrWith(k, NoContext, msg, host)
  }

  /** An attribute of a tiling starts inside the input. */
  lemma {:induction false} TilesInBuffer(input: seq<byte>, pos: nat, attrs: seq<ParsedAttr>)
    requires Tiles(input, pos, attrs)
    ensures forall j :: 0 <= j < |attrs| ==> attrs[j].attrIdx <= |input|
    decreases |attrs|
  {
    if attrs != [] {
      TilesInBuffer(input, AttrEnd(attrs[0]), attrs[1..]);
      forall j | 0 < j < |attrs|
        ensures attrs[j].attrIdx <= |input|
      {
        assert attrs[j] == attrs[1..][j - 1];
      }
    }
  }

  /** Every parsed message meets `GetAttrWith`'s demand. */
  lemma ParsedInBuffer(input: seq<byte>)
    requires ParseSpec(input).Parsed?
    ensures InBuffer(ParseSpec(input).msg)
  {
    ParsedMessageShape(input);
    TilesInBuffer(input, 20, ParseSpec(input).msg.attributes);
  }

  /** `find` stops at the first match. */
  lemma FirstMatch(attrs: seq<ParsedAttr>, n: nat, typ: u16)
    requires n < |attrs| && attrs[n].typ == typ
    requires forall j :: 0 <= j < n ==> attrs[j].typ != typ
    ensures FindFrom(attrs, typ, 0) == Some(n)
  {
  }

  /** The whole integrity round trip: a builder appends MESSAGE-INTEGRITY
      (or its SHA-256 variant) with a key to a well-built message that had
      none, the result parses, and looking the attribute up with the same
      key finds it and verifies it. */
  lemma IntegrityLookup(data: seq<byte>, head: StunHeader.MessageHead, padInValue: bool, a: Attr,
                        ctx: Context, id: u128, attrs: seq<ParsedAttr>)
    requires a.MessageIntegrity? || a.MessageIntegritySha256?
    requires WellBuilt(data, head, id, attrs) && Fits(KindOf(a), ctx)
    requires |data| - 20 + 4 + 32 < 0x1_0000
    requires forall j :: 0 <= j < |attrs| ==> attrs[j].typ != TypeOf(KindOf(a))
    ensures var m := ParseSpec(AddAttr(data, head, padInValue, CodecOf(a, ctx, id, LittleEndian), LittleEndian).data);
      && m.Parsed? && InBuffer(m.msg)
      && GetAttrWith(KindOf(a), ctx, m.msg, LittleEndian) == Some(Ok(a))
  {
    IntegritySelfCheck(data, head, padInValue, a, ctx, id, attrs);
    var r := AddAttr(data, head, padInValue, CodecOf(a, ctx, id, LittleEndian), LittleEndian);
    var all := ParseSpec(r.data).msg.attributes;
    var typ := TypeOf(KindOf(a));
    ParsedInBuffer(r.data);
    forall j | 0 <= j < |attrs|
      ensures all[j].typ != typ
    {
      assert all[j] == all[..|attrs|][j];
    }
    FirstMatch(all, |attrs|, typ);
  }
}
