/** Parsing a STUN message (crates/stun-types/src/msg.rs:211-320): the
    20-byte header gate, then a cursor walk over the type-length-value
    attributes that records where each one starts and slices out its value. */
module StunMsg {
  import opened Stun
  import opened Wire
  import StunHeader

  /** `ParsedAttr`: where the attribute's TLV header starts, its type, and
      its value (without padding). */
  datatype ParsedAttr = ParsedAttr(attrIdx: nat, typ: u16, value: seq<byte>)

  datatype ParsedMessage = ParsedMessage(
    buffer: seq<byte>,
    head: StunHeader.MessageHead,
    id: StunHeader.MessageId,
    msgClass: StunHeader.Class,
    msgMethod: StunHeader.Method,
    tsxId: u128,
    attributes: seq<ParsedAttr>)

  /** `Result<Option<ParsedMessage>, Error>`, plus the panic of the
      `Method::try_from(..).unwrap()` on a method other than Binding. */
  datatype ParseOutcome =
    | Failed(error: Error)
    | NotStun
    | Parsed(msg: ParsedMessage)
    | Panicked

  const INVALID_ATTR_LEN: string := "Invalid attribute length in STUN message"

  /** The position just past the attribute's value and padding. */
  function AttrEnd(a: ParsedAttr): nat {
    a.attrIdx + 4 + |a.value| + PaddingUsize(|a.value|)
  }

  /** `a` is what the cursor reads from the TLV at `a.attrIdx`. */
  predicate ReadAt(input: seq<byte>, a: ParsedAttr) {
    AttrEnd(a) <= |input|
    && a.typ == U16At(input, a.attrIdx)
    && |a.value| == U16At(input, a.attrIdx + 2)
    && a.value == input[a.attrIdx + 4..a.attrIdx + 4 + |a.value|]
  }

  /** The attributes cover `input[pos..]` exactly, one after the other and
      each read from where the previous one ends. */
  predicate Tiles(input: seq<byte>, pos: nat, attrs: seq<ParsedAttr>)
    decreases |attrs|
  {
    if attrs == [] then pos == |input|
    else attrs[0].attrIdx == pos && ReadAt(input, attrs[0])
         && Tiles(input, AttrEnd(attrs[0]), attrs[1..])
  }

  /** The attribute loop from cursor position `pos` on. */
  function ParseAttrs(input: seq<byte>, pos: nat): (r: Result<seq<ParsedAttr>>)
    requires pos <= |input|
    ensures r.Err? ==> r.error == Io(UnexpectedEof) || r.error == InvalidData(INVALID_ATTR_LEN)
    decreases |input| - pos
  {
    if pos == |input| then Ok([])
    else if |input| - pos < 4 then Err(Io(UnexpectedEof))
    else
      var typ := U16At(input, pos);
      var len := U16At(input, pos + 2);
      var valueBegin := pos + 4;
      var paddingEnd := valueBegin + len + PaddingUsize(len);
      if paddingEnd > |input| then Err(InvalidData(INVALID_ATTR_LEN))
      else
        match ParseAttrs(input, paddingEnd)
        case Ok(rest) => Ok([ParsedAttr(pos, typ, input[valueBegin..valueBegin + len])] + rest)
        case Err(e) => Err(e)
  }

  /** One turn of the attribute loop at `pos`: an end-of-input error, a
      length error, or one attribute in front of the rest of the walk. */
  lemma ParseAttrsStep(input: seq<byte>, pos: nat)
    requires pos < |input|
    ensures |input| - pos < 4 ==> ParseAttrs(input, pos) == Err(Io(UnexpectedEof))
    ensures |input| - pos >= 4 ==>
      var len := U16At(input, pos + 2);
      var paddingEnd := pos + 4 + len + PaddingUsize(len);
      if paddingEnd > |input| then ParseAttrs(input, pos) == Err(InvalidData(INVALID_ATTR_LEN))
      else ParseAttrs(input, pos)
           == Prepend([ParsedAttr(pos, U16At(input, pos), input[pos + 4..pos + 4 + len])],
                      ParseAttrs(input, paddingEnd))
  {
  }

  /** `ParsedMessage::parse`. */
  function ParseSpec(input: seq<byte>): ParseOutcome {
    if |input| < 4 then Failed(Io(UnexpectedEof))
    else
      var head := U32At(input, 0);
      if StunHeader.HeadZ(head) != 0 then NotStun
      else if |input| < 20 then Failed(Io(UnexpectedEof))
      else
        var id := U128At(input, 4);
        if StunHeader.IdCookie(id) != COOKIE then NotStun
        else
          var cls := StunHeader.ClassTryFrom(StunHeader.HeadTyp(head)).value;
          var meth := StunHeader.MethodTryFrom(StunHeader.HeadTyp(head));
          if meth.Err? then Panicked
          else
            match ParseAttrs(input, 20)
            case Err(e) => Failed(e)
            case Ok(attrs) =>
              Parsed(ParsedMessage(input, head, id, cls, meth.value, StunHeader.IdTsxId(id), attrs))
  }

  /** The cursor walk of `ParsedMessage::parse`, reading field by field. */
  method Parse(input: seq<byte>) returns (r: ParseOutcome)
    ensures r == ParseSpec(input)
  {
    var cursor: nat := 0;
    if |input| - cursor < 4 {
      return Failed(Io(UnexpectedEof));
    }
    var head := U32At(input, cursor);
    cursor := cursor + 4;
    if StunHeader.HeadZ(head) != 0 {
      return NotStun;
    }
    if |input| - cursor < 16 {
      return Failed(Io(UnexpectedEof));
    }
    var id := U128At(input, cursor);
    cursor := cursor + 16;
    if StunHeader.IdCookie(id) != COOKIE {
      return NotStun;
    }
    var cls := StunHeader.ClassTryFrom(StunHeader.HeadTyp(head)).value;
    var meth := StunHeader.MethodTryFrom(StunHeader.HeadTyp(head));
    if meth.Err? {
      return Panicked;
    }
    var attrs := ReadAttributes(input);
    if attrs.Err? {
      return Failed(attrs.error);
    }
    var attributes := attrs.value;
    return Parsed(ParsedMessage(input, head, id, cls, meth.value, StunHeader.IdTsxId(id), attributes));
  }

  /** The `while cursor.has_remaining()` loop of `ParsedMessage::parse`. */
  method ReadAttributes(input: seq<byte>) returns (r: Result<seq<ParsedAttr>>)
    requires 20 <= |input|
    ensures r == ParseAttrs(input, 20)
  {
    var cursor: nat := 20;
    var attributes: seq<ParsedAttr> := [];
    PrependNothing(ParseAttrs(input, 20));
    while cursor < |input|
      invariant 20 <= cursor <= |input|
      invariant ParseAttrs(input, 20) == Prepend(attributes, ParseAttrs(input, cursor))
      decreases |input| - cursor
    {
      var start := cursor;
      if |input| - cursor < 2 {
        assert ParseAttrs(input, start) == Err(Io(UnexpectedEof)) by { ParseAttrsStep(input, start); }
        return Err(Io(UnexpectedEof));
      }
      var attrTyp := U16At(input, cursor);
      cursor := cursor + 2;
      if |input| - cursor < 2 {
        assert ParseAttrs(input, start) == Err(Io(UnexpectedEof)) by { ParseAttrsStep(input, start); }
        return Err(Io(UnexpectedEof));
      }
      var attrLen := U16At(input, cursor);
      cursor := cursor + 2;
      var padding := PaddingUsize(attrLen);
      var valueBegin := cursor;
      var valueEnd := valueBegin + attrLen;
      var paddingEnd := valueEnd + padding;
      if paddingEnd > |input| {
        assert ParseAttrs(input, start) == Err(InvalidData(INVALID_ATTR_LEN)) by { ParseAttrsStep(input, start); }
        return Err(InvalidData(INVALID_ATTR_LEN));
      }
      var value := input[valueBegin..valueEnd];
      var attr := ParsedAttr(valueBegin - 4, attrTyp, value);
      AttrStep(input, start, attributes, attr, paddingEnd);
      attributes := attributes + [attr];
      cursor := paddingEnd;
    }
    assert attributes + [] == attributes;
    return Ok(attributes);
  }

  /** One turn of `ReadAttributes` that reads an attribute keeps its
      invariant. */
  lemma AttrStep(input: seq<byte>, start: nat, attributes: seq<ParsedAttr>, attr: ParsedAttr, paddingEnd: nat)
    requires start + 4 <= |input|
    requires paddingEnd == start + 4 + U16At(input, start + 2) + PaddingUsize(U16At(input, start + 2)) <= |input|
    requires attr == ParsedAttr(start, U16At(input, start), input[start + 4..start + 4 + U16At(input, start + 2)])
    ensures Prepend(attributes, ParseAttrs(input, start)) == Prepend(attributes + [attr], ParseAttrs(input, paddingEnd))
  {
    assert ParseAttrs(input, start) == Prepend([attr], ParseAttrs(input, paddingEnd)) by {
      ParseAttrsStep(input, start);
    }
    PrependTwice(attributes, [attr], ParseAttrs(input, paddingEnd));
  }

  /** The attribute read at `pos` is the one the loop builds there. */
  lemma ReadAtIff(input: seq<byte>, pos: nat, a: ParsedAttr)
    requires pos + 4 <= |input|
    ensures var len := U16At(input, pos + 2);
      var paddingEnd := pos + 4 + len + PaddingUsize(len);
      (a.attrIdx == pos && ReadAt(input, a))
        <==> (paddingEnd <= |input|
              && a == ParsedAttr(pos, U16At(input, pos), input[pos + 4..pos + 4 + len]))
  {
  }

  /** Parsing succeeds with exactly the tilings of the input: the parse
      result is the unique way of reading `input[pos..]` as consecutive
      well-formed attributes. */
  lemma {:induction false} ParseAttrsIffTiles(input: seq<byte>, pos: nat, attrs: seq<ParsedAttr>)
    requires pos <= |input|
    ensures ParseAttrs(input, pos) == Ok(attrs) <==> Tiles(input, pos, attrs)
    decreases |input| - pos
  {
    if pos < |input| {
      ParseAttrsStep(input, pos);
      if |input| - pos >= 4 {
        var len := U16At(input, pos + 2);
        var paddingEnd := pos + 4 + len + PaddingUsize(len);
        if paddingEnd <= |input| {
          var x := ParsedAttr(pos, U16At(input, pos), input[pos + 4..pos + 4 + len]);
          PrependOk(x, ParseAttrs(input, paddingEnd), attrs);
          if attrs != [] {
            ReadAtIff(input, pos, attrs[0]);
            ParseAttrsIffTiles(input, paddingEnd, attrs[1..]);
            assert attrs[0] == x ==> AttrEnd(attrs[0]) == paddingEnd;
          }
        } else if attrs != [] {
          ReadAtIff(input, pos, attrs[0]);
        }
      }
    }
  }

  lemma PrependOk(x: ParsedAttr, r: Result<seq<ParsedAttr>>, attrs: seq<ParsedAttr>)
    ensures Prepend([x], r) == Ok(attrs) <==> attrs != [] && attrs[0] == x && r == Ok(attrs[1..])
  {
    if attrs != [] && attrs[0] == x && r == Ok(attrs[1..]) {
      assert [x] + attrs[1..] == attrs;
    }
  }

  /** The attribute walk reads nothing before its starting position. */
  lemma {:induction false} ParseAttrsFrame(a: seq<byte>, b: seq<byte>, pos: nat)
    requires pos <= |a| == |b|
    requires a[pos..] == b[pos..]
    ensures ParseAttrs(a, pos) == ParseAttrs(b, pos)
    decreases |a| - pos
  {
    if pos < |a| && |a| - pos >= 4 {
      var paddingEnd := StepEnd(a, pos);
      FrameFacts(a, b, pos);
      StepPair(a, b, pos);
      if paddingEnd <= |a| {
        ParseAttrsFrame(a, b, paddingEnd);
      }
    }
  }

  /** Where the turn of the walk at `pos` ends, padding included. */
  function StepEnd(input: seq<byte>, pos: nat): nat
    requires pos + 4 <= |input|
  {
    pos + 4 + U16At(input, pos + 2) + PaddingUsize(U16At(input, pos + 2))
  }

  /** One turn of the walk in two buffers that read the same attribute
      header and value at `pos`: it ends at the same place, and the two
      walks agree when the walks from there do. */
  lemma StepPair(a: seq<byte>, b: seq<byte>, pos: nat)
    requires pos + 4 <= |a| == |b|
    requires U16At(b, pos) == U16At(a, pos) && U16At(b, pos + 2) == U16At(a, pos + 2)
    requires StepEnd(a, pos) <= |a| ==> a[pos + 4..pos + 4 + U16At(a, pos + 2)] == b[pos + 4..pos + 4 + U16At(a, pos + 2)]
    ensures StepEnd(b, pos) == StepEnd(a, pos)
    ensures StepEnd(a, pos) > |a| ==> ParseAttrs(a, pos) == ParseAttrs(b, pos)
    ensures StepEnd(a, pos) <= |a| && ParseAttrs(a, StepEnd(a, pos)) == ParseAttrs(b, StepEnd(a, pos))
            ==> ParseAttrs(a, pos) == ParseAttrs(b, pos)
  {
    ParseAttrsStep(a, pos);
    ParseAttrsStep(b, pos);
  }

  /** What one turn of the walk at `pos` reads is the same in two buffers
      that agree from `pos` on, and so is what follows the turn. */
  lemma FrameFacts(a: seq<byte>, b: seq<byte>, pos: nat)
    requires pos + 4 <= |a| == |b| && a[pos..] == b[pos..]
    ensures U16At(b, pos) == U16At(a, pos) && U16At(b, pos + 2) == U16At(a, pos + 2)
    ensures StepEnd(a, pos) <= |a| ==>
      && a[pos + 4..pos + 4 + U16At(a, pos + 2)] == b[pos + 4..pos + 4 + U16At(a, pos + 2)]
      && a[StepEnd(a, pos)..] == b[StepEnd(a, pos)..]
  {
    assert b[pos..|a|] == a[pos..];
    SameByte(a, b, pos, pos);
    SameByte(a, b, pos, pos + 1);
    SameByte(a, b, pos, pos + 2);
    SameByte(a, b, pos, pos + 3);
    var len := U16At(a, pos + 2);
    var paddingEnd := StepEnd(a, pos);
    if paddingEnd <= |a| {
      SameWindow(a, b, pos, pos + 4, pos + 4 + len);
      SameWindow(a, b, pos, paddingEnd, |a|);
      assert a[paddingEnd..] == a[paddingEnd..|a|] && b[paddingEnd..] == b[paddingEnd..|a|];
    }
  }

  /** A buffer that starts with a tiled prefix is parsed through that
      prefix first: the walk from `pos` yields the prefix's attributes in
      front of whatever the walk from the prefix's end yields. */
  lemma {:induction false} ParseAcrossPrefix(a: seq<byte>, b: seq<byte>, pos: nat, attrs: seq<ParsedAttr>)
    requires pos <= |a| <= |b| && b[pos..|a|] == a[pos..]
    requires Tiles(a, pos, attrs)
    ensures ParseAttrs(b, pos) == Prepend(attrs, ParseAttrs(b, |a|))
    decreases |attrs|
  {
    if attrs == [] {
      PrependNothing(ParseAttrs(b, |a|));
    } else {
      var x := attrs[0];
      FirstAttrCarriesOver(a, b, pos, x);
      ParseAcrossPrefix(a, b, AttrEnd(x), attrs[1..]);
      PrependTwice([x], attrs[1..], ParseAttrs(b, |a|));
      assert [x] + attrs[1..] == attrs;
    }
  }

  /** One step of `ParseAcrossPrefix`: the attribute read at `pos` in the
      prefix is read there in the longer buffer too. */
  lemma FirstAttrCarriesOver(a: seq<byte>, b: seq<byte>, pos: nat, x: ParsedAttr)
    requires pos <= |a| <= |b| && b[pos..|a|] == a[pos..]
    requires x.attrIdx == pos && ReadAt(a, x)
    ensures ParseAttrs(b, pos) == Prepend([x], ParseAttrs(b, AttrEnd(x)))
    ensures b[AttrEnd(x)..|a|] == a[AttrEnd(x)..]
  {
    CarriedHeader(a, b, pos, x);
    ParseAttrsOne(b, pos, x);
  }

  /** Two buffers that agree from `lo` to the end of the shorter one agree
      on every window inside that range. */
  lemma SameWindow(a: seq<byte>, b: seq<byte>, lo: nat, i: nat, j: nat)
    requires lo <= i <= j <= |a| <= |b| && b[lo..|a|] == a[lo..]
    ensures b[i..j] == a[i..j]
  {
    forall k | i <= k < j
      ensures b[k] == a[k]
    {
      SameByte(a, b, lo, k);
    }
  }

  /** The type, length and value of an attribute read in the prefix are
      read the same in the longer buffer. */
  lemma CarriedHeader(a: seq<byte>, b: seq<byte>, pos: nat, x: ParsedAttr)
    requires pos <= |a| <= |b| && b[pos..|a|] == a[pos..]
    requires x.attrIdx == pos && ReadAt(a, x)
    ensures pos + 4 <= AttrEnd(x) <= |b|
    ensures U16At(b, pos) == x.typ && U16At(b, pos + 2) == |x.value|
    ensures b[pos + 4..pos + 4 + |x.value|] == x.value
    ensures b[AttrEnd(x)..|a|] == a[AttrEnd(x)..]
  {
    var len, end := |x.value|, AttrEnd(x);
    SameWindow(a, b, pos, pos + 4, pos + 4 + len);
    SameWindow(a, b, pos, end, |a|);
    SameByte(a, b, pos, pos);
    SameByte(a, b, pos, pos + 1);
    SameByte(a, b, pos, pos + 2);
    SameByte(a, b, pos, pos + 3);
  }

  lemma SameByte(a: seq<byte>, b: seq<byte>, lo: nat, k: nat)
    requires lo <= k < |a| <= |b| && b[lo..|a|] == a[lo..]
    ensures b[k] == a[k]
  {
    assert b[k] == b[lo..|a|][k - lo] && a[k] == a[lo..][k - lo];
  }

  /** `ParseAttrsStep` for an attribute that is read in full. */
  lemma ParseAttrsOne(input: seq<byte>, pos: nat, x: ParsedAttr)
    requires pos + 4 <= AttrEnd(x) <= |input| && x.attrIdx == pos
    requires U16At(input, pos) == x.typ && U16At(input, pos + 2) == |x.value|
    requires input[pos + 4..pos + 4 + |x.value|] == x.value
    ensures ParseAttrs(input, pos) == Prepend([x], ParseAttrs(input, AttrEnd(x)))
  {
  }

  /** The z bits and the cookie are the only reasons for `None`: a buffer is
      rejected as "not STUN" exactly when one of the two gates fails. */
  lemma ParseNotStunIff(input: seq<byte>)
    ensures ParseSpec(input).NotStun?
        <==> |input| >= 4
             && (StunHeader.HeadZ(U32At(input, 0)) != 0
                 || (|input| >= 20 && StunHeader.IdCookie(U128At(input, 4)) != COOKIE))
  {
  }

  /** A buffer too short for the header is an I/O error of the cursor, unless
      its first word already fails the z-bit gate. */
  lemma ParseShortInput(input: seq<byte>)
    requires |input| < 20
    requires |input| < 4 || StunHeader.HeadZ(U32At(input, 0)) == 0
    ensures ParseSpec(input) == Failed(Io(UnexpectedEof))
  {
  }

  /** A parsed message is the whole buffer, split into a tiling of attributes
      that starts right after the 20-byte header, with the header fields read
      from the first 20 bytes. */
  lemma ParsedMessageShape(input: seq<byte>)
    requires ParseSpec(input).Parsed?
    ensures var m := ParseSpec(input).msg;
      && |input| >= 20
      && m.buffer == input
      && m.head == U32At(input, 0) && m.id == U128At(input, 4)
      && StunHeader.HeadZ(m.head) == 0 && StunHeader.IdCookie(m.id) == COOKIE
      && m.tsxId == StunHeader.IdTsxId(m.id)
      && Tiles(input, 20, m.attributes)
  {
    ParseAttrsIffTiles(input, 20, ParseSpec(input).msg.attributes);
  }

  /** Once the header passes, parsing succeeds exactly on the tilings. */
  lemma ParseSucceedsIffTiles(input: seq<byte>, attrs: seq<ParsedAttr>)
    requires |input| >= 20
    requires StunHeader.HeadZ(U32At(input, 0)) == 0
    requires StunHeader.IdCookie(U128At(input, 4)) == COOKIE
    requires StunHeader.MethodTryFrom(StunHeader.HeadTyp(U32At(input, 0))).Ok?
    ensures ParseSpec(input).Parsed? && ParseSpec(input).msg.attributes == attrs
        <==> Tiles(input, 20, attrs)
  {
    ParseAttrsIffTiles(input, 20, attrs);
  }

  /** The header's length field (bytes 2 and 3) is never consulted: changing
      it changes only the recorded head word. */
  lemma ParseIgnoresLengthField(input: seq<byte>, b2: byte, b3: byte)
    requires |input| >= 4
    ensures var other := input[2 := b2][3 := b3];
      && ParseSpec(other).Parsed? == ParseSpec(input).Parsed?
      && (ParseSpec(input).Parsed? ==>
            ParseSpec(other).msg.attributes == ParseSpec(input).msg.attributes
            && ParseSpec(other).msg.id == ParseSpec(input).msg.id)
  {
    var other := input[2 := b2][3 := b3];
    U32Halves(input, 0);
    U32Halves(other, 0);
    StunHeader.HeadOfHalves(U16At(input, 0), U16At(input, 2));
    StunHeader.HeadOfHalves(U16At(other, 0), U16At(other, 2));
    assert U16At(other, 0) == U16At(input, 0);
    assert StunHeader.HeadZ(U32At(other, 0)) == StunHeader.HeadZ(U32At(input, 0));
    assert StunHeader.HeadTyp(U32At(other, 0)) == StunHeader.HeadTyp(U32At(input, 0));
    if |input| >= 20 {
      assert other[4..20] == input[4..20];
      assert U128At(other, 4) == U128At(input, 4);
      assert other[20..] == input[20..];
      ParseAttrsFrame(input, other, 20);
    }
  }

  /** `check_if_stun_message`, as written: it reads the gates in host byte
      order and then returns `false` even when both pass. */
  function CheckIfStunMessage(host: Endian, i: seq<byte>): (r: bool)
    ensures !r
  {
    if |i| < 20 then false
    else
      Pow256Values();
      var head := FromNeBytes(host, i[0..4]);
      if StunHeader.HeadZ(head) != 0 then false
      else
        var id := FromNeBytes(host, i[4..20]);
        if StunHeader.IdCookie(id) != COOKIE then false
        else false
  }

  /** The smallest Binding request: class Request, no attributes. */
  const MinimalBinding: seq<byte> :=
    [0x00, 0x01, 0x00, 0x00, 0x21, 0x12, 0xA4, 0x42] + Zeros(12)

  /** The two header words of `MinimalBinding`. */
  lemma MinimalBindingWords()
    ensures |MinimalBinding| == 20
    ensures U32At(MinimalBinding, 0) == 0x0001_0000
    ensures U128At(MinimalBinding, 4) == COOKIE * TSX_BOUND
  {
    var m := MinimalBinding;
    assert U16At(m, 0) == 0x0001 && U16At(m, 2) == 0;
    U32Halves(m, 0);
    assert m[4..8] == [0x21, 0x12, 0xA4, 0x42] && m[8..20] == Zeros(12);
    U32Halves(m, 4);
    assert U16At(m, 4) == 0x2112 && U16At(m, 6) == 0xA442;
    U128Split(m, 4);
    BeValueZeros(12);
  }

  /** The header fields of `MinimalBinding`: z bits zero, type 0x0001 and
      the magic cookie. */
  lemma MinimalBindingFields()
    ensures |MinimalBinding| == 20
    ensures StunHeader.HeadZ(U32At(MinimalBinding, 0)) == 0
    ensures StunHeader.HeadTyp(U32At(MinimalBinding, 0)) == 1
    ensures StunHeader.IdCookie(U128At(MinimalBinding, 4)) == COOKIE
  {
    MinimalBindingWords();
    StunHeader.HeadOfHalves(0x0001, 0);
    StunHeader.IdOfParts(COOKIE, 0);
  }

  /** `MinimalBinding` parses as a Binding request without attributes, and
      the corrected check accepts it. */
  lemma MinimalBindingParses()
    ensures ParseSpec(MinimalBinding).Parsed?
    ensures ParseSpec(MinimalBinding).msg.msgClass == StunHeader.Request
    ensures ParseSpec(MinimalBinding).msg.attributes == []
    ensures IsStunMessage(MinimalBinding)
  {
    MinimalBindingFields();
    StunHeader.TypeOne();
    assert ParseAttrs(MinimalBinding, 20) == Ok([]);
  }

  /** A Binding request that parses is rejected by `check_if_stun_message` on
      either host byte order. */
  lemma CheckRejectsParsedMessage(host: Endian)
    ensures ParseSpec(MinimalBinding).Parsed? && !CheckIfStunMessage(host, MinimalBinding)
  {
    MinimalBindingParses();
  }

  /** The intended check: at least a header's worth of bytes, the z bits zero
      and the cookie present, all read in network byte order. */
  function IsStunMessage(i: seq<byte>): (r: bool) {
    |i| >= 20
    && StunHeader.HeadZ(U32At(i, 0)) == 0
    && StunHeader.IdCookie(U128At(i, 4)) == COOKIE
  }

  /** The corrected check accepts a buffer exactly when it is long enough for
      a header and `parse` does not answer "not STUN". */
  lemma IsStunMessageAgreesWithParse(i: seq<byte>)
    ensures IsStunMessage(i) <==> |i| >= 20 && !ParseSpec(i).NotStun?
  {
  }
}
