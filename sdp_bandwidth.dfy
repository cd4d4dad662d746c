/** The SDP bandwidth line, `b=<bwtype>:<bandwidth>`
    (crates/sdp-types/src/bandwidth.rs; section 5.8 of RFC 8866). */
module SdpBandwidth {
  import opened TextParse
  import opened SdpTypes

  datatype Bandwidth = Bandwidth(typ: string, bandwidth: u32)

  /** `Bandwidth::parse`: the longest (possibly empty) run of token
      characters, ':', and a decimal `u32`; the leading "b=" is not part of
      it. */
  function ParseBandwidth(s: string): (r: IResult<Bandwidth>)
    ensures r.Done? ==> All(Token, r.value.typ) && |r.rest| < |s|
  {
    var t := TakeWhile(Token, s);
    BandwidthValue(t.rest, t.value)
  }

  /** After the type: ':' and the value. */
  function BandwidthValue(s: string, typ: string): (r: IResult<Bandwidth>)
    requires All(Token, typ)
    ensures r.Done? ==> r.value.typ == typ && |r.rest| < |s|
  {
    match Tag(":", s)
    case Error => Error
    case Done(s1, _) =>
      match Number(s1, U32_MAX)
      case Error => Error
      case Done(s2, n) => Done(s2, Bandwidth(typ, n as u32))
  }

  /** `Display for Bandwidth`. */
  function ShowBandwidth(b: Bandwidth): string
  {
    "b=" + b.typ + ":" + ShowNat(b.bandwidth)
  }

  /** A token type, ':' and a decimal value read as that type and value. */
  lemma ParseBandwidthLine(typ: string, n: nat, rest: string)
    requires All(Token, typ) && n <= U32_MAX && StopsAt(IsDigit, rest)
    ensures ParseBandwidth(typ + (":" + (ShowNat(n) + rest))) == Done(rest, Bandwidth(typ, n))
  {
    var v := ShowNat(n) + rest;
    assert !Token(':');
    TakeWhileSplit(Token, typ, ":" + v);
    assert (":" + v)[1..] == v;
    NumberShow(n, U32_MAX, rest);
  }

  /** A value too large for a `u32` is an error. */
  lemma BandwidthOverflow(typ: string, n: nat, rest: string)
    requires All(Token, typ) && n > U32_MAX && StopsAt(IsDigit, rest)
    ensures ParseBandwidth(typ + (":" + (ShowNat(n) + rest))).Error?
  {
    var v := ShowNat(n) + rest;
    assert !Token(':');
    TakeWhileSplit(Token, typ, ":" + v);
    assert (":" + v)[1..] == v;
    NumberOverflow(n, U32_MAX, rest);
  }

  /** A type run not followed by ':' is an error. */
  lemma BandwidthNoColon(typ: string, rest: string)
    requires All(Token, typ) && StopsAt(Token, rest) && (rest == [] || rest[0] != ':')
    ensures ParseBandwidth(typ + rest).Error?
  {
    TakeWhileSplit(Token, typ, rest);
  }

  /** A bandwidth whose type is made of token characters reads back from
      its display with the leading "b=" removed. */
  lemma BandwidthRoundTrip(b: Bandwidth)
    requires All(Token, b.typ)
    ensures ParseBandwidth(ShowBandwidth(b)[2..]) == Done("", b)
  {
    var s := ShowBandwidth(b);
    assert s[2..] == b.typ + (":" + (ShowNat(b.bandwidth) + ""));
    ParseBandwidthLine(b.typ, b.bandwidth, "");
  }

  /** "AS:96000" is the application-specific maximum of 96000. */
  lemma BandwidthExample()
    ensures ParseBandwidth("AS:96000") == Done("", Bandwidth("AS", 96000))
  {
    assert ShowNat(96000) == "96000";
    assert "AS:96000" == "AS" + (":" + (ShowNat(96000) + ""));
    assert Token('A') && Token('S');
    ParseBandwidthLine("AS", 96000, "");
  }

  /** The display of `AS:96000`. */
  lemma BandwidthShowExample()
    ensures ShowBandwidth(Bandwidth("AS", 96000)) == "b=AS:96000"
  {
    assert ShowNat(96000) == "96000";
  }
}
