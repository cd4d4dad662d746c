/** The value codecs of crates/stun-types/src/attributes/mod.rs: text
    attributes (USERNAME, REALM, SOFTWARE), opaque byte attributes (NONCE,
    ALTERNATE-DOMAIN) and the list of 16-bit codes of UNKNOWN-ATTRIBUTES. */
module StunValues {
  import opened Stun
  import opened Wire
  import Utf8

  /** A Rust `&str`: bytes that are well-formed UTF-8. */
  type Text = s: seq<byte> | Utf8.Valid(s) witness []

  /** `StringAttribute::decode`: `from_utf8` of the value. */
  function DecodeText(value: seq<byte>): (r: Result<Text>)
    ensures r.Ok? <==> Utf8.Valid(value)
    ensures r.Ok? ==> r.value == value
    ensures r.Err? ==> r.error == Utf8
  {
    if Utf8.Valid(value) then Ok(value) else Err(Utf8)
  }

  /** Encoding a text appends its bytes, and decoding gives the text back. */
  lemma TextRoundTrip(t: Text)
    ensures DecodeText(t) == Ok(t)
  {
  }

  /** UNKNOWN-ATTRIBUTES as written: each code in network order. */
  function CodeBytes(codes: seq<u16>): (s: seq<byte>)
    ensures |s| == 2 * |codes|
  {
    if codes == [] then [] else U16Bytes(codes[0]) + CodeBytes(codes[1..])
  }

  /** The decoding loop of `UnknownAttributes`: one `read_u16` per turn while
      bytes remain, so an odd byte left over is an end-of-input error. */
  function DecodeCodes(value: seq<byte>): (r: Result<seq<u16>>)
    ensures r.Ok? <==> |value| % 2 == 0
    ensures r.Err? ==> r.error == Io(UnexpectedEof)
    ensures r.Ok? ==> |r.value| * 2 == |value|
    ensures r.Ok? ==> forall i :: 0 <= i < |r.value| ==> r.value[i] == U16At(value, 2 * i)
    decreases |value|
  {
    if value == [] then Ok([])
    else if |value| < 2 then Err(Io(UnexpectedEof))
    else
      var rest := DecodeCodes(value[2..]);
      if rest.Err? then rest
      else
        var r := [U16At(value, 0)] + rest.value;
        assert forall i :: 1 <= i < |r| ==> U16At(value[2..], 2 * (i - 1)) == U16At(value, 2 * i);
        Ok(r)
  }

  /** The codes written by the encoder are the codes decoded. */
  lemma {:induction false} CodesRoundTrip(codes: seq<u16>)
    ensures DecodeCodes(CodeBytes(codes)) == Ok(codes)
  {
    if codes != [] {
      CodesRoundTrip(codes[1..]);
      var s := CodeBytes(codes);
      assert s[2..] == CodeBytes(codes[1..]);
      U16RoundTrip(codes[0], s, 0);
      assert [codes[0]] + codes[1..] == codes;
    }
  }

  /** `UnknownAttributes::decode`, the cursor loop. */
  method ReadCodes(value: seq<byte>) returns (r: Result<seq<u16>>)
    ensures r == DecodeCodes(value)
  {
    var codes: seq<u16> := [];
    var pos := 0;
    PrependNothing(DecodeCodes(value));
    while pos < |value|
      invariant pos <= |value|
      invariant DecodeCodes(value) == Prepend(codes, DecodeCodes(value[pos..]))
      decreases |value| - pos
    {
      if |value| - pos < 2 {
        assert DecodeCodes(value[pos..]) == Err(Io(UnexpectedEof));
        return Err(Io(UnexpectedEof));
      }
      var code := U16At(value, pos);
      assert value[pos..][2..] == value[pos + 2..];
      assert U16At(value[pos..], 0) == code;
      PrependTwice(codes, [code], DecodeCodes(value[pos + 2..]));
      codes := codes + [code];
      pos := pos + 2;
    }
    assert value[pos..] == [] && codes + [] == codes;
    return Ok(codes);
  }

  /** `UnknownAttributes::encode`: one `put_u16` per code. */
  method WriteCodes(buf: ByteBuffer, codes: seq<u16>)
    modifies buf
    ensures buf.data == old(buf.data) + CodeBytes(codes)
  {
    var i := 0;
    while i < |codes|
      invariant i <= |codes|
      invariant old(buf.data) + CodeBytes(codes) == buf.data + CodeBytes(codes[i..])
    {
      assert codes[i..][1..] == codes[i + 1..];
      buf.PutU16(codes[i]);
      i := i + 1;
    }
  }

  /** `UnknownAttributes::encode_len`: two bytes per code, the count checked
      against the 16-bit length field. */
  function CodesEncodeLen(codes: seq<u16>): (r: Result<u16>)
    ensures r.Ok? <==> |codes| < 0x8000
    ensures r.Ok? ==> r.value == |CodeBytes(codes)|
  {
    LengthU16(|codes| * 2)
  }
}
