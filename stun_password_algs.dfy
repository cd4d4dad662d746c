/** PASSWORD-ALGORITHMS (crates/stun-types/src/attributes/password_algs.rs):
    a list of (algorithm code, parameters) records, each written as a code, a
    length, the parameters and padding to four bytes. */
module StunPasswordAlgs {
  import opened Stun
  import opened Wire

  const INVALID_ALG_LEN: string := "invalid algorithm len"

  datatype Algorithm = Algorithm(alg: u16, params: seq<byte>)

  /** The bytes `encode` writes for one record whose parameters fit. */
  function RecordBytes(a: Algorithm): (s: seq<byte>)
    requires |a.params| < 0x1_0000
    ensures |s| == 4 + |a.params| + PaddingUsize(|a.params|)
  {
    U16Bytes(a.alg) + U16Bytes(|a.params|) + a.params + Zeros(PaddingUsize(|a.params|))
  }

  /** `encode`, record by record. A record whose parameters do not fit the
      16-bit length stops the loop with an overflow, after its code has
      already been written. */
  function EncodeAlgs(algs: seq<Algorithm>): (r: Encoded)
    ensures r.outcome.Fail? ==> r.outcome.error == IntegerOverflow
  {
    if algs == [] then Encoded([], Pass)
    else if |algs[0].params| >= 0x1_0000 then Encoded(U16Bytes(algs[0].alg), Fail(IntegerOverflow))
    else
      var rest := EncodeAlgs(algs[1..]);
      Encoded(RecordBytes(algs[0]) + rest.bytes, rest.outcome)
  }

  /** Encoding succeeds exactly when every parameter list fits a 16-bit
      length. */
  lemma {:induction false} EncodePassIff(algs: seq<Algorithm>)
    ensures EncodeAlgs(algs).outcome.Pass? <==> forall i :: 0 <= i < |algs| ==> |algs[i].params| < 0x1_0000
  {
    if algs != [] {
      EncodePassIff(algs[1..]);
      assert forall i :: 1 <= i < |algs| ==> algs[i] == algs[1..][i - 1];
    }
  }

  /** One turn of the encoding loop. */
  lemma EncodeAlgsStep(algs: seq<Algorithm>, i: nat)
    requires i < |algs|
    ensures var a, rest := algs[i], EncodeAlgs(algs[i + 1..]);
      EncodeAlgs(algs[i..])
        == if |a.params| >= 0x1_0000 then Encoded(U16Bytes(a.alg), Fail(IntegerOverflow))
           else Encoded(RecordBytes(a) + rest.bytes, rest.outcome)
  {
    assert algs[i..][0] == algs[i] && algs[i..][1..] == algs[i + 1..];
  }

  /** `PasswordAlgorithms::encode`. */
  method WriteAlgs(buf: ByteBuffer, algs: seq<Algorithm>) returns (o: Outcome)
    modifies buf
    ensures buf.data == old(buf.data) + EncodeAlgs(algs).bytes
    ensures o == EncodeAlgs(algs).outcome
  {
    var i := 0;
    while i < |algs|
      invariant i <= |algs|
      invariant old(buf.data) + EncodeAlgs(algs).bytes == buf.data + EncodeAlgs(algs[i..]).bytes
      invariant EncodeAlgs(algs).outcome == EncodeAlgs(algs[i..]).outcome
    {
      EncodeAlgsStep(algs, i);
      ghost var before := buf.data;
      var written := WriteRecord(buf, algs[i]);
      if written.Fail? {
        return written;
      }
      assert before + EncodeAlgs(algs[i..]).bytes == buf.data + EncodeAlgs(algs[i + 1..]).bytes;
      i := i + 1;
    }
    assert algs[i..] == [];
    return Pass;
  }

  /** The body of the encoding loop: one record, or its code and the
      overflow of its length. */
  method WriteRecord(buf: ByteBuffer, a: Algorithm) returns (o: Outcome)
    modifies buf
    ensures |a.params| >= 0x1_0000 ==> buf.data == old(buf.data) + U16Bytes(a.alg) && o == Fail(IntegerOverflow)
    ensures |a.params| < 0x1_0000 ==> buf.data == old(buf.data) + RecordBytes(a) && o == Pass
  {
    var padding := PaddingUsize(|a.params|);
    buf.PutU16(a.alg);
    var len := LengthU16(|a.params|);
    if len.Err? {
      return Fail(len.error);
    }
    buf.PutU16(len.value);
    buf.ExtendFromSlice(a.params);
    buf.ExtendZeros(padding);
    assert buf.data == old(buf.data) + (U16Bytes(a.alg) + U16Bytes(len.value) + a.params + Zeros(padding));
    return Pass;
  }

  /** The length `encode_len` sums: four header bytes, the parameters and
      their padding, per record. */
  function EncodedLen(algs: seq<Algorithm>): (n: nat)
    ensures n % 4 == 0
    ensures n >= 4 * |algs|
  {
    if algs == [] then 0
    else
      var p, rest := |algs[0].params|, EncodedLen(algs[1..]);
      RecordWords(p, rest);
      4 + p + PaddingUsize(p) + rest
  }

  /** A padded record in front of a whole number of words is one too. */
  lemma RecordWords(p: nat, rest: nat)
    requires rest % 4 == 0
    ensures (4 + p + PaddingUsize(p) + rest) % 4 == 0
  {
    assert (p + PaddingUsize(p)) % 4 == 0;
  }

  /** What an encoding that succeeds writes is exactly `EncodedLen` bytes. */
  lemma {:induction false} EncodedLength(algs: seq<Algorithm>)
    requires EncodeAlgs(algs).outcome.Pass?
    ensures |EncodeAlgs(algs).bytes| == EncodedLen(algs)
  {
    if algs != [] {
      EncodedLength(algs[1..]);
    }
  }

  /** `PasswordAlgorithms::encode_len`, the summing loop. */
  method EncodeLen(algs: seq<Algorithm>) returns (r: Result<u16>)
    ensures r == LengthU16(EncodedLen(algs))
  {
    var len := 0;
    var i := 0;
    while i < |algs|
      invariant i <= |algs|
      invariant len + EncodedLen(algs[i..]) == EncodedLen(algs)
    {
      assert algs[i..][1..] == algs[i + 1..];
      len := len + 4;
      len := len + |algs[i].params|;
      len := len + PaddingUsize(|algs[i].params|);
      i := i + 1;
    }
    assert algs[i..] == [];
    return LengthU16(len);
  }

  /** The decoding loop as written: the cursor reads a code and a length,
      checks that the parameters fit and slices them out, but does not move
      past them, so the next turn reads the parameters as the next record. */
  function DecodeAlgs(value: seq<byte>): (r: Result<seq<Algorithm>>)
    ensures r.Ok? ==> 4 * |r.value| == |value|
    ensures r.Err? ==> r.error == Io(UnexpectedEof) || r.error == InvalidData(INVALID_ALG_LEN)
    decreases |value|
  {
    if value == [] then Ok([])
    else if |value| < 4 then Err(Io(UnexpectedEof))
    else
      var len := U16At(value, 2);
      if |value| < 4 + len then Err(InvalidData(INVALID_ALG_LEN))
      else Prepend([Algorithm(U16At(value, 0), value[4..4 + len])], DecodeAlgs(value[4..]))
  }

  /** `PasswordAlgorithms::decode`, the cursor loop. */
  method ReadAlgs(value: seq<byte>) returns (r: Result<seq<Algorithm>>)
    ensures r == DecodeAlgs(value)
  {
    var algorithms: seq<Algorithm> := [];
    var pos := 0;
    PrependNothing(DecodeAlgs(value));
    while pos < |value|
      invariant pos <= |value|
      invariant DecodeAlgs(value) == Prepend(algorithms, DecodeAlgs(value[pos..]))
      decreases |value| - pos
    {
      var rest := value[pos..];
      if |value| - pos < 4 {
        assert DecodeAlgs(rest) == Err(Io(UnexpectedEof));
        return Err(Io(UnexpectedEof));
      }
      var alg := U16At(value, pos);
      var len := U16At(value, pos + 2);
      assert alg == U16At(rest, 0) && len == U16At(rest, 2);
      pos := pos + 4;
      if |value| < pos + len {
        assert DecodeAlgs(rest) == Err(InvalidData(INVALID_ALG_LEN));
        return Err(InvalidData(INVALID_ALG_LEN));
      }
      var params := value[pos..pos + len];
      assert rest[4..] == value[pos..] && rest[4..4 + len] == params;
      PrependTwice(algorithms, [Algorithm(alg, params)], DecodeAlgs(value[pos..]));
      algorithms := algorithms + [Algorithm(alg, params)];
    }
    assert value[pos..] == [] && algorithms + [] == algorithms;
    return Ok(algorithms);
  }

  /** The decoder on a record without parameters in front of more bytes. */
  lemma DecodeEmptyRecord(alg: u16, rest: seq<byte>)
    ensures DecodeAlgs(U16Bytes(alg) + U16Bytes(0) + rest)
         == Prepend([Algorithm(alg, [])], DecodeAlgs(rest))
  {
    var s := U16Bytes(alg) + U16Bytes(0) + rest;
    U16RoundTrip(alg, s, 0);
    U16RoundTrip(0, s, 2);
    assert s[4..] == rest && s[4..4] == [];
  }

  /** A record without parameters is its code and a zero length. */
  lemma EmptyRecord(a: Algorithm)
    requires a.params == []
    ensures RecordBytes(a) == U16Bytes(a.alg) + U16Bytes(0)
  {
    assert Zeros(0) == [];
  }

  /** Records without parameters round-trip. */
  lemma {:induction false} EmptyParamsRoundTrip(algs: seq<Algorithm>)
    requires forall i :: 0 <= i < |algs| ==> algs[i].params == []
    ensures EncodeAlgs(algs).outcome.Pass?
    ensures DecodeAlgs(EncodeAlgs(algs).bytes) == Ok(algs)
  {
    if algs != [] {
      var a := algs[0];
      EmptyParamsRoundTrip(algs[1..]);
      var rest := EncodeAlgs(algs[1..]);
      EmptyRecord(a);
      assert EncodeAlgs(algs) == Encoded(RecordBytes(a) + rest.bytes, Pass);
      DecodeEmptyRecord(a.alg, rest.bytes);
      assert [a] + algs[1..] == algs;
    }
  }

  /** Round-tripping fails as soon as one record carries parameters: the
      decoder makes a record of every four bytes, and the encoding is longer
      than four bytes per record. */
  lemma RoundTripNeedsEmptyParams(algs: seq<Algorithm>)
    requires EncodeAlgs(algs).outcome.Pass?
    requires DecodeAlgs(EncodeAlgs(algs).bytes) == Ok(algs)
    ensures forall i :: 0 <= i < |algs| ==> algs[i].params == []
  {
    var bytes := EncodeAlgs(algs).bytes;
    EncodedLength(algs);
    assert 4 * |algs| == |bytes| == EncodedLen(algs);
    ShortEncodingHasNoParams(algs);
  }

  /** An encoding of four bytes per record leaves no room for parameters. */
  lemma ShortEncodingHasNoParams(algs: seq<Algorithm>)
    requires EncodedLen(algs) == 4 * |algs|
    ensures forall i :: 0 <= i < |algs| ==> algs[i].params == []
  {
    forall i | 0 <= i < |algs|
      ensures algs[i].params == []
    {
      EncodedLenOfOne(algs, i);
    }
  }

  /** One record's share of `EncodedLen` beyond its four header bytes. */
  lemma {:induction false} EncodedLenOfOne(algs: seq<Algorithm>, i: nat)
    requires i < |algs|
    ensures EncodedLen(algs) >= 4 * |algs| + |algs[i].params|
  {
    if i > 0 {
      EncodedLenOfOne(algs[1..], i - 1);
      assert algs[1..][i - 1] == algs[i];
    }
  }

  /** The record (1, AA BB CC DD) is written as 00 01 00 04 AA BB CC DD, and
      decoding that reads AA BB CC DD as a second record whose length
      0xCCDD runs past the value. */
  lemma ParamsReadAsRecord()
    ensures EncodeAlgs([Algorithm(1, [0xAA, 0xBB, 0xCC, 0xDD])])
         == Encoded([0x00, 0x01, 0x00, 0x04, 0xAA, 0xBB, 0xCC, 0xDD], Pass)
    ensures DecodeAlgs([0x00, 0x01, 0x00, 0x04, 0xAA, 0xBB, 0xCC, 0xDD]) == Err(InvalidData(INVALID_ALG_LEN))
  {
    var v: seq<byte> := [0x00, 0x01, 0x00, 0x04, 0xAA, 0xBB, 0xCC, 0xDD];
    assert v[4..] == [0xAA, 0xBB, 0xCC, 0xDD];
    assert U16At(v[4..], 2) == 0xCCDD;
  }

  /** The decoder as evidently intended: after a record's parameters the
      cursor moves past them and their padding, to where the encoder put
      the next record. Padding cut short at the end of the value ends the
      list after that record. */
  function DecodeAlgsSkipping(value: seq<byte>): (r: Result<seq<Algorithm>>)
    ensures r.Err? ==> r.error == Io(UnexpectedEof) || r.error == InvalidData(INVALID_ALG_LEN)
    decreases |value|
  {
    if value == [] then Ok([])
    else if |value| < 4 then Err(Io(UnexpectedEof))
    else
      var len := U16At(value, 2);
      if |value| < 4 + len then Err(InvalidData(INVALID_ALG_LEN))
      else
        var next := 4 + len + PaddingUsize(len);
        var rest := if next <= |value| then value[next..] else [];
        Prepend([Algorithm(U16At(value, 0), value[4..4 + len])], DecodeAlgsSkipping(rest))
  }

  /** That decoder reads one encoded record in front of more bytes. */
  lemma DecodeRecord(a: Algorithm, rest: seq<byte>)
    requires |a.params| < 0x1_0000
    ensures DecodeAlgsSkipping(RecordBytes(a) + rest) == Prepend([a], DecodeAlgsSkipping(rest))
  {
    var n := |a.params|;
    var s := RecordBytes(a) + rest;
    assert s[0..2] == U16Bytes(a.alg) && s[2..4] == U16Bytes(n);
    U16RoundTrip(a.alg, s, 0);
    U16RoundTrip(n, s, 2);
    assert s[4..4 + n] == a.params;
    assert s[4 + n + PaddingUsize(n)..] == rest;
  }

  /** With the cursor moved past the parameters every record list reads
      back from its encoding, and a failed encoding never reads back. */
  lemma {:induction false} SkippingRoundTrip(algs: seq<Algorithm>)
    ensures DecodeAlgsSkipping(EncodeAlgs(algs).bytes) == Ok(algs) <==> EncodeAlgs(algs).outcome.Pass?
  {
    if algs != [] {
      var a := algs[0];
      if |a.params| >= 0x1_0000 {
        assert |EncodeAlgs(algs).bytes| == 2;
      } else {
        var rest := EncodeAlgs(algs[1..]);
        SkippingRoundTrip(algs[1..]);
        DecodeRecord(a, rest.bytes);
        assert [a] + algs[1..] == algs;
        if rest.outcome.Fail? {
          SkippingFails(algs[1..]);
        }
      }
    }
  }

  /** A failed encoding ends with a code and no length, which the decoder
      rejects. */
  lemma {:induction false} SkippingFails(algs: seq<Algorithm>)
    requires EncodeAlgs(algs).outcome.Fail?
    ensures DecodeAlgsSkipping(EncodeAlgs(algs).bytes).Err?
  {
    var a := algs[0];
    if |a.params| < 0x1_0000 {
      var rest := EncodeAlgs(algs[1..]);
      SkippingFails(algs[1..]);
      DecodeRecord(a, rest.bytes);
    }
  }
}
