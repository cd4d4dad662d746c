/** ERROR-CODE (crates/stun-types/src/attributes/error_code.rs): a 32-bit
    head holding the class (hundreds) in bits 11..8 and the number modulo
    100 in bits 7..0, followed by a UTF-8 reason phrase. */
module StunErrorCode {
  import opened Stun
  import opened Wire
  import Utf8
  import opened StunValues

  const TOO_SHORT: string := "error code must be at least 4 bytes"

  /** `ErrorCode { number, reason }`. */
  datatype ErrorCode = ErrorCode(number: u32, reason: Text)

  /** The `number` field of `ErrorCodeHead`, bits 7..0. */
  function HeadNumber(h: u32): (n: int)
    ensures 0 <= n < 256
  {
    h % 256
  }

  /** The `class` field of `ErrorCodeHead`, bits 11..8. */
  function HeadClass(h: u32): (c: int)
    ensures 0 <= c < 16
  {
    h / 256 % 16
  }

  /** `set_class`: bits 11..8 take the low four bits of `v`; the other
      bits are kept. */
  function SetClass(h: u32, v: u32): (r: u32)
    ensures HeadClass(r) == v % 16 && HeadNumber(r) == HeadNumber(h)
    ensures r / 0x1000 == h / 0x1000
  {
    var low, high := h % 256, h / 0x1000;
    FieldsOf(high, v % 16, low);
    high * 0x1000 + v % 16 * 256 + low
  }

  /** `set_number`: bits 7..0 take the low eight bits of `v`; the other
      bits are kept. */
  function SetNumber(h: u32, v: u32): (r: u32)
    ensures HeadNumber(r) == v % 256 && HeadClass(r) == HeadClass(h)
    ensures r / 0x1000 == h / 0x1000
  {
    var high, cls := h / 0x1000, HeadClass(h);
    FieldsOf(high, cls, v % 256);
    assert h == high * 0x1000 + cls * 256 + h % 256;
    high * 0x1000 + cls * 256 + v % 256
  }

  /** The three parts of a head word. */
  lemma FieldsOf(high: int, cls: int, low: int)
    requires 0 <= high && 0 <= cls < 16 && 0 <= low < 256
    ensures var h := high * 0x1000 + cls * 256 + low;
      h % 256 == low && h / 256 % 16 == cls && h / 0x1000 == high
  {
    var h := high * 0x1000 + cls * 256 + low;
    assert h == (high * 16 + cls) * 256 + low;
    assert h / 256 == high * 16 + cls;
  }

  /** The head `encode` builds: `set_class(number / 100)` then
      `set_number(number % 100)` on a zero head. */
  function HeadOf(number: u32): (h: u32)
    ensures HeadClass(h) == number / 100 % 16
    ensures HeadNumber(h) == number % 100
    ensures h < 0x1000
  {
    SetNumber(SetClass(0, number / 100), number % 100)
  }

  /** What `encode` writes: the head in network order, then the reason. */
  function ErrorCodeBytes(e: ErrorCode): (s: seq<byte>)
    ensures |s| == 4 + |e.reason|
  {
    U32Bytes(HeadOf(e.number)) + e.reason
  }

  /** `ErrorCode::encode`. */
  method WriteErrorCode(buf: ByteBuffer, e: ErrorCode)
    modifies buf
    ensures buf.data == old(buf.data) + ErrorCodeBytes(e)
  {
    var cls := e.number / 100;
    var number := e.number % 100;
    var head := 0;
    head := SetClass(head, cls);
    head := SetNumber(head, number);
    buf.PutU32(head);
    buf.ExtendFromSlice(e.reason);
  }

  /** `ErrorCode::encode_len`. */
  function ErrorCodeEncodeLen(e: ErrorCode): (r: Result<u16>)
    ensures r.Ok? <==> |ErrorCodeBytes(e)| < 0x1_0000
    ensures r.Ok? ==> r.value == |ErrorCodeBytes(e)|
  {
    LengthU16(4 + |e.reason|)
  }

  /** `ErrorCode::decode`: the head is read with `from_ne_bytes`, so in the
      host's byte order, and a reason that is not UTF-8 is an I/O error of
      kind `InvalidData`. */
  function DecodeErrorCode(value: seq<byte>, host: Endian): (r: Result<ErrorCode>)
    ensures |value| < 4 <==> r == Err(InvalidData(TOO_SHORT))
    ensures r.Ok? ==> r.value.number < 1600 + 256 && r.value.reason == value[4..]
  {
    if |value| < 4 then Err(InvalidData(TOO_SHORT))
    else
      Pow256Values();
      var head := FromNeBytes(host, value[..4]);
      var reason :=
        if |value| > 4 then
          (if Utf8.Valid(value[4..]) then Ok(value[4..]) else Err(Io(InvalidDataKind)))
        else Ok([]);
      if reason.Err? then Err(reason.error)
      else Ok(ErrorCode(HeadClass(head) * 100 + HeadNumber(head), reason.value))
  }

  /** The head bytes of a number: two zero bytes, the class, the rest. */
  lemma HeadBytes(number: u32)
    ensures U32Bytes(HeadOf(number)) == [0, 0, number / 100 % 16, number % 100]
  {
    var h := HeadOf(number);
    var c, n := number / 100 % 16, number % 100;
    assert h == c * 256 + n;
    Digits(c, n);
    assert BeBytes(c, 3) == BeBytes(0, 2) + [c];
    BeBytesZero(2);
  }

  /** Decoding a head word followed by a text reason. */
  lemma DecodeHeadAndReason(w: seq<byte>, t: Text, host: Endian)
    requires |w| == 4
    ensures FromNeBytes(host, w) < 0x1_0000_0000
    ensures var head := FromNeBytes(host, w);
      DecodeErrorCode(w + t, host) == Ok(ErrorCode(HeadClass(head) * 100 + HeadNumber(head), t))
  {
    Pow256Values();
    var s := w + t;
    assert s[..4] == w && s[4..] == t;
  }

  /** On a big-endian host the number comes back with the class cut to four
      bits: numbers below 1600 round-trip, larger ones lose their high
      hundreds. */
  lemma RoundTripBigEndian(e: ErrorCode)
    ensures DecodeErrorCode(ErrorCodeBytes(e), BigEndian)
         == Ok(ErrorCode(e.number / 100 % 16 * 100 + e.number % 100, e.reason))
    ensures e.number < 1600 ==> DecodeErrorCode(ErrorCodeBytes(e), BigEndian) == Ok(e)
  {
    var h := HeadOf(e.number);
    DecodeHeadAndReason(U32Bytes(h), e.reason, BigEndian);
    BeValueOfBytes(h, 4);
  }

  /** On a little-endian host the head is read byte-reversed: the class and
      number bits are then zero and every code decodes as 0. */
  lemma RoundTripLittleEndian(e: ErrorCode)
    ensures DecodeErrorCode(ErrorCodeBytes(e), LittleEndian) == Ok(ErrorCode(0, e.reason))
  {
    var c, n := e.number / 100 % 16, e.number % 100;
    HeadBytes(e.number);
    var w: seq<byte> := [0, 0, c, n];
    DecodeHeadAndReason(w, e.reason, LittleEndian);
    assert Reverse(w) == [n, c, 0, 0];
    assert BeValue([n]) == n by {
      assert [n][..0] == [];
    }
    assert BeValue([n, c]) == n * 256 + c by {
      assert [n, c][..1] == [n];
    }
    assert BeValue([n, c, 0]) == (n * 256 + c) * 256 + 0 by {
      assert [n, c, 0][..2] == [n, c];
    }
    assert BeValue([n, c, 0, 0]) == ((n * 256 + c) * 256 + 0) * 256 + 0 by {
      assert [n, c, 0, 0][..3] == [n, c, 0];
    }
    ReversedFields(n * 256 + c);
  }

  /** A word whose low two bytes are zero has zero class and number bits. */
  lemma ReversedFields(x: nat)
    ensures ((x * 256 + 0) * 256 + 0) % 256 == 0
    ensures ((x * 256 + 0) * 256 + 0) / 256 % 16 == 0
  {
    var w := (x * 256 + 0) * 256 + 0;
    assert w == (x * 256) * 256;
    assert w / 256 == x * 256 == (x * 16) * 16;
  }

  /** Example: 420 (Unknown Attribute) survives on a big-endian host. */
  lemma Code420RoundTrips(reason: Text)
    ensures DecodeErrorCode(ErrorCodeBytes(ErrorCode(420, reason)), BigEndian) == Ok(ErrorCode(420, reason))
  {
    RoundTripBigEndian(ErrorCode(420, reason));
  }

  /** Example: 1600 needs a class of 16, which four bits cannot hold; it
      comes back as 0. */
  lemma Code1600Wraps(reason: Text)
    ensures DecodeErrorCode(ErrorCodeBytes(ErrorCode(1600, reason)), BigEndian) == Ok(ErrorCode(0, reason))
  {
    RoundTripBigEndian(ErrorCode(1600, reason));
  }
}
