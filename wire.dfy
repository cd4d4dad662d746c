/** Bytes on the wire: network-order integer images (the `byteorder`
    `NetworkEndian` reads and the `BufMut::put_*` writes), host-order
    conversions, the bitwise exclusive or of the address attributes, and
    `BytesMut`, the growable buffer encoders append to.

    Bytes and words are integers: a byte is 0..255 and a `k`-byte word is
    its big-endian value below 256^k. */
module Wire {
  import opened Stun

  type byte = b: int | 0 <= b < 256

  /** The byte order of the host, for `from_ne_bytes` and `to_ne_bytes`. */
  datatype Endian = BigEndian | LittleEndian

  /** What an attribute's `encode` appends to the buffer, and what it returns. */
  datatype Encoded = Encoded(bytes: seq<byte>, outcome: Outcome)

  /** `u16::to_be_bytes` of a length or type code. */
  function U16Bytes(n: u16): (s: seq<byte>)
    ensures |s| == 2
  {
    [n / 256, n % 256]
  }

  /** `NetworkEndian::read_u16` at offset `i`. */
  function U16At(s: seq<byte>, i: nat): u16
    requires i + 2 <= |s|
  {
    s[i] as int * 256 + s[i + 1] as int
  }

  /** Reading back a written `u16` gives the value written. */
  lemma U16RoundTrip(n: u16, s: seq<byte>, i: nat)
    requires i + 2 <= |s| && s[i..i + 2] == U16Bytes(n)
    ensures U16At(s, i) == n
  {
    assert s[i] == s[i..i + 2][0] && s[i + 1] == s[i..i + 2][1];
  }

  /** Reading back two written `u16`s, one after the other. */
  lemma U16PairRoundTrip(a: u16, b: u16, s: seq<byte>, i: nat)
    requires i + 4 <= |s| && s[i..i + 4] == U16Bytes(a) + U16Bytes(b)
    ensures U16At(s, i) == a && U16At(s, i + 2) == b
  {
    var w := s[i..i + 4];
    assert s[i] == w[0] && s[i + 1] == w[1] && s[i + 2] == w[2] && s[i + 3] == w[3];
  }

  /** Writing a read `u16` gives the bytes read. */
  lemma U16BytesOfAt(s: seq<byte>, i: nat)
    requires i + 2 <= |s|
    ensures U16Bytes(U16At(s, i)) == s[i..i + 2]
  {
  }

  function Pow256(k: nat): (p: nat)
    ensures p > 0
  {
    if k == 0 then 1 else 256 * Pow256(k - 1)
  }

  /** The weights of the word sizes the codec uses. */
  lemma Pow256Values()
    ensures Pow256(2) == 0x1_0000
    ensures Pow256(4) == 0x1_0000_0000
    ensures Pow256(12) == 0x1_0000_0000_0000_0000_0000_0000
    ensures Pow256(16) == 0x1_0000_0000_0000_0000_0000_0000_0000_0000
  {
    assert Pow256(4) == 0x1_0000_0000 by {
      assert Pow256(1) == 0x100;
      assert Pow256(2) == 0x1_0000;
      assert Pow256(3) == 0x100_0000;
    }
    assert Pow256(8) == 0x1_0000_0000_0000_0000 by {
      assert Pow256(5) == 0x100_0000_0000;
      assert Pow256(6) == 0x1_0000_0000_0000;
      assert Pow256(7) == 0x100_0000_0000_0000;
    }
    assert Pow256(12) == 0x1_0000_0000_0000_0000_0000_0000 by {
      assert Pow256(9) == 0x100_0000_0000_0000_0000;
      assert Pow256(10) == 0x1_0000_0000_0000_0000_0000;
      assert Pow256(11) == 0x100_0000_0000_0000_0000_0000;
    }
    assert Pow256(13) == 0x100_0000_0000_0000_0000_0000_0000;
    assert Pow256(14) == 0x1_0000_0000_0000_0000_0000_0000_0000;
    assert Pow256(15) == 0x100_0000_0000_0000_0000_0000_0000_0000;
  }

  /** The `k` low bytes of `n`, most significant first (`to_be_bytes`). */
  function BeBytes(n: nat, k: nat): (s: seq<byte>)
    ensures |s| == k
  {
    if k == 0 then [] else BeBytes(n / 256, k - 1) + [n % 256]
  }

  /** The big-endian value of a byte string (`from_be_bytes`). */
  function BeValue(s: seq<byte>): (v: nat)
    ensures v < Pow256(|s|)
  {
    if s == [] then 0
    else
      var v := BeValue(s[..|s| - 1]);
      assert v * 256 <= (Pow256(|s| - 1) - 1) * 256;
      v * 256 + s[|s| - 1]
  }

  /** Decoding what was encoded gives the number back. */
  lemma {:induction false} BeValueOfBytes(n: nat, k: nat)
    requires n < Pow256(k)
    ensures BeValue(BeBytes(n, k)) == n
  {
    if k > 0 {
      var s := BeBytes(n, k);
      assert s[..k - 1] == BeBytes(n / 256, k - 1);
      BeValueOfBytes(n / 256, k - 1);
    }
  }

  /** Encoding what was decoded gives the bytes back. */
  lemma {:induction false} BeBytesOfValue(s: seq<byte>)
    ensures BeBytes(BeValue(s), |s|) == s
  {
    if s != [] {
      var k := |s|;
      var v := BeValue(s[..k - 1]);
      assert BeValue(s) / 256 == v && BeValue(s) % 256 == s[k - 1];
      BeBytesOfValue(s[..k - 1]);
      assert s == s[..k - 1] + [s[k - 1]];
    }
  }

  /** A concatenation is worth its head shifted over its tail. */
  lemma {:induction false} BeValueAppend(a: seq<byte>, b: seq<byte>)
    ensures BeValue(a + b) == BeValue(a) * Pow256(|b|) + BeValue(b)
  {
    if b == [] {
      assert a + b == a;
    } else {
      var k := |b|;
      assert (a + b)[..|a + b| - 1] == a + b[..k - 1];
      BeValueAppend(a, b[..k - 1]);
      assert BeValue(a + b) == BeValue(a + b[..k - 1]) * 256 + b[k - 1];
      assert BeValue(b) == BeValue(b[..k - 1]) * 256 + b[k - 1];
      Shift(BeValue(a), BeValue(b[..k - 1]), Pow256(k - 1), b[k - 1]);
    }
  }

  lemma Shift(x: int, y: int, p: int, c: int)
    ensures (x * p + y) * 256 + c == x * (256 * p) + (y * 256 + c)
  {
  }

  function U32Bytes(x: u32): (s: seq<byte>)
    ensures |s| == 4
  {
    BeBytes(x, 4)
  }

  function U32At(s: seq<byte>, i: nat): (x: u32)
    requires i + 4 <= |s|
  {
    Pow256Values();
    BeValue(s[i..i + 4])
  }

  function U128Bytes(x: u128): (s: seq<byte>)
    ensures |s| == 16
  {
    BeBytes(x, 16)
  }

  function U128At(s: seq<byte>, i: nat): (x: u128)
    requires i + 16 <= |s|
  {
    Pow256Values();
    BeValue(s[i..i + 16])
  }

  /** A two-byte string is worth what `read_u16` reads from it. */
  lemma BeValue2(s: seq<byte>)
    requires |s| == 2
    ensures BeValue(s) == U16At(s, 0)
  {
    assert BeValue(s[..1]) == s[0] by {
      assert s[..1][..0] == [];
    }
  }

  /** A `u32` read is its two `u16` halves. */
  lemma U32Halves(s: seq<byte>, i: nat)
    requires i + 4 <= |s|
    ensures U32At(s, i) == U16At(s, i) * 0x1_0000 + U16At(s, i + 2)
  {
    var a, b := s[i..i + 2], s[i + 2..i + 4];
    assert s[i..i + 4] == a + b;
    BeValueAppend(a, b);
    BeValue2(a);
    BeValue2(b);
    Pow256Values();
  }

  /** A `u128` read is its leading `u32` over the 96 bits that follow. */
  lemma U128Split(s: seq<byte>, i: nat)
    requires i + 16 <= |s|
    ensures BeValue(s[i + 4..i + 16]) < TSX_BOUND
    ensures U128At(s, i) == U32At(s, i) * TSX_BOUND + BeValue(s[i + 4..i + 16])
  {
    var a, b := s[i..i + 4], s[i + 4..i + 16];
    assert s[i..i + 16] == a + b;
    BeValueAppend(a, b);
    Pow256Values();
  }

  lemma {:induction false} BeValueZeros(n: nat)
    ensures BeValue(Zeros(n)) == 0
  {
    if n > 0 {
      assert Zeros(n)[..n - 1] == Zeros(n - 1);
      BeValueZeros(n - 1);
    }
  }

  /** A written word reads back. */
  lemma WordRoundTrip(x: nat, k: nat, s: seq<byte>, i: nat)
    requires x < Pow256(k) && i + k <= |s| && s[i..i + k] == BeBytes(x, k)
    ensures BeValue(s[i..i + k]) == x
  {
    BeValueOfBytes(x, k);
  }

  function Reverse(s: seq<byte>): (r: seq<byte>)
    ensures |r| == |s|
    ensures forall i :: 0 <= i < |s| ==> r[i] == s[|s| - 1 - i]
  {
    if s == [] then [] else Reverse(s[1..]) + [s[0]]
  }

  /** Reversing twice is the identity. */
  lemma ReverseReverse(s: seq<byte>)
    ensures Reverse(Reverse(s)) == s
  {
  }

  /** `to_ne_bytes` of a `k`-byte word. */
  function ToNeBytes(e: Endian, x: nat, k: nat): (s: seq<byte>)
    ensures |s| == k
  {
    if e == BigEndian then BeBytes(x, k) else Reverse(BeBytes(x, k))
  }

  /** `from_ne_bytes` of a byte array. */
  function FromNeBytes(e: Endian, s: seq<byte>): (v: nat)
    ensures v < Pow256(|s|)
  {
    if e == BigEndian then BeValue(s) else BeValue(Reverse(s))
  }

  function Zeros(n: nat): (z: seq<byte>)
    ensures |z| == n
    ensures forall i :: 0 <= i < n ==> z[i] == 0
  {
    seq(n, _ => 0)
  }

  function Pow2(k: nat): (p: nat)
    ensures p > 0
  {
    if k == 0 then 1 else 2 * Pow2(k - 1)
  }

  /** Bitwise exclusive or of two naturals, bit by bit from the lowest. */
  function Xor(a: nat, b: nat): nat
    decreases a + b
  {
    if a == 0 then b
    else if b == 0 then a
    else 2 * Xor(a / 2, b / 2) + (if a % 2 == b % 2 then 0 else 1)
  }

  /** Both operands below 2^k give a result below 2^k. */
  lemma {:induction false} XorBound(a: nat, b: nat, k: nat)
    requires a < Pow2(k) && b < Pow2(k)
    ensures Xor(a, b) < Pow2(k)
    decreases k
  {
    if a != 0 && b != 0 {
      XorBound(a / 2, b / 2, k - 1);
    }
  }

  lemma {:induction false} XorSelf(a: nat)
    ensures Xor(a, a) == 0
    decreases a
  {
    if a != 0 {
      XorSelf(a / 2);
    }
  }

  lemma XorZero(a: nat)
    ensures Xor(a, 0) == a && Xor(0, a) == a
  {
  }

  /** Exclusive or with the same key undoes itself. */
  lemma {:induction false} XorInvolutive(a: nat, b: nat)
    ensures Xor(Xor(a, b), b) == a
    decreases a + b
  {
    if a == 0 {
      XorSelf(b);
    } else if b != 0 {
      var c := Xor(a, b);
      XorInvolutive(a / 2, b / 2);
      assert c / 2 == Xor(a / 2, b / 2) && c % 2 == (if a % 2 == b % 2 then 0 else 1);
      if c == 0 {
        XorSelf(b / 2);
        assert Xor(a / 2, b / 2) == 0;
        assert a / 2 == b / 2;
      }
    }
  }

  /** `a ^ b` on two bytes. */
  function XorByte(a: byte, b: byte): byte {
    assert Pow2(8) == 256;
    XorBound(a, b, 8);
    Xor(a, b)
  }

  lemma XorByteInvolutive(a: byte, b: byte)
    ensures XorByte(XorByte(a, b), b) == a
  {
    XorInvolutive(a, b);
  }

  /** `a ^ b` on two `k`-byte words, one byte at a time from the low end. */
  function WordXor(a: nat, b: nat, k: nat): (r: nat)
    ensures r < Pow256(k)
  {
    if k == 0 then 0 else WordXor(a / 256, b / 256, k - 1) * 256 + XorByte(a % 256, b % 256)
  }

  /** The low byte and the rest of `hi * 256 + lo`. */
  lemma Digits(hi: int, lo: int)
    requires 0 <= lo < 256
    ensures (hi * 256 + lo) / 256 == hi && (hi * 256 + lo) % 256 == lo
  {
  }

  /** Exclusive or with the same key undoes itself on words. */
  lemma {:induction false} WordXorInvolutive(a: nat, b: nat, k: nat)
    requires a < Pow256(k)
    ensures WordXor(WordXor(a, b, k), b, k) == a
  {
    if k > 0 {
      var hi, lo := WordXor(a / 256, b / 256, k - 1), XorByte(a % 256, b % 256);
      Digits(hi, lo);
      XorByteInvolutive(a % 256, b % 256);
      WordXorInvolutive(a / 256, b / 256, k - 1);
    }
  }

  /** The bytes of zero are zero. */
  lemma {:induction false} BeBytesZero(k: nat)
    ensures BeBytes(0, k) == Zeros(k)
  {
    if k > 0 {
      BeBytesZero(k - 1);
      assert Zeros(k) == Zeros(k - 1) + [0];
    }
  }

  /** A zero key leaves a word unchanged. */
  lemma {:induction false} WordXorZero(a: nat, k: nat)
    requires a < Pow256(k)
    ensures WordXor(a, 0, k) == a
  {
    if k > 0 {
      XorZero(a % 256);
      WordXorZero(a / 256, k - 1);
    }
  }

  /** `BytesMut`: a growable byte buffer that encoders append to. */
  class ByteBuffer {
    var data: seq<byte>

    constructor ()
      ensures data == []
    {
      data := [];
    }

    method PutU8(b: byte)
      modifies this
      ensures data == old(data) + [b]
    {
      data := data + [b];
    }

    method PutU16(n: u16)
      modifies this
      ensures data == old(data) + U16Bytes(n)
    {
      data := data + U16Bytes(n);
    }

    method PutU32(x: u32)
      modifies this
      ensures data == old(data) + U32Bytes(x)
    {
      data := data + U32Bytes(x);
    }

    method PutU128(x: u128)
      modifies this
      ensures data == old(data) + U128Bytes(x)
    {
      data := data + U128Bytes(x);
    }

    method ExtendFromSlice(s: seq<byte>)
      modifies this
      ensures data == old(data) + s
    {
      data := data + s;
    }

    /** `extend` with an iterator of `n` zero bytes, pushed one at a time. */
    method ExtendZeros(n: nat)
      modifies this
      ensures data == old(data) + Zeros(n)
    {
      var i := 0;
      while i < n
        invariant i <= n
        invariant data == old(data) + Zeros(i)
      {
        data := data + [0];
        i := i + 1;
      }
    }

    /** `buffer[i] = b`. */
    method SetByte(i: nat, b: byte)
      requires i < |data|
      modifies this
      ensures data == old(data)[i := b]
    {
      data := data[i := b];
    }
  }
}
