/** The address attributes of crates/stun-types/src/attributes/addr.rs:
    MAPPED-ADDRESS, XOR-MAPPED-ADDRESS and ALTERNATE-SERVER, all sharing one
    codec that XORs the port and the address with a key (zero, or the
    cookie and the transaction id for XOR-MAPPED-ADDRESS). */
module StunAddr {
  import opened Stun
  import opened Wire

  /** `XOR16 = (COOKIE & 0xFFFF) as u16`: the LOW half of the cookie, the
      port mask as addr.rs writes it. */
  const XOR16: u16 := COOKIE % 0x1_0000

  /** The port mask of section 14.2 of RFC 8489: the HIGH half of the
      cookie. */
  const RFC_XOR16: u16 := COOKIE / 0x1_0000

  const FIRST_BYTE_NOT_ZERO: string := "first byte must be zero"
  const INVALID_FAMILY: string := "invalid address family"

  type Octets4 = s: seq<byte> | |s| == 4 witness [0, 0, 0, 0]
  type Octets16 = s: seq<byte> | |s| == 16 witness Zeros(16)

  /** `std::net::SocketAddr`, an address as its octets and a port (the
      flow info and scope id of a V6 address are left out). */
  datatype SocketAddr = V4(ip4: Octets4, port: u16) | V6(ip6: Octets16, port: u16)

  /** The three XOR masks `decode_addr` and `encode_addr` take. */
  datatype XorKey = XorKey(x16: u16, x32: u32, x128: u128)

  /** The key of MAPPED-ADDRESS and ALTERNATE-SERVER. */
  const PlainKey: XorKey := XorKey(0, 0, 0)

  /** The key of XOR-MAPPED-ADDRESS as addr.rs builds it: `XOR16`, the
      cookie, and the whole 128-bit id word of the message. */
  function XorMappedKeyAsWritten(id: u128): XorKey {
    XorKey(XOR16, COOKIE, id)
  }

  /** The key of XOR-MAPPED-ADDRESS with the port mask of section 14.2 of
      RFC 8489, the corrected counterpart of `XorMappedKeyAsWritten`. */
  function XorMappedKey(id: u128): XorKey {
    XorKey(RFC_XOR16, COOKIE, id)
  }

  /** `a ^ b` on two `u16`. */
  function Xor16(a: u16, b: u16): u16 {
    Pow256Values();
    WordXor(a, b, 2)
  }

  /** `a ^ b` on two `u32`. */
  function Xor32(a: u32, b: u32): u32 {
    Pow256Values();
    WordXor(a, b, 4)
  }

  /** `a ^ b` on two `u128`. */
  function Xor128(a: u128, b: u128): u128 {
    Pow256Values();
    WordXor(a, b, 16)
  }

  /** `Ipv4Addr::from(u32)` and `Ipv6Addr::from(u128)`: the octets are the
      big-endian bytes of the number. */
  function Octets(ip: nat, k: nat): seq<byte> {
    BeBytes(ip, k)
  }

  /** `decode_addr`: the reads of its cursor, in order. The port is read
      before the family is looked at, so an unknown family behind fewer
      than four bytes is reported as end of input. Bytes after the address
      are ignored. */
  function DecodeAddr(buf: seq<byte>, key: XorKey): (r: Result<SocketAddr>)
    ensures r.Ok? ==> |buf| >= (if r.value.V4? then 8 else 20)
    ensures r.Ok? ==> buf[0] == 0 && (buf[1] == 1 <==> r.value.V4?)
    ensures |buf| >= 1 && buf[0] != 0 ==> r == Err(InvalidData(FIRST_BYTE_NOT_ZERO))
    ensures |buf| >= 4 && buf[0] == 0 && buf[1] != 1 && buf[1] != 2 ==> r == Err(InvalidData(INVALID_FAMILY))
  {
    if |buf| < 1 then Err(Io(UnexpectedEof))
    else if buf[0] != 0 then Err(InvalidData(FIRST_BYTE_NOT_ZERO))
    else if |buf| < 2 then Err(Io(UnexpectedEof))
    else if |buf| < 4 then Err(Io(UnexpectedEof))
    else
      var port := Xor16(U16At(buf, 2), key.x16);
      if buf[1] == 1 then
        if |buf| < 8 then Err(Io(UnexpectedEof))
        else Ok(V4(Octets(Xor32(U32At(buf, 4), key.x32), 4), port))
      else if buf[1] == 2 then
        if |buf| < 20 then Err(Io(UnexpectedEof))
        else Ok(V6(Octets(Xor128(U128At(buf, 4), key.x128), 16), port))
      else Err(InvalidData(INVALID_FAMILY))
  }

  /** The family code `encode_addr` writes. */
  function Family(addr: SocketAddr): byte {
    if addr.V4? then 1 else 2
  }

  /** `u32::from_ne_bytes` / `u128::from_ne_bytes` of an address. */
  function NeWord(host: Endian, ip: seq<byte>): (w: nat)
    requires |ip| == 4 || |ip| == 16
    ensures |ip| == 4 ==> w < 0x1_0000_0000
    ensures |ip| == 16 ==> w < 0x1_0000_0000_0000_0000_0000_0000_0000_0000
  {
    Pow256Values();
    FromNeBytes(host, ip)
  }

  /** The masked address word as `put_u32` / `put_u128` write it. */
  function IpBytes(addr: SocketAddr, key: XorKey, host: Endian): (s: seq<byte>)
    ensures |s| == (if addr.V4? then 4 else 16)
  {
    match addr
    case V4(ip, _) => U32Bytes(Xor32(NeWord(host, ip), key.x32))
    case V6(ip, _) => U128Bytes(Xor128(NeWord(host, ip), key.x128))
  }

  /** What `encode_addr` writes: a zero byte, the family, the masked port
      and the masked address word. The word is `from_ne_bytes` of the
      octets, so it depends on the host byte order. */
  function AddrBytes(addr: SocketAddr, key: XorKey, host: Endian): (s: seq<byte>)
    ensures |s| == (if addr.V4? then 8 else 20)
  {
    [0, Family(addr)] + U16Bytes(Xor16(addr.port, key.x16)) + IpBytes(addr, key, host)
  }

  /** `encode_addr`. */
  method EncodeAddr(buf: ByteBuffer, addr: SocketAddr, key: XorKey, host: Endian)
    modifies buf
    ensures buf.data == old(buf.data) + AddrBytes(addr, key, host)
  {
    buf.PutU8(0);
    buf.PutU8(Family(addr));
    assert buf.data == old(buf.data) + [0, Family(addr)];
    var port := Xor16(addr.port, key.x16);
    buf.PutU16(port);
    PutIp(buf, addr, key, host);
    assert buf.data == old(buf.data) + ([0, Family(addr)] + U16Bytes(port) + IpBytes(addr, key, host));
  }

  /** The family-specific tail of `encode_addr`: the address word from the
      octets in host order, masked, then written in network order. */
  method PutIp(buf: ByteBuffer, addr: SocketAddr, key: XorKey, host: Endian)
    modifies buf
    ensures buf.data == old(buf.data) + IpBytes(addr, key, host)
  {
    match addr
    case V4(ip, _) =>
      var word := NeWord(host, ip);
      buf.PutU32(Xor32(word, key.x32));
    case V6(ip, _) =>
      var word := NeWord(host, ip);
      buf.PutU128(Xor128(word, key.x128));
  }

  /** `encode_len` of the three address attributes: 64 or 160, the size of
      the value in BITS, where the TLV length counts bytes. */
  function AddrEncodeLen(addr: SocketAddr): (r: Result<u16>)
    ensures r.Ok?
    ensures forall key, host :: r.value == 8 * |AddrBytes(addr, key, host)|
  {
    if addr.V4? then Ok(64) else Ok(160)
  }

  /** The length the TLV needs: the 8 or 20 bytes `encode_addr` writes,
      which is what the address attributes' `encode_len` is evidently
      meant to return. */
  function AddrValueLen(addr: SocketAddr): (r: Result<u16>)
    ensures r.Ok?
    ensures forall key, host :: r.value == |AddrBytes(addr, key, host)|
  {
    if addr.V4? then Ok(8) else Ok(20)
  }

  /** The address with its octets in the opposite order. */
  function Swapped(addr: SocketAddr): SocketAddr {
    match addr
    case V4(ip, port) => V4(Reverse(ip), port)
    case V6(ip, port) => V6(Reverse(ip), port)
  }

  /** The port and the address word come back through any key. */
  lemma DecodeEncoded(addr: SocketAddr, key: XorKey, host: Endian)
    ensures DecodeAddr(AddrBytes(addr, key, host), key)
         == Ok(match addr
               case V4(ip, port) => V4(Octets(NeWord(host, ip), 4), port)
               case V6(ip, port) => V6(Octets(NeWord(host, ip), 16), port))
  {
    Pow256Values();
    var s := AddrBytes(addr, key, host);
    var px := Xor16(addr.port, key.x16);
    U16RoundTrip(px, s, 2);
    WordXorInvolutive(addr.port, key.x16, 2);
    match addr
    case V4(ip, port) =>
      var w := NeWord(host, ip);
      WordRoundTrip(Xor32(w, key.x32), 4, s, 4);
      WordXorInvolutive(w, key.x32, 4);
    case V6(ip, port) =>
      var w := NeWord(host, ip);
      WordRoundTrip(Xor128(w, key.x128), 16, s, 4);
      WordXorInvolutive(w, key.x128, 16);
  }

  /** On a big-endian host every address round-trips through any key. */
  lemma AddrRoundTripBigEndian(addr: SocketAddr, key: XorKey)
    ensures DecodeAddr(AddrBytes(addr, key, BigEndian), key) == Ok(addr)
  {
    DecodeEncoded(addr, key, BigEndian);
    match addr
    case V4(ip, _) => BeBytesOfValue(ip);
    case V6(ip, _) => BeBytesOfValue(ip);
  }

  /** On a little-endian host the port survives but the octets come back
      reversed: 127.0.0.1 is decoded as 1.0.0.127. */
  lemma AddrRoundTripLittleEndian(addr: SocketAddr, key: XorKey)
    ensures DecodeAddr(AddrBytes(addr, key, LittleEndian), key) == Ok(Swapped(addr))
  {
    DecodeEncoded(addr, key, LittleEndian);
    match addr
    case V4(ip, _) => BeBytesOfValue(Reverse(ip));
    case V6(ip, _) => BeBytesOfValue(Reverse(ip));
  }

  /** The reversal is visible: a loopback address does not round-trip on a
      little-endian host. */
  lemma LoopbackSwapped(port: u16)
    ensures Swapped(V4([127, 0, 0, 1], port)) == V4([1, 0, 0, 127], port)
    ensures Swapped(V4([127, 0, 0, 1], port)) != V4([127, 0, 0, 1], port)
  {
    assert Reverse([127, 0, 0, 1]) == [1, 0, 0, 127];
  }

  /** The port mask is the low half of the cookie, 0xA442, where section
      14.2 of RFC 8489 XORs the port with the high half, 0x2112. */
  lemma Xor16IsLowHalf()
    ensures XOR16 == 0xA442
    ensures COOKIE / 0x1_0000 == 0x2112 && XOR16 != COOKIE / 0x1_0000
  {
  }

  /** The two byte masks of port 0x8055 under `XOR16`. */
  lemma AsWrittenPortBytes()
    ensures XorByte(0x80, 0xA4) == 0x24 && XorByte(0x55, 0x42) == 0x17
  {
    assert Xor(1, 1) == 0;
    assert Xor(2, 2) == 0;
    assert Xor(4, 5) == 1;
    assert Xor(8, 10) == 2;
    assert Xor(16, 20) == 4;
    assert Xor(32, 41) == 9;
    assert Xor(64, 82) == 18;
    assert Xor(128, 164) == 36;
    assert Xor(1, 1) == 0;
    assert Xor(2, 2) == 0;
    assert Xor(5, 4) == 1;
    assert Xor(10, 8) == 2;
    assert Xor(21, 16) == 5;
    assert Xor(42, 33) == 11;
    assert Xor(85, 66) == 23;
  }

  /** The two byte masks of port 0x8055 under the RFC mask. */
  lemma RfcPortBytes()
    ensures XorByte(0x80, 0x21) == 0xA1 && XorByte(0x55, 0x12) == 0x47
  {
    assert Xor(4, 1) == 5;
    assert Xor(8, 2) == 10;
    assert Xor(16, 4) == 20;
    assert Xor(32, 8) == 40;
    assert Xor(64, 16) == 80;
    assert Xor(128, 33) == 161;
    assert Xor(5, 1) == 4;
    assert Xor(10, 2) == 8;
    assert Xor(21, 4) == 17;
    assert Xor(42, 9) == 35;
    assert Xor(85, 18) == 71;
  }

  /** The four byte masks of 192.0.2.1 under the cookie. */
  lemma RfcAddressBytes()
    ensures XorByte(0xC0, 0x21) == 0xE1 && XorByte(0x00, 0x12) == 0x12 && XorByte(0x02, 0xA4) == 0xA6 && XorByte(0x01, 0x42) == 0x43
  {
    assert Xor(6, 1) == 7;
    assert Xor(12, 2) == 14;
    assert Xor(24, 4) == 28;
    assert Xor(48, 8) == 56;
    assert Xor(96, 16) == 112;
    assert Xor(192, 33) == 225;
    assert Xor(1, 82) == 83;
    assert Xor(2, 164) == 166;
    assert Xor(1, 66) == 67;
  }

  lemma PortMaskAsWritten()
    ensures Xor16(32853, XOR16) == 0x2417
  {
    AsWrittenPortBytes();
    Xor16IsLowHalf();
    TwoByteXor(0x80, 0x55, 0xA4, 0x42);
  }

  lemma PortMaskRfc()
    ensures Xor16(32853, RFC_XOR16) == 0xA147
  {
    RfcPortBytes();
    assert RFC_XOR16 == 0x2112;
    TwoByteXor(0x80, 0x55, 0x21, 0x12);
  }

  /** `^` on two `u16` works byte by byte. */
  lemma TwoByteXor(a1: byte, a0: byte, b1: byte, b0: byte)
    ensures Xor16(a1 * 256 + a0, b1 * 256 + b0) == XorByte(a1, b1) * 256 + XorByte(a0, b0)
  {
    Digits(a1, a0);
    Digits(b1, b0);
    Digits(0, a1);
    Digits(0, b1);
    assert WordXor(a1, b1, 1) == WordXor(0, 0, 0) * 256 + XorByte(a1, b1);
  }

  lemma AddressMask()
    ensures Xor32(0xC000_0201, COOKIE) == 0xE112_A643
  {
    RfcAddressBytes();
    assert WordXor(0, 0, 0) == 0;
    assert WordXor(0xC0, 0x21, 1) == 0xE1;
    assert WordXor(0xC000, 0x2112, 2) == 0xE112;
    assert WordXor(0xC0_0002, 0x21_12A4, 3) == 0xE1_12A6;
  }

  lemma LoopbackWord()
    ensures NeWord(BigEndian, [192, 0, 2, 1]) == 0xC000_0201
  {
    assert [192, 0, 2, 1][..3] == [192, 0, 2];
    assert [192, 0, 2][..2] == [192, 0];
    assert [192, 0][..1] == [192];
  }

  /** 192.0.2.1:32853 (port 0x8055) under the key as written: the port goes
      on the wire as 0x8055 ^ 0xA442 = 0x2417, where section 14.2 of RFC 8489
      puts 0x8055 ^ 0x2112 = 0xA147. */
  lemma XorPortAsWritten(id: u128, host: Endian)
    ensures var s := AddrBytes(V4([192, 0, 2, 1], 32853), XorMappedKeyAsWritten(id), host);
      s[..4] == [0x00, 0x01, 0x24, 0x17] && s[..4] != [0x00, 0x01, 0xA1, 0x47]
  {
    PortMaskAsWritten();
    var addr := V4([192, 0, 2, 1], 32853);
    var key := XorMappedKeyAsWritten(id);
    assert U16Bytes(Xor16(addr.port, key.x16)) == [0x24, 0x17];
    var s := AddrBytes(addr, key, host);
    assert s[..4] == [0, Family(addr)] + U16Bytes(Xor16(addr.port, key.x16));
  }

  /** The same address under the corrected key, on a big-endian host: the
      eight value bytes section 14.2 of RFC 8489 prescribes, the port masked
      with 0x2112 and the address with the whole cookie. */
  lemma XorAddressRfc(id: u128)
    ensures AddrBytes(V4([192, 0, 2, 1], 32853), XorMappedKey(id), BigEndian)
         == [0x00, 0x01, 0xA1, 0x47, 0xE1, 0x12, 0xA6, 0x43]
  {
    RfcPortWire();
    RfcAddressWire(id);
    var addr := V4([192, 0, 2, 1], 32853);
    assert Family(addr) == 1;
    assert XorMappedKey(id).x16 == RFC_XOR16;
  }

  /** The port half of that value: 32853 masked with 0x2112. */
  lemma RfcPortWire()
    ensures U16Bytes(Xor16(32853, RFC_XOR16)) == [0xA1, 0x47]
  {
    PortMaskRfc();
  }

  /** The address half: 192.0.2.1 masked with the whole cookie. */
  lemma RfcAddressWire(id: u128)
    ensures IpBytes(V4([192, 0, 2, 1], 32853), XorMappedKey(id), BigEndian) == [0xE1, 0x12, 0xA6, 0x43]
  {
    AddressMask();
    LoopbackWord();
    MaskedWordBytes();
  }

  lemma MaskedWordBytes()
    ensures U32Bytes(0xE112_A643) == [0xE1, 0x12, 0xA6, 0x43]
  {
  }

  /** A value too short for its family is an end-of-input error, even for
      an unknown family when the port is not there yet. */
  lemma ShortValues(key: XorKey)
    ensures DecodeAddr([], key) == Err(Io(UnexpectedEof))
    ensures DecodeAddr([0, 3], key) == Err(Io(UnexpectedEof))
    ensures DecodeAddr([0, 3, 0, 0], key) == Err(InvalidData(INVALID_FAMILY))
    ensures DecodeAddr([0, 1, 0, 0, 0, 0, 0], key) == Err(Io(UnexpectedEof))
  {
  }
}
