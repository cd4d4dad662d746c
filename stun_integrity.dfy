/** MESSAGE-INTEGRITY and MESSAGE-INTEGRITY-SHA256
    (crates/stun-types/src/attributes/integrity.rs): an HMAC over the
    message bytes in front of the attribute. The hash and HMAC functions
    are parameters of the model; only their output sizes are fixed. */
module StunIntegrity {
  import opened Stun
  import opened Wire
  import opened StunValues
  import opened StunMsg

  const VERIFY_FAILED: string := "failed to verify message integrity"

  /** `Sha1::output_size()` and `Sha256::output_size()`. */
  const SHA1_LEN: nat := 20
  const SHA256_LEN: nat := 32

  /** A keyed `Hmac<Sha1>`: any function of the data with a 20-byte result. */
  type Sha1Mac = f: seq<byte> -> seq<byte> | forall m :: |f(m)| == 20
    witness (m: seq<byte>) => Zeros(20)

  /** A keyed `Hmac<Sha256>`: any function of the data with a 32-byte result. */
  type Sha256Mac = f: seq<byte> -> seq<byte> | forall m :: |f(m)| == 32
    witness (m: seq<byte>) => Zeros(32)

  /** `new_hmac_sha1`: HMAC-SHA1 keyed with the MD5 digest of the password
      (the HMAC and MD5 functions are the parameters). A key of any length
      is accepted, so the `expect` never fires. */
  function NewHmacSha1(hmac: (seq<byte>, seq<byte>) -> seq<byte>, md5: seq<byte> -> seq<byte>,
                       password: Text): (r: Sha1Mac)
    requires forall k, m :: |hmac(k, m)| == 20
    ensures forall m :: r(m) == hmac(md5(password), m)
  {
    (m: seq<byte>) => hmac(md5(password), m)
  }

  /** `new_hmac_sha256`, the same with HMAC-SHA256. */
  function NewHmacSha256(hmac: (seq<byte>, seq<byte>) -> seq<byte>, md5: seq<byte> -> seq<byte>,
                         password: Text): (r: Sha256Mac)
    requires forall k, m :: |hmac(k, m)| == 32
    ensures forall m :: r(m) == hmac(md5(password), m)
  {
    (m: seq<byte>) => hmac(md5(password), m)
  }

  /** `message_integrity_decode`: the MAC of everything before the
      attribute's TLV header must equal the attribute's value. */
  function VerifyIntegrity(mac: seq<byte> -> seq<byte>, buffer: seq<byte>, attr: ParsedAttr): (r: Outcome)
    requires attr.attrIdx <= |buffer|
    ensures r.Pass? <==> attr.value == mac(buffer[..attr.attrIdx])
    ensures r.Fail? ==> r.error == InvalidData(VERIFY_FAILED)
  {
    if mac(buffer[..attr.attrIdx]) != attr.value then Fail(InvalidData(VERIFY_FAILED)) else Pass
  }

  /** `message_integrity_encode`: the MAC of the buffer without its last
      four bytes (the TLV header of this attribute, already written) is
      appended. A buffer shorter than four bytes would make `len() - 4`
      underflow. */
  method WriteIntegrity(buf: ByteBuffer, mac: seq<byte> -> seq<byte>)
    requires |buf.data| >= 4
    modifies buf
    ensures buf.data == old(buf.data) + mac(old(buf.data)[..|old(buf.data)| - 4])
  {
    var data := buf.data[..|buf.data| - 4];
    var raw := mac(data);
    buf.ExtendFromSlice(raw);
  }

  /** What the encoder computes is what the decoder checks: after writing
      the MAC of `prefix` behind a four-byte TLV header, the attribute read
      at `|prefix|` verifies against any buffer that starts with `prefix`. */
  lemma WrittenMacVerifies(mac: seq<byte> -> seq<byte>, prefix: seq<byte>, buffer: seq<byte>,
                           attr: ParsedAttr)
    requires attr.attrIdx == |prefix| <= |buffer| && buffer[..|prefix|] == prefix
    requires attr.value == mac(prefix)
    ensures VerifyIntegrity(mac, buffer, attr) == Pass
  {
  }

  /** Changing a byte in front of the attribute changes the data the MAC is
      taken over: for a MAC that tells the two apart, verification fails. */
  lemma TamperedDataFails(mac: seq<byte> -> seq<byte>, buffer: seq<byte>, attr: ParsedAttr, i: nat, b: byte)
    requires attr.attrIdx <= |buffer| && i < attr.attrIdx
    requires VerifyIntegrity(mac, buffer, attr) == Pass
    requires mac(buffer[..attr.attrIdx][i := b]) != mac(buffer[..attr.attrIdx])
    ensures VerifyIntegrity(mac, buffer[i := b], attr) == Fail(InvalidData(VERIFY_FAILED))
  {
    assert buffer[i := b][..attr.attrIdx] == buffer[..attr.attrIdx][i := b];
  }
}
