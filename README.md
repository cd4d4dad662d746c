# STUN wire codec and SDP/SIP header parsers, modelled in Dafny

This project models the STUN message codec of `crates/stun-types` (RFC 8489,
Session Traversal Utilities for NAT). It covers:

- the 20-byte header and its bit fields;
- the two message builders:
  - `MessageBuilder` in `builder.rs`, which writes each attribute directly;
  - `MessageBuilder` in `msg.rs`, which drains an `AttrInsertQueue`;
- `ParsedMessage::parse` and the attribute lookup;
- the attribute codecs, as the code writes them: string and byte
  attributes, UNKNOWN-ATTRIBUTES, the three address attributes, ERROR-CODE,
  PASSWORD-ALGORITHMS and the two MESSAGE-INTEGRITY attributes, keyed by
  `new_hmac_sha1` and `new_hmac_sha256`.

It also models four small text parsers built on `nom`, and one printer:

- the SDP tagged address, media description (`m=` line) and bandwidth (`b=`
  line) parsers;
- the SIP `Session-Expires` header parser;
- the printer of the SDP direction attribute.

Bytes are integers `0..255`. `u16`, `u32` and `u128` are integer subtypes.
Bit fields are divisions and remainders, and `^` is a recursive exclusive or
on naturals (`Wire.Xor`). The host byte order that `from_ne_bytes` and
`to_ne_bytes` depend on is an explicit `Endian` parameter. Objects whose
fields the source updates in place are classes:

- `Wire.ByteBuffer` (`BytesMut`);
- the two `MessageBuilder`s;
- `AttrInsertQueue`.

Each state-changing method is proved equal to a specification function. The
lemmas then prove what the code promises about that function: round trips,
framing, and what `parse` returns for the bytes a builder produced.

The model follows the code as written, also where its own documentation or
RFC 8489 says otherwise:

- `MessageBuilder::new` in `builder.rs` sets `padding_in_value_len` to true.
- `parse` on fewer than 20 bytes returns an end-of-input error rather than
  "not STUN", unless at least 4 bytes are present and the first word's z
  bits are set (msg.rs:262-266).
- `check_if_stun_message` always answers false.
- The three address attributes announce 64 or 160 as `encode_len`, eight
  times the 8 or 20 bytes they write (`StunAttribute.EncodeLen`).
- The XOR-MAPPED-ADDRESS port mask is `XOR16`, the low half 0xA442 of the
  magic cookie (`StunAttribute.AddrKey`).
- PASSWORD-ALGORITHMS is decoded by `DecodeAlgs`, which does not step over
  the parameters of a record.
- The address words and the ERROR-CODE head are read with `from_ne_bytes`,
  and `set_len` writes reversed `to_ne_bytes`, so the host byte order is a
  parameter.
- The SDP protocol parser tries "RTP/SAVP" before "RTP/SAVPF"
  (`SdpMedia.ParseMedia`).

Each of these departures that is a defect has a corrected counterpart beside
it, used only to state what was evidently intended:

- `StunAttribute.IntendedEncodeLen` and `StunBuilder.IntendedCodecOf` hold
  the byte lengths of the addresses;
- `StunAddr.XorMappedKey` uses the port mask 0x2112;
- `StunPasswordAlgs.DecodeAlgsSkipping` skips parameters and padding;
- `StunMsg.IsStunMessage` answers true on a valid header;
- `SdpMedia.ParseMediaFixed` tries "RTP/SAVPF" first.

All of them are listed under Findings, with the input that shows each
departure.

## Model

| member | source | states |
|---|---|---|
| Stun.LengthU16 | crates/stun-types/src/attributes/mod.rs:66-68 | `u16::try_from(len)` succeeds exactly when the length is below 65536, returns the length itself, and fails otherwise with the integer-overflow error |
| Stun.PaddingU16 | crates/stun-types/src/lib.rs:10-18 | the padding is at most 3, brings `n` to a multiple of 4, and is zero exactly when `n` already is one |
| Stun.PaddingUsize | crates/stun-types/src/lib.rs:20-28 | the same three facts for the `usize` version |
| Stun.PaddingFormula | crates/stun-types/src/lib.rs:10-18 | the four-armed match equals `(4 - n % 4) % 4` |
| Stun.PaddingIsLeast | crates/stun-types/src/lib.rs:10-18 | no smaller padding reaches a multiple of 4 |
| Stun.PaddingAgree | crates/stun-types/src/lib.rs:20-28 | `padding_usize` and `padding_u16` give the same value on every 16-bit length |
| Stun.TransactionId | crates/stun-types/src/lib.rs:30-32 | clearing the top 32 bits of the random word leaves a value below 2^96 that agrees with it in the low 96 bits |
| Wire.U16RoundTrip | crates/stun-types/src/msg.rs:282-283 | a network-order `u16` read back at the offset where it was written gives the value written |
| Wire.U16PairRoundTrip | crates/stun-types/src/builder.rs:73-79 | the type and length written one after the other read back as the same two values |
| Wire.U16BytesOfAt | crates/stun-types/src/msg.rs:282-283 | writing a read `u16` reproduces the two bytes read |
| Wire.U32Halves | crates/stun-types/src/header.rs:6-17 | a 32-bit header word is its first 16-bit half times 2^16 plus its second |
| Wire.U128Split | crates/stun-types/src/header.rs:19-27 | a 128-bit id word is its first 32 bits times 2^96 plus the remaining 96 |
| Wire.WordRoundTrip | crates/stun-types/src/attributes/addr.rs:22-26 | a `k`-byte word read back where it was written gives the value written |
| Wire.ReverseReverse | crates/stun-types/src/builder.rs:51-56 | reversing the byte order twice restores the bytes |
| Wire.XorBound | crates/stun-types/src/attributes/addr.rs:18 | exclusive or of two values below 2^k stays below 2^k |
| Wire.XorInvolutive | crates/stun-types/src/attributes/addr.rs:18 | applying the same mask twice restores the value |
| Wire.WordXorInvolutive | crates/stun-types/src/attributes/addr.rs:22-26 | the byte-by-byte mask of a `k`-byte word undoes itself |
| Wire.WordXorZero | crates/stun-types/src/attributes/addr.rs:62-85 | a zero mask, as MAPPED-ADDRESS uses, leaves the word unchanged |
| Wire.ByteBuffer.constructor | crates/stun-types/src/builder.rs:18 | `BytesMut::new()` starts empty |
| Wire.ByteBuffer.PutU8 | crates/stun-types/src/attributes/addr.rs:38 | appends exactly the one byte |
| Wire.ByteBuffer.PutU16 | crates/stun-types/src/builder.rs:73 | appends the two network-order bytes of the value |
| Wire.ByteBuffer.PutU32 | crates/stun-types/src/builder.rs:26 | appends the four network-order bytes of the value |
| Wire.ByteBuffer.PutU128 | crates/stun-types/src/builder.rs:30 | appends the sixteen network-order bytes of the value |
| Wire.ByteBuffer.ExtendFromSlice | crates/stun-types/src/attributes/mod.rs:61-64 | appends the slice unchanged |
| Wire.ByteBuffer.ExtendZeros | crates/stun-types/src/builder.rs:86-87 | appends `n` zero bytes |
| Wire.ByteBuffer.SetByte | crates/stun-types/src/builder.rs:53-56 | overwrites one byte and changes nothing else |
| StunHeader.HeadFields | crates/stun-types/src/header.rs:6-17 | the head word is `z` (bits 31-30), `typ` (bits 29-16) and `len` (bits 15-0) put back together |
| StunHeader.HeadOfHalves | crates/stun-types/src/header.rs:6-17 | for a word built from two 16-bit halves, `z` and `typ` come from the first half and `len` is the second |
| StunHeader.HeadSetTyp | crates/stun-types/src/header.rs:13 | `set_typ` stores the value modulo 2^14 and leaves `len` and `z` unchanged |
| StunHeader.HeadSetLen | crates/stun-types/src/header.rs:16 | `set_len` stores the length and leaves `typ`, `z` and the whole upper half unchanged |
| StunHeader.IdFields | crates/stun-types/src/header.rs:19-27 | the id word is the cookie (bits 127-96) and the transaction id (bits 95-0) put back together |
| StunHeader.IdOfParts | crates/stun-types/src/header.rs:19-27 | a word built from a cookie and a 96-bit transaction id yields those two fields |
| StunHeader.IdSetCookie | crates/stun-types/src/header.rs:23 | `set_cookie` stores the cookie and keeps the transaction id |
| StunHeader.IdSetTsxId | crates/stun-types/src/header.rs:26 | `set_tsx_id` keeps the low 96 bits of its argument and keeps the cookie |
| StunHeader.NewId | crates/stun-types/src/header.rs:29-35 | `MessageId::new` carries the magic cookie and a zero transaction id |
| StunHeader.MethodBits | crates/stun-types/src/header.rs:85 | the method mask 0x3EEF keeps only bits below 2^14 |
| StunHeader.MasksPartition | crates/stun-types/src/header.rs:46-85 | the class mask 0x0110 and the method mask 0x3EEF split the 14 type bits between them |
| StunHeader.MasksDisjoint | crates/stun-types/src/header.rs:46-85 | each mask clears the other's bits and is idempotent |
| StunHeader.TypeParts | crates/stun-types/src/header.rs:53-95 | a class part and a method part combine to a type from which both masks recover them |
| StunHeader.Class.Code | crates/stun-types/src/header.rs:48-51 | each class constant lies within the class mask |
| StunHeader.Class.Set | crates/stun-types/src/header.rs:53-62 | `Class::set` keeps the method bits of the type and puts the class code in the class bits |
| StunHeader.ClassTryFrom | crates/stun-types/src/header.rs:65-77 | every type decodes to a class whose code equals the type's class bits, so the "unknown class" arm cannot be reached |
| StunHeader.ClassCodeInjective | crates/stun-types/src/header.rs:48-51 | distinct classes have distinct codes |
| StunHeader.ClassTryFromCode | crates/stun-types/src/header.rs:65-77 | a type carrying a class's code decodes to that class |
| StunHeader.Method.Code | crates/stun-types/src/header.rs:87 | the Binding code lies within the method mask |
| StunHeader.Method.Set | crates/stun-types/src/header.rs:89-95 | `Method::set` keeps the class bits and puts the method code in the method bits |
| StunHeader.MethodTryFrom | crates/stun-types/src/header.rs:98-107 | decoding succeeds exactly when the method bits are 0x0001 (Binding); otherwise it fails with "unknown method" |
| StunHeader.MessageType | crates/stun-types/src/builder.rs:20-22 | the type built from a class and a method decodes back to that class and that method |
| StunHeader.ComposeType | crates/stun-types/src/builder.rs:20-22 | setting the method, then the class, on a zero type gives exactly `MessageType(c, m)` |
| StunHeader.HeadZ | crates/stun-types/src/header.rs:10 | the `z` field (the two leading bits) is below 4 |
| StunHeader.HeadTyp | crates/stun-types/src/header.rs:13 | the `typ` field is 14 bits wide |
| StunHeader.IdTsxId | crates/stun-types/src/header.rs:26 | the transaction id is below 2^96 |
| StunValues.DecodeText | crates/stun-types/src/attributes/mod.rs:53-59 | a string attribute decodes exactly when its value is well-formed UTF-8, and then to the value itself |
| StunValues.TextRoundTrip | crates/stun-types/src/attributes/mod.rs:53-64 | the bytes a string encodes to decode back to that string |
| StunValues.DecodeCodes | crates/stun-types/src/attributes/mod.rs:117-127 | UNKNOWN-ATTRIBUTES decodes exactly when the value has even length, code `i` being the `u16` at offset `2i`; an odd length ends in an end-of-input error |
| StunValues.CodesRoundTrip | crates/stun-types/src/attributes/mod.rs:117-135 | decoding the encoded codes gives the codes back |
| StunValues.ReadCodes | crates/stun-types/src/attributes/mod.rs:117-127 | the cursor loop returns `DecodeCodes(value)` |
| StunValues.WriteCodes | crates/stun-types/src/attributes/mod.rs:129-135 | the loop appends the network-order bytes of every code in order |
| StunValues.CodesEncodeLen | crates/stun-types/src/attributes/mod.rs:137-139 | the length is `2 * count` and is `Ok` exactly when it fits in 16 bits |
| Utf8.AsciiValid | crates/stun-types/src/attributes/mod.rs:58 | ASCII text is accepted by `from_utf8` |
| Utf8.ContinuationInvalid | crates/stun-types/src/attributes/mod.rs:58 | a lone continuation byte is rejected by `from_utf8` |
| StunMsg.ParseAttrs | crates/stun-types/src/msg.rs:281-307 | the attribute loop fails only with end of input or "Invalid attribute length in STUN message" |
| StunMsg.ParseAttrsStep | crates/stun-types/src/msg.rs:281-307 | one loop iteration: under 4 bytes is end of input; a value plus padding past the buffer is the length error; otherwise it pushes `(pos, type, value)` and resumes after the padding |
| StunMsg.Parse | crates/stun-types/src/msg.rs:259-320 | the imperative `parse`, with its cursor loop, returns `ParseSpec(input)` |
| StunMsg.ReadAttributes | crates/stun-types/src/msg.rs:279-307 | the cursor loop alone returns `ParseAttrs(input, 20)` |
| StunMsg.ReadAtIff | crates/stun-types/src/msg.rs:282-302 | an attribute is read at `pos` exactly when its padded end lies inside the buffer and it carries the type, offset and value found there |
| StunMsg.ParseAttrsIffTiles | crates/stun-types/src/msg.rs:281-307 | the loop returns a list exactly when the list's attributes tile the buffer from `pos` to the end |
| StunMsg.ParseAttrsFrame | crates/stun-types/src/msg.rs:281-307 | the loop reads only bytes from `pos` on |
| StunMsg.ParseAcrossPrefix | crates/stun-types/src/msg.rs:281-307 | attributes that tile a prefix are read the same way in any extension, followed by whatever the extension holds |
| StunMsg.ParseNotStunIff | crates/stun-types/src/msg.rs:262-274 | `parse` answers "not STUN" exactly when the head is readable with nonzero `z` bits, or the id is readable with a wrong cookie |
| StunMsg.ParseShortInput | crates/stun-types/src/msg.rs:262-270 | input under 20 bytes with zero `z` bits is an end-of-input error, not "not STUN" |
| StunMsg.ParsedMessageShape | crates/stun-types/src/msg.rs:309-319 | a parsed message keeps the buffer, the head and id words read from it and the low 96 bits as transaction id, and its attributes tile the buffer after the header |
| StunMsg.ParseSucceedsIffTiles | crates/stun-types/src/msg.rs:259-320 | for a Binding header with the cookie, `parse` returns the given attributes exactly when they tile the rest of the buffer |
| StunMsg.ParseIgnoresLengthField | crates/stun-types/src/msg.rs:262-307 | rewriting the header's length field changes neither the success nor the attributes nor the id: `parse` never consults it |
| StunMsg.CheckIfStunMessage | crates/stun-types/src/msg.rs:211-233 | as written, the answer is false for every input and every host order |
| StunMsg.MinimalBindingParses | crates/stun-types/src/msg.rs:259-320 | the 20-byte Binding request with no attributes parses as a Request without attributes |
| StunMsg.CheckRejectsParsedMessage | crates/stun-types/src/msg.rs:211-233 | that message parses, yet `check_if_stun_message` rejects it |
| StunMsg.IsStunMessageAgreesWithParse | crates/stun-types/src/msg.rs:211-233 | the corrected check accepts exactly the inputs of 20 bytes or more that `parse` does not answer "not STUN" |
| StunLookup.FindFrom | crates/stun-types/src/msg.rs:334 | `find` returns the first index at or after `i` with the type, and none exactly when no attribute there has it |
| StunLookup.GetAttrWith | crates/stun-types/src/msg.rs:329-337 | the lookup is absent exactly when no attribute has the type; otherwise it decodes the first attribute that has it |
| StunLookup.GetAttr | crates/stun-types/src/msg.rs:322-327 | `get_attr_with` with no context: absent exactly when no attribute has the type; otherwise the decoding, without a key, of the first attribute that has it |
| StunLookup.TilesInBuffer | crates/stun-types/src/msg.rs:298-302 | every tiled attribute starts inside the buffer |
| StunLookup.ParsedInBuffer | crates/stun-types/src/msg.rs:259-320 | every attribute of a parsed message starts inside its buffer, which is what integrity checking slices by |
| StunLookup.FirstMatch | crates/stun-types/src/msg.rs:334 | an index with the type and none before it is what `find` returns |
| StunLookup.IntegrityLookup | crates/stun-types/src/msg.rs:329-337 | after a MESSAGE-INTEGRITY attribute is appended to a well-built message, looking it up in the parsed result verifies it |
| StunAttribute.TypesDistinct | crates/stun-types/src/attributes/mod.rs:102-146 | the attribute type codes are pairwise distinct |
| StunAttribute.KindOf | crates/stun-types/src/attributes/mod.rs:24-39 | the Rust type of a value: an address kind exactly for the three address attributes, and a kind that takes no context exactly for the attributes other than the two integrity ones |
| StunAttribute.TypeOf | crates/stun-types/src/attributes/mod.rs:102-146 | `Attribute::TYPE`: the code lies in the comprehension-optional range 0x8000-0xFFFF exactly for SOFTWARE, ALTERNATE-DOMAIN, ALTERNATE-SERVER and PASSWORD-ALGORITHMS |
| StunAttribute.EncodeLen | crates/stun-types/src/attributes/addr.rs:79-134 | as written, `encode_len` of an address is 64 for IPv4 and 160 for IPv6, of MESSAGE-INTEGRITY 20 and of MESSAGE-INTEGRITY-SHA256 32; its only error is integer overflow |
| StunAttribute.IntendedEncodeLen | crates/stun-types/src/attributes/addr.rs:79-84 | corrected, an address announces 8 or 20, the bytes it writes; every other attribute announces what `EncodeLen` gives |
| StunAttribute.IntendedEncodeLenAgrees | crates/stun-types/src/attributes/mod.rs:24-39 | with the corrected lengths, every attribute whose encoding passes writes exactly the length it announces |
| StunAttribute.Encoding | crates/stun-types/src/attributes/mod.rs:36 | `encode` fails only for PASSWORD-ALGORITHMS, and an address writes 8 bytes for IPv4 and 20 for IPv6 |
| StunAttribute.AddrEncoding | crates/stun-types/src/attributes/addr.rs:74-127 | an address attribute writes what `encode_addr` writes for its address under its kind's key |
| StunAttribute.Decoding | crates/stun-types/src/attributes/mod.rs:28-34 | `decode` of NONCE and ALTERNATE-DOMAIN always succeeds, and of UNKNOWN-ATTRIBUTES exactly when the value has even length |
| StunAttribute.AddrKey | crates/stun-types/src/attributes/addr.rs:94-103 | only XOR-MAPPED-ADDRESS is masked; its key is the low half of the cookie (`XOR16`), the cookie and the message id word, as the code passes them to `decode_addr` and `encode_addr` |
| StunAttribute.AddrOf | crates/stun-types/src/attributes/addr.rs:63-114 | the attribute is the MAPPED-ADDRESS, XOR-MAPPED-ADDRESS or ALTERNATE-SERVER of the address returned |
| StunAttribute.IntegrityAttr | crates/stun-types/src/attributes/integrity.rs:10-28 | the check passes exactly when the MAC of the buffer before the attribute equals the value, then giving the attribute, and otherwise fails with "failed to verify message integrity" |
| StunAttribute.Sha1Checks | crates/stun-types/src/attributes/integrity.rs:56-64 | MESSAGE-INTEGRITY decodes exactly when the key gives the value as the MAC of the data before it |
| StunAttribute.Sha256Checks | crates/stun-types/src/attributes/integrity.rs:79-87 | the same for MESSAGE-INTEGRITY-SHA256 |
| StunAttribute.Sha1PasswordChecks | crates/stun-types/src/attributes/integrity.rs:45-64 | under the key `new_hmac_sha1` makes of a password, MESSAGE-INTEGRITY decodes exactly when the HMAC, keyed by the MD5 digest of that password, of the data before it is the value |
| StunAttribute.Sha256PasswordChecks | crates/stun-types/src/attributes/integrity.rs:49-87 | the same for `new_hmac_sha256` and MESSAGE-INTEGRITY-SHA256 |
| StunAttribute.PasswordKeys | crates/stun-types/src/attributes/integrity.rs:45-47 | a MAC made with the MD5 digest of a password passes the check keyed by `new_hmac_sha1` of that password, and passes the check keyed by another password exactly when that password's digest gives the same HMAC |
| StunAttribute.PasswordKeysSha256 | crates/stun-types/src/attributes/integrity.rs:49-51 | the same for `new_hmac_sha256` |
| StunAttribute.EncodeLenAgrees | crates/stun-types/src/attributes/mod.rs:24-39 | when encoding passes, `encode_len` equals the number of bytes `encode` writes for every attribute but the three addresses, and is eight times that number for them |
| StunAttribute.Encode | crates/stun-types/src/attributes/mod.rs:36 | dispatching `encode` appends exactly the bytes of `Encoding` and returns its outcome |
| StunAttribute.ValueRoundTrip | crates/stun-types/src/attributes/mod.rs:24-39 | on a big-endian host, every attribute other than the integrity ones decodes back from its encoding, given PASSWORD-ALGORITHMS records without params and an error number under 1600 |
| StunAttribute.AlgorithmsRoundTrip | crates/stun-types/src/attributes/password_algs.rs:17-51 | a PASSWORD-ALGORITHMS attribute whose encoding passes decodes back, through the decoder as written, exactly when none of its records carries params |
| StunAttribute.ErrorCodeRoundTrip | crates/stun-types/src/attributes/error_code.rs:25-59 | ERROR-CODE with a number under 1600 round-trips on a big-endian host |
| StunAttribute.AddressRoundTrip | crates/stun-types/src/attributes/addr.rs:62-135 | the three address attributes, XOR-MAPPED-ADDRESS with its mask as written, round-trip on a big-endian host when decoded against the same transaction |
| StunAttribute.DecodedAddress | crates/stun-types/src/attributes/addr.rs:70-122 | an address attribute decodes to the attribute of its kind whose socket address `decode_addr` reads from the value under the kind's key |
| StunAttribute.HostIndependentRoundTrip | crates/stun-types/src/attributes/mod.rs:53-139 | string, byte and UNKNOWN-ATTRIBUTES values round-trip on either host order |
| StunAddr.DecodeAddr | crates/stun-types/src/attributes/addr.rs:10-35 | a nonzero first byte is "first byte must be zero"; a readable unknown family is "invalid address family"; success needs 8 (IPv4) or 20 (IPv6) bytes and family 1 for IPv4 |
| StunAddr.EncodeAddr | crates/stun-types/src/attributes/addr.rs:37-60 | appends a zero byte, the family, the masked port and the masked address, as `AddrBytes` |
| StunAddr.PutIp | crates/stun-types/src/attributes/addr.rs:45-57 | appends the masked host-order address word in network order |
| StunAddr.AddrEncodeLen | crates/stun-types/src/attributes/addr.rs:79-84 | as written, `encode_len` is 8 times the number of bytes written: 64 for IPv4, 160 for IPv6 |
| StunAddr.AddrValueLen | crates/stun-types/src/attributes/addr.rs:37-60 | corrected, the length equals the bytes `encode_addr` writes: 8 or 20 |
| StunAddr.DecodeEncoded | crates/stun-types/src/attributes/addr.rs:10-60 | decoding what was encoded under the same mask gives the port and the octets of the host-order address word |
| StunAddr.AddrRoundTripBigEndian | crates/stun-types/src/attributes/addr.rs:10-60 | on a big-endian host, decode after encode is the identity for every address and mask |
| StunAddr.AddrRoundTripLittleEndian | crates/stun-types/src/attributes/addr.rs:45-54 | on a little-endian host, decode after encode reverses the octets of the address |
| StunAddr.LoopbackSwapped | crates/stun-types/src/attributes/addr.rs:45 | 127.0.0.1 comes back as 1.0.0.127 |
| StunAddr.Xor16IsLowHalf | crates/stun-types/src/attributes/addr.rs:8 | the port mask as written is 0xA442, the low half of the cookie, not its high half 0x2112 |
| StunAddr.XorPortAsWritten | crates/stun-types/src/attributes/addr.rs:8 | 192.0.2.1:32853 under the mask as written puts port bytes 0x24 0x17 on the wire, not 0xA1 0x47 |
| StunAddr.XorAddressRfc | crates/stun-types/src/attributes/addr.rs:87-103 | under the corrected mask the value is `00 01 A1 47 E1 12 A6 43`, as section 14.2 of RFC 8489 prescribes |
| StunAddr.ShortValues | crates/stun-types/src/attributes/addr.rs:10-35 | truncated values are end-of-input errors and an unknown family is rejected once the port has been read |
| StunErrorCode.HeadNumber | crates/stun-types/src/attributes/error_code.rs:11 | the `number` field is bits 7-0 |
| StunErrorCode.HeadClass | crates/stun-types/src/attributes/error_code.rs:12 | the `class` field is bits 11-8 |
| StunErrorCode.SetClass | crates/stun-types/src/attributes/error_code.rs:9-13 | `set_class` stores the value modulo 16 and keeps the other bits |
| StunErrorCode.SetNumber | crates/stun-types/src/attributes/error_code.rs:9-13 | `set_number` stores the value modulo 256 and keeps the other bits |
| StunErrorCode.HeadOf | crates/stun-types/src/attributes/error_code.rs:47-53 | the head holds the hundreds (modulo 16) as class and the remainder modulo 100 as number |
| StunErrorCode.ErrorCodeBytes | crates/stun-types/src/attributes/error_code.rs:46-59 | the value is a 4-byte head followed by the reason |
| StunErrorCode.WriteErrorCode | crates/stun-types/src/attributes/error_code.rs:46-59 | appends exactly `ErrorCodeBytes(e)` |
| StunErrorCode.ErrorCodeEncodeLen | crates/stun-types/src/attributes/error_code.rs:61-63 | `4 + reason length` when it fits in 16 bits, an error otherwise |
| StunErrorCode.DecodeErrorCode | crates/stun-types/src/attributes/error_code.rs:25-44 | a value under 4 bytes, and only such a value, is "error code must be at least 4 bytes"; a decoded number is below 1856 and the reason is the rest of the value |
| StunErrorCode.HeadBytes | crates/stun-types/src/attributes/error_code.rs:47-55 | the head bytes are `0, 0, class, number` |
| StunErrorCode.DecodeHeadAndReason | crates/stun-types/src/attributes/error_code.rs:25-44 | the number is class times 100 plus number, read from the host-order head |
| StunErrorCode.RoundTripBigEndian | crates/stun-types/src/attributes/error_code.rs:25-59 | on a big-endian host the number comes back as its hundreds modulo 16 times 100 plus its remainder, so every number under 1600 round-trips |
| StunErrorCode.RoundTripLittleEndian | crates/stun-types/src/attributes/error_code.rs:30 | on a little-endian host every number decodes as 0 |
| StunErrorCode.Code420RoundTrips | crates/stun-types/src/attributes/error_code.rs:25-59 | 420 round-trips |
| StunErrorCode.Code1600Wraps | crates/stun-types/src/attributes/error_code.rs:47-52 | 1600 comes back as 0, because the class field has only 4 bits |
| StunIntegrity.VerifyIntegrity | crates/stun-types/src/attributes/integrity.rs:10-28 | passes exactly when the value equals the MAC of the buffer before the attribute, and otherwise fails with "failed to verify message integrity" |
| StunIntegrity.WriteIntegrity | crates/stun-types/src/attributes/integrity.rs:30-43 | appends the MAC of the buffer without its last four bytes, the attribute's own header |
| StunIntegrity.WrittenMacVerifies | crates/stun-types/src/attributes/integrity.rs:10-43 | a MAC written over a prefix verifies at the attribute that starts after it |
| StunIntegrity.TamperedDataFails | crates/stun-types/src/attributes/integrity.rs:10-28 | changing a covered byte in a way that changes the MAC makes verification fail |
| StunPasswordAlgs.RecordBytes | crates/stun-types/src/attributes/password_algs.rs:41-48 | a record is 4 header bytes, the params and their padding |
| StunPasswordAlgs.EncodeAlgs | crates/stun-types/src/attributes/password_algs.rs:40-51 | encoding fails only with integer overflow |
| StunPasswordAlgs.EncodePassIff | crates/stun-types/src/attributes/password_algs.rs:40-51 | encoding passes exactly when every params is shorter than 2^16 |
| StunPasswordAlgs.EncodeAlgsStep | crates/stun-types/src/attributes/password_algs.rs:41-48 | one loop iteration: a too-long params stops after the type bytes; otherwise it writes the record and continues |
| StunPasswordAlgs.WriteAlgs | crates/stun-types/src/attributes/password_algs.rs:40-51 | the loop appends `EncodeAlgs(algs).bytes` and returns its outcome |
| StunPasswordAlgs.WriteRecord | crates/stun-types/src/attributes/password_algs.rs:42-47 | one record, or the type bytes and the overflow error |
| StunPasswordAlgs.EncodedLen | crates/stun-types/src/attributes/password_algs.rs:53-63 | the computed length is a multiple of 4 and at least 4 per algorithm |
| StunPasswordAlgs.EncodedLength | crates/stun-types/src/attributes/password_algs.rs:40-63 | when encoding passes, `encode_len` equals the bytes written |
| StunPasswordAlgs.EncodeLen | crates/stun-types/src/attributes/password_algs.rs:53-63 | the loop returns the computed length converted to `u16` |
| StunPasswordAlgs.DecodeAlgs | crates/stun-types/src/attributes/password_algs.rs:17-38 | as written, a decoded list has exactly 4 value bytes per algorithm, and errors are end of input or "invalid algorithm len" |
| StunPasswordAlgs.ReadAlgs | crates/stun-types/src/attributes/password_algs.rs:17-38 | the cursor loop returns `DecodeAlgs(value)` |
| StunPasswordAlgs.DecodeEmptyRecord | crates/stun-types/src/attributes/password_algs.rs:22-35 | a record with empty params is read and the loop continues after it |
| StunPasswordAlgs.EmptyRecord | crates/stun-types/src/attributes/password_algs.rs:42-47 | a record without params is written as its algorithm and a zero length, with no padding |
| StunPasswordAlgs.EmptyParamsRoundTrip | crates/stun-types/src/attributes/password_algs.rs:17-51 | lists whose params are all empty round-trip |
| StunPasswordAlgs.RoundTripNeedsEmptyParams | crates/stun-types/src/attributes/password_algs.rs:26-35 | only such lists round-trip through the decoder as written |
| StunPasswordAlgs.ShortEncodingHasNoParams | crates/stun-types/src/attributes/password_algs.rs:53-63 | an encoded length of 4 per algorithm means all params are empty |
| StunPasswordAlgs.EncodedLenOfOne | crates/stun-types/src/attributes/password_algs.rs:53-63 | the computed length counts 4 bytes per record plus at least the params of each record |
| StunPasswordAlgs.ParamsReadAsRecord | crates/stun-types/src/attributes/password_algs.rs:26-35 | algorithm 1 with params `AA BB CC DD` encodes to 8 bytes that decode to "invalid algorithm len" |
| StunPasswordAlgs.DecodeAlgsSkipping | crates/stun-types/src/attributes/password_algs.rs:17-38 | the corrected decoder, which skips params and padding, fails only with end of input or "invalid algorithm len" |
| StunPasswordAlgs.DecodeRecord | crates/stun-types/src/attributes/password_algs.rs:22-35 | it reads one encoded record and continues after its padding |
| StunPasswordAlgs.SkippingRoundTrip | crates/stun-types/src/attributes/password_algs.rs:17-51 | it decodes the encoding back to the list exactly when encoding passed |
| StunPasswordAlgs.SkippingFails | crates/stun-types/src/attributes/password_algs.rs:17-51 | the truncated output of a failed encoding does not decode |
| StunBuilder.HeaderBytes | crates/stun-types/src/builder.rs:51-56 | `set_len` writes four bytes |
| StunBuilder.HeaderBytesLittleEndian | crates/stun-types/src/builder.rs:51-56 | on a little-endian host the reversed native bytes are the network-order bytes |
| StunBuilder.HeaderBytesBigEndian | crates/stun-types/src/builder.rs:51-56 | on a big-endian host they are the network-order bytes reversed |
| StunBuilder.CodecOf | crates/stun-types/src/builder.rs:66-73 | the codec carries the attribute's type code and its `encode_len` as written |
| StunBuilder.CodecEncodes | crates/stun-types/src/builder.rs:84 | the codec's encoder is the attribute's `encode` |
| StunBuilder.CodecWritesEncodeLen | crates/stun-types/src/attributes/mod.rs:24-39 | every attribute but the three addresses writes exactly `encode_len` bytes when it passes |
| StunBuilder.IntendedCodecOf | crates/stun-types/src/builder.rs:66-73 | the codec with the corrected length: the same type and encoder, the corrected `encode_len`, and the codec as written for every attribute but the addresses |
| StunBuilder.IntendedCodecWrites | crates/stun-types/src/builder.rs:70-84 | that codec writes exactly the length it announces |
| StunBuilder.TlvHeaderOf | crates/stun-types/src/builder.rs:73-79 | the TLV header is the type code and the length, with or without padding as the flag says |
| StunBuilder.TlvHeader | crates/stun-types/src/builder.rs:73-79 | the TLV header is four bytes |
| StunBuilder.Framed | crates/stun-types/src/builder.rs:73-82 | the buffer after the TLV header and `set_len` is four bytes longer |
| StunBuilder.NewMessage | crates/stun-types/src/builder.rs:26-30 | a fresh message is 20 bytes |
| StunBuilder.NewMessageParts | crates/stun-types/src/builder.rs:26-30 | it is the head word followed by the id word, both in network order |
| StunBuilder.NewHead | crates/stun-types/src/builder.rs:24-25 | the head carries the type, a zero length and zero `z` bits |
| StunBuilder.NewMessageId | crates/stun-types/src/builder.rs:28-29 | the id carries the cookie and the low 96 bits of the transaction id |
| StunBuilder.StartHeader | crates/stun-types/src/builder.rs:20-29 | the head carries the type of the class and method, a zero length and zero `z` bits, and the id the cookie and the low 96 bits of the transaction id |
| StunBuilder.PutHeader | crates/stun-types/src/builder.rs:26-30 | appends exactly `NewMessage(head, id)` |
| StunBuilder.NewBuffer | crates/stun-types/src/builder.rs:18-30 | the new buffer holds the head and id words |
| StunBuilder.MessageBuilder.constructor | crates/stun-types/src/builder.rs:17-38 | the type is `MessageType(class, method)`, the length 0, the transaction id the low 96 bits, the padding flag true, and the buffer the 20 header bytes |
| StunBuilder.MessageBuilder.SetPaddingInValueLen | crates/stun-types/src/builder.rs:40-42 | sets the flag and nothing else |
| StunBuilder.MessageBuilder.Id | crates/stun-types/src/builder.rs:44-46 | the id carries the cookie and is the word in bytes 4-20 of the buffer |
| StunBuilder.MessageBuilder.SetLen | crates/stun-types/src/builder.rs:48-57 | stores the length in the head and rewrites the first four bytes with the reversed native bytes of the head |
| StunBuilder.MessageBuilder.AddAttrWith | crates/stun-types/src/builder.rs:66-90 | the new buffer, head and outcome are those of `AddAttr`, and the builder stays valid |
| StunBuilder.MessageBuilder.AppendAttr | crates/stun-types/src/builder.rs:70-89 | a body of over 65535 bytes stops after the TLV header with integer overflow; otherwise it sets the length, encodes, and pads only when encoding passed |
| StunBuilder.MessageBuilder.PutTlvHeader | crates/stun-types/src/builder.rs:73-79 | appends the TLV header |
| StunBuilder.MessageBuilder.EncodePadded | crates/stun-types/src/builder.rs:84-87 | appends the encoded bytes and returns their outcome |
| StunBuilder.MessageBuilder.Finish | crates/stun-types/src/builder.rs:92-94 | returns the buffer, which holds at least the header with the builder's id |
| StunBuilder.NewLengthOf | crates/stun-types/src/builder.rs:82 | the new length is body so far plus 4 plus `enc_len` plus padding, modulo 2^16 |
| StunBuilder.AddAttrDefinition | crates/stun-types/src/builder.rs:66-90 | the whole effect of `add_attr_with`, the overflow path included |
| StunBuilder.AddAttrFrames | crates/stun-types/src/builder.rs:73-87 | the appended bytes are the TLV header, the encoding and the padding, behind a header rewritten by `set_len` |
| StunBuilder.AddAttrKeepsValid | crates/stun-types/src/builder.rs:66-90 | the id bytes survive, and on a little-endian host the head bytes are the network-order head |
| StunBuilderFraming.HeaderWords | crates/stun-types/src/msg.rs:262-270 | `parse` reads back the head and id that the builder wrote |
| StunBuilderFraming.BuiltParses | crates/stun-types/src/msg.rs:259-320 | a Binding header with the cookie, followed by tiling attributes, parses to exactly those fields and attributes |
| StunBuilderFraming.NewMessageParses | crates/stun-types/src/builder.rs:17-38 | a freshly built Binding message parses with its class and no attributes |
| StunBuilderFraming.TlvFields | crates/stun-types/src/builder.rs:73-79 | the TLV header reads back as the type code and the (padded) length |
| StunBuilderFraming.AddAttrLength | crates/stun-types/src/builder.rs:82 | after a passing attribute, the header length is the body length, and whole words stay whole words |
| StunBuilderFraming.AddAttrSize | crates/stun-types/src/builder.rs:73-87 | the buffer grows by 4 plus the encoding plus the padding |
| StunBuilderFraming.Appended | crates/stun-types/src/builder.rs:73-84 | the attribute `parse` will see starts where the buffer ended and carries the codec's type |
| StunBuilderFraming.AppendedReadsBack | crates/stun-types/src/builder.rs:66-90 | that attribute, and nothing more, tiles the appended bytes |
| StunBuilderFraming.TlvAtEnd | crates/stun-types/src/msg.rs:281-307 | a TLV with a matching length and padding up to the end is read as one attribute |
| StunBuilderFraming.AddAttrKeepsAttributes | crates/stun-types/src/builder.rs:66-90 | the bytes of the earlier attributes are unchanged |
| StunBuilderFraming.AddAttrExtendsTiling | crates/stun-types/src/builder.rs:66-90 | the earlier attributes plus the new one tile the new buffer |
| StunBuilderFraming.BuiltMessageParses | crates/stun-types/src/builder.rs:48-90 | on a little-endian host, adding an attribute to a well-built message gives a message whose length field is right and which parses with one more attribute |
| StunBuilderFraming.AttributeKeepsMessage | crates/stun-types/src/builder.rs:66-90 | adding any attribute with the corrected codec to a well-built message on a little-endian host keeps the length field right and the message parsable with one more attribute; for every attribute but the addresses that codec is the one as written |
| StunBuilderFraming.IntegrityCodec | crates/stun-types/src/attributes/integrity.rs:30-74 | the integrity encoder writes the MAC of the buffer before its own header: 20 or 32 bytes, no padding |
| StunBuilderFraming.IntegrityVerifies | crates/stun-types/src/builder.rs:81-84 | the MAC written after `set_len` verifies against the finished buffer |
| StunBuilderFraming.MacVerifies | crates/stun-types/src/attributes/integrity.rs:10-43 | any codec that writes the MAC of the framed prefix verifies |
| StunBuilderFraming.IntegritySelfCheck | crates/stun-types/src/attributes/integrity.rs:56-96 | the parsed result holds the integrity attribute last, and decoding it with the same key passes |
| StunBuilderFraming.AddressCodec | crates/stun-types/src/attributes/addr.rs:79-84 | the codec as written of an address passes and declares 64 or 160, eight times the bytes it writes |
| StunBuilderFraming.AddressBreaksFraming | crates/stun-types/src/attributes/addr.rs:79-84 | the attribute it adds cannot be read back: length error |
| StunBuilderFraming.OvershootingLength | crates/stun-types/src/msg.rs:290-294 | a declared length 8 times the written one runs past the buffer |
| StunBuilderFraming.AddressLengthField | crates/stun-types/src/builder.rs:71-76 | 64 and 160 need no padding, so the wire length is exactly the declared one |
| StunBuilderFraming.AddressBreaksMessage | crates/stun-types/src/attributes/addr.rs:79-84 | a well-built message with an address attribute added as written fails to parse with "Invalid attribute length in STUN message" |
| StunBuilderFraming.BigEndianHeaderReversed | crates/stun-types/src/builder.rs:51-56 | on a big-endian host the header bytes are the head word reversed |
| StunBuilderFraming.BigEndianBindingPanics | crates/stun-types/src/builder.rs:51-56 | on a big-endian host a Binding request with one 4-byte NONCE makes `parse` panic at `Method::try_from(..).unwrap()` |
| StunBuilderFraming.FourBytesPanic | crates/stun-types/src/msg.rs:276-277 | the same for any 4-byte attribute |
| StunBuilderFraming.ReversedBindingPanics | crates/stun-types/src/msg.rs:276-277 | a reversed Binding head reaches the unwrap with an unknown method |
| StunBuilderFraming.ParsePanics | crates/stun-types/src/msg.rs:276-277 | a valid header whose method bits are not Binding panics |
| StunBuilderFraming.ReversedBindingHead | crates/stun-types/src/builder.rs:51-56 | the reversed head has zero `z` bits and type 0x0800, whose method is unknown |
| StunQueue.SizeFromAppend | crates/stun-types/src/msg.rs:155-156 | queuing one more attribute adds its TLV size |
| StunQueue.ReadyAppend | crates/stun-types/src/msg.rs:155 | queued attributes all have an encode length |
| StunQueue.SizeFromWords | crates/stun-types/src/msg.rs:156 | the queued size is whole 4-byte words |
| StunQueue.TlvSizeWords | crates/stun-types/src/msg.rs:156 | `4 + enc_len + padding` is whole words |
| StunQueue.QueueStep | crates/stun-types/src/msg.rs:156 | the wrapping `u16` sum tracks the total size modulo 2^16 |
| StunQueue.AttrInsertQueue.constructor | crates/stun-types/src/msg.rs:123-125 | starts with length 0 and no pending attributes |
| StunQueue.AttrInsertQueue.AddAttrWith | crates/stun-types/src/msg.rs:134-158 | appends the attribute to the queue and adds `4 + enc_len + padding` to `attrs_len`, wrapping at 2^16 |
| StunQueue.AttrInsertQueue.AddAttr | crates/stun-types/src/msg.rs:127-132 | the same with no context |
| StunQueue.QueueLength | crates/stun-types/src/msg.rs:156 | without overflow, `attrs_len` is the queued size, and whole words |
| StunQueue.QueuedCodecs | crates/stun-types/src/msg.rs:142-155 | one closure per queued attribute, in order |
| StunQueue.RunFromStep | crates/stun-types/src/msg.rs:191-193 | the loop runs one closure and stops at its error |
| StunQueue.MessageBuilder.constructor | crates/stun-types/src/msg.rs:168-184 | type from class and method, zero length and `z`, the cookie, the 96-bit transaction id, and an empty buffer |
| StunQueue.MessageBuilder.Finish | crates/stun-types/src/msg.rs:186-196 | returns `Finished(...)`: header with `attrs_len`, then every queued closure; the head's length is `attrs_len` |
| StunQueue.MessageBuilder.RunAll | crates/stun-types/src/msg.rs:191-193 | the loop over closures returns `RunFrom` |
| StunQueue.MessageBuilder.Run | crates/stun-types/src/msg.rs:142-153 | one closure: error or the new buffer, as `RunOne` |
| StunQueue.MessageBuilder.PutTlv | crates/stun-types/src/msg.rs:143-144 | the closure always writes the padded length |
| StunQueue.MessageBuilder.EncodePadded | crates/stun-types/src/msg.rs:146-150 | encodes, then pads only when encoding passed |
| StunQueueFraming.SizesAgree | crates/stun-types/src/msg.rs:139-156 | the size counted at queue time equals what the closures write |
| StunQueueFraming.SizeOfCodec | crates/stun-types/src/msg.rs:139-156 | the same for one attribute |
| StunQueueFraming.QueuedHonest | crates/stun-types/src/msg.rs:142-153 | every queued closure of a queue without address attributes writes `enc_len` bytes when it passes |
| StunQueueFraming.QueuedAddressDishonest | crates/stun-types/src/msg.rs:139-153 | a queue holding an address attribute has a closure that writes fewer bytes than `enc_len` counted |
| StunQueueFraming.Written | crates/stun-types/src/msg.rs:142-153 | the attribute a closure writes starts at the old end and carries its type |
| StunQueueFraming.RunAttrs | crates/stun-types/src/msg.rs:191-193 | the attributes the loop writes, first one first |
| StunQueueFraming.RunAttrsTypes | crates/stun-types/src/msg.rs:191-193 | their types are the closures' types in order |
| StunQueueFraming.QueuedTypes | crates/stun-types/src/msg.rs:134-155 | which are the queued attributes' types in order |
| StunQueueFraming.OneRun | crates/stun-types/src/msg.rs:142-153 | one closure extends the buffer by its size with one attribute that tiles it |
| StunQueueFraming.RunFromTiles | crates/stun-types/src/msg.rs:191-193 | the whole loop extends the buffer by the queued size with attributes that tile it |
| StunQueueFraming.QueuedTiles | crates/stun-types/src/msg.rs:186-196 | the same stated for a queue without address attributes |
| StunQueueFraming.QueuedMessageParses | crates/stun-types/src/msg.rs:186-196 | a finished Binding message whose queue has no address attribute and fits in 16 bits has a correct length field and parses, on either host, to the queued attributes in order |
| TextParse.RunEnd | crates/sdp-types/src/lib.rs:45 | `take_while` stops at the first character outside the class |
| TextParse.RunEndUnique | crates/sdp-types/src/lib.rs:45 | that stopping point is unique |
| TextParse.Tag | crates/sdp-types/src/lib.rs:44 | `tag` succeeds exactly on a prefix and consumes just it |
| TextParse.TakeWhile | crates/sdp-types/src/bandwidth.rs:33 | `take_while` always succeeds, splitting the input into a run of the class and a rest that does not start with it |
| TextParse.TakeWhileSplit | crates/sdp-types/src/bandwidth.rs:33 | on a run followed by a stop it returns exactly that split |
| TextParse.SkipWs | crates/sdp-types/src/media.rs:105 | the whitespace skipper leaves input that does not start with whitespace |
| TextParse.SkipWsSplit | crates/sdp-types/src/media.rs:105 | it drops exactly the leading whitespace |
| TextParse.ShowNatValue | crates/sdp-types/src/bandwidth.rs:48 | a printed number reads back as its value |
| TextParse.Number | crates/sdp-types/src/bandwidth.rs:35 | `map_res(digit1, from_str)` gives a value within the type's maximum and consumes input |
| TextParse.NumberSpec | crates/sdp-types/src/bandwidth.rs:35 | it succeeds exactly on a leading digit run whose value fits, and returns that value |
| TextParse.NumberShow | crates/sdp-types/src/bandwidth.rs:35 | a printed number that fits reads back |
| TextParse.NumberOverflow | crates/sdp-types/src/bandwidth.rs:35 | a printed number that does not fit is an error |
| SdpTypes.TokenClass | crates/sdp-types/src/lib.rs:91-93 | token characters are printable ASCII; ':' and '/' and whitespace are not tokens; letters, digits, '-' and '.' are |
| SdpTypes.ProbeHost6Extends | crates/sdp-types/src/lib.rs:103-109 | the IPv6 host class is the IPv4 host class plus ':' |
| SdpTypes.SlashNum | crates/sdp-types/src/lib.rs:87-89 | succeeds exactly on '/' followed by a number that fits in `u32` |
| SdpTypes.SlashNumShow | crates/sdp-types/src/lib.rs:87-89 | `/n` reads back as `n` |
| SdpTypes.ParseTaggedAddress | crates/sdp-types/src/lib.rs:39-66 | succeeds exactly on input starting with "IN IP4 " or "IN IP6 " |
| SdpTypes.ShowTaggedAddress | crates/sdp-types/src/lib.rs:68-85 | prints the "IN IP4 " or "IN IP6 " prefix of the address's family |
| SdpTypes.ParseTagged4 | crates/sdp-types/src/lib.rs:43-52 | after "IN IP4 " the host run is an address if it parses as one, a domain name otherwise |
| SdpTypes.ParseTagged6 | crates/sdp-types/src/lib.rs:53-62 | the same after "IN IP6 " |
| SdpTypes.Fqdn4RoundTrip | crates/sdp-types/src/lib.rs:39-85 | a printed IPv4 domain name reads back |
| SdpTypes.Fqdn6RoundTrip | crates/sdp-types/src/lib.rs:39-85 | a printed IPv6 domain name reads back |
| SdpTypes.Addr4RoundTrip | crates/sdp-types/src/lib.rs:39-85 | a printed IPv4 address reads back |
| SdpTypes.Addr6RoundTrip | crates/sdp-types/src/lib.rs:39-85 | a printed IPv6 address reads back |
| SdpTypes.ExampleFqdn4 | crates/sdp-types/src/lib.rs:137-149 | "IN IP4 example.com" is a domain name |
| SdpTypes.ExampleAddr4 | crates/sdp-types/src/lib.rs:116-128 | "IN IP4 192.168.123.222" is an address |
| SdpTypes.ExampleFqdn6 | crates/sdp-types/src/lib.rs:179-191 | "IN IP6 example.com" is a domain name |
| SdpTypes.ExampleAddr6 | crates/sdp-types/src/lib.rs:158-170 | "IN IP6 ::1" is an address |
| SdpMedia.ShowMediaType | crates/sdp-types/src/media.rs:33-42 | every media name has at least four characters and starts with a lower-case letter |
| SdpMedia.ParseMediaTypeSpec | crates/sdp-types/src/media.rs:22-31 | succeeds exactly on the four names and consumes the name |
| SdpMedia.MediaTypeRoundTrip | crates/sdp-types/src/media.rs:22-42 | every media type reads back |
| SdpMedia.ParseProto | crates/sdp-types/src/media.rs:61-75 | as written, the result is never RTP/SAVPF |
| SdpMedia.ParseProtoSpec | crates/sdp-types/src/media.rs:61-75 | a known name consumes its text; otherwise a nonempty non-whitespace run is `Other`; it fails exactly on empty input or leading whitespace |
| SdpMedia.ParseOtherSpec | crates/sdp-types/src/media.rs:69-71 | `take_while1(not_whitespace)` takes the whole non-whitespace run and fails on none |
| SdpMedia.SavpfShadowed | crates/sdp-types/src/media.rs:67-68 | "RTP/SAVPF" reads as RTP/SAVP and leaves the "F" unread |
| SdpMedia.OtherRoundTrip | crates/sdp-types/src/media.rs:69-71 | an unknown protocol name reads back as `Other` |
| SdpMedia.ProtoRoundTrip | crates/sdp-types/src/media.rs:61-87 | every protocol except RTP/SAVPF reads back as written |
| SdpMedia.ParseProtoFixed | crates/sdp-types/src/media.rs:61-75 | corrected, with the longer name tried first: a known result consumes its text |
| SdpMedia.ProtoFixedRoundTrip | crates/sdp-types/src/media.rs:61-87 | every protocol, RTP/SAVPF included, reads back |
| SdpMedia.Fmts | crates/sdp-types/src/media.rs:110 | the format loop consumes part of the input |
| SdpMedia.OptSlashNum | crates/sdp-types/src/media.rs:108 | `opt(slash_num)` yields a count exactly when `slash_num` succeeds |
| SdpMedia.ParseMedia | crates/sdp-types/src/media.rs:101-122 | as written (protocol by `TransportProtocol::parse`), a parsed line leaves no leading whitespace |
| SdpMedia.ParseMediaFixed | crates/sdp-types/src/media.rs:101-122 | the same with the corrected protocol parser |
| SdpMedia.MediaPrefix | crates/sdp-types/src/media.rs:103-108 | the media type, whitespace, the port and the optional count laid out as the display lays them out are read, reaching the protocol stage |
| SdpMedia.MediaFromProtoStep | crates/sdp-types/src/media.rs:109-121 | a protocol that reads back followed by formats text that reads back gives the whole description, through the parser as written for every protocol but RTP/SAVPF |
| SdpMedia.ShowFmts | crates/sdp-types/src/media.rs:136-138 | each format is printed after one space |
| SdpMedia.ShowCount | crates/sdp-types/src/media.rs:128-132 | the count is printed as `/n ` or the port is followed by a space |
| SdpMedia.ShowMedia | crates/sdp-types/src/media.rs:124-142 | a media line starts with "m=" and ends with CRLF |
| SdpMedia.FmtsRoundTrip | crates/sdp-types/src/media.rs:110-140 | printed formats followed by CRLF read back as the same list |
| SdpMedia.CountReadsBack | crates/sdp-types/src/media.rs:108-132 | the printed port count reads back |
| SdpMedia.MediaFromPortOverflow | crates/sdp-types/src/media.rs:107 | a port above 65535 is an error |
| SdpMedia.ParseMediaLine | crates/sdp-types/src/media.rs:101-122 | a line of media type, port, optional count, protocol and formats parses to those fields: through the parser as written when the protocol is not RTP/SAVPF, through the corrected one always |
| SdpMedia.MediaRoundTrip | crates/sdp-types/src/media.rs:101-142 | as written, a printed media description, after "m=", reads back unless its protocol is RTP/SAVPF |
| SdpMedia.MediaFixedRoundTrip | crates/sdp-types/src/media.rs:101-142 | with the corrected protocol parser every printed media description reads back, RTP/SAVPF included |
| SdpMedia.SavpfMediaAsWritten | crates/sdp-types/src/media.rs:109-110 | as written, a printed RTP/SAVPF description reads back as RTP/SAVP with no formats, the "F" and the formats left unread |
| SdpMedia.PortOverflow | crates/sdp-types/src/media.rs:107 | a media line with a port above 65535 does not parse |
| SdpMedia.MediaExample | crates/sdp-types/src/media.rs:149-162 | "audio 49170 RTP/AVP 0" parses to audio, port 49170, RTP/AVP, format 0 |
| SdpBandwidth.ParseBandwidth | crates/sdp-types/src/bandwidth.rs:28-44 | the parsed type is a token run and input is consumed |
| SdpBandwidth.ParseBandwidthLine | crates/sdp-types/src/bandwidth.rs:28-44 | `type:n` parses to that type and number when `n` fits in `u32` |
| SdpBandwidth.BandwidthOverflow | crates/sdp-types/src/bandwidth.rs:35 | a number above `u32::MAX` is an error |
| SdpBandwidth.BandwidthNoColon | crates/sdp-types/src/bandwidth.rs:34 | without the colon it is an error |
| SdpBandwidth.BandwidthRoundTrip | crates/sdp-types/src/bandwidth.rs:28-50 | a printed bandwidth, after "b=", reads back |
| SdpBandwidth.BandwidthExample | crates/sdp-types/src/bandwidth.rs:56-66 | "AS:96000" is AS, 96000 |
| SdpBandwidth.BandwidthShowExample | crates/sdp-types/src/bandwidth.rs:68-76 | AS, 96000 prints as "b=AS:96000" |
| SdpDirection.AsStr | crates/sdp-types/src/attributes/direction.rs:29-38 | every direction name is eight lower-case letters |
| SdpDirection.DefaultDirection | crates/sdp-types/src/attributes/direction.rs:46-50 | the default prints as "sendrecv" |
| SdpDirection.AsStrInjective | crates/sdp-types/src/attributes/direction.rs:29-38 | distinct directions have distinct names |
| SdpDirection.ShowDirectionInjective | crates/sdp-types/src/attributes/direction.rs:40-44 | distinct directions print distinctly |
| SipTimer.TakeParam | crates/sip-types/src/header/typed/timer.rs:44 | `params.take` finds the first parameter with the name, and none exactly when no parameter has it |
| SipTimer.RefresherOf | crates/sip-types/src/header/typed/timer.rs:44-52 | "uas" gives Uas and "uac" gives Uac; anything else, or no parameter, gives Unspecified |
| SipTimer.DeltaSecs | crates/sip-types/src/header/typed/timer.rs:40 | the delta fits in `u32` and input is consumed |
| SipTimer.ParseSessionExpires | crates/sip-types/src/header/typed/timer.rs:35-62 | a parsed header leaves no leading whitespace |
| SipTimer.RefresherText | crates/sip-types/src/header/typed/timer.rs:68-72 | the refresher is printed as a `;` parameter or not at all |
| SipTimer.RefresherOfParams | crates/sip-types/src/header/typed/timer.rs:44-72 | the printed refresher parameter reads back as the same refresher |
| SipTimer.DeltaSecsShow | crates/sip-types/src/header/typed/timer.rs:40 | a printed delta that fits reads back |
| SipTimer.DeltaSecsOverflow | crates/sip-types/src/header/typed/timer.rs:40 | a delta above `u32::MAX` is an error |
| SipTimer.DeltaSecsLetters | crates/sip-types/src/header/typed/timer.rs:40 | an alphanumeric run that is not all digits is an error |
| SipTimer.PrintParseRoundTrip | crates/sip-types/src/header/typed/timer.rs:35-76 | every printed header reads back, given a parameter parser that reads the refresher parameter |
| SipTimer.TextUac | crates/sip-types/src/header/typed/timer.rs:64-76 | 1000 with Uac prints as "1000;refresher=uac" |
| SipTimer.TextUas | crates/sip-types/src/header/typed/timer.rs:64-76 | 1000 with Uas prints as "1000;refresher=uas" |
| SipTimer.TextUnspecified | crates/sip-types/src/header/typed/timer.rs:64-76 | 1000 with no refresher prints as "1000" |
| SipTimer.ExampleUac | crates/sip-types/src/header/typed/timer.rs:108-118 | "1000;refresher=uac" parses to 1000, Uac |
| SipTimer.ExampleUas | crates/sip-types/src/header/typed/timer.rs:120-130 | "1000;refresher=uas" parses to 1000, Uas |
| SipTimer.ExampleUnspecified | crates/sip-types/src/header/typed/timer.rs:96-106 | "1000" parses to 1000, Unspecified |

## Left out

- Network I/O, sockets and concurrency are not modelled. This includes `crates/stun/src/lib.rs` and `crates/sip-core/src/transport/mod.rs`, which only move bytes between sockets and this codec.
- Randomness: `transaction_id` takes the random word as a parameter.
- HMAC-SHA1, HMAC-SHA256 and MD5 are function parameters of the model.
  - Their only modelled property is the digest length (20 or 32 bytes).
- The text forms of IPv4 and IPv6 addresses (`str::parse` and `Display` of `Ipv4Addr`/`Ipv6Addr`) are the `IpText` parameter.
- `Params::<CPS>::parse` of the SIP crate is a parameter of `ParseSessionExpires`.
- `internal::ws` is not part of this model. It is taken as `multispace0` (space, tab, CR, LF) around each element.
- `fingerprint.rs` and `user_hash.rs` are not part of this model.
- `crates/stun-types/src/parse.rs` is not part of this model; parsing follows `msg.rs`.
- `Bytes`, `BytesMut` and `BytesStr` are values (`seq`). Reference counting and shared slices are not modelled.
- The `println!` inside `get_attr_with` (msg.rs:333) has no effect on the model.
- The IPv6 flow information and scope id (always 0 on decode) are not modelled.
- `u16` additions are taken with release-build wrap-around. A debug build would panic instead.
- `ice_char` and the `Min-SE` header (a macro-generated `u32` header) are not modelled.
- The duplicated `MessageHead`, `MessageId`, `Class` and `Method` in `msg.rs` (lines 13-112) are modelled once, from `header.rs`.
- StunBuilder.MessageBuilder.AddAttrWith: requires `encode_len` to succeed. The source's `expect` panics otherwise (builder.rs:70).
- StunQueue.AttrInsertQueue.AddAttrWith: requires `encode_len` to succeed. The source's `expect` panics otherwise (msg.rs:139).
- StunQueue.AttrInsertQueue.AddAttr: requires `encode_len` to succeed. It calls `add_attr_with` (msg.rs:131), whose `expect` panics otherwise (msg.rs:139).
- StunAttribute.ValueRoundTrip: stated for a big-endian host only. The little-endian behaviour of the address and error-code attributes is stated separately, by `StunAddr.AddrRoundTripLittleEndian` and `StunErrorCode.RoundTripLittleEndian`.
- StunAttribute.ErrorCodeRoundTrip: stated for a big-endian host and numbers under 1600 only, for the same reasons.
- StunAttribute.AddressRoundTrip: stated for a big-endian host only.
- StunBuilderFraming.BuiltMessageParses: stated for a little-endian host only. On a big-endian host the header is reversed (Findings).
- `Method::try_from(..).unwrap()` in `parse` is the `Panicked` outcome. The panic itself is not modelled.
- StunAttribute.EncodeLenAgrees: for the three address attributes it states the factor of eight between `encode_len` and the bytes written, not equality, because the code as written announces bits.
- StunAttribute.ValueRoundTrip: PASSWORD-ALGORITHMS is covered only with records without params, because the decoder as written misreads params (`StunPasswordAlgs.RoundTripNeedsEmptyParams`).
- StunBuilder.CodecWritesEncodeLen: stated for every attribute but the three addresses, which write an eighth of what they announce (`StunBuilderFraming.AddressCodec`).
- StunQueueFraming.QueuedHonest: stated for queues without address attributes, for the same reason (`StunQueueFraming.QueuedAddressDishonest`).
- StunQueueFraming.QueuedTiles: stated for queues without address attributes, for the same reason.
- StunQueueFraming.QueuedMessageParses: stated for queues without address attributes, for the same reason. `StunBuilderFraming.AddressBreaksMessage` shows the eager builder failing on them.
- SdpMedia.MediaRoundTrip: excludes RTP/SAVPF, which the parser as written reads back wrongly (`SdpMedia.SavpfMediaAsWritten`).
- SdpMedia.ParseMediaLine: through the parser as written, RTP/SAVPF is excluded for the same reason.

## Findings

| source | as written | input that shows it | evidently intended | confidence | as-written member | corrected member |
|---|---|---|---|---|---|---|
| crates/stun-types/src/msg.rs:211-233 | `check_if_stun_message` returns false on every path, including after both checks pass | the 20-byte Binding request `00 01 00 00 21 12 A4 42` followed by 12 zero bytes, which `parse` accepts | true when the length, the `z` bits and the cookie all pass | not executed | StunMsg.CheckRejectsParsedMessage | StunMsg.IsStunMessageAgreesWithParse |
| crates/stun-types/src/attributes/addr.rs:79-84 | `encode_len` of the address attributes (also lines 105-110 and 129-134) returns 64 or 160 (bits), while `encode_addr` writes 8 or 20 bytes | any MAPPED-ADDRESS added to a Binding request; `parse` then fails with "Invalid attribute length in STUN message" | 8 for IPv4 and 20 for IPv6 | not executed | StunBuilderFraming.AddressBreaksMessage | StunBuilderFraming.AttributeKeepsMessage |
| crates/stun-types/src/attributes/password_algs.rs:26-35 | the decode loop never moves the cursor past the params and their padding | algorithm 1 with params `AA BB CC DD`, encoded `00 01 00 04 AA BB CC DD`, decodes to "invalid algorithm len" | skip the params and the padding after each record | not executed | StunPasswordAlgs.ParamsReadAsRecord | StunPasswordAlgs.SkippingRoundTrip |
| crates/stun-types/src/attributes/addr.rs:45-54 | the address octets are read with `from_ne_bytes`, then written in network order | on a little-endian host, 127.0.0.1 encodes and decodes back as 1.0.0.127 | `from_be_bytes`, so the octets go on the wire in order | not executed | StunAddr.AddrRoundTripLittleEndian | StunAddr.AddrRoundTripBigEndian |
| crates/stun-types/src/attributes/error_code.rs:30 | the ERROR-CODE head is read with `from_ne_bytes` | on a little-endian host, code 420 decodes as number 0 | `from_be_bytes` | not executed | StunErrorCode.RoundTripLittleEndian | StunErrorCode.Code420RoundTrips |
| crates/stun-types/src/builder.rs:51-56 | `set_len` writes the reversed `to_ne_bytes` of the head | on a big-endian host, a Binding request with one NONCE attribute goes out with its header reversed, and `parse` panics on it | `to_be_bytes`, which the reversal equals only on little-endian hosts | not executed | StunBuilderFraming.BigEndianBindingPanics | StunBuilderFraming.BuiltMessageParses |
| crates/sdp-types/src/media.rs:67-68 | "RTP/SAVP" is tried before "RTP/SAVPF" | "RTP/SAVPF" parses as RTP/SAVP and leaves "F" | the longer name first | not executed | SdpMedia.SavpfMediaAsWritten | SdpMedia.MediaFixedRoundTrip |
| crates/stun-types/src/attributes/addr.rs:8 | the XOR-MAPPED-ADDRESS port mask is the low half of the cookie, 0xA442 | 192.0.2.1:32853 sends port bytes `24 17` | the high half 0x2112, giving `A1 47` (section 14.2 of RFC 8489) | not executed | StunAddr.XorPortAsWritten | StunAddr.XorAddressRfc |
