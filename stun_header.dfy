/** The STUN message header (crates/stun-types/src/header.rs): the first
    32-bit word packs two zero bits, the 14-bit message type and the 16-bit
    length; the 128-bit id packs the magic cookie and the 96-bit transaction
    id. The message type interleaves a class (mask 0x0110) with a method
    (mask 0x3EEF), as in section 5 of RFC 8489.

    Words are numbers, and a bit field is a quotient and remainder by a power
    of two: bits `hi..lo` of `w` are `(w / 2^lo) % 2^(hi - lo + 1)`. */
module StunHeader {
  import Stun

  /** `MessageHead(u32)`: z = bits 31..30, typ = bits 29..16, len = bits 15..0. */
  type MessageHead = Stun.u32

  function HeadZ(h: MessageHead): (z: nat)
    ensures z < 4
  {
    h / 0x4000_0000
  }

  function HeadTyp(h: MessageHead): (t: Stun.u16)
    ensures t < 0x4000
  {
    (h / 0x1_0000) % 0x4000
  }

  function HeadLen(h: MessageHead): Stun.u16 {
    h % 0x1_0000
  }

  /** The three fields make up the word. */
  lemma HeadFields(h: MessageHead)
    ensures h == HeadZ(h) * 0x4000_0000 + HeadTyp(h) * 0x1_0000 + HeadLen(h)
  {
  }

  /** The fields of a head word given as two 16-bit halves. */
  lemma HeadOfHalves(hi: Stun.u16, lo: Stun.u16)
    ensures var h := hi * 0x1_0000 + lo;
      HeadZ(h) == hi / 0x4000 && HeadTyp(h) == hi % 0x4000 && HeadLen(h) == lo
  {
    var h := hi * 0x1_0000 + lo;
    assert h / 0x1_0000 == hi;
  }

  /** `set_typ`: the value is cut to the 14 bits of the field. */
  function HeadSetTyp(h: MessageHead, t: Stun.u16): (r: MessageHead)
    ensures HeadTyp(r) == t % 0x4000
    ensures t < 0x4000 ==> HeadTyp(r) == t
    ensures HeadLen(r) == HeadLen(h)
    ensures HeadZ(r) == HeadZ(h)
  {
    SmallMod(t, 0x4000);
    HeadZ(h) * 0x4000_0000 + (t % 0x4000) * 0x1_0000 + HeadLen(h)
  }

  lemma SmallMod(x: int, k: int)
    requires 0 <= x && 0 < k
    ensures x < k ==> x % k == x
  {
  }

  /** `set_len`: only bits 15..0 change. */
  function HeadSetLen(h: MessageHead, n: Stun.u16): (r: MessageHead)
    ensures HeadLen(r) == n
    ensures HeadTyp(r) == HeadTyp(h)
    ensures HeadZ(r) == HeadZ(h)
    ensures r / 0x1_0000 == h / 0x1_0000
  {
    (h / 0x1_0000) * 0x1_0000 + n
  }

  /** `MessageId(u128)`: cookie = bits 127..96, tsx_id = bits 95..0. */
  type MessageId = Stun.u128

  function IdCookie(m: MessageId): Stun.u32 {
    m / Stun.TSX_BOUND
  }

  function IdTsxId(m: MessageId): (t: Stun.u128)
    ensures t < Stun.TSX_BOUND
  {
    m % Stun.TSX_BOUND
  }

  /** The two fields make up the id. */
  lemma IdFields(m: MessageId)
    ensures m == IdCookie(m) * Stun.TSX_BOUND + IdTsxId(m)
  {
  }

  /** The fields of an id given as a cookie word over 96 low bits. */
  lemma IdOfParts(c: Stun.u32, t: nat)
    requires t < Stun.TSX_BOUND
    ensures IdCookie(c * Stun.TSX_BOUND + t) == c && IdTsxId(c * Stun.TSX_BOUND + t) == t
  {
  }

  function IdSetCookie(m: MessageId, c: Stun.u32): (r: MessageId)
    ensures IdCookie(r) == c
    ensures IdTsxId(r) == IdTsxId(m)
  {
    c * Stun.TSX_BOUND + IdTsxId(m)
  }

  /** `set_tsx_id`: the value is cut to the 96 bits of the field. */
  function IdSetTsxId(m: MessageId, t: Stun.u128): (r: MessageId)
    ensures IdTsxId(r) == t % Stun.TSX_BOUND
    ensures IdCookie(r) == IdCookie(m)
  {
    IdCookie(m) * Stun.TSX_BOUND + t % Stun.TSX_BOUND
  }

  /** `MessageId::new`: the cookie set on an all-zero word. */
  function NewId(): (m: MessageId)
    ensures IdCookie(m) == Stun.COOKIE
    ensures IdTsxId(m) == 0
  {
    IdSetCookie(0, Stun.COOKIE)
  }

  /** `typ & 0x0110`: bits 8 and 4 of the type. */
  function ClassBits(t: Stun.u16): Stun.u16 {
    (t / 0x10 / 2 / 8 % 2) * 0x100 + (t / 0x10 % 2) * 0x10
  }

  /** `typ & 0x3EEF`: bits 13..0 of the type except bits 8 and 4. */
  function MethodBits(t: Stun.u16): (m: Stun.u16)
    ensures m < 0x4000
  {
    (t / 0x10 / 2 / 8 / 2 % 0x20) * 0x200 + (t / 0x10 / 2 % 8) * 0x20 + t % 0x10
  }

  /** A type split at the mask boundaries: above bit 13, bits 13..9, bit 8,
      bits 7..5, bit 4 and bits 3..0. */
  lemma Split(t: nat) returns (q: nat, hi: nat, b8: nat, mid: nat, b4: nat, lo: nat)
    ensures t == q * 0x4000 + hi * 0x200 + b8 * 0x100 + mid * 0x20 + b4 * 0x10 + lo
    ensures hi < 32 && b8 < 2 && mid < 8 && b4 < 2 && lo < 16
  {
    lo := t % 16;
    var r := t / 16;
    b4 := r % 2;
    r := r / 2;
    mid := r % 8;
    r := r / 8;
    b8 := r % 2;
    r := r / 2;
    hi := r % 32;
    q := r / 32;
  }

  /** The masks read the pieces of a split type back. */
  lemma Join(t: nat, q: nat, hi: nat, b8: nat, mid: nat, b4: nat, lo: nat)
    requires t == q * 0x4000 + hi * 0x200 + b8 * 0x100 + mid * 0x20 + b4 * 0x10 + lo
    requires hi < 32 && b8 < 2 && mid < 8 && b4 < 2 && lo < 16 && t < 0x1_0000
    ensures ClassBits(t) == b8 * 0x100 + b4 * 0x10
    ensures MethodBits(t) == hi * 0x200 + mid * 0x20 + lo
    ensures t % 0x4000 == hi * 0x200 + b8 * 0x100 + mid * 0x20 + b4 * 0x10 + lo
  {
    var r1 := q * 0x400 + hi * 0x20 + b8 * 0x10 + mid * 2 + b4;
    assert t / 0x10 == r1 && t % 0x10 == lo;
    var r2 := q * 0x200 + hi * 0x10 + b8 * 8 + mid;
    assert r1 / 2 == r2 && r1 % 2 == b4;
    var r3 := q * 0x40 + hi * 2 + b8;
    assert r2 / 8 == r3 && r2 % 8 == mid;
    var r4 := q * 0x20 + hi;
    assert r3 / 2 == r4 && r3 % 2 == b8;
    assert r4 % 0x20 == hi;
  }

  /** The two masks split the 14-bit type between them. */
  lemma MasksPartition(t: Stun.u16)
    ensures ClassBits(t) + MethodBits(t) == t % 0x4000
  {
    var q, hi, b8, mid, b4, lo := Split(t);
    Join(t, q, hi, b8, mid, b4, lo);
  }

  /** A 14-bit type is the sum of its two parts. */
  lemma Recompose(t: Stun.u16, c: Stun.u16, m: Stun.u16)
    requires t < 0x4000 && ClassBits(t) == c && MethodBits(t) == m
    ensures t == c + m
  {
    MasksPartition(t);
  }

  /** Each mask keeps what it selects and drops what the other selects. */
  lemma MasksDisjoint(t: Stun.u16)
    ensures ClassBits(MethodBits(t)) == 0 && MethodBits(MethodBits(t)) == MethodBits(t)
    ensures MethodBits(ClassBits(t)) == 0 && ClassBits(ClassBits(t)) == ClassBits(t)
  {
    var q, hi, b8, mid, b4, lo := Split(t);
    Join(t, q, hi, b8, mid, b4, lo);
    Join(MethodBits(t), 0, hi, 0, mid, 0, lo);
    Join(ClassBits(t), 0, 0, b8, 0, b4, 0);
  }

  /** Class bits and method bits combine without carries: their sum is their
      bitwise or. */
  lemma TypeParts(a: Stun.u16, b: Stun.u16)
    requires ClassBits(a) == a && MethodBits(b) == b
    ensures a + b < 0x4000
    ensures ClassBits(a + b) == a && MethodBits(a + b) == b
  {
    var qa, ha, a8, ma, a4, la := Split(a);
    Join(a, qa, ha, a8, ma, a4, la);
    var qb, hb, b8, mb, b4, lb := Split(b);
    Join(b, qb, hb, b8, mb, b4, lb);
    Join(a + b, 0, hb, a8, mb, a4, lb);
  }

  datatype Class = Request | Indication | Success | Error {
    function Code(): (v: Stun.u16)
      ensures ClassBits(v) == v
    {
      match this
      case Request => 0x000
      case Indication => 0x010
      case Success => 0x100
      case Error => 0x110
    }

    /** `Class::set`: keeps the method bits of `typ`, writes the class bits
        and clears bits 14 and 15. */
    method Set(typ: Stun.u16) returns (t: Stun.u16)
      ensures MethodBits(t) == MethodBits(typ)
      ensures ClassBits(t) == Code()
      ensures t < 0x4000
    {
      var code := Code();
      MasksDisjoint(typ);
      TypeParts(code, MethodBits(typ));
      t := MethodBits(typ);
      t := t + code;
    }
  }

  /** `Class::try_from`: the four class codes exhaust the masked values, so
      the "unknown class" branch is dead. */
  function ClassTryFrom(v: Stun.u16): (r: Stun.Result<Class>)
    ensures r.Ok? && r.value.Code() == ClassBits(v)
  {
    var c := ClassBits(v);
    if c == 0x000 then Stun.Ok(Request)
    else if c == 0x010 then Stun.Ok(Indication)
    else if c == 0x100 then Stun.Ok(Success)
    else if c == 0x110 then Stun.Ok(Error)
    else Stun.Err(Stun.InvalidData("unknown class"))
  }

  /** The class codes are distinct, so a code names one class. */
  lemma ClassCodeInjective(c: Class, d: Class)
    requires c.Code() == d.Code()
    ensures c == d
  {
  }

  /** `try_from` inverts `set`: any type carrying a class's bits decodes to it. */
  lemma ClassTryFromCode(c: Class, t: Stun.u16)
    requires ClassBits(t) == c.Code()
    ensures ClassTryFrom(t) == Stun.Ok(c)
  {
    ClassCodeInjective(ClassTryFrom(t).value, c);
  }

  datatype Method = Binding {
    function Code(): (v: Stun.u16)
      ensures MethodBits(v) == v
    {
      0x0001
    }

    /** `Method::set`: keeps the class bits of `typ`, writes the method bits
        and clears bits 14 and 15. */
    method Set(typ: Stun.u16) returns (t: Stun.u16)
      ensures ClassBits(t) == ClassBits(typ)
      ensures MethodBits(t) == Code()
      ensures t < 0x4000
    {
      var code := Code();
      MasksDisjoint(typ);
      TypeParts(ClassBits(typ), code);
      t := ClassBits(typ);
      t := t + code;
    }
  }

  /** `Method::try_from`: Binding exactly when the method bits are 0x0001. */
  function MethodTryFrom(v: Stun.u16): (r: Stun.Result<Method>)
    ensures r.Ok? <==> MethodBits(v) == 0x0001
    ensures r.Ok? ==> r.value.Code() == MethodBits(v)
    ensures r.Err? ==> r.error == Stun.InvalidData("unknown method")
  {
    if MethodBits(v) == 0x0001 then Stun.Ok(Binding)
    else Stun.Err(Stun.InvalidData("unknown method"))
  }

  /** The type word a builder computes from a class and a method; both
      decoders recover their half of it. */
  function MessageType(c: Class, m: Method): (t: Stun.u16)
    ensures t < 0x4000
    ensures ClassBits(t) == c.Code() && MethodBits(t) == m.Code()
    ensures ClassTryFrom(t) == Stun.Ok(c)
    ensures MethodTryFrom(t) == Stun.Ok(m)
  {
    assert m == Binding && m.Code() == 0x0001;
    TypeParts(c.Code(), m.Code());
    ClassTryFromCode(c, c.Code() + m.Code());
    c.Code() + m.Code()
  }

  /** The all-zero type carries no class bits. */
  lemma ZeroType()
    ensures ClassBits(0) == 0
  {
    assert 0 / 0x10 == 0;
  }

  /** Type 0x0001 is a Binding request. */
  lemma TypeOne()
    ensures ClassBits(1) == 0 && MethodBits(1) == 1
  {
    assert 1 / 0x10 == 0;
  }

  /** The builders' `method.set(&mut 0); class.set(&mut typ)` sequence. */
  method ComposeType(c: Class, m: Method) returns (t: Stun.u16)
    ensures t == MessageType(c, m)
  {
    var t0 := m.Set(0);
    ZeroType();
    Recompose(t0, 0, m.Code());
    t := c.Set(t0);
    Recompose(t, c.Code(), m.Code());
  }
}
