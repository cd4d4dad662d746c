/** Constants, padding arithmetic, transaction ids and the error kinds of the
    STUN codec (crates/stun-types/src/lib.rs). */
module Stun {

  /** The magic cookie of RFC 8489, section 5. */
  const COOKIE: u32 := 0x2112A442

  /** A Rust `u16` used as a length. */
  type u16 = x: int | 0 <= x < 0x1_0000

  /** A Rust `u32` used as a number. */
  type u32 = x: int | 0 <= x < 0x1_0000_0000

  /** A Rust `u128`. */
  type u128 = x: int | 0 <= x < 0x1_0000_0000_0000_0000_0000_0000_0000_0000

  /** A `u16` addition that wraps around, as `+=` on a `u16` does in a
      release build. */
  function WrapU16(x: nat): u16 {
    x % 0x1_0000
  }

  /** 2^96, the weight of the cookie inside the 128-bit id word. */
  const TSX_BOUND: int := 0x1_0000_0000_0000_0000_0000_0000

  /** The `std::io::ErrorKind`s the codec can raise. */
  datatype IoErrorKind = UnexpectedEof | InvalidDataKind

  /** `crate::Error`: the four disjoint failure kinds of the codec. */
  datatype Error =
    | InvalidData(reason: string)
    | Utf8
    | IntegerOverflow
    | Io(kind: IoErrorKind)

  datatype Result<+T> = Ok(value: T) | Err(error: Error) {
    predicate IsFailure() { Err? }

    function PropagateFailure<U>(): Result<U>
      requires Err?
    {
      Err(error)
    }

    function Extract(): T
      requires Ok?
    {
      value
    }
  }

  /** The result of an operation that returns `Result<(), Error>`. */
  datatype Outcome = Pass | Fail(error: Error) {
    predicate IsFailure() { Fail? }

    function PropagateFailure(): Outcome
      requires Fail?
    {
      this
    }
  }

  /** `u16::try_from(n)` on a length: it fits the 16-bit length field or
      the conversion reports an overflow. */
  function LengthU16(n: nat): (r: Result<u16>)
    ensures r.Ok? <==> n < 0x1_0000
    ensures r.Ok? ==> r.value == n
    ensures r.Err? ==> r.error == IntegerOverflow
  {
    if n < 0x1_0000 then Ok(n) else Err(IntegerOverflow)
  }

  /** `xs` in front of what a decoding loop collects afterwards, or that
      loop's error. */
  function Prepend<T>(xs: seq<T>, r: Result<seq<T>>): Result<seq<T>> {
    match r
    case Ok(rest) => Ok(xs + rest)
    case Err(e) => Err(e)
  }

  lemma PrependNothing<T>(r: Result<seq<T>>)
    ensures Prepend([], r) == r
  {
    if r.Ok? {
      assert [] + r.value == r.value;
    }
  }

  lemma PrependTwice<T>(a: seq<T>, b: seq<T>, r: Result<seq<T>>)
    ensures Prepend(a, Prepend(b, r)) == Prepend(a + b, r)
  {
    if r.Ok? {
      assert a + (b + r.value) == (a + b) + r.value;
    }
  }

  /** The number of zero bytes that align `n` to a multiple of four. */
  function PaddingU16(n: u16): (p: u16)
    ensures p <= 3 && (n + p) % 4 == 0
    ensures p == 0 <==> n % 4 == 0
  {
    match n % 4
    case 0 => 0
    case 1 => 3
    case 2 => 2
    case 3 => 1
  }

  /** The same padding on a `usize`. */
  function PaddingUsize(n: nat): (p: nat)
    ensures p <= 3 && (n + p) % 4 == 0
    ensures p == 0 <==> n % 4 == 0
  {
    match n % 4
    case 0 => 0
    case 1 => 3
    case 2 => 2
    case 3 => 1
  }

  /** The padding is `(4 - n % 4) % 4`, the usual closed form. */
  lemma PaddingFormula(n: u16)
    ensures PaddingU16(n) == (4 - n % 4) % 4
  {
  }

  /** No smaller count aligns `n`: the padding is the least one. */
  lemma PaddingIsLeast(n: u16, k: nat)
    requires k < PaddingU16(n)
    ensures (n + k) % 4 != 0
  {
  }

  /** Both paddings agree wherever both are defined. */
  lemma PaddingAgree(n: u16)
    ensures PaddingUsize(n) == PaddingU16(n)
  {
  }

  /** `transaction_id`: a random `u128` with its 32 high bits cleared (the
      mask `!((u32::MAX as u128) << 96)`); the random source is the parameter. */
  function TransactionId(random: u128): (r: u128)
    ensures r < TSX_BOUND
    ensures (random - r) % TSX_BOUND == 0
  {
    random % TSX_BOUND
  }
}
