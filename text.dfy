/** The text primitives the SDP and SIP codecs are built from: the `nom`
    parsers they use (`tag`, `take_while`, `digit1`, whitespace skipping)
    and decimal numbers as Rust's `FromStr` reads them and `Display` writes
    them. */
module TextParse {
  /** `IResult<&str, T>`: the unconsumed input and the value, or a parse
      error (its kind is not modelled). */
  datatype IResult<+T> = Done(rest: string, value: T) | Error

  const U16_MAX: nat := 0xFFFF
  const U32_MAX: nat := 0xFFFF_FFFF

  type u16 = n: nat | n <= 0xFFFF
  type u32 = n: nat | n <= 0xFFFF_FFFF

  predicate IsDigit(c: char) { '0' <= c <= '9' }

  predicate IsAsciiAlphanumeric(c: char) { IsDigit(c) || 'A' <= c <= 'Z' || 'a' <= c <= 'z' }

  /** `char::is_ascii_whitespace`: space, tab, line feed, form feed and
      carriage return. */
  predicate IsAsciiWhitespace(c: char) {
    c == ' ' || c == '\t' || c == '\n' || c == '\U{000C}' || c == '\r'
  }

  /** `multispace0`'s characters: space, tab, carriage return, line feed. */
  predicate IsMultispace(c: char) { c == ' ' || c == '\t' || c == '\r' || c == '\n' }

  predicate All(p: char -> bool, s: string) { forall k :: 0 <= k < |s| ==> p(s[k]) }

  /** The first character of `s` does not satisfy `p`, or there is none:
      where a `take_while(p)` run stops. */
  predicate StopsAt(p: char -> bool, s: string) { s == [] || !p(s[0]) }

  /** The end of the longest run of characters satisfying `p` that starts
      at `i`. */
  function RunEnd(p: char -> bool, s: string, i: nat): (j: nat)
    requires i <= |s|
    ensures i <= j <= |s|
    ensures forall k :: i <= k < j ==> p(s[k])
    ensures j < |s| ==> !p(s[j])
    decreases |s| - i
  {
    if i == |s| || !p(s[i]) then i else RunEnd(p, s, i + 1)
  }

  /** The run is the only one with those two properties. */
  lemma RunEndUnique(p: char -> bool, s: string, i: nat, j: nat)
    requires i <= j <= |s|
    requires forall k :: i <= k < j ==> p(s[k])
    requires j == |s| || !p(s[j])
    ensures RunEnd(p, s, i) == j
  {
  }

  /** A run over `a` that stops at `b` ends exactly at `|a|`. */
  lemma RunEndAppend(p: char -> bool, a: string, b: string)
    requires All(p, a) && StopsAt(p, b)
    ensures RunEnd(p, a + b, 0) == |a|
  {
    var s := a + b;
    forall k | 0 <= k < |a|
      ensures p(s[k])
    {
      assert s[k] == a[k];
    }
    if b != [] {
      assert s[|a|] == b[0];
    }
    RunEndUnique(p, s, 0, |a|);
  }

  /** `tag(t)`. */
  function Tag(t: string, s: string): (r: IResult<string>)
    ensures r.Done? <==> t <= s
    ensures r.Done? ==> s == t + r.rest && r.value == t
  {
    if t <= s then Done(s[|t|..], t) else Error
  }

  /** `take_while(p)`: the longest prefix whose characters satisfy `p`; an
      empty run is not an error. */
  function TakeWhile(p: char -> bool, s: string): (r: IResult<string>)
    ensures r.Done? && s == r.value + r.rest
    ensures All(p, r.value) && StopsAt(p, r.rest)
  {
    var n := RunEnd(p, s, 0);
    assert s == s[..n] + s[n..];
    Done(s[n..], s[..n])
  }

  /** `take_while(p)` on a run followed by a character that stops it. */
  lemma TakeWhileSplit(p: char -> bool, a: string, b: string)
    requires All(p, a) && StopsAt(p, b)
    ensures TakeWhile(p, a + b) == Done(b, a)
  {
    RunEndAppend(p, a, b);
    assert (a + b)[..|a|] == a;
    assert (a + b)[|a|..] == b;
  }

  /** `multispace0`: what is left once leading whitespace is skipped. */
  function SkipWs(s: string): (r: string)
    ensures |r| <= |s| && StopsAt(IsMultispace, r)
  {
    TakeWhile(IsMultispace, s).rest
  }

  /** Skipping whitespace in front of text that does not start with any. */
  lemma SkipWsNone(s: string)
    requires StopsAt(IsMultispace, s)
    ensures SkipWs(s) == s
  {
    TakeWhileSplit(IsMultispace, [], s);
  }

  /** Skipping whitespace in front of whitespace-free text. */
  lemma SkipWsSplit(w: string, s: string)
    requires All(IsMultispace, w) && StopsAt(IsMultispace, s)
    ensures SkipWs(w + s) == s
  {
    TakeWhileSplit(IsMultispace, w, s);
  }

  function DigitOf(c: char): (d: nat)
    ensures d < 10
  {
    if IsDigit(c) then c as int - '0' as int else 0
  }

  function DigitChar(d: nat): (c: char)
    requires d < 10
    ensures IsDigit(c) && DigitOf(c) == d
  {
    ('0' as int + d) as char
  }

  /** The value of a string of decimal digits, most significant first;
      leading zeros are allowed, as `u32::from_str` allows them. */
  function DigitsValue(s: string): nat
  {
    if s == [] then 0 else 10 * DigitsValue(s[..|s| - 1]) + DigitOf(s[|s| - 1])
  }

  /** Decimal digits as `Display` writes an unsigned integer: no leading
      zeros. */
  function ShowNat(n: nat): (s: string)
    ensures |s| > 0 && All(IsDigit, s)
  {
    if n < 10 then [DigitChar(n)] else ShowNat(n / 10) + [DigitChar(n % 10)]
  }

  /** Reading back what `ShowNat` wrote gives the number. */
  lemma {:induction false} ShowNatValue(n: nat)
    ensures DigitsValue(ShowNat(n)) == n
  {
    if n >= 10 {
      var s := ShowNat(n);
      assert s[..|s| - 1] == ShowNat(n / 10);
      ShowNatValue(n / 10);
    }
  }

  /** `map_res(digit1, uN::from_str)` for an unsigned type whose largest
      value is `max`: at least one digit, and a value that fits. */
  function Number(s: string, max: nat): (r: IResult<nat>)
    ensures r.Done? ==> r.value <= max && |r.rest| < |s|
  {
    var n := RunEnd(IsDigit, s, 0);
    if n == 0 then Error
    else
      var v := DigitsValue(s[..n]);
      if v > max then Error else Done(s[n..], v)
  }

  /** A number is the whole digit run in front of the rest, and it is read
      exactly when there is at least one digit and the run's value fits. */
  lemma NumberSpec(s: string, max: nat)
    ensures var r := Number(s, max);
      && (r.Done? <==> s != [] && IsDigit(s[0]) && DigitsValue(TakeWhile(IsDigit, s).value) <= max)
      && (r.Done? ==> s == TakeWhile(IsDigit, s).value + r.rest && r.value == DigitsValue(TakeWhile(IsDigit, s).value))
  {
  }

  /** A number written by `ShowNat` and followed by a non-digit reads back,
      when it fits the type. */
  lemma NumberShow(n: nat, max: nat, rest: string)
    requires n <= max && StopsAt(IsDigit, rest)
    ensures Number(ShowNat(n) + rest, max) == Done(rest, n)
  {
    var s := ShowNat(n);
    RunEndAppend(IsDigit, s, rest);
    assert (s + rest)[..|s|] == s;
    assert (s + rest)[|s|..] == rest;
    ShowNatValue(n);
  }

  /** A digit run too large for the type is an error. */
  lemma NumberOverflow(n: nat, max: nat, rest: string)
    requires n > max && StopsAt(IsDigit, rest)
    ensures Number(ShowNat(n) + rest, max) == Error
  {
    var s := ShowNat(n);
    RunEndAppend(IsDigit, s, rest);
    assert (s + rest)[..|s|] == s;
    ShowNatValue(n);
  }
}
