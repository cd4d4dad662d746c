/** Well-formed UTF-8 (the syntax of section 4 of RFC 3629), the check that
    `std::str::from_utf8` performs on attribute values. */
module Utf8 {
  import opened Wire

  predicate Tail(b: byte) {
    0x80 <= b <= 0xBF
  }

  /** The length of the well-formed encoded character starting at `i`, or 0
      when the bytes there start no character. */
  function CharLen(s: seq<byte>, i: nat): (n: nat)
    requires i < |s|
    ensures n <= 4 && i + n <= |s|
  {
    var b := s[i];
    var rest := |s| - i;
    if b <= 0x7F then 1
    else if 0xC2 <= b <= 0xDF then
      (if rest >= 2 && Tail(s[i + 1]) then 2 else 0)
    else if 0xE0 <= b <= 0xEF then
      (if rest >= 3 && Tail(s[i + 2]) &&
          (if b == 0xE0 then 0xA0 <= s[i + 1] <= 0xBF
           else if b == 0xED then 0x80 <= s[i + 1] <= 0x9F
           else Tail(s[i + 1]))
       then 3 else 0)
    else if 0xF0 <= b <= 0xF4 then
      (if rest >= 4 && Tail(s[i + 2]) && Tail(s[i + 3]) &&
          (if b == 0xF0 then 0x90 <= s[i + 1] <= 0xBF
           else if b == 0xF4 then 0x80 <= s[i + 1] <= 0x8F
           else Tail(s[i + 1]))
       then 4 else 0)
    else 0
  }

  /** `s[i..]` is a sequence of well-formed characters. */
  predicate ValidFrom(s: seq<byte>, i: nat)
    requires i <= |s|
    decreases |s| - i
  {
    i == |s| || (CharLen(s, i) > 0 && ValidFrom(s, i + CharLen(s, i)))
  }

  predicate Valid(s: seq<byte>) {
    ValidFrom(s, 0)
  }

  predicate Ascii(s: seq<byte>) {
    forall i :: 0 <= i < |s| ==> s[i] <= 0x7F
  }

  /** ASCII text is UTF-8. */
  lemma {:induction false} AsciiValidFrom(s: seq<byte>, i: nat)
    requires i <= |s| && Ascii(s)
    ensures ValidFrom(s, i)
    decreases |s| - i
  {
    if i < |s| {
      assert CharLen(s, i) == 1;
      AsciiValidFrom(s, i + 1);
    }
  }

  lemma AsciiValid(s: seq<byte>)
    requires Ascii(s)
    ensures Valid(s)
  {
    AsciiValidFrom(s, 0);
  }

  /** A lone continuation byte is not UTF-8. */
  lemma ContinuationInvalid(b: byte)
    requires Tail(b)
    ensures !Valid([b])
  {
  }
}
