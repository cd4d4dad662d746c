/** The media direction attribute, `a=sendrecv` and its three siblings
    (crates/sdp-types/src/attributes/direction.rs; section 6.7 of
    RFC 8866). */
module SdpDirection {
  datatype Direction = SendRecv | RecvOnly | SendOnly | Inactive

  /** `Direction::as_str`: the attribute's name. */
  function AsStr(d: Direction): (s: string)
    ensures |s| == 8 && forall k :: 0 <= k < |s| ==> 'a' <= s[k] <= 'z'
  {
    match d
    case SendRecv => "sendrecv"
    case RecvOnly => "recvonly"
    case SendOnly => "sendonly"
    case Inactive => "inactive"
  }

  /** `Display for Direction`: "a=" and the name. */
  function ShowDirection(d: Direction): string
  {
    "a=" + AsStr(d)
  }

  /** `Default for Direction`: with no direction given, media is sent and
      received. */
  function DefaultDirection(): (d: Direction)
    ensures AsStr(d) == "sendrecv"
  {
    SendRecv
  }

  /** Distinct directions have distinct names, so the name identifies the
      direction. */
  lemma AsStrInjective(a: Direction, b: Direction)
    ensures AsStr(a) == AsStr(b) ==> a == b
  {
    if a != b {
      var x, y := AsStr(a), AsStr(b);
      assert x[0] != y[0] || x[4] != y[4];
    }
  }

  /** The displayed attribute identifies the direction as well. */
  lemma ShowDirectionInjective(a: Direction, b: Direction)
    ensures ShowDirection(a) == ShowDirection(b) ==> a == b
  {
    if ShowDirection(a) == ShowDirection(b) {
      assert ShowDirection(a)[2..] == AsStr(a);
      assert ShowDirection(b)[2..] == AsStr(b);
      AsStrInjective(a, b);
    }
  }
}
