/** The shared pieces of the SDP codec (crates/sdp-types/src/lib.rs): the
    character classes its parsers take runs of, `slash_num`, and the
    `<nettype> <addrtype> <address>` triple as `TaggedAddress`. */
module SdpTypes {
  import opened TextParse

  /** RFC 8866's `token-char`: printable ASCII except space, '"', '(', ')',
      ',', '/', and ':' through '@', '[' through ']'. */
  predicate Token(c: char) {
    || c == '\U{0021}'
    || ('\U{0023}' <= c <= '\U{0027}')
    || ('\U{002A}' <= c <= '\U{002B}')
    || ('\U{002D}' <= c <= '\U{002E}')
    || ('\U{0030}' <= c <= '\U{0039}')
    || ('\U{0041}' <= c <= '\U{005A}')
    || ('\U{005E}' <= c <= '\U{007E}')
  }

  predicate NotWhitespace(c: char) { !IsAsciiWhitespace(c) }

  /** The characters a host name or IPv4 literal is made of. */
  predicate ProbeHost(c: char) { IsAsciiAlphanumeric(c) || c == '_' || c == '-' || c == '.' }

  /** `probe_host` plus ':' for IPv6 literals. */
  predicate ProbeHost6(c: char) { ProbeHost(c) || c == ':' }

  /** `token` takes only printable, non-space ASCII and never the
      separators ':' and '/' or whitespace; a letter, a digit, '-' and '.'
      are token characters. */
  lemma TokenClass(c: char)
    ensures Token(c) ==> '!' <= c <= '~'
    ensures !Token(':') && !Token('/') && (IsAsciiWhitespace(c) ==> !Token(c))
    ensures IsAsciiAlphanumeric(c) || c == '-' || c == '.' ==> Token(c)
  {
  }

  /** Every `probe_host` character is a `probe_host6` character, and ':' is
      the only one added. */
  lemma ProbeHost6Extends(c: char)
    ensures ProbeHost(c) ==> ProbeHost6(c)
    ensures ProbeHost6(c) && !ProbeHost(c) <==> c == ':'
  {
  }

  /** `slash_num`: '/' and then a decimal `u32`. */
  function SlashNum(s: string): (r: IResult<nat>)
    ensures r.Done? ==> r.value <= U32_MAX && |r.rest| < |s|
    ensures r.Done? <==> |s| >= 2 && s[0] == '/' && Number(s[1..], U32_MAX).Done?
  {
    if s != [] && s[0] == '/' then Number(s[1..], U32_MAX) else Error
  }

  /** `slash_num` reads back "/" and a `u32` written in decimal. */
  lemma SlashNumShow(n: nat, rest: string)
    requires n <= U32_MAX && StopsAt(IsDigit, rest)
    ensures SlashNum("/" + ShowNat(n) + rest) == Done(rest, n)
  {
    assert ("/" + ShowNat(n) + rest)[1..] == ShowNat(n) + rest;
    NumberShow(n, U32_MAX, rest);
  }

  datatype Ipv4Addr = Ipv4Addr(bits: nat)
  datatype Ipv6Addr = Ipv6Addr(bits: nat)

  /** The standard library's textual IP addresses (`str::parse` into
      `Ipv4Addr`/`Ipv6Addr`, and their `Display`), which this model does not
      define: they are given as functions. */
  datatype IpText = IpText(
    parse4: string -> Option<Ipv4Addr>,
    show4: Ipv4Addr -> string,
    parse6: string -> Option<Ipv6Addr>,
    show6: Ipv6Addr -> string)

  datatype Option<+T> = None | Some(value: T)

  datatype TaggedAddress =
    | IP4(addr4: Ipv4Addr)
    | IP4FQDN(host: string)
    | IP6(addr6: Ipv6Addr)
    | IP6FQDN(host: string)

  const IN_IP4: string := "IN IP4 "
  const IN_IP6: string := "IN IP6 "

  /** The host after "IN IP4 ": an IPv4 address when it parses as one, a
      domain name otherwise. */
  function Host4(ip: IpText, host: string): TaggedAddress
  {
    match ip.parse4(host)
    case Some(a) => IP4(a)
    case None => IP4FQDN(host)
  }

  function Host6(ip: IpText, host: string): TaggedAddress
  {
    match ip.parse6(host)
    case Some(a) => IP6(a)
    case None => IP6FQDN(host)
  }

  /** `TaggedAddress::parse`: "IN IP4 " and the longest (possibly empty)
      `probe_host` run, or else "IN IP6 " and the longest `probe_host6`
      run. */
  function ParseTaggedAddress(ip: IpText, s: string): (r: IResult<TaggedAddress>)
    ensures r.Done? <==> IN_IP4 <= s || IN_IP6 <= s
    ensures r.Done? ==> |r.rest| <= |s| - 7
  {
    match Tag(IN_IP4, s)
    case Done(r4, _) =>
      var h := TakeWhile(ProbeHost, r4);
      Done(h.rest, Host4(ip, h.value))
    case Error =>
      match Tag(IN_IP6, s)
      case Done(r6, _) =>
        var h := TakeWhile(ProbeHost6, r6);
        Done(h.rest, Host6(ip, h.value))
      case Error => Error
  }

  /** `Display for TaggedAddress`. */
  function ShowTaggedAddress(ip: IpText, a: TaggedAddress): (s: string)
    ensures a.IP4? || a.IP4FQDN? ==> IN_IP4 <= s
    ensures a.IP6? || a.IP6FQDN? ==> IN_IP6 <= s
  {
    match a
    case IP4(addr) => IN_IP4 + ip.show4(addr)
    case IP4FQDN(host) => IN_IP4 + host
    case IP6(addr) => IN_IP6 + ip.show6(addr)
    case IP6FQDN(host) => IN_IP6 + host
  }

  /** After "IN IP4 " the parser takes exactly the `probe_host` run `host`
      and decides between an address and a domain name on it alone. */
  lemma ParseTagged4(ip: IpText, host: string, rest: string)
    requires All(ProbeHost, host) && StopsAt(ProbeHost, rest)
    ensures ParseTaggedAddress(ip, IN_IP4 + host + rest) == Done(rest, Host4(ip, host))
  {
    var s := IN_IP4 + host + rest;
    assert s[|IN_IP4|..] == host + rest;
    TakeWhileSplit(ProbeHost, host, rest);
  }

  /** After "IN IP6 " the parser takes exactly the `probe_host6` run. */
  lemma ParseTagged6(ip: IpText, host: string, rest: string)
    requires All(ProbeHost6, host) && StopsAt(ProbeHost6, rest)
    ensures ParseTaggedAddress(ip, IN_IP6 + host + rest) == Done(rest, Host6(ip, host))
  {
    var s := IN_IP6 + host + rest;
    assert !(IN_IP4 <= s) by { assert s[5] != IN_IP4[5]; }
    assert s[|IN_IP6|..] == host + rest;
    TakeWhileSplit(ProbeHost6, host, rest);
  }

  /** A domain name made of `probe_host` characters that is not an IPv4
      literal reads back from its display. */
  lemma Fqdn4RoundTrip(ip: IpText, host: string, rest: string)
    requires All(ProbeHost, host) && ip.parse4(host).None? && StopsAt(ProbeHost, rest)
    ensures ParseTaggedAddress(ip, ShowTaggedAddress(ip, IP4FQDN(host)) + rest) == Done(rest, IP4FQDN(host))
  {
    ParseTagged4(ip, host, rest);
  }

  lemma Fqdn6RoundTrip(ip: IpText, host: string, rest: string)
    requires All(ProbeHost6, host) && ip.parse6(host).None? && StopsAt(ProbeHost6, rest)
    ensures ParseTaggedAddress(ip, ShowTaggedAddress(ip, IP6FQDN(host)) + rest) == Done(rest, IP6FQDN(host))
  {
    ParseTagged6(ip, host, rest);
  }

  /** An address reads back from its display when the standard library's
      text form of it is a `probe_host` run that parses back to it. */
  lemma Addr4RoundTrip(ip: IpText, a: Ipv4Addr, rest: string)
    requires All(ProbeHost, ip.show4(a)) && ip.parse4(ip.show4(a)) == Some(a) && StopsAt(ProbeHost, rest)
    ensures ParseTaggedAddress(ip, ShowTaggedAddress(ip, IP4(a)) + rest) == Done(rest, IP4(a))
  {
    ParseTagged4(ip, ip.show4(a), rest);
  }

  lemma Addr6RoundTrip(ip: IpText, a: Ipv6Addr, rest: string)
    requires All(ProbeHost6, ip.show6(a)) && ip.parse6(ip.show6(a)) == Some(a) && StopsAt(ProbeHost6, rest)
    ensures ParseTaggedAddress(ip, ShowTaggedAddress(ip, IP6(a)) + rest) == Done(rest, IP6(a))
  {
    ParseTagged6(ip, ip.show6(a), rest);
  }

  /** "IN IP4 example.com" is a domain name when "example.com" is not an
      IPv4 literal. */
  lemma ExampleFqdn4(ip: IpText)
    requires ip.parse4("example.com").None?
    ensures ParseTaggedAddress(ip, "IN IP4 example.com") == Done("", IP4FQDN("example.com"))
  {
    assert IN_IP4 + "example.com" + "" == "IN IP4 example.com";
    ParseTagged4(ip, "example.com", "");
  }

  /** "IN IP4 192.168.123.222" is an address when the literal parses. */
  lemma ExampleAddr4(ip: IpText, a: Ipv4Addr)
    requires ip.parse4("192.168.123.222") == Some(a)
    ensures ParseTaggedAddress(ip, "IN IP4 192.168.123.222") == Done("", IP4(a))
  {
    assert IN_IP4 + "192.168.123.222" + "" == "IN IP4 192.168.123.222";
    ParseTagged4(ip, "192.168.123.222", "");
  }

  /** "IN IP6 example.com" is a domain name when "example.com" is not an
      IPv6 literal. */
  lemma ExampleFqdn6(ip: IpText)
    requires ip.parse6("example.com").None?
    ensures ParseTaggedAddress(ip, "IN IP6 example.com") == Done("", IP6FQDN("example.com"))
  {
    assert IN_IP6 + "example.com" + "" == "IN IP6 example.com";
    ParseTagged6(ip, "example.com", "");
  }

  /** "IN IP6 ::1" is an address when the literal parses. */
  lemma ExampleAddr6(ip: IpText, a: Ipv6Addr)
    requires ip.parse6("::1") == Some(a)
    ensures ParseTaggedAddress(ip, "IN IP6 ::1") == Done("", IP6(a))
  {
    assert IN_IP6 + "::1" + "" == "IN IP6 ::1";
    ParseTagged6(ip, "::1", "");
  }
}
