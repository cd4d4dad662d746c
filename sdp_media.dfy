/** The SDP media line, `m=<media> <port>[/<number>] <proto> <fmt> ...`
    (crates/sdp-types/src/media.rs), as section 5.14 of RFC 8866 describes
    it: its media type, its transport protocol and the whole description,
    each with its parser and its `Display`. */
module SdpMedia {
  import opened TextParse
  import opened SdpTypes

  datatype MediaType = Audio | Video | Text | App

  function ShowMediaType(t: MediaType): (s: string)
    ensures |s| >= 4 && 'a' <= s[0] <= 'z'
  {
    match t
    case Audio => "audio"
    case Video => "video"
    case Text => "text"
    case App => "application"
  }

  /** `MediaType::parse`: the four media words, tried in order. */
  function ParseMediaType(s: string): IResult<MediaType>
  {
    match Tag("audio", s)
    case Done(rest, _) => Done(rest, Audio)
    case Error =>
      match Tag("video", s)
      case Done(rest, _) => Done(rest, Video)
      case Error =>
        match Tag("text", s)
        case Done(rest, _) => Done(rest, Text)
        case Error =>
          match Tag("application", s)
          case Done(rest, _) => Done(rest, App)
          case Error => Error
  }

  /** A media type is read exactly when one of the four words starts the
      text, and it is that word. */
  lemma ParseMediaTypeSpec(s: string)
    ensures var r := ParseMediaType(s);
      && (r.Done? <==> "audio" <= s || "video" <= s || "text" <= s || "application" <= s)
      && (r.Done? ==> s == ShowMediaType(r.value) + r.rest)
  {
  }

  /** Every media type reads back from its display, whatever follows it. */
  lemma MediaTypeRoundTrip(t: MediaType, rest: string)
    ensures ParseMediaType(ShowMediaType(t) + rest) == Done(rest, t)
  {
    var s := ShowMediaType(t) + rest;
    assert s[..|ShowMediaType(t)|] == ShowMediaType(t);
    match t
    case Audio =>
    case Video => assert s[0] == 'v';
    case Text => assert s[0] == 't';
    case App => assert s[0] == 'a' && s[1] == 'p';
  }

  datatype TransportProtocol = Unspecified | RtpAvp | RtpSavp | RtpSavpf | Other(name: string)

  function ShowProto(p: TransportProtocol): string
  {
    match p
    case Unspecified => "udp"
    case RtpAvp => "RTP/AVP"
    case RtpSavp => "RTP/SAVP"
    case RtpSavpf => "RTP/SAVPF"
    case Other(name) => name
  }

  /** Text that none of the protocol names the parser knows starts. */
  predicate NoKnownProto(s: string) {
    !("udp" <= s) && !("RTP/AVP" <= s) && !("RTP/SAVP" <= s) && !("RTP/SAVPF" <= s)
  }

  /** `TransportProtocol::parse`: "udp", "RTP/AVP", "RTP/SAVP" and
      "RTP/SAVPF" tried in that order, and anything else as the longest
      non-empty run of non-whitespace. Because "RTP/SAVP" is tried first and
      is a prefix of "RTP/SAVPF", the parser never produces `RtpSavpf`. */
  function ParseProto(s: string): (r: IResult<TransportProtocol>)
    ensures r.Done? ==> !r.value.RtpSavpf?
  {
    match Tag("udp", s)
    case Done(rest, _) => Done(rest, Unspecified)
    case Error =>
      match Tag("RTP/AVP", s)
      case Done(rest, _) => Done(rest, RtpAvp)
      case Error =>
        match Tag("RTP/SAVP", s)
        case Done(rest, _) => Done(rest, RtpSavp)
        case Error =>
          match Tag("RTP/SAVPF", s)
          case Done(rest, _) => Done(rest, RtpSavpf)
          case Error =>
            ParseOther(s)
  }

  /** A known name is read as itself; anything else is the longest
      non-empty non-whitespace run, and only text that starts with
      whitespace, or is empty, is an error. */
  lemma ParseProtoSpec(s: string)
    ensures var r := ParseProto(s);
      && (r.Done? && !r.value.Other? ==> s == ShowProto(r.value) + r.rest)
      && (r.Done? && r.value.Other? ==>
            && NoKnownProto(s) && r.value.name != [] && s == r.value.name + r.rest
            && All(NotWhitespace, r.value.name) && StopsAt(NotWhitespace, r.rest))
      && (r.Error? <==> s == [] || !NotWhitespace(s[0]))
  {
    if s == [] || !NotWhitespace(s[0]) {
      assert NoKnownProto(s) by { KnownNamesStart(s); }
      ParseOtherSpec(s);
    } else if NoKnownProto(s) {
      ParseOtherSpec(s);
    }
  }

  /** Every known name starts with a non-whitespace character. */
  lemma KnownNamesStart(s: string)
    requires s == [] || !NotWhitespace(s[0])
    ensures NoKnownProto(s)
  {
    if s != [] {
      assert "udp"[0] == 'u' && "RTP/AVP"[0] == 'R';
    }
  }

  /** The fallback reads the non-whitespace run, and fails only on an empty
      one. */
  lemma ParseOtherSpec(s: string)
    ensures var r := ParseOther(s);
      && (r.Error? <==> s == [] || !NotWhitespace(s[0]))
      && (r.Done? ==> r.value.Other? && r.value.name != [] && s == r.value.name + r.rest
                      && All(NotWhitespace, r.value.name) && StopsAt(NotWhitespace, r.rest))
  {
  }

  /** `take_while1(not_whitespace)` as an `Other` protocol. */
  function ParseOther(s: string): IResult<TransportProtocol>
  {
    var run := TakeWhile(NotWhitespace, s);
    if run.value == [] then Error else Done(run.rest, Other(run.value))
  }

  /** "RTP/SAVPF" reads as `RtpSavp` with the "F" left unconsumed. */
  lemma SavpfShadowed(rest: string)
    ensures ParseProto(ShowProto(RtpSavpf) + rest) == Done("F" + rest, RtpSavp)
  {
    var s := "RTP/SAVPF" + rest;
    assert s[..8] == "RTP/SAVP";
    assert s[1] == 'T' && s[4] == 'S';
    assert s[8..] == "F" + rest;
  }

  /** The name of an `Other` protocol that reads back as itself: a
      non-empty non-whitespace run that no known name starts, and that does
      not start with '/', which after a port would be read as a port
      count. */
  predicate OtherName(name: string) {
    name != [] && All(NotWhitespace, name) && NoKnownProto(name) && name[0] != '/'
  }

  /** The protocols whose display reads back as themselves through
      `ParseProtoFixed`: every named one, and `Other` with a name as above. */
  predicate ProtoRoundTrips(p: TransportProtocol) {
    p.Other? ==> OtherName(p.name)
  }

  /** A protocol that reads back displays as text that starts with neither
      whitespace nor '/'. */
  lemma ShowProtoStart(p: TransportProtocol)
    requires ProtoRoundTrips(p)
    ensures ShowProto(p) != [] && !IsMultispace(ShowProto(p)[0]) && ShowProto(p)[0] != '/'
  {
    if p.Other? {
      assert NotWhitespace(p.name[0]);
    }
  }

  /** A known name that is not a prefix of a non-whitespace run is not a
      prefix of that run followed by whitespace. */
  lemma NotPrefixAcross(t: string, name: string, rest: string)
    requires All(NotWhitespace, t) && !(t <= name) && StopsAt(NotWhitespace, rest)
    ensures !(t <= name + rest)
  {
    if |t| <= |name| {
      assert (name + rest)[..|t|] == name[..|t|];
    } else if |t| <= |name + rest| {
      assert (name + rest)[|name|] == rest[0];
      assert NotWhitespace(t[|name|]);
    }
  }

  /** An `Other` name followed by whitespace is not taken for a known name
      and is read whole. */
  lemma OtherRoundTrip(name: string, rest: string)
    requires OtherName(name) && StopsAt(NotWhitespace, rest)
    ensures NoKnownProto(name + rest) && ParseOther(name + rest) == Done(rest, Other(name))
  {
    NotPrefixAcross("udp", name, rest);
    NotPrefixAcross("RTP/AVP", name, rest);
    NotPrefixAcross("RTP/SAVP", name, rest);
    NotPrefixAcross("RTP/SAVPF", name, rest);
    TakeWhileSplit(NotWhitespace, name, rest);
  }

  /** Every protocol but `RtpSavpf`, with an `Other` name as above, reads
      back from its display when whitespace or nothing follows. */
  lemma ProtoRoundTrip(p: TransportProtocol, rest: string)
    requires ProtoRoundTrips(p) && !p.RtpSavpf? && StopsAt(NotWhitespace, rest)
    ensures ParseProto(ShowProto(p) + rest) == Done(rest, p)
  {
    var s := ShowProto(p) + rest;
    assert s[..|ShowProto(p)|] == ShowProto(p);
    match p
    case Unspecified =>
    case RtpAvp => assert s[0] == 'R';
    case RtpSavp => assert s[0] == 'R' && s[4] == 'S';
    case Other(name) =>
      OtherRoundTrip(name, rest);
  }

  /** The parser with the alternatives in the order RFC 5124's profile
      needs: "RTP/SAVPF" before its prefix "RTP/SAVP". */
  function ParseProtoFixed(s: string): (r: IResult<TransportProtocol>)
    ensures r.Done? && !r.value.Other? ==> s == ShowProto(r.value) + r.rest
  {
    match Tag("udp", s)
    case Done(rest, _) => Done(rest, Unspecified)
    case Error =>
      match Tag("RTP/AVP", s)
      case Done(rest, _) => Done(rest, RtpAvp)
      case Error =>
        match Tag("RTP/SAVPF", s)
        case Done(rest, _) => Done(rest, RtpSavpf)
        case Error =>
          match Tag("RTP/SAVP", s)
          case Done(rest, _) => Done(rest, RtpSavp)
          case Error =>
            ParseOther(s)
  }

  /** With that order every named protocol, `RtpSavpf` included, reads back
      from its display. */
  lemma ProtoFixedRoundTrip(p: TransportProtocol, rest: string)
    requires ProtoRoundTrips(p) && StopsAt(NotWhitespace, rest)
    ensures ParseProtoFixed(ShowProto(p) + rest) == Done(rest, p)
  {
    var s := ShowProto(p) + rest;
    assert s[..|ShowProto(p)|] == ShowProto(p);
    match p
    case Unspecified =>
    case RtpAvp => assert s[0] == 'R';
    case RtpSavpf => assert s[0] == 'R' && s[4] == 'S';
    case RtpSavp =>
      assert s[0] == 'R' && s[4] == 'S';
      assert !("RTP/SAVPF" <= s) by {
        if |s| > 8 { assert s[8] == rest[0]; }
      }
    case Other(name) =>
      OtherRoundTrip(name, rest);
  }

  datatype MediaDescription = MediaDescription(
    media: MediaType,
    port: u16,
    portsNum: Option<u32>,
    proto: TransportProtocol,
    fmts: seq<u32>)

  /** `many0(ws((digit1 as u32,)))`: the formats, each with the whitespace
      around it; the first input that is not one ends the list and is left
      unconsumed. */
  function Fmts(s: string): (r: (string, seq<u32>))
    ensures |r.0| <= |s|
    decreases |s|
  {
    match Number(SkipWs(s), U32_MAX)
    case Error => (s, [])
    case Done(r1, n) =>
      var more := Fmts(SkipWs(r1));
      (more.0, [n as u32] + more.1)
  }

  /** `opt(slash_num)`. */
  function OptSlashNum(s: string): (r: (string, Option<u32>))
    ensures r.1.Some? <==> SlashNum(s).Done?
  {
    match SlashNum(s)
    case Done(rest, n) => (rest, Some(n as u32))
    case Error => (s, None)
  }

  /** `MediaDescription::parse`: the media type, a `u16` port, an optional
      "/count", the protocol and the formats, with whitespace skipped around
      each (the `ws` combinator); the leading "m=" is not part of it. The
      protocol is read by `TransportProtocol::parse` (`ParseProto`), so
      "RTP/SAVPF" is read as RTP/SAVP with its "F" left over. */
  function ParseMedia(s: string): (r: IResult<MediaDescription>)
    ensures r.Done? ==> StopsAt(IsMultispace, r.rest)
  {
    ParseMediaWith(false, s)
  }

  /** The same parse with the protocol read by `ParseProtoFixed`, which
      recognises "RTP/SAVPF". */
  function ParseMediaFixed(s: string): (r: IResult<MediaDescription>)
    ensures r.Done? ==> StopsAt(IsMultispace, r.rest)
  {
    ParseMediaWith(true, s)
  }

  /** The protocol parser of the parse: the fixed order when `fixed` holds. */
  function ReadProto(fixed: bool, s: string): IResult<TransportProtocol> {
    if fixed then ParseProtoFixed(s) else ParseProto(s)
  }

  /** The stages of the parse, the first one here and the others below. */
  function ParseMediaWith(fixed: bool, s: string): (r: IResult<MediaDescription>)
    ensures r.Done? ==> StopsAt(IsMultispace, r.rest)
  {
    match ParseMediaType(SkipWs(s))
    case Error => Error
    case Done(s1, media) => MediaFromPort(fixed, s1, media)
  }

  /** The port, which must fit a `u16`. */
  function MediaFromPort(fixed: bool, s: string, media: MediaType): (r: IResult<MediaDescription>)
    ensures r.Done? ==> StopsAt(IsMultispace, r.rest)
  {
    match Number(SkipWs(s), U16_MAX)
    case Error => Error
    case Done(s2, port) => MediaFromCount(fixed, s2, media, port as u16)
  }

  /** The port count, present only when "/digits" follows the port. */
  function MediaFromCount(fixed: bool, s: string, media: MediaType, port: u16): (r: IResult<MediaDescription>)
    ensures r.Done? ==> StopsAt(IsMultispace, r.rest)
  {
    var pn := OptSlashNum(SkipWs(s));
    MediaFromProto(fixed, pn.0, media, port, pn.1)
  }

  /** The protocol and the formats. */
  function MediaFromProto(fixed: bool, s: string, media: MediaType, port: u16, portsNum: Option<u32>)
    : (r: IResult<MediaDescription>)
    ensures r.Done? ==> StopsAt(IsMultispace, r.rest)
  {
    match ReadProto(fixed, SkipWs(s))
    case Error => Error
    case Done(s3, proto) =>
      var fs := Fmts(SkipWs(s3));
      Done(SkipWs(fs.0), MediaDescription(media, port, portsNum, proto, fs.1))
  }

  /** Each format as " n", in order. */
  function ShowFmts(fmts: seq<u32>): (s: string)
    ensures fmts == [] <==> s == []
    ensures s != [] ==> s[0] == ' '
  {
    if fmts == [] then "" else " " + ShowNat(fmts[0]) + ShowFmts(fmts[1..])
  }

  /** What follows the port: "/count " or just a space. */
  function ShowCount(portsNum: Option<u32>): (s: string)
    ensures s != [] && (s[0] == '/' || s[0] == ' ')
  {
    match portsNum
    case Some(n) => "/" + ShowNat(n) + " "
    case None => " "
  }

  /** " port/count " or " port ". */
  function ShowPorts(port: u16, portsNum: Option<u32>): string
  {
    " " + ShowNat(port) + ShowCount(portsNum)
  }

  /** `Display for MediaDescription`: "m=", the type, a space, the port
      padded with a space on each side (so two spaces follow the type), the
      protocol, the formats and CRLF. */
  function ShowMedia(m: MediaDescription): (s: string)
    ensures "m=" <= s && |s| >= 4 && s[|s| - 2..] == "\r\n"
  {
    "m=" + ShowMediaType(m.media) + " " + ShowPorts(m.port, m.portsNum) + ShowProto(m.proto)
      + ShowFmts(m.fmts) + "\r\n"
  }

  /** Appending a format appends " n" to the display: the formats appear in
      order. */
  lemma {:induction false} ShowFmtsAppend(fmts: seq<u32>, f: u32)
    ensures ShowFmts(fmts + [f]) == ShowFmts(fmts) + " " + ShowNat(f)
    decreases |fmts|
  {
    if fmts == [] {
      assert ([] + [f])[1..] == [];
    } else {
      assert (fmts + [f])[1..] == fmts[1..] + [f];
      ShowFmtsAppend(fmts[1..], f);
    }
  }

  /** One format and the whitespace in front of it. */
  lemma FmtsStep(f: u32, t: string)
    requires StopsAt(IsDigit, t)
    ensures Fmts(SkipWs(" " + ShowNat(f) + t)) == (Fmts(SkipWs(t)).0, [f] + Fmts(SkipWs(t)).1)
  {
    var digits := ShowNat(f) + t;
    assert " " + ShowNat(f) + t == " " + digits;
    SkipWsSplit(" ", digits);
    SkipWsNone(digits);
    NumberShow(f, U32_MAX, t);
  }

  /** The first format's text, and then the rest of the line. */
  lemma ShowFmtsCons(f: u32, rest: seq<u32>, tail: string)
    requires tail != [] && !IsDigit(tail[0])
    ensures ShowFmts([f] + rest) + tail == " " + ShowNat(f) + (ShowFmts(rest) + tail)
    ensures StopsAt(IsDigit, ShowFmts(rest) + tail)
  {
    assert ([f] + rest)[1..] == rest;
    var r := ShowFmts(rest);
    if r != [] {
      assert (r + tail)[0] == r[0];
    } else {
      assert r + tail == tail;
    }
  }

  /** The formats text starts with whitespace. */
  lemma FmtsLineStart(fmts: seq<u32>)
    ensures StopsAt(NotWhitespace, ShowFmts(fmts) + "\r\n")
  {
    var f := ShowFmts(fmts);
    if f != [] {
      assert (f + "\r\n")[0] == f[0];
    } else {
      assert f + "\r\n" == "\r\n";
    }
  }

  /** The CRLF that ends the line ends the formats. */
  lemma FmtsEnd()
    ensures Fmts(SkipWs("\r\n")) == ("", [])
  {
    SkipWsSplit("\r\n", "");
    assert "\r\n" + "" == "\r\n";
    SkipWsNone("");
  }

  /** The whitespace-separated formats up to the CRLF that ends the line
      read back. */
  lemma {:induction false} FmtsRoundTrip(fmts: seq<u32>)
    ensures Fmts(SkipWs(ShowFmts(fmts) + "\r\n")) == ("", fmts)
    decreases |fmts|
  {
    if fmts == [] {
      FmtsEnd();
    } else {
      var f, rest := fmts[0], fmts[1..];
      assert fmts == [f] + rest;
      FmtsRoundTrip(rest);
      FmtsConsRoundTrip(f, rest);
    }
  }

  /** The inductive step: one more format in front of formats that read
      back. */
  lemma FmtsConsRoundTrip(f: u32, rest: seq<u32>)
    requires Fmts(SkipWs(ShowFmts(rest) + "\r\n")) == ("", rest)
    ensures Fmts(SkipWs(ShowFmts([f] + rest) + "\r\n")) == ("", [f] + rest)
  {
    ShowFmtsCons(f, rest, "\r\n");
    FmtsStep(f, ShowFmts(rest) + "\r\n");
  }

  /** The display, from the media type on, as the pieces the parser's
      stages take one by one. */
  lemma ShowMediaLayout(m: MediaDescription)
    ensures ShowMedia(m)[2..]
         == ShowMediaType(m.media) + ("  " + ShowNat(m.port) + (ShowCount(m.portsNum)
              + (ShowProto(m.proto) + (ShowFmts(m.fmts) + "\r\n"))))
  {
    LineShape(ShowMediaType(m.media), ShowNat(m.port), ShowCount(m.portsNum), ShowProto(m.proto),
              ShowFmts(m.fmts), "\r\n");
  }

  lemma LineShape(a: string, n: string, k: string, c: string, d: string, e: string)
    ensures ("m=" + a + " " + (" " + n + k) + c + d + e)[2..] == a + ("  " + n + (k + (c + (d + e))))
  {
  }

  /** A media type, then whatever the next stage reads. */
  lemma ParseMediaStep(fixed: bool, t: MediaType, x: string)
    ensures ParseMediaWith(fixed, ShowMediaType(t) + x) == MediaFromPort(fixed, x, t)
  {
    var s := ShowMediaType(t) + x;
    assert s[0] == ShowMediaType(t)[0];
    SkipWsNone(s);
    MediaTypeRoundTrip(t, x);
  }

  /** Whitespace and a decimal port, then whatever the next stage reads. */
  lemma MediaFromPortStep(fixed: bool, w: string, port: u16, z: string, media: MediaType)
    requires All(IsMultispace, w) && StopsAt(IsDigit, z)
    ensures MediaFromPort(fixed, w + ShowNat(port) + z, media) == MediaFromCount(fixed, z, media, port)
  {
    var digits := ShowNat(port) + z;
    assert w + ShowNat(port) + z == w + digits;
    assert digits[0] == ShowNat(port)[0];
    SkipWsSplit(w, digits);
    NumberShow(port, U16_MAX, z);
  }

  /** A decimal port too large for a `u16` fails the parse. */
  lemma MediaFromPortOverflow(w: string, port: nat, z: string, media: MediaType)
    requires All(IsMultispace, w) && StopsAt(IsDigit, z) && port > U16_MAX
    ensures MediaFromPort(false, w + ShowNat(port) + z, media).Error?
  {
    var digits := ShowNat(port) + z;
    assert w + ShowNat(port) + z == w + digits;
    assert digits[0] == ShowNat(port)[0];
    SkipWsSplit(w, digits);
    NumberOverflow(port, U16_MAX, z);
  }

  /** The count as the display writes it, then the protocol. */
  lemma MediaFromCountStep(fixed: bool, portsNum: Option<u32>, y: string, media: MediaType, port: u16)
    requires y != [] && !IsMultispace(y[0]) && y[0] != '/'
    ensures MediaFromCount(fixed, ShowCount(portsNum) + y, media, port)
         == MediaFromProto(fixed, y, media, port, portsNum)
  {
    var pn := OptSlashNum(SkipWs(ShowCount(portsNum) + y));
    CountReadsBack(portsNum, y);
    SkipWsNone(y);
    assert MediaFromProto(fixed, pn.0, media, port, portsNum) == MediaFromProto(fixed, y, media, port, portsNum);
  }

  /** The count as the display writes it reads back, and the whitespace
      after it is skipped. */
  lemma CountReadsBack(portsNum: Option<u32>, y: string)
    requires y != [] && !IsMultispace(y[0]) && y[0] != '/'
    ensures var pn := OptSlashNum(SkipWs(ShowCount(portsNum) + y));
      SkipWs(pn.0) == y && pn.1 == portsNum
  {
    match portsNum
    case None =>
      assert SkipWs(ShowCount(portsNum) + y) == y by { SkipWsSplit(" ", y); }
      assert SlashNum(y).Error?;
      SkipWsNone(y);
    case Some(n) =>
      var rest := " " + y;
      var z := "/" + ShowNat(n) + rest;
      assert ShowCount(portsNum) + y == z;
      assert SkipWs(z) == z by { SkipWsNone(z); }
      assert OptSlashNum(z) == (rest, Some(n)) by { SlashNumShow(n, rest); }
      assert SkipWs(rest) == y by { SkipWsSplit(" ", y); }
  }

  /** The protocol and formats that read back, and nothing after them:
      every protocol through the fixed parser, all but "RTP/SAVPF" through
      the parser as written. */
  lemma MediaFromProtoStep(fixed: bool, proto: TransportProtocol, f: string, fmts: seq<u32>, media: MediaType,
                           port: u16, portsNum: Option<u32>)
    requires ProtoRoundTrips(proto) && (fixed || !proto.RtpSavpf?)
    requires StopsAt(NotWhitespace, f) && Fmts(SkipWs(f)) == ("", fmts)
    ensures MediaFromProto(fixed, ShowProto(proto) + f, media, port, portsNum)
         == Done("", MediaDescription(media, port, portsNum, proto, fmts))
  {
    var y := ShowProto(proto) + f;
    ShowProtoStart(proto);
    assert y[0] == ShowProto(proto)[0];
    SkipWsNone(y);
    if fixed {
      ProtoFixedRoundTrip(proto, f);
    } else {
      ProtoRoundTrip(proto, f);
    }
    SkipWsNone("");
  }

  /** The stages up to the protocol: a line laid out as the display lays
      it out, with any whitespace after the media type, reaches the
      protocol stage with the port and the count read. */
  lemma MediaPrefix(fixed: bool, t: MediaType, w: string, port: u16, portsNum: Option<u32>, y: string)
    requires All(IsMultispace, w) && y != [] && !IsMultispace(y[0]) && y[0] != '/'
    ensures ParseMediaWith(fixed, ShowMediaType(t) + (w + ShowNat(port) + (ShowCount(portsNum) + y)))
         == MediaFromProto(fixed, y, t, port, portsNum)
  {
    var z := ShowCount(portsNum) + y;
    ParseMediaStep(fixed, t, w + ShowNat(port) + z);
    MediaFromPortStep(fixed, w, port, z, t);
    MediaFromCountStep(fixed, portsNum, y, t, port);
  }

  /** A line laid out as the display lays it out, with any whitespace
      after the media type and any formats text that reads back, parses to
      its pieces and leaves nothing over: through the parser as written
      when the protocol is not "RTP/SAVPF", through the fixed one always. */
  lemma ParseMediaLine(fixed: bool, t: MediaType, w: string, port: u16, portsNum: Option<u32>,
                       proto: TransportProtocol, f: string, fmts: seq<u32>)
    requires All(IsMultispace, w) && ProtoRoundTrips(proto) && (fixed || !proto.RtpSavpf?)
    requires StopsAt(NotWhitespace, f) && Fmts(SkipWs(f)) == ("", fmts)
    ensures ParseMediaWith(fixed, ShowMediaType(t) + (w + ShowNat(port) + (ShowCount(portsNum) + (ShowProto(proto) + f))))
         == Done("", MediaDescription(t, port, portsNum, proto, fmts))
  {
    var y := ShowProto(proto) + f;
    ShowProtoStart(proto);
    assert y[0] == ShowProto(proto)[0];
    MediaPrefix(fixed, t, w, port, portsNum, y);
    MediaFromProtoStep(fixed, proto, f, fmts, t, port, portsNum);
  }

  /** A description whose protocol reads back reads back from its display
      with the leading "m=" removed, leaving nothing over. */
  lemma MediaRoundTripWith(fixed: bool, m: MediaDescription)
    requires ProtoRoundTrips(m.proto) && (fixed || !m.proto.RtpSavpf?)
    ensures ParseMediaWith(fixed, ShowMedia(m)[2..]) == Done("", m)
  {
    var f := ShowFmts(m.fmts) + "\r\n";
    var line := ShowMediaType(m.media) + ("  " + ShowNat(m.port) + (ShowCount(m.portsNum) + (ShowProto(m.proto) + f)));
    assert ShowMedia(m)[2..] == line by {
      ShowMediaLayout(m);
    }
    assert ParseMediaWith(fixed, line) == Done("", MediaDescription(m.media, m.port, m.portsNum, m.proto, m.fmts)) by {
      FmtsLineStart(m.fmts);
      FmtsRoundTrip(m.fmts);
      ParseMediaLine(fixed, m.media, "  ", m.port, m.portsNum, m.proto, f, m.fmts);
    }
  }

  /** The parser as written reads back every description but those with
      the "RTP/SAVPF" protocol. */
  lemma MediaRoundTrip(m: MediaDescription)
    requires ProtoRoundTrips(m.proto) && !m.proto.RtpSavpf?
    ensures ParseMedia(ShowMedia(m)[2..]) == Done("", m)
  {
    MediaRoundTripWith(false, m);
  }

  /** The fixed parser reads back every description, "RTP/SAVPF" included. */
  lemma MediaFixedRoundTrip(m: MediaDescription)
    requires ProtoRoundTrips(m.proto)
    ensures ParseMediaFixed(ShowMedia(m)[2..]) == Done("", m)
  {
    MediaRoundTripWith(true, m);
  }

  /** As written, a "RTP/SAVPF" description reads back as RTP/SAVP without
      formats, the "F" and everything after it left over. */
  lemma SavpfMediaAsWritten(m: MediaDescription)
    requires m.proto.RtpSavpf?
    ensures ParseMedia(ShowMedia(m)[2..])
         == Done("F" + (ShowFmts(m.fmts) + "\r\n"), MediaDescription(m.media, m.port, m.portsNum, RtpSavp, []))
  {
    var f := ShowFmts(m.fmts) + "\r\n";
    var y := ShowProto(RtpSavpf) + f;
    var line := ShowMediaType(m.media) + ("  " + ShowNat(m.port) + (ShowCount(m.portsNum) + y));
    assert ShowMedia(m)[2..] == line by {
      ShowMediaLayout(m);
    }
    assert ParseMediaWith(false, line) == Done("F" + f, MediaDescription(m.media, m.port, m.portsNum, RtpSavp, [])) by {
      SavpfLine(m.media, m.port, m.portsNum, f);
    }
  }

  /** The line of `SavpfMediaAsWritten`, stage by stage. */
  lemma SavpfLine(t: MediaType, port: u16, portsNum: Option<u32>, f: string)
    ensures ParseMediaWith(false, ShowMediaType(t) + ("  " + ShowNat(port) + (ShowCount(portsNum) + (ShowProto(RtpSavpf) + f))))
         == Done("F" + f, MediaDescription(t, port, portsNum, RtpSavp, []))
  {
    var y := ShowProto(RtpSavpf) + f;
    assert y[0] == 'R';
    MediaPrefix(false, t, "  ", port, portsNum, y);
    SavpfFormats(f, t, port, portsNum);
  }

  /** The protocol stage on "RTP/SAVPF": RTP/SAVP, and no format before
      the "F". */
  lemma SavpfFormats(f: string, media: MediaType, port: u16, portsNum: Option<u32>)
    ensures MediaFromProto(false, ShowProto(RtpSavpf) + f, media, port, portsNum)
         == Done("F" + f, MediaDescription(media, port, portsNum, RtpSavp, []))
  {
    var y := ShowProto(RtpSavpf) + f;
    assert y[0] == 'R';
    SkipWsNone(y);
    SavpfShadowed(f);
    var g := "F" + f;
    assert g[0] == 'F';
    SkipWsNone(g);
    assert Number(g, U32_MAX).Error?;
  }

  /** A port beyond the `u16` range is an error, whatever follows. */
  lemma PortOverflow(t: MediaType, port: nat, rest: string)
    requires port > U16_MAX && StopsAt(IsDigit, rest)
    ensures ParseMedia(ShowMediaType(t) + (" " + ShowNat(port) + rest)).Error?
  {
    ParseMediaStep(false, t, " " + ShowNat(port) + rest);
    MediaFromPortOverflow(" ", port, rest, t);
  }

  /** "audio 49170 RTP/AVP 0" is an audio description on port 49170 with no
      port count, RTP/AVP and the single format 0. */
  lemma MediaExample()
    ensures ParseMedia("audio 49170 RTP/AVP 0")
         == Done("", MediaDescription(Audio, 49170, None, RtpAvp, [0]))
  {
    var port: u16, f := 49170, " 0";
    FmtsOne();
    ParseMediaLine(false, Audio, " ", port, None, RtpAvp, f, [0]);
    MediaExampleLayout();
  }

  lemma MediaExampleLayout()
    ensures "audio 49170 RTP/AVP 0"
         == ShowMediaType(Audio) + (" " + ShowNat(49170) + (ShowCount(None) + (ShowProto(RtpAvp) + " 0")))
  {
    ShowPort();
  }

  lemma ShowPort()
    ensures ShowNat(49170) == "49170"
  {
    assert ShowNat(4) == "4";
    assert ShowNat(49) == ShowNat(4) + "9";
    assert ShowNat(491) == ShowNat(49) + "1";
    assert ShowNat(4917) == ShowNat(491) + "7";
    assert ShowNat(49170) == ShowNat(4917) + "0";
  }

  /** " 0" at the end of the input is the single format 0. */
  lemma FmtsOne()
    ensures Fmts(SkipWs(" 0")) == ("", [0])
  {
    assert ShowNat(0) == "0";
    assert " 0" == " " + ShowNat(0) + "";
    FmtsStep(0, "");
    FmtsNone();
    assert [0] + [] == [0];
  }

  /** The end of the input ends the formats. */
  lemma FmtsNone()
    ensures Fmts(SkipWs("")) == ("", [])
  {
    SkipWsNone("");
    assert Number("", U32_MAX).Error?;
  }
}
