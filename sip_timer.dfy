/** The SIP `Session-Expires` header of the session timer extension
    (crates/sip-types/src/header/typed/timer.rs; section 4 of RFC 4028): a
    number of seconds and an optional `refresher` parameter naming the side
    that refreshes the session. */
module SipTimer {
  import opened TextParse

  datatype Refresher = Unspecified | Uas | Uac

  datatype SessionExpires = SessionExpires(deltaSecs: u32, refresher: Refresher)

  /** A header parameter, `;name=value`; one written without a value has
      the empty value here. */
  datatype Param = Param(name: string, value: string)

  datatype Option<+T> = None | Some(value: T)

  /** `Params::take(name)`: the first parameter with that name. */
  function TakeParam(ps: seq<Param>, name: string): (r: Option<Param>)
    ensures r.Some? ==> r.value in ps && r.value.name == name
    ensures r.None? <==> forall j :: 0 <= j < |ps| ==> ps[j].name != name
    ensures r.Some? ==> exists j :: 0 <= j < |ps| && ps[j] == r.value && forall i :: 0 <= i < j ==> ps[i].name != name
  {
    if ps == [] then None
    else if ps[0].name == name then Some(ps[0])
    else
      var r := TakeParam(ps[1..], name);
      assert forall j :: 1 <= j < |ps| ==> ps[j] == ps[1..][j - 1];
      r
  }

  /** The refresher a parameter list names: "uas" and "uac" pick a side,
      any other value, or no `refresher` parameter at all, picks none. */
  function RefresherOf(ps: seq<Param>): (r: Refresher)
    ensures r == Uas <==> TakeParam(ps, "refresher").Some? && TakeParam(ps, "refresher").value.value == "uas"
    ensures r == Uac <==> TakeParam(ps, "refresher").Some? && TakeParam(ps, "refresher").value.value == "uac"
    ensures TakeParam(ps, "refresher").None? ==> r == Unspecified
  {
    match TakeParam(ps, "refresher")
    case None => Unspecified
    case Some(p) =>
      if p.value == "uas" then Uas
      else if p.value == "uac" then Uac
      else Unspecified
  }

  /** `map_res(alphanumeric1, u32::from_str)`: the longest non-empty run of
      letters and digits, which must be all digits and fit a `u32`. */
  function DeltaSecs(s: string): (r: IResult<nat>)
    ensures r.Done? ==> r.value <= U32_MAX && |r.rest| < |s|
  {
    var run := TakeWhile(IsAsciiAlphanumeric, s);
    if run.value == [] || !All(IsDigit, run.value) then Error
    else
      var v := DigitsValue(run.value);
      if v > U32_MAX then Error else Done(run.rest, v)
  }

  /** `SessionExpires::parse`, with `Params::<CPS>::parse` (whose grammar
      this model does not define) given as `params`; whitespace is skipped
      around the number and the parameters (the `ws` combinator). */
  function ParseSessionExpires(params: string -> IResult<seq<Param>>, s: string): (r: IResult<SessionExpires>)
    ensures r.Done? ==> StopsAt(IsMultispace, r.rest)
  {
    match DeltaSecs(SkipWs(s))
    case Error => Error
    case Done(s1, delta) =>
      match params(SkipWs(s1))
      case Error => Error
      case Done(s2, ps) => Done(SkipWs(s2), SessionExpires(delta as u32, RefresherOf(ps)))
  }

  /** The parameter text `print` writes for a refresher. */
  function RefresherText(r: Refresher): (s: string)
    ensures s != [] ==> s[0] == ';'
  {
    match r
    case Unspecified => ""
    case Uas => ";refresher=uas"
    case Uac => ";refresher=uac"
  }

  /** `Print for SessionExpires`: the seconds, then the refresher
      parameter when there is one. */
  function PrintSessionExpires(se: SessionExpires): string
  {
    ShowNat(se.deltaSecs) + RefresherText(se.refresher)
  }

  /** The parameter list the parameter text of each refresher stands for. */
  function RefresherParams(r: Refresher): seq<Param>
  {
    match r
    case Unspecified => []
    case Uas => [Param("refresher", "uas")]
    case Uac => [Param("refresher", "uac")]
  }

  /** What the round trip needs of the parameter parser: it reads the
      refresher texts `print` writes, and nothing, as those lists. */
  predicate ReadsRefresherText(params: string -> IResult<seq<Param>>) {
    forall r: Refresher :: params(RefresherText(r)) == Done("", RefresherParams(r))
  }

  /** The refresher each of those lists names is the one written. */
  lemma RefresherOfParams(r: Refresher)
    ensures RefresherOf(RefresherParams(r)) == r
  {
  }

  /** A decimal number followed by something that is neither a letter nor
      a digit reads as that number. */
  lemma DeltaSecsShow(n: nat, rest: string)
    requires n <= U32_MAX && StopsAt(IsAsciiAlphanumeric, rest)
    ensures DeltaSecs(ShowNat(n) + rest) == Done(rest, n)
  {
    var d := ShowNat(n);
    forall k | 0 <= k < |d|
      ensures IsAsciiAlphanumeric(d[k])
    {
      assert IsDigit(d[k]);
    }
    TakeWhileSplit(IsAsciiAlphanumeric, d, rest);
    ShowNatValue(n);
  }

  /** A value beyond the `u32` range is an error. */
  lemma DeltaSecsOverflow(n: nat, rest: string)
    requires n > U32_MAX && StopsAt(IsAsciiAlphanumeric, rest)
    ensures DeltaSecs(ShowNat(n) + rest).Error?
  {
    var d := ShowNat(n);
    forall k | 0 <= k < |d|
      ensures IsAsciiAlphanumeric(d[k])
    {
      assert IsDigit(d[k]);
    }
    TakeWhileSplit(IsAsciiAlphanumeric, d, rest);
    ShowNatValue(n);
  }

  /** A letter anywhere in the alphanumeric run makes the header invalid:
      "1000abc" is not a number of seconds. */
  lemma DeltaSecsLetters(params: string -> IResult<seq<Param>>, a: string, rest: string, k: nat)
    requires All(IsAsciiAlphanumeric, a) && StopsAt(IsAsciiAlphanumeric, rest)
    requires k < |a| && !IsDigit(a[k])
    ensures ParseSessionExpires(params, a + rest).Error?
  {
    assert (a + rest)[0] == a[0];
    SkipWsNone(a + rest);
    TakeWhileSplit(IsAsciiAlphanumeric, a, rest);
  }

  /** Printing and parsing back gives the same seconds and refresher, for
      every refresher, when the parameter parser reads the parameter text
      `print` writes. */
  lemma PrintParseRoundTrip(params: string -> IResult<seq<Param>>, se: SessionExpires)
    requires ReadsRefresherText(params)
    ensures ParseSessionExpires(params, PrintSessionExpires(se)) == Done("", se)
  {
    var d, t := ShowNat(se.deltaSecs), RefresherText(se.refresher);
    var s := d + t;
    assert s[0] == d[0];
    SkipWsNone(s);
    DeltaSecsShow(se.deltaSecs, t);
    SkipWsNone(t);
    assert params(t) == Done("", RefresherParams(se.refresher));
    RefresherOfParams(se.refresher);
    SkipWsNone("");
  }

  lemma ShowThousand()
    ensures ShowNat(1000) == "1000"
  {
  }

  lemma TextUac()
    ensures PrintSessionExpires(SessionExpires(1000, Uac)) == "1000;refresher=uac"
  {
    ShowThousand();
    assert "1000" + ";refresher=uac" == "1000;refresher=uac";
  }

  lemma TextUas()
    ensures PrintSessionExpires(SessionExpires(1000, Uas)) == "1000;refresher=uas"
  {
    ShowThousand();
    assert "1000" + ";refresher=uas" == "1000;refresher=uas";
  }

  lemma TextUnspecified()
    ensures PrintSessionExpires(SessionExpires(1000, Unspecified)) == "1000"
  {
    ShowThousand();
    assert "1000" + "" == "1000";
  }

  /** "1000;refresher=uac" is 1000 seconds refreshed by the client. */
  lemma ExampleUac(params: string -> IResult<seq<Param>>)
    requires ReadsRefresherText(params)
    ensures ParseSessionExpires(params, "1000;refresher=uac") == Done("", SessionExpires(1000, Uac))
  {
    TextUac();
    PrintParseRoundTrip(params, SessionExpires(1000, Uac));
  }

  /** "1000;refresher=uas" is 1000 seconds refreshed by the server. */
  lemma ExampleUas(params: string -> IResult<seq<Param>>)
    requires ReadsRefresherText(params)
    ensures ParseSessionExpires(params, "1000;refresher=uas") == Done("", SessionExpires(1000, Uas))
  {
    TextUas();
    PrintParseRoundTrip(params, SessionExpires(1000, Uas));
  }

  /** "1000" alone is 1000 seconds with no refresher named. */
  lemma ExampleUnspecified(params: string -> IResult<seq<Param>>)
    requires ReadsRefresherText(params)
    ensures ParseSessionExpires(params, "1000") == Done("", SessionExpires(1000, Unspecified))
  {
    TextUnspecified();
    PrintParseRoundTrip(params, SessionExpires(1000, Unspecified));
  }
}
