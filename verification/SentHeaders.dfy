/** What the proxy of the program sends of an applied security profile: it compiles the rules that are
    valid, fills in their placeholders for each response, and sends what is a header value. */
module SentHeaders {
  import opened Basics
  import opened Text
  import opened HeaderRules
  import opened SecurityRules
  import opened SecurityProfiles
  import HeaderTemplate

  /** The text of each placeholder in one response. */
  type Variables = HeaderTemplate.Variable -> string

  function Fill(vars: Variables, parts: seq<HeaderTemplate.Part>): string {
    if parts == [] then []
    else (if parts[0].Literal? then parts[0].text else vars(parts[0].variable)) + Fill(vars, parts[1..])
  }

  /** `HeaderValue::from_str` accepts visible ASCII characters, blanks and tabs. */
  predicate IsHeaderValue(s: string) {
    forall i :: 0 <= i < |s| ==> ' ' <= s[i] <= '~' || s[i] == '\t'
  }

  function Filled(vars: Variables, value: string): Option<string> {
    match HeaderTemplate.Parse(HeaderTemplate.Name, value)
    case None => None
    case Some(parts) => if IsHeaderValue(Fill(vars, parts)) then Some(Fill(vars, parts)) else None
  }

  predicate IsValid(r: HeaderRule) { Validate(r).None? }

  function ProgramProxy(vars: Variables): Proxy {
    Proxy(IsValid, (value: string) => Filled(vars, value))
  }

  // ---- Values without placeholders

  /** Visible characters and blanks, and no brace. */
  predicate IsPlain(s: string) {
    forall i :: 0 <= i < |s| ==> ' ' <= s[i] <= '~' && !HeaderTemplate.IsBrace(s[i])
  }

  lemma {:induction false} PlainHasNoBrace(s: string)
    requires IsPlain(s)
    ensures HeaderTemplate.BraceIndex(s) == |s|
  {
    if s != [] {
      var rest := s[1..];
      assert forall i :: 0 <= i < |rest| ==> rest[i] == s[i + 1];
      PlainHasNoBrace(rest);
    }
  }

  /** A plain value is one literal, which is sent as it is written. */
  lemma {:induction false} PlainIsSent(vars: Variables, s: string)
    requires IsPlain(s)
    ensures HeaderTemplate.Parse(HeaderTemplate.Name, s).Some? && Filled(vars, s) == Some(s)
  {
    var parts := HeaderTemplate.WithLiteral([], s);
    assert HeaderTemplate.Parse(HeaderTemplate.Name, s) == Some(parts) by {
      assert HeaderTemplate.Allowed(s);
      PlainHasNoBrace(s);
      HeaderTemplate.SkipToBrace(HeaderTemplate.Name, s, [], []);
      assert s[|s|..] == [] && [] + s[..|s|] == s;
    }
    if s == [] {
      assert parts == [] && Fill(vars, parts) == s;
    } else {
      assert parts == [HeaderTemplate.Literal(s)] && parts[1..] == [];
      assert Fill(vars, parts) == s + [] == s;
    }
    assert IsHeaderValue(s);
  }

  lemma PlainPair(a: string, b: string)
    requires IsPlain(a) && IsPlain(b)
    ensures IsPlain(a + b)
  {
  }

  lemma PlainFour(a: string, b: string, c: string, d: string)
    requires IsPlain(a) && IsPlain(b) && IsPlain(c) && IsPlain(d)
    ensures IsPlain(a + b + c) && IsPlain(a + b + c + d)
  {
    PlainPair(a, b);
    PlainPair(a + b, c);
    PlainPair(a + b + c, d);
  }

  lemma PlainEight(
    a: string, b: string, c: string, d: string, e: string, f: string, g: string, h: string)
    requires IsPlain(a) && IsPlain(b) && IsPlain(c) && IsPlain(d)
    requires IsPlain(e) && IsPlain(f) && IsPlain(g) && IsPlain(h)
    ensures IsPlain(a + b + c + d + e) && IsPlain(a + b + c + d + e + f + g + h)
  {
    PlainFour(a, b, c, d);
    PlainFour(a + b + c + d, e, f, g);
    PlainPair(a + b + c + d, e);
    PlainPair(a + b + c + d + e + f + g, h);
  }

  lemma SourcesArePlain()
    ensures IsPlain("default-src") && IsPlain(" 'self'; ") && IsPlain(" 'none'; ")
  {
  }

  lemma StrictPartsArePlain()
    ensures IsPlain("form-action 'self'") && IsPlain("base-uri 'self'; ") && IsPlain("object-src 'none'; ")
  {
  }

  lemma AncestorsArePlain()
    ensures IsPlain("frame-ancestors 'none'; ") && IsPlain("frame-ancestors 'none'")
    ensures IsPlain("frame-ancestors 'self'")
  {
  }

  lemma ScriptsArePlain()
    ensures IsPlain("script-src 'self' 'unsafe-inline' ") && IsPlain("'unsafe-eval'; ")
  {
  }

  lemma StylesArePlain()
    ensures IsPlain("script-src 'self'; ") && IsPlain("style-src 'self' 'unsafe-inline'; ")
  {
  }

  lemma ImagesArePlain()
    ensures IsPlain("img-src 'self' data: https:; ") && IsPlain("img-src 'self' data: blob:; ")
  {
  }

  lemma LinksArePlain()
    ensures IsPlain("connect-src 'self'; ") && IsPlain("connect-src 'self' wss: https:; ")
  {
  }

  lemma OthersArePlain()
    ensures IsPlain("font-src 'self' data:; ") && IsPlain("worker-src 'self' blob:; ")
  {
  }

  lemma StrictCspIsPlain()
    ensures IsPlain(CspTail(Strict))
  {
    SourcesArePlain();
    StrictPartsArePlain();
    AncestorsArePlain();
    PlainEight(" 'self'; ", "base-uri 'self'; ", "object-src 'none'; ", "frame-ancestors 'none'; ",
               "form-action 'self'", [], [], []);
  }

  lemma BalancedCspIsPlain()
    ensures IsPlain(CspTail(Balanced))
  {
    SourcesArePlain();
    AncestorsArePlain();
    ScriptsArePlain();
    StylesArePlain();
    ImagesArePlain();
    LinksArePlain();
    OthersArePlain();
    PlainEight(" 'self'; ", "script-src 'self' 'unsafe-inline' ", "'unsafe-eval'; ",
               "style-src 'self' 'unsafe-inline'; ", "img-src 'self' data: https:; ", "font-src 'self' data:; ",
               "connect-src 'self'; ", "frame-ancestors 'self'");
  }

  lemma ApiCspIsPlain()
    ensures IsPlain(CspTail(ApiOnly))
  {
    SourcesArePlain();
    AncestorsArePlain();
    PlainPair(" 'none'; ", "frame-ancestors 'none'");
  }

  lemma SpaCspIsPlain()
    ensures IsPlain(CspTail(SpaFrontend))
  {
    SourcesArePlain();
    AncestorsArePlain();
    ScriptsArePlain();
    StylesArePlain();
    ImagesArePlain();
    LinksArePlain();
    OthersArePlain();
    PlainEight(" 'self'; ", "script-src 'self'; ", "style-src 'self' 'unsafe-inline'; ", "img-src 'self' data: blob:; ",
               "font-src 'self' data:; ", "connect-src 'self' wss: https:; ", "worker-src 'self' blob:; ",
               "frame-ancestors 'self'");
  }

  lemma CspIsPlain(p: Profile)
    ensures IsPlain(CspValue(p))
  {
    match p {
      case Strict => StrictCspIsPlain();
      case Balanced => BalancedCspIsPlain();
      case ApiOnly => ApiCspIsPlain();
      case SpaFrontend => SpaCspIsPlain();
    }
    SourcesArePlain();
    PlainPair("default-src", CspTail(p));
  }

  lemma SensorsArePlain()
    ensures IsPlain("accelerometer=(), ") && IsPlain("gyroscope=(), ") && IsPlain("magnetometer=(), ")
    ensures IsPlain("payment=(), ") && IsPlain("usb=()")
  {
  }

  lemma DevicesArePlain()
    ensures IsPlain("camera=(), ") && IsPlain("geolocation=(), ") && IsPlain("microphone=(), ")
    ensures IsPlain("geolocation=()")
  {
  }

  lemma PermissionsIsPlain(p: Profile)
    ensures IsPlain(PermissionsValue(p))
  {
    SensorsArePlain();
    DevicesArePlain();
    if p == Strict {
      PlainEight("accelerometer=(), ", "camera=(), ", "geolocation=(), ", "gyroscope=(), ", "magnetometer=(), ",
                 "microphone=(), ", "payment=(), ", "usb=()");
    } else {
      PlainFour("camera=(), ", "microphone=(), ", "geolocation=()", []);
    }
  }

  lemma AgesArePlain()
    ensures IsPlain("max-age=") && IsPlain("63072000; ") && IsPlain("31536000; ") && IsPlain("includeSubDomains")
    ensures IsPlain("; preload") && IsPlain("")
  {
  }

  lemma HstsIsPlain(p: Profile)
    ensures IsPlain(HstsValue(p))
  {
    AgesArePlain();
    if p == Strict {
      PlainFour("max-age=", "63072000; ", "includeSubDomains", "; preload");
    } else {
      PlainFour("max-age=", "31536000; ", "includeSubDomains", "");
    }
  }

  lemma FrameIsPlain(p: Profile)
    ensures IsPlain(FrameValue(p))
  {
  }

  lemma ReferrerIsPlain(p: Profile)
    ensures IsPlain(ReferrerValue(p))
  {
    PlainPair("no-referrer", "");
    PlainPair("strict-origin", "-when-cross-origin");
  }

  lemma FixedIsPlain(h: Header)
    ensures IsPlain(FixedValue(h))
  {
  }

  lemma ValueIsPlain(p: Profile, h: Header)
    ensures IsPlain(ProgramTexts().Value(p, h))
  {
    match h {
      case Hsts => HstsIsPlain(p);
      case Csp => CspIsPlain(p);
      case Permissions => PermissionsIsPlain(p);
      case Frame => FrameIsPlain(p);
      case Referrer => ReferrerIsPlain(p);
      case _ => FixedIsPlain(h);
    }
  }

  // ---- The names

  lemma AuditedNameIsValid(h: Header)
    requires h == Hsts || h == ContentType || h == Frame
    ensures IsHeaderName(HeaderName(h))
  {
  }

  lemma PolicyNameIsValid(h: Header)
    requires h == Referrer || h == Permissions || h == Csp
    ensures IsHeaderName(HeaderName(h))
  {
  }

  lemma OtherNameIsValid(h: Header)
    requires h == Opener || h == Resource || h == Cache
    ensures IsHeaderName(HeaderName(h))
  {
  }

  lemma NameIsHeaderName(h: Header)
    ensures IsHeaderName(HeaderName(h))
  {
    match h {
      case Hsts | ContentType | Frame => AuditedNameIsValid(h);
      case Referrer | Permissions | Csp => PolicyNameIsValid(h);
      case _ => OtherNameIsValid(h);
    }
  }

  lemma ProtectedLengths(h: Header)
    ensures forall i :: 0 <= i < |PROTECTED| ==> |PROTECTED[i]| != NameLength(h)
  {
  }

  lemma {:induction false} OtherLength(name: string, h: Header)
    requires |name| == NameLength(h)
    requires forall i :: 0 <= i < |PROTECTED| ==> |PROTECTED[i]| != NameLength(h)
    ensures !IsProtected(name)
  {
    forall i | 0 <= i < |PROTECTED| ensures !EqIgnoreCase(PROTECTED[i], name) {
      SecurityProfiles.LengthsDiffer(PROTECTED[i], name);
    }
  }

  lemma {:induction false} NotProtected(h: Header)
    ensures !IsProtected(HeaderName(h))
  {
    NameHasShape(h);
    ProtectedLengths(h);
    OtherLength(HeaderName(h), h);
  }

  /** The rules of every profile are valid and sent as they are written, in every response. */
  lemma ProfileIsAsWritten(vars: Variables, p: Profile, h: Header)
    ensures AsWritten(ProgramProxy(vars), Set(HeaderName(h), ProgramTexts().Value(p, h)))
  {
    NameIsHeaderName(h);
    NotProtected(h);
    ValueIsPlain(p, h);
    PlainIsSent(vars, ProgramTexts().Value(p, h));
  }

  lemma {:induction false} SentUnlessOpposed(
    t: Texts, px: Proxy, rules: seq<HeaderRule>, p: Profile, j: nat, own: seq<string>)
    requires t.Clear() && j < |Headers(p)|
    requires AsWritten(px, Set(t.name(Headers(p)[j]), t.Value(p, Headers(p)[j])))
    ensures var r := Set(t.name(Headers(p)[j]), t.Value(p, Headers(p)[j]));
      Sends(t.fold, px, PutAll(t.fold, rules, GenerateRules(t, p)), r, own) <==> Unopposed(t.fold, px, rules, r)
  {
    ProfileIsDistinct(t, p);
    SentIffUnopposed(t.fold, px, rules, GenerateRules(t, p), j, own);
  }

  /** The exact condition in the program: in every response a header of an applied profile is sent if and
      only if the last rule behind the first with its name that does something, if any, sends the same
      value. */
  lemma {:induction false} ProfileIsSentUnlessOpposed(
    vars: Variables, rules: seq<HeaderRule>, p: Profile, j: nat, own: seq<string>)
    requires j < |Headers(p)|
    ensures var t, px, h := ProgramTexts(), ProgramProxy(vars), Headers(p)[j];
      var r := Set(t.name(h), t.Value(p, h));
      Sends(t.fold, px, PutAll(t.fold, rules, GenerateRules(t, p)), r, own) <==> Unopposed(t.fold, px, rules, r)
  {
    ProgramIsClear();
    ProfileIsAsWritten(vars, p, Headers(p)[j]);
    SentUnlessOpposed(ProgramTexts(), ProgramProxy(vars), rules, p, j, own);
  }
}
