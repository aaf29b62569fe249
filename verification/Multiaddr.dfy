/** Multiaddresses such as `/dns/example.com/tcp/8080/https/path`: a parser that skips unknown
    segments, a printer that hides TLS in the scheme of HTTP, and the accessors. */
module Multiaddr {
  import opened Basics
  import opened Text
  import opened Net
  import Decimal

  datatype Protocol = Dns(host: string) | Ip(addr: IpAddr) | Tcp(port: nat) | Udp(port: nat) | Tls
      | Http(path: string) | Quic

  datatype Keyword = KDns | KIp4 | KIp6 | KTcp | KUdp | KTls | KQuic | KHttp | KHttps | KUnknown

  function KeywordOf(s: string): Keyword {
    if s == "dns" then KDns
    else if s == "ip4" then KIp4
    else if s == "ip6" then KIp6
    else if s == "tcp" then KTcp
    else if s == "tls" then KTls
    else if s == "quic" then KQuic
    else if s == "http" then KHttp
    else if s == "https" then KHttps
    else if s == "udp" then KUdp
    else KUnknown
  }

  function WordOf(k: Keyword): string {
    match k
    case KDns => "dns"
    case KIp4 => "ip4"
    case KIp6 => "ip6"
    case KTcp => "tcp"
    case KUdp => "udp"
    case KTls => "tls"
    case KQuic => "quic"
    case KHttp => "http"
    case KHttps => "https"
    case KUnknown => "unknown"
  }

  /** The words of an address and the text form of IP addresses, which the standard library defines.
      The parser and the printer are stated for any grammar that is clear. */
  datatype Grammar = Grammar(keyword: string -> Keyword, word: Keyword -> string,
                             parsePort: string -> Option<nat>, formatPort: nat -> string,
                             parseIp: string -> Option<IpAddr>, formatIp: IpAddr -> string) {

    ghost predicate Clear() {
      && (forall k :: k != KUnknown ==> keyword(word(k)) == k && word(k) != [] && '/' !in word(k))
      && (forall s :: parsePort(s).Some? ==> parsePort(s).value <= 0xFFFF)
      && (forall n: nat :: n <= 0xFFFF ==> parsePort(formatPort(n)) == Some(n) && '/' !in formatPort(n))
      && (forall ip :: parseIp(formatIp(ip)) == Some(ip) && '/' !in formatIp(ip))
    }
  }

  function ParsePort(s: string): Option<nat> {
    Decimal.Parse(s, 0xFFFF)
  }

  function FormatPort(n: nat): string {
    Decimal.Print(n)
  }

  /** The words and the ports of the program are clear, whatever text form addresses have. */
  lemma ProgramIsClear(g: Grammar)
    requires g.keyword == KeywordOf && g.word == WordOf && g.parsePort == ParsePort && g.formatPort == FormatPort
    requires forall ip :: g.parseIp(g.formatIp(ip)) == Some(ip) && '/' !in g.formatIp(ip)
    ensures g.Clear()
  {
    WordsAreClear(g);
    forall n: nat | n <= 0xFFFF ensures g.parsePort(g.formatPort(n)) == Some(n) && '/' !in g.formatPort(n) {
      Decimal.ParseOfPrint(n, 0xFFFF);
      var text := Decimal.Print(n);
      assert forall i :: 0 <= i < |text| ==> IsDigit(text[i]);
    }
  }

  lemma WordsAreClear(g: Grammar)
    requires g.keyword == KeywordOf && g.word == WordOf
    ensures forall k :: k != KUnknown ==> g.keyword(g.word(k)) == k && g.word(k) != [] && '/' !in g.word(k)
  {
    assert "tcp"[1] != "tls"[1] && "tcp"[0] != "udp"[0] && "tls"[0] != "udp"[0] && "ip4"[0] != "tcp"[0];
    assert "dns"[0] != "ip4"[0] && "dns"[0] != "tcp"[0] && "dns"[0] != "udp"[0] && "ip4"[2] != "ip6"[2];
    assert "ip4"[0] != "udp"[0] && "quic"[0] != "http"[0];
  }

  // ---- Accessors

  predicate IsTls(ps: seq<Protocol>) { ps != [] && (ps[0].Tls? || IsTls(ps[1..])) }

  predicate IsHttp(ps: seq<Protocol>) { ps != [] && (ps[0].Http? || IsHttp(ps[1..])) }

  predicate IsUdp(ps: seq<Protocol>) { ps != [] && (ps[0].Udp? || IsUdp(ps[1..])) }

  predicate IsQuic(ps: seq<Protocol>) { ps != [] && (ps[0].Quic? || IsQuic(ps[1..])) }

  function FirstIp(ps: seq<Protocol>): Option<IpAddr> {
    if ps == [] then None else if ps[0].Ip? then Some(ps[0].addr) else FirstIp(ps[1..])
  }

  function FirstPort(ps: seq<Protocol>): Option<nat> {
    if ps == [] then None else if ps[0].Tcp? || ps[0].Udp? then Some(ps[0].port) else FirstPort(ps[1..])
  }

  function FirstHost(g: Grammar, ps: seq<Protocol>): Option<string> {
    if ps == [] then None
    else if ps[0].Dns? then Some(ps[0].host)
    else if ps[0].Ip? then Some(g.formatIp(ps[0].addr))
    else FirstHost(g, ps[1..])
  }

  /** A missing part is an error that names the address. */
  function OrInvalid<T>(g: Grammar, ps: seq<Protocol>, part: Option<T>): Result<T, string> {
    match part
    case Some(x) => Ok(x)
    case None => Err(Print(g, ps))
  }

  function SocketAddr(g: Grammar, ps: seq<Protocol>): Result<(IpAddr, nat), string> {
    match OrInvalid(g, ps, FirstIp(ps))
    case Err(e) => Err(e)
    case Ok(ip) =>
      match OrInvalid(g, ps, FirstPort(ps))
      case Err(e) => Err(e)
      case Ok(port) => Ok((ip, port))
  }

  function ProtocolName(ps: seq<Protocol>): string {
    if IsQuic(ps) then (if IsHttp(ps) then "HTTP over QUIC" else "QUIC")
    else if IsUdp(ps) then "UDP"
    else if IsHttp(ps) then (if IsTls(ps) then "HTTPS" else "HTTP")
    else if IsTls(ps) then "TCP over TLS"
    else "TCP"
  }

  ghost predicate HasTls(ps: seq<Protocol>) { exists i :: 0 <= i < |ps| && ps[i].Tls? }

  ghost predicate HasHttp(ps: seq<Protocol>) { exists i :: 0 <= i < |ps| && ps[i].Http? }

  ghost predicate HasUdp(ps: seq<Protocol>) { exists i :: 0 <= i < |ps| && ps[i].Udp? }

  ghost predicate HasQuic(ps: seq<Protocol>) { exists i :: 0 <= i < |ps| && ps[i].Quic? }

  /** Each flag tells whether the address has such a part at all. */
  lemma {:induction false} FlagsIff(ps: seq<Protocol>)
    ensures (IsTls(ps) <==> HasTls(ps)) && (IsHttp(ps) <==> HasHttp(ps))
    ensures (IsUdp(ps) <==> HasUdp(ps)) && (IsQuic(ps) <==> HasQuic(ps))
  {
    if ps != [] {
      FlagsIff(ps[1..]);
      assert forall i :: 1 <= i < |ps| ==> ps[i] == ps[1..][i - 1];
      assert forall i :: 0 <= i < |ps[1..]| ==> ps[1..][i] == ps[i + 1];
    }
  }

  ghost predicate HasIp(p: Protocol) { p.Ip? }

  ghost predicate HasPort(p: Protocol) { p.Tcp? || p.Udp? }

  ghost predicate HasHost(p: Protocol) { p.Dns? || p.Ip? }

  ghost predicate IsFirst(ps: seq<Protocol>, has: Protocol -> bool, k: nat) {
    k < |ps| && has(ps[k]) && forall i :: 0 <= i < k ==> !has(ps[i])
  }

  /** Address, port and host are those of the first part that has one; `k` is any index. */
  lemma {:induction false} FirstIff(g: Grammar, ps: seq<Protocol>, k: nat)
    ensures FirstIp(ps).None? <==> forall i :: 0 <= i < |ps| ==> !HasIp(ps[i])
    ensures FirstPort(ps).None? <==> forall i :: 0 <= i < |ps| ==> !HasPort(ps[i])
    ensures FirstHost(g, ps).None? <==> forall i :: 0 <= i < |ps| ==> !HasHost(ps[i])
    ensures IsFirst(ps, HasIp, k) ==> FirstIp(ps) == Some(ps[k].addr)
    ensures IsFirst(ps, HasPort, k) ==> FirstPort(ps) == Some(ps[k].port)
    ensures IsFirst(ps, HasHost, k) ==>
            FirstHost(g, ps) == Some(if ps[k].Dns? then ps[k].host else g.formatIp(ps[k].addr))
  {
    if ps != [] {
      var rest := ps[1..];
      FirstIff(g, rest, if k == 0 then 0 else k - 1);
      assert forall i :: 1 <= i < |ps| ==> ps[i] == rest[i - 1];
      assert forall i :: 0 <= i < |rest| ==> rest[i] == ps[i + 1];
    }
  }

  /** A socket address is the first address with the first port; without one of them the error names the
      printed address. */
  lemma SocketAddrIff(g: Grammar, ps: seq<Protocol>, i: nat, j: nat)
    ensures IsFirst(ps, HasIp, i) && IsFirst(ps, HasPort, j) ==> SocketAddr(g, ps) == Ok((ps[i].addr, ps[j].port))
    ensures (forall k :: 0 <= k < |ps| ==> !HasIp(ps[k])) || (forall k :: 0 <= k < |ps| ==> !HasPort(ps[k])) <==>
            SocketAddr(g, ps) == Err(Print(g, ps))
  {
    FirstIff(g, ps, i);
    FirstIff(g, ps, j);
  }

  /** When an address has each name. */
  lemma ProtocolNameIff(ps: seq<Protocol>)
    ensures ProtocolName(ps) == "HTTP over QUIC" <==> HasQuic(ps) && HasHttp(ps)
    ensures ProtocolName(ps) == "QUIC" <==> HasQuic(ps) && !HasHttp(ps)
    ensures ProtocolName(ps) == "UDP" <==> HasUdp(ps) && !HasQuic(ps)
    ensures ProtocolName(ps) == "HTTPS" <==> HasHttp(ps) && HasTls(ps) && !HasUdp(ps) && !HasQuic(ps)
    ensures ProtocolName(ps) == "HTTP" <==> HasHttp(ps) && !HasTls(ps) && !HasUdp(ps) && !HasQuic(ps)
    ensures ProtocolName(ps) == "TCP over TLS" <==> HasTls(ps) && !HasHttp(ps) && !HasUdp(ps) && !HasQuic(ps)
    ensures ProtocolName(ps) == "TCP" <==> !HasTls(ps) && !HasHttp(ps) && !HasUdp(ps) && !HasQuic(ps)
  {
    FlagsIff(ps);
    assert "QUIC"[0] != "HTTP"[0] && "UDP"[0] != "TCP"[0];
  }

  // ---- Parsing

  /** `split_once('/')`, or the whole text and nothing. */
  function Segment(s: string): (r: (string, string))
    ensures '/' !in r.0 && |r.1| <= |s| && (s != [] ==> |r.1| < |s|)
  {
    match SplitOnce(s, '/')
    case Some((a, b)) => (a, b)
    case None => SplitOnceNone(s, '/'); (s, [])
  }

  /** The protocols that one keyword adds, with the text behind it, and the text after its argument.
      `None` is an argument that does not parse. */
  function Read(g: Grammar, k: Keyword, next: string): (r: Option<(seq<Protocol>, string)>)
    ensures r.Some? ==> |r.value.1| <= |next|
  {
    var (arg, after) := Segment(next);
    match k
    case KDns => Some(([Dns(arg)], after))
    case KIp4 => (match g.parseIp(arg) case None => None case Some(ip) => Some(([Ip(ip)], after)))
    case KIp6 => (match g.parseIp(arg) case None => None case Some(ip) => Some(([Ip(ip)], after)))
    case KTcp => (match g.parsePort(arg) case None => None case Some(port) => Some(([Tcp(port)], after)))
    case KUdp => (match g.parsePort(arg) case None => None case Some(port) => Some(([Udp(port)], after)))
    case KTls => Some(([Tls], next))
    case KQuic => Some(([Quic], next))
    case KHttp => Some(([Http(['/'] + next)], []))
    case KHttps => Some(([Tls, Http(['/'] + next)], []))
    case KUnknown => Some(([], next))
  }

  function ParseRest(g: Grammar, rest: string): Option<seq<Protocol>>
    decreases |rest|
  {
    if rest == [] then Some([])
    else
      var (word, next) := Segment(rest);
      var step := Read(g, g.keyword(word), next);
      if step.None? then None
      else
        var qs := ParseRest(g, step.value.1);
        if qs.None? then None else Some(step.value.0 + qs.value)
  }

  /** What one step and the text behind it give. */
  function Joined(ps: seq<Protocol>, qs: Option<seq<Protocol>>): Option<seq<Protocol>> {
    if qs.None? then None else Some(ps + qs.value)
  }

  function Followed(g: Grammar, step: Option<(seq<Protocol>, string)>): Option<seq<Protocol>> {
    if step.None? then None else Joined(step.value.0, ParseRest(g, step.value.1))
  }

  function TrimSlashes(s: string): string {
    if s != [] && s[0] == '/' then TrimSlashes(s[1..]) else s
  }

  function Parse(g: Grammar, s: string): Result<seq<Protocol>, string> {
    match ParseRest(g, TrimSlashes(s))
    case None => Err(s)
    case Some(ps) => Ok(ps)
  }

  lemma {:induction false} FollowedFirst(g: Grammar, rest: string)
    ensures Followed(g, Some(([], rest))) == ParseRest(g, rest)
  {
    if ParseRest(g, rest).Some? {
      assert [] + ParseRest(g, rest).value == ParseRest(g, rest).value;
    }
  }

  lemma {:induction false} ParseStep(g: Grammar, rest: string)
    requires rest != []
    ensures var (word, next) := Segment(rest); ParseRest(g, rest) == Followed(g, Read(g, g.keyword(word), next))
  {
  }

  lemma JoinedTwice(ps: seq<Protocol>, qs: seq<Protocol>, rs: Option<seq<Protocol>>)
    ensures Joined(ps, Joined(qs, rs)) == Joined(ps + qs, rs)
  {
    if rs.Some? {
      assert ps + (qs + rs.value) == ps + qs + rs.value;
    }
  }

  lemma {:induction false} FollowedNext(
    g: Grammar, ps: seq<Protocol>, rest: string, step: Option<(seq<Protocol>, string)>)
    requires ParseRest(g, rest) == Followed(g, step)
    ensures Followed(g, Some((ps, rest))) ==
            if step.None? then None else Followed(g, Some((ps + step.value.0, step.value.1)))
  {
    if step.Some? {
      JoinedTwice(ps, step.value.0, ParseRest(g, step.value.1));
    }
  }

  lemma {:induction false} FollowedLast(g: Grammar, ps: seq<Protocol>)
    ensures Followed(g, Some((ps, []))) == Some(ps)
  {
    assert ps + [] == ps;
  }

  method FromStr(g: Grammar, s: string) returns (r: Result<seq<Protocol>, string>)
    ensures r == Parse(g, s)
    ensures r.Ok? && g.Clear() ==> Parsed(r.value)
  {
    var protocols: seq<Protocol> := [];
    var rest := TrimSlashes(s);
    if g.Clear() {
      ParsedShape(g, rest);
    }
    ghost var start := rest;
    FollowedFirst(g, start);
    while rest != []
      invariant ParseRest(g, start) == Followed(g, Some((protocols, rest)))
      decreases |rest|
    {
      var (word, next) := Segment(rest);
      var step := Read(g, g.keyword(word), next);
      ParseStep(g, rest);
      FollowedNext(g, protocols, rest, step);
      if step.None? {
        return Err(s);
      }
      protocols := protocols + step.value.0;
      rest := step.value.1;
    }
    FollowedLast(g, protocols);
    return Ok(protocols);
  }

  // ---- Printing

  function PrintWord(g: Grammar, k: Keyword): string {
    ['/'] + g.word(k)
  }

  function PrintProtocol(g: Grammar, p: Protocol, http: bool, tls: bool): string {
    match p
    case Dns(host) => PrintWord(g, KDns) + ['/'] + host
    case Ip(addr) => PrintWord(g, if addr.V4? then KIp4 else KIp6) + ['/'] + g.formatIp(addr)
    case Tcp(port) => PrintWord(g, KTcp) + ['/'] + g.formatPort(port)
    case Udp(port) => PrintWord(g, KUdp) + ['/'] + g.formatPort(port)
    case Tls => if http then [] else PrintWord(g, KTls)
    case Http(path) => PrintWord(g, if tls then KHttps else KHttp) + (if path == ['/'] then [] else path)
    case Quic => PrintWord(g, KQuic)
  }

  function PrintAll(g: Grammar, ps: seq<Protocol>, http: bool, tls: bool): string {
    if ps == [] then [] else PrintProtocol(g, ps[0], http, tls) + PrintAll(g, ps[1..], http, tls)
  }

  function Print(g: Grammar, ps: seq<Protocol>): string {
    PrintAll(g, ps, IsHttp(ps), IsTls(ps))
  }

  lemma PrintStep(g: Grammar, text: string, ps: seq<Protocol>, i: nat, http: bool, tls: bool)
    requires i < |ps|
    ensures text + PrintAll(g, ps[i..], http, tls)
         == text + PrintProtocol(g, ps[i], http, tls) + PrintAll(g, ps[i + 1..], http, tls)
  {
    assert ps[i..][0] == ps[i] && ps[i..][1..] == ps[i + 1..];
    Regroup(text, PrintProtocol(g, ps[i], http, tls), PrintAll(g, ps[i + 1..], http, tls));
  }

  lemma Regroup(a: string, b: string, c: string)
    ensures a + (b + c) == a + b + c
  {
  }

  method ToString(g: Grammar, ps: seq<Protocol>) returns (text: string)
    ensures text == Print(g, ps)
  {
    text := [];
    var http, tls := IsHttp(ps), IsTls(ps);
    ghost var whole := Print(g, ps);
    var i := 0;
    assert ps[0..] == ps && [] + whole == whole;
    while i < |ps|
      invariant 0 <= i <= |ps|
      invariant text + PrintAll(g, ps[i..], http, tls) == whole
    {
      PrintStep(g, text, ps, i, http, tls);
      text := text + PrintProtocol(g, ps[i], http, tls);
      i := i + 1;
    }
    assert PrintAll(g, ps[i..], http, tls) == [];
    assert text + [] == text;
  }

  // ---- The shape of parsed addresses

  /** A host has no slash, a port fits, and a path starts with a slash. */
  predicate GoodPart(p: Protocol) {
    match p
    case Dns(host) => '/' !in host
    case Tcp(port) => port <= 0xFFFF
    case Udp(port) => port <= 0xFFFF
    case Http(path) => path != [] && path[0] == '/'
    case _ => true
  }

  /** Good parts, with HTTP at the end if at all. */
  ghost predicate Parsed(ps: seq<Protocol>) {
    && (forall i :: 0 <= i < |ps| ==> GoodPart(ps[i]))
    && (forall i :: 0 <= i < |ps| && ps[i].Http? ==> i == |ps| - 1)
  }

  lemma ReadShape(g: Grammar, k: Keyword, next: string)
    requires g.Clear() && Read(g, k, next).Some?
    ensures var (ps, after) := Read(g, k, next).value;
      Parsed(ps) && (after == [] || forall i :: 0 <= i < |ps| ==> !ps[i].Http?)
  {
  }

  lemma {:induction false} ParsedShape(g: Grammar, rest: string)
    requires g.Clear()
    ensures ParseRest(g, rest).Some? ==> Parsed(ParseRest(g, rest).value)
    decreases |rest|
  {
    if rest != [] {
      var (word, next) := Segment(rest);
      var step := Read(g, g.keyword(word), next);
      if step.Some? {
        var (ps, after) := step.value;
        ReadShape(g, g.keyword(word), next);
        ParsedShape(g, after);
        assert after == [] ==> ParseRest(g, after) == Some([]);
        if ParseRest(g, after).Some? {
          ParsedAppend(ps, ParseRest(g, after).value);
        }
      }
    }
  }

  lemma ParsedAppend(ps: seq<Protocol>, qs: seq<Protocol>)
    requires Parsed(ps) && Parsed(qs) && (qs == [] || forall i :: 0 <= i < |ps| ==> !ps[i].Http?)
    ensures Parsed(ps + qs)
  {
  }

  // ---- Round trip

  /** TLS as an HTTP address carries it: directly in front of HTTP and nowhere else. */
  function TlsAtHttp(ps: seq<Protocol>): seq<Protocol> {
    if ps == [] then []
    else if ps[0].Tls? then TlsAtHttp(ps[1..])
    else if ps[0].Http? then [Tls, ps[0]] + TlsAtHttp(ps[1..])
    else [ps[0]] + TlsAtHttp(ps[1..])
  }

  function Normalise(ps: seq<Protocol>): seq<Protocol> {
    if IsHttp(ps) && IsTls(ps) then TlsAtHttp(ps) else ps
  }

  /** A printed text behind a segment: nothing, or a slash and more. */
  ghost predicate IsTail(s: string) {
    s == [] || s[0] == '/'
  }

  /** What the parser goes on with after a segment in front of the tail. */
  function Behind(s: string): string {
    if s == [] then [] else s[1..]
  }

  lemma SegmentOf(word: string, tail: string)
    requires '/' !in word && IsTail(tail)
    ensures Segment(word + tail) == (word, Behind(tail))
  {
    if tail == [] {
      assert word + tail == word;
      SplitOnceNone(word, '/');
    } else {
      SplitOnceOf(word, '/', tail[1..]);
      assert word + tail == word + ['/'] + tail[1..];
    }
  }

  /** A segment that is none of the nine words is skipped, wherever it stands. */
  lemma UnknownIsSkipped(g: Grammar, word: string, tail: string)
    requires g.keyword == KeywordOf && '/' !in word
    requires word != "dns" && word != "ip4" && word != "ip6" && word != "tcp" && word != "udp" && word != "tls"
    requires word != "quic" && word != "http" && word != "https"
    ensures ParseRest(g, word) == Some([])
    ensures ParseRest(g, word + ['/'] + tail) == ParseRest(g, tail)
  {
    SegmentSkipped(g, word, tail);
  }

  lemma SegmentSkipped(g: Grammar, word: string, tail: string)
    requires g.keyword(word) == KUnknown && '/' !in word
    ensures ParseRest(g, word) == Some([])
    ensures ParseRest(g, word + ['/'] + tail) == ParseRest(g, tail)
  {
    SegmentOf(word, []);
    SegmentOf(word, ['/'] + tail);
    assert word + [] == word && word + (['/'] + tail) == word + ['/'] + tail;
    if word != [] { WordSkipped(g, word, word, []); }
    assert Behind(['/'] + tail) == tail;
    WordSkipped(g, word + ['/'] + tail, word, tail);
  }

  lemma {:induction false} WordSkipped(g: Grammar, rest: string, word: string, next: string)
    requires g.keyword(word) == KUnknown && rest != [] && Segment(rest) == (word, next)
    ensures ParseRest(g, rest) == ParseRest(g, next)
  {
    ParseStep(g, rest);
    FollowedFirst(g, next);
  }

  /** Slashes in front do not matter, and an error names the text as given. */
  lemma SlashesInFront(g: Grammar, s: string)
    ensures Parse(g, ['/'] + s).Ok? == Parse(g, s).Ok?
    ensures Parse(g, s).Ok? ==> Parse(g, ['/'] + s) == Parse(g, s)
    ensures Parse(g, s).Err? ==> Parse(g, s) == Err(s)
    ensures s == [] || s[0] != '/' ==>
            Parse(g, s) == if ParseRest(g, s).Some? then Ok(ParseRest(g, s).value) else Err(s)
  {
    assert (['/'] + s)[1..] == s;
  }

  lemma {:induction false} PrintIsTail(g: Grammar, ps: seq<Protocol>, http: bool, tls: bool)
    ensures IsTail(PrintAll(g, ps, http, tls))
  {
    if ps != [] {
      PrintIsTail(g, ps[1..], http, tls);
      assert PrintProtocol(g, ps[0], http, tls) == [] || PrintProtocol(g, ps[0], http, tls)[0] == '/';
    }
  }

  /** A keyword and the rest of the text, as the parser sees them. */
  lemma ReadWord(g: Grammar, k: Keyword, tail: string)
    requires g.Clear() && k != KUnknown && IsTail(tail)
    ensures ParseRest(g, Behind(PrintWord(g, k) + tail)) == Followed(g, Read(g, k, Behind(tail)))
  {
    var word := g.word(k);
    assert Behind(PrintWord(g, k) + tail) == word + tail;
    SegmentOf(word, tail);
  }

  /** The same for a keyword with an argument. */
  lemma ReadWithArgument(g: Grammar, k: Keyword, arg: string, tail: string, p: Protocol)
    requires g.Clear() && k != KUnknown && '/' !in arg && IsTail(tail)
    requires Read(g, k, arg + tail) == Some(([p], Behind(tail)))
    requires ParseRest(g, Behind(tail)).Some?
    ensures ParseRest(g, Behind(PrintWord(g, k) + ['/'] + arg + tail)) == Some([p] + ParseRest(g, Behind(tail)).value)
  {
    assert PrintWord(g, k) + ['/'] + arg + tail == PrintWord(g, k) + (['/'] + (arg + tail));
    ReadWord(g, k, ['/'] + (arg + tail));
    assert Behind(['/'] + (arg + tail)) == arg + tail;
  }

  lemma ReadPart(g: Grammar, p: Protocol, tail: string)
    requires g.Clear() && GoodPart(p) && IsTail(tail) && ParseRest(g, Behind(tail)).Some?
    requires !p.Http? && !p.Tls?
    ensures ParseRest(g, Behind(PrintProtocol(g, p, true, true) + tail)) == Some([p] + ParseRest(g, Behind(tail)).value)
  {
    match p
    case Dns(host) =>
      SegmentOf(host, tail);
      ReadWithArgument(g, KDns, host, tail, p);
    case Ip(addr) =>
      SegmentOf(g.formatIp(addr), tail);
      ReadWithArgument(g, if addr.V4? then KIp4 else KIp6, g.formatIp(addr), tail, p);
    case Tcp(port) =>
      SegmentOf(g.formatPort(port), tail);
      ReadWithArgument(g, KTcp, g.formatPort(port), tail, p);
    case Udp(port) =>
      SegmentOf(g.formatPort(port), tail);
      ReadWithArgument(g, KUdp, g.formatPort(port), tail, p);
    case Quic =>
      ReadWord(g, KQuic, tail);
  }

  lemma ReadHttp(g: Grammar, path: string, tls: bool)
    requires g.Clear() && GoodPart(Http(path))
    ensures ParseRest(g, Behind(PrintProtocol(g, Http(path), true, tls))) ==
            Some(if tls then [Tls, Http(path)] else [Http(path)])
  {
    var shown := if path == ['/'] then [] else path;
    ReadWord(g, if tls then KHttps else KHttp, shown);
    assert ['/'] + Behind(shown) == path;
    HttpEnds(g, Behind(shown), tls);
  }

  lemma HttpEnds(g: Grammar, next: string, tls: bool)
    ensures Followed(g, Read(g, if tls then KHttps else KHttp, next)) ==
            Some(if tls then [Tls, Http(['/'] + next)] else [Http(['/'] + next)])
  {
    var read := if tls then [Tls, Http(['/'] + next)] else [Http(['/'] + next)];
    assert ParseRest(g, []) == Some([]) && read + [] == read;
  }

  /** The flags of an address that has `ps` as a part. */
  predicate Flagged(ps: seq<Protocol>, http: bool, tls: bool) {
    forall i :: 0 <= i < |ps| ==> (ps[i].Http? ==> http) && (ps[i].Tls? ==> tls)
  }

  function Shown(ps: seq<Protocol>, http: bool, tls: bool): seq<Protocol> {
    if http && tls then TlsAtHttp(ps) else ps
  }

  lemma PrintHead(g: Grammar, ps: seq<Protocol>, http: bool, tls: bool)
    requires ps != []
    ensures PrintAll(g, ps, http, tls) == PrintProtocol(g, ps[0], http, tls) + PrintAll(g, ps[1..], http, tls)
    ensures IsTail(PrintAll(g, ps[1..], http, tls))
    ensures ps == [ps[0]] + ps[1..]
  {
    PrintIsTail(g, ps[1..], http, tls);
  }

  lemma PrintedHttpParses(g: Grammar, p: Protocol, http: bool, tls: bool)
    requires g.Clear() && p.Http? && GoodPart(p) && http
    ensures ParseRest(g, Behind(PrintProtocol(g, p, http, tls) + [])) == Some(Shown([p], http, tls))
  {
    ReadHttp(g, p.path, tls);
    assert PrintProtocol(g, p, http, tls) + [] == PrintProtocol(g, p, true, tls);
    assert [p][1..] == [] && [Tls, p] + [] == [Tls, p];
    assert TlsAtHttp([p]) == [Tls, p] + TlsAtHttp([]);
  }

  lemma {:induction false} PrintedTlsParses(g: Grammar, tail: string, rest: seq<Protocol>, http: bool, tls: bool)
    requires g.Clear() && IsTail(tail) && tls
    requires ParseRest(g, Behind(tail)) == Some(Shown(rest, http, tls))
    ensures ParseRest(g, Behind(PrintProtocol(g, Tls, http, tls) + tail)) == Some(Shown([Tls] + rest, http, tls))
  {
    ShownTls(rest, http, tls);
    if http {
      assert PrintProtocol(g, Tls, http, tls) + tail == tail;
    } else {
      assert PrintProtocol(g, Tls, http, tls) == PrintWord(g, KTls);
      ReadWord(g, KTls, tail);
      assert Read(g, KTls, Behind(tail)) == Some(([Tls], Behind(tail)));
    }
  }

  lemma {:induction false} ShownTls(rest: seq<Protocol>, http: bool, tls: bool)
    requires tls
    ensures Shown([Tls] + rest, http, tls) == if http then Shown(rest, http, tls) else [Tls] + Shown(rest, http, tls)
  {
    assert ([Tls] + rest)[1..] == rest;
  }

  lemma PrintedPartParses(g: Grammar, p: Protocol, tail: string, rest: seq<Protocol>, http: bool, tls: bool)
    requires g.Clear() && IsTail(tail) && GoodPart(p) && !p.Http? && !p.Tls?
    requires ParseRest(g, Behind(tail)) == Some(Shown(rest, http, tls))
    ensures ParseRest(g, Behind(PrintProtocol(g, p, http, tls) + tail)) == Some(Shown([p] + rest, http, tls))
  {
    ReadPart(g, p, tail);
    assert PrintProtocol(g, p, http, tls) == PrintProtocol(g, p, true, true);
    assert ([p] + rest)[1..] == rest;
  }

  lemma TailIsParsed(ps: seq<Protocol>, http: bool, tls: bool)
    requires ps != [] && Parsed(ps) && Flagged(ps, http, tls)
    ensures Parsed(ps[1..]) && Flagged(ps[1..], http, tls) && GoodPart(ps[0])
    ensures ps[0].Http? ==> http && ps == [ps[0]] && ps[1..] == []
    ensures ps[0].Tls? ==> tls
  {
  }

  /** One part in front of a tail that parses. */
  lemma PrintedStep(g: Grammar, p: Protocol, tail: string, rest: seq<Protocol>, http: bool, tls: bool)
    requires g.Clear() && IsTail(tail) && GoodPart(p)
    requires p.Http? ==> http && rest == [] && tail == []
    requires p.Tls? ==> tls
    requires ParseRest(g, Behind(tail)) == Some(Shown(rest, http, tls))
    ensures ParseRest(g, Behind(PrintProtocol(g, p, http, tls) + tail)) == Some(Shown([p] + rest, http, tls))
  {
    if p.Http? {
      PrintedHttpParses(g, p, http, tls);
      assert [p] + rest == [p];
    } else if p.Tls? {
      PrintedTlsParses(g, tail, rest, http, tls);
    } else {
      PrintedPartParses(g, p, tail, rest, http, tls);
    }
  }

  lemma {:induction false} PrintedParses(g: Grammar, ps: seq<Protocol>, http: bool, tls: bool)
    requires g.Clear() && Parsed(ps) && Flagged(ps, http, tls)
    ensures ParseRest(g, Behind(PrintAll(g, ps, http, tls))) == Some(Shown(ps, http, tls))
    decreases |ps|
  {
    if ps != [] {
      TailIsParsed(ps, http, tls);
      PrintedParses(g, ps[1..], http, tls);
      PrintHead(g, ps, http, tls);
      PrintedStep(g, ps[0], PrintAll(g, ps[1..], http, tls), ps[1..], http, tls);
    }
  }

  // ---- What the normal form keeps

  lemma {:induction false} TlsAtHttpKeeps(g: Grammar, ps: seq<Protocol>)
    ensures IsHttp(TlsAtHttp(ps)) == IsHttp(ps) && IsUdp(TlsAtHttp(ps)) == IsUdp(ps)
            && IsQuic(TlsAtHttp(ps)) == IsQuic(ps)
    ensures IsHttp(ps) ==> IsTls(TlsAtHttp(ps))
    ensures FirstIp(TlsAtHttp(ps)) == FirstIp(ps) && FirstPort(TlsAtHttp(ps)) == FirstPort(ps)
    ensures FirstHost(g, TlsAtHttp(ps)) == FirstHost(g, ps)
    ensures PrintAll(g, TlsAtHttp(ps), true, true) == PrintAll(g, ps, true, true)
  {
    if ps != [] {
      var p, rest := ps[0], ps[1..];
      TlsAtHttpKeeps(g, rest);
      var q := TlsAtHttp(rest);
      if p.Tls? {
        assert [] + PrintAll(g, rest, true, true) == PrintAll(g, rest, true, true);
      } else if p.Http? {
        assert ([Tls, p] + q)[1..] == [p] + q && ([p] + q)[1..] == q;
        assert [] + PrintAll(g, [p] + q, true, true) == PrintAll(g, [p] + q, true, true);
      } else {
        assert ([p] + q)[1..] == q;
      }
    }
  }

  lemma NormaliseKeeps(g: Grammar, ps: seq<Protocol>)
    ensures var qs := Normalise(ps);
      && IsTls(qs) == IsTls(ps) && IsHttp(qs) == IsHttp(ps) && IsUdp(qs) == IsUdp(ps) && IsQuic(qs) == IsQuic(ps)
      && FirstIp(qs) == FirstIp(ps) && FirstPort(qs) == FirstPort(ps) && FirstHost(g, qs) == FirstHost(g, ps)
      && Print(g, qs) == Print(g, ps)
  {
    TlsAtHttpKeeps(g, ps);
  }

  lemma {:induction false} FlagsOfAll(ps: seq<Protocol>, k: nat)
    requires k < |ps|
    ensures (ps[k].Http? ==> IsHttp(ps)) && (ps[k].Tls? ==> IsTls(ps))
  {
    if k > 0 {
      FlagsOfAll(ps[1..], k - 1);
    }
  }

  lemma TrimPrinted(g: Grammar, s: string)
    requires IsTail(s) && (|s| > 1 ==> s[1] != '/') && |s| != 1
    ensures TrimSlashes(s) == Behind(s)
  {
  }

  lemma {:induction false} PrintStartsWithOneSlash(g: Grammar, ps: seq<Protocol>, http: bool, tls: bool)
    requires g.Clear()
    ensures var s := PrintAll(g, ps, http, tls); IsTail(s) && (|s| > 1 ==> s[1] != '/') && |s| != 1
  {
    if ps != [] {
      PrintStartsWithOneSlash(g, ps[1..], http, tls);
      var head := PrintProtocol(g, ps[0], http, tls);
      if head == [] {
        assert PrintAll(g, ps, http, tls) == PrintAll(g, ps[1..], http, tls);
      } else {
        HeadStartsWithOneSlash(g, ps[0], http, tls);
        assert PrintAll(g, ps, http, tls)[0] == head[0] && PrintAll(g, ps, http, tls)[1] == head[1];
      }
    }
  }

  lemma HeadStartsWithOneSlash(g: Grammar, p: Protocol, http: bool, tls: bool)
    requires g.Clear() && PrintProtocol(g, p, http, tls) != []
    ensures var s := PrintProtocol(g, p, http, tls); |s| > 1 && s[0] == '/' && s[1] != '/'
  {
    var k := match p
      case Dns(_) => KDns
      case Ip(addr) => if addr.V4? then KIp4 else KIp6
      case Tcp(_) => KTcp
      case Udp(_) => KUdp
      case Tls => KTls
      case Http(_) => if tls then KHttps else KHttp
      case Quic => KQuic;
    assert g.word(k) != [] && g.word(k)[0] in g.word(k);
    assert PrintProtocol(g, p, http, tls)[1] == g.word(k)[0];
  }

  /** Parsing the printed form of a parsed address gives the address in normal form. */
  lemma ParseUndoesPrint(g: Grammar, ps: seq<Protocol>)
    requires g.Clear() && Parsed(ps)
    ensures Parse(g, Print(g, ps)) == Ok(Normalise(ps))
  {
    var http, tls := IsHttp(ps), IsTls(ps);
    assert Flagged(ps, http, tls) by {
      forall k | 0 <= k < |ps| ensures (ps[k].Http? ==> http) && (ps[k].Tls? ==> tls) {
        FlagsOfAll(ps, k);
      }
    }
    PrintedParses(g, ps, http, tls);
    PrintStartsWithOneSlash(g, ps, http, tls);
    TrimPrinted(g, Print(g, ps));
  }

  /** For every accepted text: the printed form parses to the normal form of the address, printing
      that gives the same text again, and every accessor answers as before. */
  lemma AcceptedAddressesSurvive(g: Grammar, s: string)
    requires g.Clear() && Parse(g, s).Ok?
    ensures var ps := Parse(g, s).value; var qs := Normalise(ps);
      && Parse(g, Print(g, ps)) == Ok(qs)
      && Print(g, qs) == Print(g, ps)
      && Normalise(qs) == qs
      && IsTls(qs) == IsTls(ps) && IsHttp(qs) == IsHttp(ps) && IsUdp(qs) == IsUdp(ps) && IsQuic(qs) == IsQuic(ps)
      && SocketAddr(g, qs) == SocketAddr(g, ps)
      && OrInvalid(g, qs, FirstPort(qs)) == OrInvalid(g, ps, FirstPort(ps))
      && OrInvalid(g, qs, FirstHost(g, qs)) == OrInvalid(g, ps, FirstHost(g, ps))
      && ProtocolName(qs) == ProtocolName(ps)
  {
    var ps := Parse(g, s).value;
    ParsedShape(g, TrimSlashes(s));
    ParseUndoesPrint(g, ps);
    NormaliseKeeps(g, ps);
    NormaliseTwice(ps);
  }

  lemma {:induction false} TlsAtHttpTwice(ps: seq<Protocol>)
    ensures TlsAtHttp(TlsAtHttp(ps)) == TlsAtHttp(ps)
  {
    if ps != [] {
      var p, q := ps[0], TlsAtHttp(ps[1..]);
      TlsAtHttpTwice(ps[1..]);
      if p.Http? {
        assert ([Tls, p] + q)[1..] == [p] + q && ([p] + q)[1..] == q;
      } else if !p.Tls? {
        assert ([p] + q)[1..] == q;
      }
    }
  }

  lemma NormaliseTwice(ps: seq<Protocol>)
    ensures Normalise(Normalise(ps)) == Normalise(ps)
  {
    TlsAtHttpTwice(ps);
  }
}
