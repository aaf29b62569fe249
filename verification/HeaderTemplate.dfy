/** Header values with `{variable}` placeholders, where `{{` and `}}` write a brace.

    `ParserInvertsPrinter` is the whole specification of the parser: it accepts exactly the printed
    forms of normalised part lists, and returns the one list that prints to the value. */
module HeaderTemplate {
  import opened Basics
  import opened Text

  datatype Variable = ClientIp | Host | Scheme | RequestId | Route | ClientCertSubject | ClientCertFingerprint

  const ALL: seq<Variable> :=
    [ClientIp, Host, Scheme, RequestId, Route, ClientCertSubject, ClientCertFingerprint]

  function Name(v: Variable): string {
    match v
    case ClientIp => "client_ip"
    case Host => "host"
    case Scheme => "scheme"
    case RequestId => "request_id"
    case Route => "route"
    case ClientCertSubject => "client_cert_subject"
    case ClientCertFingerprint => "client_cert_fingerprint"
  }

  /** A name for each variable. The parser and the printer are stated for any naming that is clear. */
  type Naming = Variable -> string

  ghost predicate Clear(nm: Naming) {
    && (forall v :: nm(v) != [] && nm(v)[0] != '{' && '}' !in nm(v) && Allowed(nm(v)))
    && (forall v, v' :: nm(v) == nm(v') ==> v == v')
  }

  function NameLength(v: Variable): nat {
    match v
    case ClientIp => 9
    case Host => 4
    case Scheme => 6
    case RequestId => 10
    case Route => 5
    case ClientCertSubject => 19
    case ClientCertFingerprint => 23
  }

  lemma NameHasLength(v: Variable)
    ensures |Name(v)| == NameLength(v)
  {
  }

  lemma LengthsDiffer(v: Variable, v': Variable)
    requires NameLength(v) == NameLength(v')
    ensures v == v'
  {
  }

  lemma NameIsClear(v: Variable)
    ensures Name(v) != [] && '{' !in Name(v) && '}' !in Name(v) && Allowed(Name(v))
  {
  }

  lemma NamesAreClear()
    ensures Clear(Name) && forall v :: '{' !in Name(v) && '}' !in Name(v)
  {
    forall v, v' | Name(v) == Name(v') ensures v == v' {
      NameHasLength(v);
      NameHasLength(v');
      LengthsDiffer(v, v');
    }
    forall v ensures Name(v) != [] && '{' !in Name(v) && '}' !in Name(v) && Allowed(Name(v)) {
      NameIsClear(v);
    }
  }

  function Named(nm: Naming, name: string, vs: seq<Variable>): Option<Variable> {
    if vs == [] then None
    else if nm(vs[0]) == name then Some(vs[0])
    else Named(nm, name, vs[1..])
  }

  function VariableNamed(nm: Naming, name: string): Option<Variable> {
    Named(nm, name, ALL)
  }

  lemma {:induction false} NamedHasTheName(nm: Naming, name: string, vs: seq<Variable>)
    ensures Named(nm, name, vs).Some? ==> nm(Named(nm, name, vs).value) == name
    ensures forall k :: 0 <= k < |vs| && nm(vs[k]) == name ==> Named(nm, name, vs).Some?
  {
    if vs != [] && nm(vs[0]) != name {
      NamedHasTheName(nm, name, vs[1..]);
    }
  }

  lemma EveryNameIsFound(nm: Naming, v: Variable)
    requires Clear(nm)
    ensures VariableNamed(nm, nm(v)) == Some(v)
  {
    NamedHasTheName(nm, nm(v), ALL);
    var k := match v
      case ClientIp => 0
      case Host => 1
      case Scheme => 2
      case RequestId => 3
      case Route => 4
      case ClientCertSubject => 5
      case ClientCertFingerprint => 6;
    assert ALL[k] == v;
  }

  datatype Part = Literal(text: string) | Placeholder(variable: Variable)

  predicate IsBrace(c: char) { c == '{' || c == '}' }

  // ---- Printing

  function Escape(s: string): string {
    if s == [] then []
    else (if IsBrace(s[0]) then [s[0], s[0]] else [s[0]]) + Escape(s[1..])
  }

  function PrintPart(nm: Naming, p: Part): string {
    match p
    case Literal(text) => Escape(text)
    case Placeholder(v) => ['{'] + nm(v) + ['}']
  }

  function Print(nm: Naming, ps: seq<Part>): string {
    if ps == [] then [] else PrintPart(nm, ps[0]) + Print(nm, ps[1..])
  }

  predicate Allowed(s: string) {
    forall i :: 0 <= i < |s| ==> !IsControl(s[i]) || s[i] == '\t'
  }

  /** No empty literal, no two literals in a row, and no control character but the tab. */
  ghost predicate Normal(ps: seq<Part>) {
    && (forall i :: 0 <= i < |ps| && ps[i].Literal? ==> ps[i].text != [] && Allowed(ps[i].text))
    && (forall i :: 0 < i < |ps| ==> !(ps[i - 1].Literal? && ps[i].Literal?))
  }

  // ---- Parsing

  datatype Brace = Escaped(c: char) | Inserted(variable: Variable)

  /** The brace at the start of `tail`, and the text behind it. */
  function ReadBrace(nm: Naming, tail: string): (r: Option<(Brace, string)>)
    requires tail != [] && IsBrace(tail[0])
    ensures r.Some? ==> |r.value.1| < |tail|
  {
    if |tail| >= 2 && tail[1] == tail[0] then Some((Escaped(tail[0]), tail[2..]))
    else if tail[0] == '{' then
      match SplitOnce(tail[1..], '}')
      case None => None
      case Some((name, after)) =>
        (match VariableNamed(nm, name)
         case None => None
         case Some(v) => Some((Inserted(v), after)))
    else None
  }

  function WithLiteral(parts: seq<Part>, literal: string): seq<Part> {
    if literal == [] then parts else parts + [Literal(literal)]
  }

  /** The parts of a template when `parts` and the unfinished `literal` are read and `rest` is not. */
  function ParseFrom(nm: Naming, rest: string, literal: string, parts: seq<Part>): Option<seq<Part>>
    decreases |rest|
  {
    if rest == [] then Some(WithLiteral(parts, literal))
    else if !IsBrace(rest[0]) then ParseFrom(nm, rest[1..], literal + [rest[0]], parts)
    else
      match ReadBrace(nm, rest)
      case None => None
      case Some((Escaped(c), after)) => ParseFrom(nm, after, literal + [c], parts)
      case Some((Inserted(v), after)) => ParseFrom(nm, after, [], WithLiteral(parts, literal) + [Placeholder(v)])
  }

  function Parse(nm: Naming, value: string): Option<seq<Part>> {
    if Allowed(value) then ParseFrom(nm, value, [], []) else None
  }

  // ---- The methods

  function BraceIndex(s: string): (i: nat)
    ensures i <= |s| && (i < |s| ==> IsBrace(s[i]))
  {
    if s == [] || IsBrace(s[0]) then 0 else BraceIndex(s[1..]) + 1
  }

  lemma {:induction false} SkipToBrace(nm: Naming, rest: string, literal: string, parts: seq<Part>)
    ensures var i := BraceIndex(rest);
      ParseFrom(nm, rest, literal, parts) == ParseFrom(nm, rest[i..], literal + rest[..i], parts)
    decreases |rest|
  {
    var i := BraceIndex(rest);
    if i == 0 {
      assert rest[0..] == rest && literal + rest[..0] == literal;
    } else {
      SkipToBrace(nm, rest[1..], literal + [rest[0]], parts);
      assert rest[1..][i - 1..] == rest[i..];
      assert literal + [rest[0]] + rest[1..][..i - 1] == literal + rest[..i];
    }
  }

  /** Reads one brace: an escaped brace goes to the literal, a placeholder becomes a part. */
  method ParseBrace(nm: Naming, tail: string, parts: seq<Part>, literal: string)
    returns (after: Option<string>, parts': seq<Part>, literal': string)
    requires tail != [] && IsBrace(tail[0])
    ensures after.Some? ==> |after.value| < |tail|
    ensures ParseFrom(nm, tail, literal, parts) ==
            if after.None? then None else ParseFrom(nm, after.value, literal', parts')
  {
    if |tail| >= 2 && tail[1] == tail[0] {
      return Some(tail[2..]), parts, literal + [tail[0]];
    }
    if tail[0] != '{' {
      return None, parts, literal;
    }
    match SplitOnce(tail[1..], '}') {
      case None => return None, parts, literal;
      case Some((name, rest)) =>
        match VariableNamed(nm, name) {
          case None => return None, parts, literal;
          case Some(v) => return Some(rest), WithLiteral(parts, literal) + [Placeholder(v)], [];
        }
    }
  }

  method ParseHeaderTemplate(value: string) returns (result: Result<seq<Part>, string>)
    ensures result == match Parse(Name, value) { case None => Err(value) case Some(ps) => Ok(ps) }
    ensures result.Ok? ==> Normal(result.value) && Print(Name, result.value) == value
    ensures result.Err? ==> forall ps :: Normal(ps) ==> Print(Name, ps) != value
  {
    NamesAreClear();
    forall ps { ParserInvertsPrinter(Name, value, ps); }
    if !Allowed(value) {
      return Err(value);
    }
    var parts: seq<Part>, literal: string, rest := [], [], value;
    var index := BraceIndex(rest);
    while index < |rest|
      invariant index == BraceIndex(rest)
      invariant Parse(Name, value) == ParseFrom(Name, rest, literal, parts)
      decreases |rest|
    {
      SkipToBrace(Name, rest, literal, parts);
      literal := literal + rest[..index];
      var after;
      after, parts, literal := ParseBrace(Name, rest[index..], parts, literal);
      if after.None? {
        return Err(value);
      }
      rest := after.value;
      index := BraceIndex(rest);
    }
    SkipToBrace(Name, rest, literal, parts);
    assert rest[..index] == rest && rest[index..] == [];
    literal := literal + rest;
    return Ok(WithLiteral(parts, literal));
  }

  // ---- The parser undoes the printer

  lemma {:induction false} PrintAppend(nm: Naming, a: seq<Part>, b: seq<Part>)
    ensures Print(nm, a + b) == Print(nm, a) + Print(nm, b)
  {
    if a == [] {
      assert a + b == b;
    } else {
      assert (a + b)[1..] == a[1..] + b;
      PrintAppend(nm, a[1..], b);
    }
  }

  lemma {:induction false} EscapeAppend(a: string, b: string)
    ensures Escape(a + b) == Escape(a) + Escape(b)
  {
    if a == [] {
      assert a + b == b;
    } else {
      assert (a + b)[1..] == a[1..] + b;
      EscapeAppend(a[1..], b);
    }
  }

  lemma PrintOne(nm: Naming, p: Part)
    ensures Print(nm, [p]) == PrintPart(nm, p)
  {
    assert [p][1..] == [];
    assert Print(nm, [p]) == PrintPart(nm, p) + [];
  }

  lemma PrintWithLiteral(nm: Naming, parts: seq<Part>, literal: string)
    ensures Print(nm, WithLiteral(parts, literal)) == Print(nm, parts) + Escape(literal)
  {
    if literal == [] {
      assert Print(nm, parts) + [] == Print(nm, parts);
    } else {
      PrintAppend(nm, parts, [Literal(literal)]);
      PrintOne(nm, Literal(literal));
    }
  }

  /** What a text that starts with a brace reads as. */
  lemma ReadBraceText(nm: Naming, tail: string)
    requires tail != [] && IsBrace(tail[0]) && ReadBrace(nm, tail).Some?
    ensures match ReadBrace(nm, tail).value {
      case (Escaped(c), after) => IsBrace(c) && tail == [c, c] + after
      case (Inserted(v), after) => tail == ['{'] + nm(v) + ['}'] + after
    }
  {
    var (b, after) := ReadBrace(nm, tail).value;
    if b.Inserted? {
      var (name, after') := SplitOnce(tail[1..], '}').value;
      SplitOnceParts(tail[1..], '}');
      NamedHasTheName(nm, name, ALL);
      assert tail == [tail[0]] + tail[1..];
    }
  }

  lemma Regroup(a: string, b: string, c: string, d: string)
    ensures a + (b + c) + d == a + b + (c + d)
  {
  }

  /** Reading one character of a literal moves its escaped form from the rest to the literal. */
  lemma LiteralGrows(printed: string, literal: string, c: char, after: string)
    ensures printed + Escape(literal + [c]) + after == printed + Escape(literal) + (Escape([c]) + after)
  {
    EscapeAppend(literal, [c]);
    Regroup(printed, Escape(literal), Escape([c]), after);
  }

  /** Reading a placeholder moves it from the rest to the parts. */
  lemma PartsGrow(nm: Naming, parts: seq<Part>, literal: string, v: Variable, after: string)
    ensures Print(nm, WithLiteral(parts, literal) + [Placeholder(v)]) + Escape([]) + after
         == Print(nm, parts) + Escape(literal) + (PrintPart(nm, Placeholder(v)) + after)
  {
    var parts' := WithLiteral(parts, literal);
    PrintAppend(nm, parts', [Placeholder(v)]);
    PrintOne(nm, Placeholder(v));
    PrintWithLiteral(nm, parts, literal);
    JoinNothing(Print(nm, parts) + Escape(literal), PrintPart(nm, Placeholder(v)), after);
  }

  lemma JoinNothing(a: string, b: string, c: string)
    ensures a + b + [] + c == a + (b + c)
  {
  }

  /** The parsed parts print to the text that was read. */
  lemma {:induction false} ParsedPrintsBack(nm: Naming, rest: string, literal: string, parts: seq<Part>)
    requires ParseFrom(nm, rest, literal, parts).Some?
    ensures Print(nm, ParseFrom(nm, rest, literal, parts).value) == Print(nm, parts) + Escape(literal) + rest
    decreases |rest|
  {
    if rest == [] {
      PrintWithLiteral(nm, parts, literal);
    } else if !IsBrace(rest[0]) {
      ParsedPrintsBack(nm, rest[1..], literal + [rest[0]], parts);
      LiteralGrows(Print(nm, parts), literal, rest[0], rest[1..]);
      assert rest == Escape([rest[0]]) + rest[1..];
    } else {
      ReadBraceText(nm, rest);
      match ReadBrace(nm, rest).value {
        case (Escaped(c), after) =>
          ParsedPrintsBack(nm, after, literal + [c], parts);
          LiteralGrows(Print(nm, parts), literal, c, after);
          assert rest == Escape([c]) + after;
        case (Inserted(v), after) =>
          ParsedPrintsBack(nm, after, [], WithLiteral(parts, literal) + [Placeholder(v)]);
          PartsGrow(nm, parts, literal, v, after);
      }
    }
  }

  /** A literal can follow `parts`. */
  ghost predicate Open(parts: seq<Part>) {
    Normal(parts) && (parts != [] ==> parts[|parts| - 1].Placeholder?)
  }

  lemma BraceIsAllowed(nm: Naming, rest: string)
    requires rest != [] && IsBrace(rest[0]) && Allowed(rest) && ReadBrace(nm, rest).Some?
    ensures var (brace, after) := ReadBrace(nm, rest).value;
      Allowed(after) && (brace.Escaped? ==> brace.c == rest[0])
  {
    ReadBraceText(nm, rest);
    var after := ReadBrace(nm, rest).value.1;
    assert after == rest[|rest| - |after|..];
  }

  lemma PlaceholderOpens(parts: seq<Part>, literal: string, v: Variable)
    requires Open(parts) && Allowed(literal)
    ensures Open(WithLiteral(parts, literal) + [Placeholder(v)])
  {
  }

  lemma {:induction false} ParsedIsNormal(nm: Naming, rest: string, literal: string, parts: seq<Part>)
    requires ParseFrom(nm, rest, literal, parts).Some?
    requires Open(parts) && Allowed(literal) && Allowed(rest)
    ensures Normal(ParseFrom(nm, rest, literal, parts).value)
    decreases |rest|
  {
    if rest != [] {
      if !IsBrace(rest[0]) {
        ParsedIsNormal(nm, rest[1..], literal + [rest[0]], parts);
      } else {
        BraceIsAllowed(nm, rest);
        match ReadBrace(nm, rest).value {
          case (Escaped(c), after) =>
            ParsedIsNormal(nm, after, literal + [c], parts);
          case (Inserted(v), after) =>
            PlaceholderOpens(parts, literal, v);
            ParsedIsNormal(nm, after, [], WithLiteral(parts, literal) + [Placeholder(v)]);
        }
      }
    }
  }

  lemma {:induction false} OneIsRead(nm: Naming, c: char, rest: string, literal: string, parts: seq<Part>)
    ensures ParseFrom(nm, (if IsBrace(c) then [c, c] else [c]) + rest, literal, parts) ==
            ParseFrom(nm, rest, literal + [c], parts)
  {
    if IsBrace(c) {
      var all := [c, c] + rest;
      assert all[0] == c && all[1] == c && all[2..] == rest;
      assert ReadBrace(nm, all) == Some((Escaped(c), rest));
    } else {
      var all := [c] + rest;
      assert all[0] == c && all[1..] == rest;
    }
  }

  lemma {:induction false} EscapedFirst(s: string, tail: string)
    requires s != []
    ensures Escape(s) + tail == (if IsBrace(s[0]) then [s[0], s[0]] else [s[0]]) + (Escape(s[1..]) + tail)
  {
    var first, rest := if IsBrace(s[0]) then [s[0], s[0]] else [s[0]], Escape(s[1..]);
    assert Escape(s) == first + rest;
    assert first + rest + tail == first + (rest + tail);
  }

  lemma {:induction false} EscapedIsRead(nm: Naming, s: string, tail: string, literal: string, parts: seq<Part>)
    ensures ParseFrom(nm, Escape(s) + tail, literal, parts) == ParseFrom(nm, tail, literal + s, parts)
    decreases |s|
  {
    if s == [] {
      assert Escape(s) + tail == tail && literal + s == literal;
    } else {
      EscapedIsRead(nm, s[1..], tail, literal + [s[0]], parts);
      assert literal + [s[0]] + s[1..] == literal + s;
      EscapedFirst(s, tail);
      OneIsRead(nm, s[0], Escape(s[1..]) + tail, literal, parts);
    }
  }

  lemma PlaceholderIsRead(nm: Naming, v: Variable, tail: string, literal: string, parts: seq<Part>)
    requires Clear(nm)
    ensures ParseFrom(nm, PrintPart(nm, Placeholder(v)) + tail, literal, parts)
         == ParseFrom(nm, tail, [], WithLiteral(parts, literal) + [Placeholder(v)])
  {
    var text := PrintPart(nm, Placeholder(v)) + tail;
    assert text[1] == nm(v)[0];
    assert text[1..] == nm(v) + ['}'] + tail;
    SplitOnceOf(nm(v), '}', tail);
    EveryNameIsFound(nm, v);
  }

  lemma LiteralIsRead(nm: Naming, ps: seq<Part>, parts: seq<Part>)
    requires Normal(ps) && ps != [] && ps[0].Literal?
    ensures ParseFrom(nm, Print(nm, ps), [], parts) == ParseFrom(nm, Print(nm, ps[1..]), ps[0].text, parts)
  {
    EscapedIsRead(nm, ps[0].text, Print(nm, ps[1..]), [], parts);
    assert [] + ps[0].text == ps[0].text;
  }

  lemma FirstPlaceholderIsRead(nm: Naming, ps: seq<Part>, literal: string, parts: seq<Part>)
    requires Clear(nm) && ps != [] && ps[0].Placeholder?
    ensures ParseFrom(nm, Print(nm, ps), literal, parts)
         == ParseFrom(nm, Print(nm, ps[1..]), [], WithLiteral(parts, literal) + [ps[0]])
  {
    PlaceholderIsRead(nm, ps[0].variable, Print(nm, ps[1..]), literal, parts);
  }

  lemma NormalTail(ps: seq<Part>)
    requires Normal(ps) && ps != []
    ensures Normal(ps[1..]) && (|ps| > 1 && ps[0].Literal? ==> ps[1..][0].Placeholder?)
  {
  }

  /** A normal list prints to a text that parses back to it; `literal` is read and unfinished. */
  lemma {:induction false} PrintedParsesBack(nm: Naming, ps: seq<Part>, literal: string, parts: seq<Part>)
    requires Clear(nm)
    requires Normal(ps) && (literal != [] && ps != [] ==> ps[0].Placeholder?)
    ensures ParseFrom(nm, Print(nm, ps), literal, parts) == Some(WithLiteral(parts, literal) + ps)
    decreases |ps|
  {
    if ps == [] {
      assert WithLiteral(parts, literal) + ps == WithLiteral(parts, literal);
    } else {
      NormalTail(ps);
      if ps[0].Placeholder? {
        FirstPlaceholderIsRead(nm, ps, literal, parts);
        PrintedParsesBack(nm, ps[1..], [], WithLiteral(parts, literal) + [ps[0]]);
      } else {
        LiteralIsRead(nm, ps, parts);
        PrintedParsesBack(nm, ps[1..], ps[0].text, parts);
      }
      HeadMoves(WithLiteral(parts, literal), ps);
    }
  }

  lemma HeadMoves(a: seq<Part>, ps: seq<Part>)
    requires ps != []
    ensures a + [ps[0]] + ps[1..] == a + ps
  {
  }

  lemma {:induction false} EscapeAllowed(s: string)
    requires Allowed(s)
    ensures Allowed(Escape(s))
  {
    if s != [] {
      EscapeAllowed(s[1..]);
    }
  }

  lemma {:induction false} PrintAllowed(nm: Naming, ps: seq<Part>)
    requires Clear(nm)
    requires Normal(ps)
    ensures Allowed(Print(nm, ps))
  {
    if ps != [] {
      PrintAllowed(nm, ps[1..]);
      if ps[0].Literal? {
        EscapeAllowed(ps[0].text);
      } else {
        assert Allowed(nm(ps[0].variable));
      }
    }
  }

  /** The parser accepts exactly the printed forms of normal part lists, and inverts the printer. */
  lemma ParserInvertsPrinter(nm: Naming, value: string, ps: seq<Part>)
    requires Clear(nm)
    ensures Parse(nm, value) == Some(ps) <==> Normal(ps) && Print(nm, ps) == value
  {
    if Parse(nm, value) == Some(ps) {
      ParsedPrintsBack(nm, value, [], []);
      ParsedIsNormal(nm, value, [], []);
      assert Print(nm, []) + Escape([]) + value == value;
    }
    if Normal(ps) && Print(nm, ps) == value {
      PrintAllowed(nm, ps);
      PrintedParsesBack(nm, ps, [], []);
      assert [] + ps == ps;
    }
  }

  /** A name in braces is a placeholder for the variable: these are the seven names. */
  lemma PlaceholderAsWritten(v: Variable, name: string)
    requires v == ClientIp ==> name == "client_ip"
    requires v == Host ==> name == "host"
    requires v == Scheme ==> name == "scheme"
    requires v == RequestId ==> name == "request_id"
    requires v == Route ==> name == "route"
    requires v == ClientCertSubject ==> name == "client_cert_subject"
    requires v == ClientCertFingerprint ==> name == "client_cert_fingerprint"
    ensures Parse(Name, ['{'] + name + ['}']) == Some([Placeholder(v)])
  {
    OnePlaceholder(v);
  }

  lemma OnePlaceholder(v: Variable)
    ensures Parse(Name, ['{'] + Name(v) + ['}']) == Some([Placeholder(v)])
  {
    NamesAreClear();
    PrintOne(Name, Placeholder(v));
    ParserInvertsPrinter(Name, ['{'] + Name(v) + ['}'], [Placeholder(v)]);
  }
}
