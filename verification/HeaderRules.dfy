/** Header rules as text: one rule per line, `set Name: value`, `append Name: value` or
    `remove Name`, with blank lines and comments between them. */
module HeaderRules {
  import opened Basics
  import opened Text
  import HeaderTemplate

  datatype HeaderRule = Set(name: string, value: string) | Append(name: string, value: string) | Remove(name: string)

  datatype Error =
    | InvalidHeaderRule(rule: string)
    | InvalidHeaderName(name: string)
    | ProtectedHeader(name: string)
    | InvalidHeaderValue(value: string)

  // ---- Validation

  predicate IsNameChar(c: char) {
    IsAlphanumeric(c) || c == '!' || c == '#' || c == '$' || c == '%' || c == '&' || c == '\'' || c == '*'
    || c == '+' || c == '-' || c == '.' || c == '^' || c == '_' || c == '`' || c == '|' || c == '~'
  }

  predicate IsHeaderName(name: string) {
    name != [] && forall i :: 0 <= i < |name| ==> IsNameChar(name[i])
  }

  const PROTECTED: seq<string> := [
    "connection", "content-length", "host", "keep-alive", "proxy-connection", "te", "trailer",
    "transfer-encoding", "upgrade"
  ]

  predicate IsProtected(name: string) {
    exists i :: 0 <= i < |PROTECTED| && EqIgnoreCase(PROTECTED[i], name)
  }

  function Validate(r: HeaderRule): Option<Error> {
    if !IsHeaderName(r.name) then Some(InvalidHeaderName(r.name))
    else if IsProtected(r.name) then Some(ProtectedHeader(r.name))
    else if !r.Remove? && HeaderTemplate.Parse(HeaderTemplate.Name, r.value).None? then
      Some(InvalidHeaderValue(r.value))
    else None
  }

  // ---- One line

  /** The first whitespace, or the length. */
  function SpaceIndex(s: string): (i: nat)
    ensures i <= |s| && (i < |s| ==> IsWhitespace(s[i]))
    ensures forall k :: 0 <= k < i ==> !IsWhitespace(s[k])
  {
    if s == [] || IsWhitespace(s[0]) then 0 else SpaceIndex(s[1..]) + 1
  }

  function ReadAction(action: string, rest: string, line: string): Result<HeaderRule, Error> {
    if action == "remove" then Ok(Remove(Trim(rest)))
    else
      match SplitOnce(rest, ':')
      case None => Err(InvalidHeaderRule(line))
      case Some((name, value)) =>
        if action == "set" then Ok(Set(Trim(name), Trim(value)))
        else if action == "append" then Ok(Append(Trim(name), Trim(value)))
        else Err(InvalidHeaderRule(line))
  }

  /** The rule that a trimmed line spells, before its parts are checked. */
  function ReadTrimmed(line: string): Result<HeaderRule, Error> {
    var i := SpaceIndex(line);
    if i == |line| then Err(InvalidHeaderRule(line))
    else ReadAction(ToLower(line[..i]), line[i + 1..], line)
  }

  function ReadLine(text: string): Result<HeaderRule, Error> {
    ReadTrimmed(Trim(text))
  }

  function ParseLine(text: string): Result<HeaderRule, Error> {
    match ReadLine(text)
    case Err(e) => Err(e)
    case Ok(rule) =>
      match Validate(rule)
      case Some(e) => Err(e)
      case None => Ok(rule)
  }

  function Format(r: HeaderRule): string {
    match r
    case Set(name, value) => "set " + name + ": " + value
    case Append(name, value) => "append " + name + ": " + value
    case Remove(name) => "remove " + name
  }

  // ---- The whole text

  predicate Skipped(line: string) {
    var t := Trim(line);
    t == [] || t[0] == '#'
  }

  /** A failed line with its number in the text, which starts at 1. */
  datatype Failure = Failure(line: nat, error: Error)

  function ParseFrom(lines: seq<string>, number: nat): Result<seq<HeaderRule>, Failure> {
    if lines == [] then Ok([])
    else if Skipped(lines[0]) then ParseFrom(lines[1..], number + 1)
    else
      match ParseLine(lines[0])
      case Err(e) => Err(Failure(number, e))
      case Ok(rule) =>
        match ParseFrom(lines[1..], number + 1)
        case Err(f) => Err(f)
        case Ok(rules) => Ok([rule] + rules)
  }

  function ParseHeaderRules(text: string): Result<seq<HeaderRule>, Failure> {
    ParseFrom(Lines(text), 1)
  }

  function FormatEach(rules: seq<HeaderRule>): seq<string> {
    if rules == [] then [] else [Format(rules[0])] + FormatEach(rules[1..])
  }

  function FormatHeaderRules(rules: seq<HeaderRule>): string {
    JoinLines(FormatEach(rules))
  }

  // ---- The reported line

  /** Nothing, or a comment that starts with a hash, between blanks. */
  ghost predicate IsNote(line: string) {
    exists a, text, b :: line == a + text + b && Blank(a) && Blank(b) && (text == [] || text[0] == '#')
  }

  lemma NoteIsSkipped(line: string)
    ensures IsNote(line) <==> Skipped(line)
  {
    var a, b := TrimParts(line);
    if Skipped(line) {
      assert line == a + Trim(line) + b;
    }
    if a', text, b' :| line == a' + text + b' && Blank(a') && Blank(b') && (text == [] || text[0] == '#') {
      TrimPadded(a', text, b');
      if text != [] { HashStays(text); } else { TrimTrimmed([]); }
    }
  }

  lemma HashStays(text: string)
    requires text != [] && text[0] == '#'
    ensures Trim(text) != [] && Trim(text)[0] == '#'
  {
    var a, b := TrimParts(text);
    assert forall i :: 0 <= i < |a| ==> a[i] == text[i];
    assert forall i :: 0 <= i < |b| ==> b[i] == text[|text| - |b| + i];
  }

  /** The failure names the first line, counted from `number`, that is neither blank nor a comment
      and is no valid rule; without such a line every other line gives its rule. */
  ghost predicate FirstBadLine(lines: seq<string>, number: nat, f: Failure) {
    var k := f.line - number;
    && 0 <= k < |lines|
    && !IsNote(lines[k]) && ParseLine(lines[k]) == Err(f.error)
    && forall j :: 0 <= j < k ==> IsNote(lines[j]) || ParseLine(lines[j]).Ok?
  }

  lemma {:induction false} FailureIsTheFirstBadLine(lines: seq<string>, number: nat, f: Failure)
    ensures ParseFrom(lines, number) == Err(f) <==> FirstBadLine(lines, number, f)
    decreases |lines|
  {
    if lines != [] {
      FailureIsTheFirstBadLine(lines[1..], number + 1, f);
      NoteIsSkipped(lines[0]);
      BadLineLater(lines, number, f);
    }
  }

  lemma {:induction false} BadLineLater(lines: seq<string>, number: nat, f: Failure)
    requires lines != []
    ensures f.line != number ==>
            (FirstBadLine(lines, number, f) <==>
             (IsNote(lines[0]) || ParseLine(lines[0]).Ok?) && FirstBadLine(lines[1..], number + 1, f))
    ensures f.line == number ==>
            (FirstBadLine(lines, number, f) <==> !IsNote(lines[0]) && ParseLine(lines[0]) == Err(f.error))
  {
    var tail, k := lines[1..], f.line - number;
    assert forall j :: 0 <= j < |tail| ==> tail[j] == lines[j + 1];
    assert forall j :: 1 <= j < |lines| ==> lines[j] == tail[j - 1];
  }

  ghost predicate Ascends(ks: seq<nat>) {
    forall i, j :: 0 <= i < j < |ks| ==> ks[i] < ks[j]
  }

  /** The rules are those of the lines to keep, one each and in order: `ks` are their indices. */
  ghost predicate Tell(lines: seq<string>, ks: seq<nat>, rules: seq<HeaderRule>, keep: string -> bool,
                       read: string -> Result<HeaderRule, Error>) {
    && |ks| == |rules| && Ascends(ks)
    && (forall i :: 0 <= i < |ks| ==> ks[i] < |lines| && read(lines[ks[i]]) == Ok(rules[i]))
    && (forall k: nat :: k in ks <==> k < |lines| && keep(lines[k]))
  }

  ghost predicate IsRuleLine(line: string) { !IsNote(line) }

  /** Parsing succeeds with the rules of the lines that are neither blank nor a comment, one each and in
      order. */
  lemma {:induction false} OneRulePerLine(lines: seq<string>, number: nat) returns (ks: seq<nat>)
    requires ParseFrom(lines, number).Ok?
    ensures Tell(lines, ks, ParseFrom(lines, number).value, IsRuleLine, ParseLine)
    decreases |lines|
  {
    if lines == [] {
      ks := [];
    } else {
      NoteIsSkipped(lines[0]);
      assert IsRuleLine(lines[0]) <==> !Skipped(lines[0]);
      var rest := OneRulePerLine(lines[1..], number + 1);
      ks := LaterLines(lines, rest, ParseFrom(lines[1..], number + 1).value, IsRuleLine, ParseLine);
    }
  }

  /** The rules of the lines that count, with `keep` and `read` for which those are and what they say. */
  lemma LaterLines(lines: seq<string>, rest: seq<nat>, rules: seq<HeaderRule>, keep: string -> bool,
                   read: string -> Result<HeaderRule, Error>)
    returns (ks: seq<nat>)
    requires lines != [] && Tell(lines[1..], rest, rules, keep, read)
    requires keep(lines[0]) ==> read(lines[0]).Ok?
    ensures Tell(lines, ks, if keep(lines[0]) then [read(lines[0]).value] + rules else rules, keep, read)
  {
    var d := if keep(lines[0]) then 1 else 0;
    ks := Shifted(rest, d);
    var tail := lines[1..];
    forall k: nat ensures k in ks <==> k < |lines| && keep(lines[k]) {
      assert k > 0 ==> (k in ks <==> k - 1 in rest);
      assert 0 < k < |lines| ==> lines[k] == tail[k - 1];
    }
    var all := if keep(lines[0]) then [read(lines[0]).value] + rules else rules;
    forall i | 0 <= i < |ks| ensures ks[i] < |lines| && read(lines[ks[i]]) == Ok(all[i]) {
      assert i >= d ==> ks[(i - d) + d] == rest[i - d] + 1 && all[i] == rules[i - d];
      assert i >= d ==> lines[ks[i]] == tail[rest[i - d]];
    }
  }

  ghost function Up(ks: seq<nat>): (r: seq<nat>)
    ensures |r| == |ks| && forall i :: 0 <= i < |ks| ==> r[i] == ks[i] + 1
  {
    if ks == [] then [] else Up(ks[..|ks| - 1]) + [ks[|ks| - 1] + 1]
  }

  lemma UpHas(ks: seq<nat>, k: nat)
    ensures k in Up(ks) <==> k > 0 && k - 1 in ks
  {
    var r := Up(ks);
    if i :| 0 <= i < |ks| && ks[i] == k - 1 { assert r[i] == k; }
    if i :| 0 <= i < |r| && r[i] == k { assert ks[i] == k - 1; }
  }

  /** The indices of a list behind its first element, and that element itself when `d` is 1. */
  lemma Shifted(rest: seq<nat>, d: nat) returns (ks: seq<nat>)
    requires Ascends(rest) && d <= 1
    ensures Ascends(ks) && |ks| == |rest| + d && (d == 1 ==> ks[0] == 0)
    ensures forall i :: 0 <= i < |rest| ==> ks[i + d] == rest[i] + 1
    ensures 0 in ks <==> d == 1
    ensures forall k: nat :: k > 0 ==> (k in ks <==> k - 1 in rest)
  {
    var r := Up(rest);
    ks := if d == 1 then [0] + r else r;
    forall k: nat ensures k in r <==> k > 0 && k - 1 in rest { UpHas(rest, k); }
  }

  // ---- The names

  /** A visible ASCII character that is no delimiter. */
  ghost predicate IsTokenChar(c: char) {
    && '!' <= c <= '~'
    && c !in {'"', '(', ')', ',', '/', ':', ';', '<', '=', '>', '?', '@', '[', '\\', ']', '{', '}'}
  }

  ghost predicate IsToken(name: string) {
    name != [] && forall i :: 0 <= i < |name| ==> IsTokenChar(name[i])
  }

  ghost predicate IsKept(name: string) {
    || EqIgnoreCase("connection", name) || EqIgnoreCase("content-length", name) || EqIgnoreCase("host", name)
    || EqIgnoreCase("keep-alive", name) || EqIgnoreCase("proxy-connection", name) || EqIgnoreCase("te", name)
    || EqIgnoreCase("trailer", name) || EqIgnoreCase("transfer-encoding", name) || EqIgnoreCase("upgrade", name)
  }

  lemma ProtectedIff(name: string)
    ensures IsProtected(name) <==> IsKept(name)
  {
    assert PROTECTED[0] == "connection" && PROTECTED[1] == "content-length" && PROTECTED[2] == "host";
    assert PROTECTED[3] == "keep-alive" && PROTECTED[4] == "proxy-connection" && PROTECTED[5] == "te";
    assert PROTECTED[6] == "trailer" && PROTECTED[7] == "transfer-encoding" && PROTECTED[8] == "upgrade";
  }

  ghost predicate IsTemplate(value: string) {
    exists ps :: HeaderTemplate.Normal(ps) && HeaderTemplate.Print(HeaderTemplate.Name, ps) == value
  }

  lemma TemplateIff(value: string)
    ensures HeaderTemplate.Parse(HeaderTemplate.Name, value).Some? <==> IsTemplate(value)
  {
    HeaderTemplate.NamesAreClear();
    forall ps { HeaderTemplate.ParserInvertsPrinter(HeaderTemplate.Name, value, ps); }
  }

  lemma TokenIff(name: string)
    ensures IsHeaderName(name) <==> IsToken(name)
  {
    forall i | 0 <= i < |name| ensures IsNameChar(name[i]) <==> IsTokenChar(name[i]) { }
  }

  /** A rule is valid exactly when its name is a token, is none of the nine names that the proxy keeps to
      itself, and its value is the printed form of a template; the error is about the first that fails. */
  lemma ValidIff(r: HeaderRule)
    ensures Validate(r) == Some(InvalidHeaderName(r.name)) <==> !IsToken(r.name)
    ensures Validate(r) == Some(ProtectedHeader(r.name)) <==> IsToken(r.name) && IsKept(r.name)
    ensures Validate(r).None? <==> IsToken(r.name) && !IsKept(r.name) && (!r.Remove? ==> IsTemplate(r.value))
  {
    TokenIff(r.name);
    ProtectedIff(r.name);
    if !r.Remove? { TemplateIff(r.value); }
  }

  // ---- Formatting and parsing again

  /** What parsing guarantees of a rule. */
  ghost predicate Canonical(r: HeaderRule) {
    && IsHeaderName(r.name)
    && (!r.Remove? ==> IsTrimmed(r.value) && HeaderTemplate.Allowed(r.value))
  }

  lemma ReadIsTrimmed(text: string)
    requires ReadLine(text).Ok? && !ReadLine(text).value.Remove?
    ensures IsTrimmed(ReadLine(text).value.value)
  {
    var line := Trim(text);
    var rest := line[SpaceIndex(line) + 1..];
    var _, _ := TrimParts(SplitOnce(rest, ':').value.1);
  }

  lemma ParsedIsCanonical(text: string)
    requires ParseLine(text).Ok?
    ensures Canonical(ParseLine(text).value) && Validate(ParseLine(text).value).None?
  {
    if !ReadLine(text).value.Remove? {
      ReadIsTrimmed(text);
    }
  }

  lemma SpaceIndexOf(a: string, b: string)
    requires forall k :: 0 <= k < |a| ==> !IsWhitespace(a[k])
    ensures SpaceIndex(a + " " + b) == |a|
  {
    var s := a + " " + b;
    assert forall k :: 0 <= k < |a| ==> s[k] == a[k];
    assert s[|a|] == ' ';
  }

  lemma NameIsSolid(name: string)
    requires IsHeaderName(name)
    ensures IsTrimmed(name) && ':' !in name && NL !in name && CR !in name
    ensures forall k :: 0 <= k < |name| ==> !IsWhitespace(name[k])
  {
  }

  lemma ReadWords(action: string, rest: string)
    requires forall k :: 0 <= k < |action| ==> !IsWhitespace(action[k])
    ensures ReadTrimmed(action + " " + rest) == ReadAction(ToLower(action), rest, action + " " + rest)
  {
    SpaceIndexOf(action, rest);
    var line := action + " " + rest;
    assert line[..|action|] == action && line[|action| + 1..] == rest;
  }

  predicate LowerWord(s: string) {
    s != [] && forall k :: 0 <= k < |s| ==> IsLower(s[k])
  }

  lemma LowerWordStays(s: string)
    requires LowerWord(s)
    ensures ToLower(s) == s && forall k :: 0 <= k < |s| ==> !IsWhitespace(s[k])
  {
    var l := ToLower(s);
    forall k | 0 <= k < |s| ensures l[k] == s[k] && !IsWhitespace(s[k]) {
      assert IsLower(s[k]);
    }
  }

  /** The value behind the colon: nothing, or a space and the value. */
  function Tail(value: string): string {
    if value == [] then [] else " " + value
  }

  lemma TrimTail(value: string)
    requires IsTrimmed(value)
    ensures Trim(Tail(value)) == value
  {
    var a := if value == [] then [] else " ";
    assert Tail(value) == a + value + [];
    TrimOf(a, value, []);
  }

  /** Trimming a printed rule loses at most the space in front of an empty value. */
  lemma TrimPrinted(head: string, value: string)
    requires head != [] && !IsWhitespace(head[0]) && !IsWhitespace(head[|head| - 1]) && IsTrimmed(value)
    ensures Trim(head + (" " + value)) == head + Tail(value)
  {
    var line := head + Tail(value);
    var b := if value == [] then " " else [];
    assert head + (" " + value) == [] + line + b;
    assert line[0] == head[0];
    assert line[|line| - 1] == if value == [] then head[|head| - 1] else value[|value| - 1];
    TrimOf([], line, b);
  }

  lemma ReadValue(action: string, name: string, value: string)
    requires action == "set" || action == "append"
    requires IsHeaderName(name) && IsTrimmed(value)
    ensures ReadLine(action + " " + (name + ":") + (" " + value)) ==
            Ok(if action == "set" then Set(name, value) else Append(name, value))
  {
    assert LowerWord(action);
    LowerWordStays(action);
    TrimRule(action, name, value);
    ReadWords(action, name + ":" + Tail(value));
    ReadNamed(action, name, value, action + " " + (name + ":" + Tail(value)));
  }

  lemma TrimRule(action: string, name: string, value: string)
    requires LowerWord(action) && IsTrimmed(value)
    ensures Trim(action + " " + (name + ":") + (" " + value)) == action + " " + (name + ":" + Tail(value))
  {
    var head := action + " " + (name + ":");
    HeadIsSolid(action, name);
    TrimPrinted(head, value);
    assert head + Tail(value) == action + " " + (name + ":" + Tail(value));
  }

  lemma HeadIsSolid(action: string, name: string)
    requires LowerWord(action)
    ensures var head := action + " " + (name + ":");
      head != [] && !IsWhitespace(head[0]) && !IsWhitespace(head[|head| - 1])
  {
    var head := action + " " + (name + ":");
    assert head[0] == action[0] && head[|head| - 1] == ':';
    assert IsLower(action[0]);
  }

  lemma ReadNamed(action: string, name: string, value: string, line: string)
    requires action == "set" || action == "append"
    requires IsHeaderName(name) && IsTrimmed(value)
    ensures ReadAction(action, name + ":" + Tail(value), line) ==
            Ok(if action == "set" then Set(name, value) else Append(name, value))
  {
    NameIsSolid(name);
    SplitOnceOf(name, ':', Tail(value));
    TrimTrimmed(name);
    TrimTail(value);
    assert |"remove"| != |"set"| && "append"[0] != "remove"[0] && |"set"| != |"append"|;
  }

  lemma ReadRemove(name: string)
    requires IsHeaderName(name)
    ensures ReadLine("remove" + " " + name) == Ok(Remove(name))
  {
    NameIsSolid(name);
    var line := "remove" + " " + name;
    assert line[0] == 'r' && line[|line| - 1] == name[|name| - 1];
    TrimTrimmed(line);
    assert LowerWord("remove");
    LowerWordStays("remove");
    ReadWords("remove", name);
    TrimTrimmed(name);
  }

  lemma FormatSet(name: string, value: string)
    ensures Format(Set(name, value)) == "set" + " " + (name + ":") + (" " + value)
    ensures Format(Append(name, value)) == "append" + " " + (name + ":") + (" " + value)
  {
    assert "set " == "set" + " " && "append " == "append" + " " && ": " == ":" + " ";
  }

  lemma FormatIsRead(r: HeaderRule)
    requires Canonical(r)
    ensures ReadLine(Format(r)) == Ok(r)
  {
    match r
    case Set(name, value) =>
      ReadValue("set", name, value);
      FormatSet(name, value);
    case Append(name, value) =>
      ReadValue("append", name, value);
      FormatSet(name, value);
    case Remove(name) =>
      ReadRemove(name);
      assert "remove " == "remove" + " ";
  }

  predicate NoBreak(s: string) {
    NL !in s && CR !in s
  }

  lemma FirstStays(s: string)
    requires s != [] && !IsWhitespace(s[0])
    ensures Trim(s) != [] && Trim(s)[0] == s[0]
  {
    assert TrimStart(s) == s;
    var b := TrimEndParts(s);
    assert TrimEnd(s) == [] ==> s == b;
  }

  /** A printed rule is one line that is no comment. */
  lemma FormatIsALine(r: HeaderRule)
    requires Canonical(r)
    ensures Format(r) != [] && NoBreak(Format(r)) && !Skipped(Format(r))
  {
    NameIsSolid(r.name);
    if r.Remove? {
      assert NoBreak("remove ");
    } else {
      ValueHasNoBreak(r.value);
      assert NoBreak("set ") && NoBreak("append ") && NoBreak(": ");
    }
    FirstStays(Format(r));
  }

  lemma ValueHasNoBreak(value: string)
    requires HeaderTemplate.Allowed(value)
    ensures NoBreak(value)
  {
  }

  lemma {:induction false} LinesOfFormatted(rules: seq<HeaderRule>)
    requires forall k :: 0 <= k < |rules| ==> Canonical(rules[k])
    ensures Lines(FormatHeaderRules(rules)) == FormatEach(rules)
  {
    if rules != [] {
      FormatIsALine(rules[0]);
      if |rules| == 1 {
        LinesOfOne(Format(rules[0]));
        assert FormatEach(rules) == [Format(rules[0])];
      } else {
        LinesOfFormatted(rules[1..]);
        LinesOfMore(Format(rules[0]), FormatHeaderRules(rules[1..]));
        assert FormatEach(rules)[1..] == FormatEach(rules[1..]);
        assert StripCr(Format(rules[0])) == Format(rules[0]);
      }
    }
  }

  lemma LineParses(r: HeaderRule)
    requires Canonical(r) && Validate(r).None?
    ensures !Skipped(Format(r)) && ParseLine(Format(r)) == Ok(r)
  {
    FormatIsALine(r);
    FormatIsRead(r);
  }

  lemma {:induction false} EachLineParses(lines: seq<string>, rules: seq<HeaderRule>, number: nat)
    requires |lines| == |rules|
    requires forall k :: 0 <= k < |lines| ==> !Skipped(lines[k]) && ParseLine(lines[k]) == Ok(rules[k])
    ensures ParseFrom(lines, number) == Ok(rules)
  {
    if lines != [] {
      EachLineParses(lines[1..], rules[1..], number + 1);
      assert rules == [rules[0]] + rules[1..];
    }
  }

  lemma {:induction false} FormatEachAt(rules: seq<HeaderRule>, k: nat)
    requires k < |rules|
    ensures |FormatEach(rules)| == |rules| && FormatEach(rules)[k] == Format(rules[k])
  {
    if |rules| > 1 {
      FormatEachAt(rules[1..], if k == 0 then 0 else k - 1);
    }
  }

  lemma FormattedParses(rules: seq<HeaderRule>, number: nat)
    requires forall k :: 0 <= k < |rules| ==> Canonical(rules[k]) && Validate(rules[k]).None?
    ensures ParseFrom(FormatEach(rules), number) == Ok(rules)
  {
    var lines := FormatEach(rules);
    assert |lines| == |rules| by {
      if rules != [] { FormatEachAt(rules, 0); }
    }
    forall k | 0 <= k < |lines| ensures !Skipped(lines[k]) && ParseLine(lines[k]) == Ok(rules[k]) {
      FormatEachAt(rules, k);
      LineParses(rules[k]);
    }
    EachLineParses(lines, rules, number);
  }

  lemma {:induction false} ParsedAreCanonical(lines: seq<string>, number: nat)
    requires ParseFrom(lines, number).Ok?
    ensures forall k :: 0 <= k < |ParseFrom(lines, number).value| ==>
      Canonical(ParseFrom(lines, number).value[k]) && Validate(ParseFrom(lines, number).value[k]).None?
  {
    if lines != [] {
      if Skipped(lines[0]) {
        ParsedAreCanonical(lines[1..], number + 1);
      } else {
        ParsedIsCanonical(lines[0]);
        ParsedAreCanonical(lines[1..], number + 1);
      }
    }
  }

  /** Formatting parsed rules and parsing the text again gives the same rules. */
  lemma FormatUndoesParse(text: string)
    requires ParseHeaderRules(text).Ok?
    ensures ParseHeaderRules(FormatHeaderRules(ParseHeaderRules(text).value)) == ParseHeaderRules(text)
  {
    var rules := ParseHeaderRules(text).value;
    ParsedAreCanonical(Lines(text), 1);
    LinesOfFormatted(rules);
    FormattedParses(rules, 1);
  }
}
