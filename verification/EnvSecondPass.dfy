/** Resolving the text that the template resolver wrote a second time, without overwriting. */
module EnvSecondPass {
  import opened Basics
  import opened Text
  import opened Env
  import opened EnvResolved

  type Generator = string -> string

  /** The same rules without overwriting, with the secrets that the second pass draws. */
  function Again(r: Rules, g: Generator): Rules {
    r.(overwrite := false, generate := g)
  }

  ghost predicate OneLineSecrets(r: Rules) {
    forall key :: NL !in r.generate(key)
  }

  /** The value of a secret that a second pass replaces. */
  predicate Replaceable(r: Rules, e: Entry) {
    e.secret && r.isPlaceholder(Trim(e.value))
  }

  ghost predicate NothingReplaceable(r: Rules, rs: seq<Resolved>) {
    forall k :: 0 <= k < |rs| && rs[k].entry.Some? ==> !Replaceable(r, rs[k].entry.value)
  }

  /** A second pass gives the entry the same value. */
  predicate Stable(r: Rules, g: Generator, e: Entry) {
    if Replaceable(r, e) then g(e.key) == e.value else Plain(e.value)
  }

  ghost predicate AllStable(r: Rules, g: Generator, rs: seq<Resolved>) {
    forall k :: 0 <= k < |rs| && rs[k].entry.Some? ==> Stable(r, g, rs[k].entry.value)
  }

  lemma Splits(r: Rules, g: Generator, p: Resolved, rest: seq<Resolved>)
    ensures NothingReplaceable(r, [p] + rest) <==>
            (p.entry.Some? ==> !Replaceable(r, p.entry.value)) && NothingReplaceable(r, rest)
    ensures AllStable(r, g, [p] + rest) <==> (p.entry.Some? ==> Stable(r, g, p.entry.value)) && AllStable(r, g, rest)
  {
    var rs := [p] + rest;
    assert rs[0] == p;
    assert forall k :: 0 <= k < |rest| ==> rest[k] == rs[k + 1];
    assert forall k :: 1 <= k < |rs| ==> rs[k] == rest[k - 1];
  }

  // ---- One line twice

  /** The line of a first pass: copied, or written for its entry. */
  ghost predicate IsFirstPass(word: string, r: Rules, p: Resolved) {
    && NL !in p.line
    && match p.entry {
      case None => ProcessLine(word, r, p.line) == Resolved(p.line, None, false)
      case Some(e) =>
        ValidKey(e.key) && e.secret == r.isSecret(e.key) && NL !in e.value
        && exists exported :: p.line == WriteLine(word, exported, e.key, e.value)
    }
  }

  lemma FirstPassLine(word: string, r: Rules, line: string)
    requires ValidKey(word) && NL !in line && OneLineSecrets(r)
    ensures IsFirstPass(word, r, ProcessLine(word, r, line))
  {
    var p := ProcessLine(word, r, line);
    if p.entry.Some? {
      var e := p.entry.value;
      ValueIsOneLine(word, r, line);
      WordIsSolid(word);
      WordIsSolid(e.key);
      assert p.line == WriteLine(word, Exports(word, line), e.key, e.value);
    }
  }

  lemma PartsHaveNoLineFeed(s: string)
    requires NL !in s
    ensures NL !in Trim(s) && NL !in CleanValue(s)
  {
    var a, b := TrimParts(s);
    assert forall k :: 0 <= k < |Trim(s)| ==> Trim(s)[k] == s[|a| + k];
    if !Quoted(s) {
      var u := s[..CommentIndex(s)];
      var c, d := TrimParts(u);
      assert forall k :: 0 <= k < |Trim(u)| ==> Trim(u)[k] == u[|c| + k];
    }
  }

  lemma ValueIsOneLine(word: string, r: Rules, line: string)
    requires NL !in line && OneLineSecrets(r) && ProcessLine(word, r, line).entry.Some?
    ensures NL !in ProcessLine(word, r, line).entry.value.value
  {
    var body := StripExport(word, line);
    assert NL !in body;
    SplitOnceNone(body, '=');
    SplitOnceParts(body, '=');
    var (a, b) := SplitOnce(body, '=').value;
    assert forall k :: 0 <= k < |b| ==> b[k] == body[|a| + 1 + k];
    PartsHaveNoLineFeed(b);
    PartsHaveNoLineFeed(Trim(b));
  }

  lemma StripCrOfWritten(word: string, exported: bool, key: string, value: string)
    ensures StripCr(WriteLine(word, exported, key, value)) == WriteLine(word, exported, key, StripCr(value))
  {
    var head := (if exported then word + [' '] else []) + key + ['='];
    assert WriteLine(word, exported, key, value) == head + value;
    if value == [] {
      assert head + value == head && head[|head| - 1] == '=';
    } else {
      assert (head + value)[|head + value| - 1] == value[|value| - 1];
      assert (head + value)[..|head + value| - 1] == head + value[..|value| - 1];
    }
  }

  /** What the second pass makes of the value of an entry. */
  function SecondValue(r: Rules, g: Generator, e: Entry): string {
    if Replaceable(r, e) then g(e.key) else Reread(e.value)
  }

  lemma SecondValueIsStable(r: Rules, g: Generator, e: Entry)
    requires NL !in e.value
    ensures SecondValue(r, g, e) == e.value <==> Stable(r, g, e)
    ensures !Replaceable(r, e) ==>
            |SecondValue(r, g, e)| <= |e.value| && (|SecondValue(r, g, e)| == |e.value| <==> Plain(e.value))
  {
    RereadIffPlain(e.value);
  }

  /** The second pass over the line of an entry, with or without a last carriage return. */
  lemma EntryTwice(word: string, r: Rules, g: Generator, exported: bool, p: Resolved, cut: bool)
    requires ValidKey(word) && p.entry.Some? && ValidKey(p.entry.value.key)
    requires p.entry.value.secret == r.isSecret(p.entry.value.key)
    requires p.line == WriteLine(word, exported, p.entry.value.key, p.entry.value.value)
    ensures var e := p.entry.value;
      ProcessLine(word, Again(r, g), if cut then StripCr(p.line) else p.line) ==
      Resolved(WriteLine(word, exported, e.key, SecondValue(r, g, e)),
               Some(Entry(e.key, SecondValue(r, g, e), e.secret)), Replaceable(r, e))
  {
    var e := p.entry.value;
    var value := if cut then StripCr(e.value) else e.value;
    StripCrOfWritten(word, exported, e.key, e.value);
    StripCrKeepsTrim(e.value);
    WrittenLine(word, Again(r, g), exported, e.key, value);
  }

  lemma ExportsStripped(word: string, line: string)
    ensures Exports(word, StripCr(line)) == Exports(word, line)
  {
    if Exports(word, line) && line != StripCr(line) {
      assert line[|word|] == (word + [' '])[|word|];
    }
  }

  lemma KeyValueStripped(word: string, line: string)
    ensures KeyValue(StripExport(word, StripCr(line))) == KeyValue(StripExport(word, line))
  {
    ExportsStripped(word, line);
    var b := StripCrParts(line);
    StripBehind(word, StripCr(line), b);
    KeyValueOfBlanks([], StripExport(word, StripCr(line)), b);
  }

  lemma StripBehind(word: string, s: string, b: string)
    requires Exports(word, s) == Exports(word, s + b)
    ensures [] + StripExport(word, s) + b == StripExport(word, s + b)
  {
  }

  /** A trailing carriage return changes only a line that is copied. */
  lemma CopyTwice(word: string, r: Rules, g: Generator, line: string)
    requires ProcessLine(word, r, line) == Resolved(line, None, false)
    ensures ProcessLine(word, Again(r, g), StripCr(line)) == Resolved(StripCr(line), None, false)
    ensures ProcessLine(word, Again(r, g), line) == Resolved(line, None, false)
  {
    StripCrKeepsTrim(line);
    KeyValueStripped(word, line);
  }

  /** The second pass over a line of the first. */
  lemma LineTwice(word: string, r: Rules, g: Generator, p: Resolved, cut: bool)
    requires ValidKey(word) && IsFirstPass(word, r, p)
    ensures var q := ProcessLine(word, Again(r, g), if cut then StripCr(p.line) else p.line);
      && q.generated == (p.entry.Some? && Replaceable(r, p.entry.value))
      && q.entry.Some? == p.entry.Some?
      && (p.entry.Some? ==> (q.entry == p.entry <==> Stable(r, g, p.entry.value)))
  {
    match p.entry {
      case None => CopyTwice(word, r, g, p.line);
      case Some(e) =>
        var exported :| p.line == WriteLine(word, exported, e.key, e.value);
        EntryTwice(word, r, g, exported, p, cut);
        SecondValueIsStable(r, g, e);
    }
  }

  /** Without a replacement the line gets no longer, and stays as it is exactly when its value is plain or
      it is copied without a carriage return. */
  lemma LengthTwice(word: string, r: Rules, g: Generator, p: Resolved, cut: bool)
    requires ValidKey(word) && IsFirstPass(word, r, p) && (p.entry.Some? ==> !Replaceable(r, p.entry.value))
    ensures var q := ProcessLine(word, Again(r, g), if cut then StripCr(p.line) else p.line);
      && |q.line| <= |p.line|
      && (|q.line| == |p.line| ==> q.line == p.line)
      && (q.line == p.line <==> if p.entry.Some? then Plain(p.entry.value.value) else !cut || StripCr(p.line) == p.line)
  {
    match p.entry {
      case None => CopyTwice(word, r, g, p.line);
      case Some(e) =>
        var exported :| p.line == WriteLine(word, exported, e.key, e.value);
        EntryTwice(word, r, g, exported, p, cut);
        SecondValueIsStable(r, g, e);
        WrittenLengths(word, exported, e.key, SecondValue(r, g, e), e.value);
    }
  }

  lemma WrittenLengths(word: string, exported: bool, key: string, v: string, w: string)
    ensures |WriteLine(word, exported, key, v)| - |v| == |WriteLine(word, exported, key, w)| - |w|
    ensures WriteLine(word, exported, key, v) == WriteLine(word, exported, key, w) <==> v == w
  {
    var head := (if exported then word + [' '] else []) + key + ['='];
    assert WriteLine(word, exported, key, v) == head + v && WriteLine(word, exported, key, w) == head + w;
    assert (head + v)[|head|..] == v && (head + w)[|head|..] == w;
  }

  lemma PlainHasNoCr(word: string, exported: bool, key: string, value: string)
    requires Plain(value)
    ensures StripCr(WriteLine(word, exported, key, value)) == WriteLine(word, exported, key, value)
  {
    StripCrOfWritten(word, exported, key, value);
  }

  // ---- A text twice

  ghost predicate AllFirstPass(word: string, r: Rules, rs: seq<Resolved>) {
    forall k :: 0 <= k < |rs| ==> IsFirstPass(word, r, rs[k])
  }

  lemma {:induction false} FirstPassLines(word: string, r: Rules, lines: seq<string>)
    requires ValidKey(word) && OneLiners(lines) && OneLineSecrets(r)
    ensures AllFirstPass(word, r, ResolveLines(word, r, lines))
  {
    if lines != [] {
      FirstPassLine(word, r, lines[0]);
      FirstPassLines(word, r, lines[1..]);
    }
  }

  /** The second pass over the text of the first. */
  function Second(word: string, r: Rules, g: Generator, rs: seq<Resolved>): seq<Resolved> {
    ResolveLines(word, Again(r, g), Lines(JoinLines(NewLines(rs))))
  }

  lemma ResolveFront(word: string, r: Rules, line: string, lines: seq<string>)
    ensures ResolveLines(word, r, [line] + lines) == [ProcessLine(word, r, line)] + ResolveLines(word, r, lines)
  {
    assert ([line] + lines)[1..] == lines;
  }

  /** The second pass, line by line; a last empty line is gone. */
  lemma SecondSteps(word: string, r: Rules, g: Generator, p: Resolved, rest: seq<Resolved>)
    requires IsFirstPass(word, r, p)
    ensures var q := ProcessLine(word, Again(r, g), if rest == [] then p.line else StripCr(p.line));
      Second(word, r, g, [p] + rest) == (if rest == [] && p.line == [] then [] else [q]) + Second(word, r, g, rest)
  {
    LinesOfText(p, rest);
    if rest == [] {
      assert Second(word, r, g, rest) == [];
      if p.line != [] {
        ResolveFront(word, Again(r, g), p.line, []);
        assert [p.line] + [] == [p.line];
      }
    } else {
      ResolveFront(word, Again(r, g), StripCr(p.line), Lines(JoinLines(NewLines(rest))));
    }
  }

  lemma {:induction false} SecondAnswers(word: string, r: Rules, g: Generator, rs: seq<Resolved>)
    requires ValidKey(word) && AllFirstPass(word, r, rs)
    ensures GeneratedKeys(Second(word, r, g, rs)) == [] <==> NothingReplaceable(r, rs)
    ensures Entries(Second(word, r, g, rs)) == Entries(rs) <==> AllStable(r, g, rs)
    ensures |Entries(Second(word, r, g, rs))| == |Entries(rs)|
  {
    if rs != [] {
      var p, rest := rs[0], rs[1..];
      assert rs == [p] + rest;
      assert forall k :: 0 <= k < |rest| ==> rest[k] == rs[k + 1];
      SecondAnswers(word, r, g, rest);
      SecondSteps(word, r, g, p, rest);
      LineTwice(word, r, g, p, rest != []);
      Splits(r, g, p, rest);
      Views(p, rest);
      var q := ProcessLine(word, Again(r, g), if rest == [] then p.line else StripCr(p.line));
      if rest == [] && p.line == [] {
        EmptyEntry(word, r, p);
        assert [] + Second(word, r, g, rest) == Second(word, r, g, rest);
      } else {
        Views(q, Second(word, r, g, rest));
        if p.entry.Some? {
          SameFronts(q.entry.value, p.entry.value, Entries(Second(word, r, g, rest)), Entries(rest));
        }
      }
    }
  }

  lemma EmptyEntry(word: string, r: Rules, p: Resolved)
    requires IsFirstPass(word, r, p) && p.line == []
    ensures p.entry.None?
  {
  }

  lemma SameFronts(a: Entry, b: Entry, s: seq<Entry>, t: seq<Entry>)
    ensures [a] + s == [b] + t <==> a == b && s == t
  {
    assert ([a] + s)[0] == a && ([b] + t)[0] == b && ([a] + s)[1..] == s && ([b] + t)[1..] == t;
  }

  // ---- The text of the second pass

  /** Lines that survive being joined and split: none but the last ends with a carriage return, and
      a last empty line is the only line. */
  ghost predicate StableLines(lines: seq<string>) {
    && (forall k :: 0 <= k < |lines| - 1 ==> StripCr(lines[k]) == lines[k])
    && (|lines| > 1 ==> lines[|lines| - 1] != [])
  }

  lemma StableSplit(line: string, rest: seq<string>)
    requires rest != []
    ensures StableLines([line] + rest) <==> StripCr(line) == line && StableLines(rest) && rest != [[]]
  {
    var lines := [line] + rest;
    assert forall k :: 0 <= k < |rest| ==> rest[k] == lines[k + 1];
    assert forall k :: 1 <= k < |lines| ==> lines[k] == rest[k - 1];
    assert lines[0] == line && rest[|rest| - 1] == lines[|lines| - 1];
  }

  function SecondText(word: string, r: Rules, g: Generator, rs: seq<Resolved>): string {
    JoinLines(NewLines(Second(word, r, g, rs)))
  }

  lemma {:induction false} SecondIsEmpty(word: string, r: Rules, g: Generator, rs: seq<Resolved>)
    requires AllFirstPass(word, r, rs)
    ensures Second(word, r, g, rs) == [] <==> NewLines(rs) == [] || NewLines(rs) == [[]]
  {
    if rs != [] {
      var p, rest := rs[0], rs[1..];
      assert rs == [p] + rest;
      SecondSteps(word, r, g, p, rest);
      Views(p, rest);
      NewLinesLength(rest);
      assert NewLines(rs)[0] == p.line;
    }
  }

  ghost predicate SameText(word: string, r: Rules, g: Generator, rs: seq<Resolved>) {
    && |SecondText(word, r, g, rs)| <= |JoinLines(NewLines(rs))|
    && (|SecondText(word, r, g, rs)| == |JoinLines(NewLines(rs))| ==> AllPlain(rs) && StableLines(NewLines(rs)))
    && (AllPlain(rs) && StableLines(NewLines(rs)) ==> SecondText(word, r, g, rs) == JoinLines(NewLines(rs)))
  }

  lemma OneLineText(word: string, r: Rules, g: Generator, p: Resolved)
    requires IsFirstPass(word, r, p)
    ensures JoinLines(NewLines([p])) == p.line && NewLines([p]) == [p.line]
    ensures SecondText(word, r, g, [p]) == if p.line == [] then [] else ProcessLine(word, Again(r, g), p.line).line
  {
    assert [p] == [p] + [];
    SecondSteps(word, r, g, p, []);
    assert Second(word, r, g, []) == [];
    TextParts(p, []);
    Views(p, []);
    var q := ProcessLine(word, Again(r, g), p.line);
    TextParts(q, []);
    assert [q] + [] == [q];
  }

  lemma LastLineTwice(word: string, r: Rules, g: Generator, p: Resolved)
    requires ValidKey(word) && IsFirstPass(word, r, p) && NothingReplaceable(r, [p])
    ensures SameText(word, r, g, [p])
  {
    assert [p] == [p] + [];
    OneLineText(word, r, g, p);
    AllPlainSplit(p, []);
    Splits(r, g, p, []);
    LengthTwice(word, r, g, p, false);
    if p.line == [] {
      EmptyEntry(word, r, p);
    }
  }

  /** The texts of a line in front of others, when the line gets no longer and neither does the rest. */
  lemma GlueTexts(line: string, second: string, text: string, text2: string, gone: bool, fine: bool)
    requires |second| <= |line| && (|second| == |line| ==> second == line)
    requires |text2| <= |text| && (|text2| == |text| ==> fine) && (fine ==> text2 == text)
    ensures var old_, new_ := line + [NL] + text, if gone then second else second + [NL] + text2;
      && |new_| <= |old_|
      && (|new_| == |old_| ==> second == line && fine && !gone)
      && (second == line && fine && !gone ==> new_ == old_)
  {
  }

  /** When a line and the lines behind it are as they were. */
  lemma FineLines(word: string, r: Rules, g: Generator, p: Resolved, rest: seq<Resolved>)
    requires ValidKey(word) && IsFirstPass(word, r, p) && rest != []
    requires p.entry.Some? ==> !Replaceable(r, p.entry.value)
    ensures var q := ProcessLine(word, Again(r, g), StripCr(p.line));
      AllPlain([p] + rest) && StableLines(NewLines([p] + rest)) <==>
      q.line == p.line && AllPlain(rest) && StableLines(NewLines(rest)) && NewLines(rest) != [[]]
  {
    Views(p, rest);
    AllPlainSplit(p, rest);
    NewLinesLength(rest);
    StableSplit(p.line, NewLines(rest));
    LengthTwice(word, r, g, p, true);
    if p.entry.Some? && Plain(p.entry.value.value) {
      PlainLineIsStable(word, r, p);
    }
  }

  lemma MoreLinesTwice(word: string, r: Rules, g: Generator, p: Resolved, rest: seq<Resolved>)
    requires ValidKey(word) && IsFirstPass(word, r, p) && rest != [] && AllFirstPass(word, r, rest)
    requires NothingReplaceable(r, [p] + rest) && SameText(word, r, g, rest)
    ensures SameText(word, r, g, [p] + rest)
  {
    Splits(r, g, p, rest);
    FineLines(word, r, g, p, rest);
    LengthTwice(word, r, g, p, true);
    SecondIsEmpty(word, r, g, rest);
    NewLinesLength(rest);
    TwoTexts(word, r, g, p, rest);
    var q := ProcessLine(word, Again(r, g), StripCr(p.line));
    GlueTexts(p.line, q.line, JoinLines(NewLines(rest)), SecondText(word, r, g, rest), Second(word, r, g, rest) == [],
              AllPlain(rest) && StableLines(NewLines(rest)));
  }

  lemma TwoTexts(word: string, r: Rules, g: Generator, p: Resolved, rest: seq<Resolved>)
    requires IsFirstPass(word, r, p) && rest != []
    ensures JoinLines(NewLines([p] + rest)) == p.line + [NL] + JoinLines(NewLines(rest))
    ensures var q := ProcessLine(word, Again(r, g), StripCr(p.line));
      SecondText(word, r, g, [p] + rest) ==
      if Second(word, r, g, rest) == [] then q.line else q.line + [NL] + SecondText(word, r, g, rest)
  {
    SecondSteps(word, r, g, p, rest);
    TextParts(p, rest);
    TextParts(ProcessLine(word, Again(r, g), StripCr(p.line)), Second(word, r, g, rest));
  }

  lemma PlainLineIsStable(word: string, r: Rules, p: Resolved)
    requires IsFirstPass(word, r, p) && p.entry.Some? && Plain(p.entry.value.value)
    ensures StripCr(p.line) == p.line
  {
    var exported :| p.line == WriteLine(word, exported, p.entry.value.key, p.entry.value.value);
    PlainHasNoCr(word, exported, p.entry.value.key, p.entry.value.value);
  }

  lemma FirstPassSplit(word: string, r: Rules, p: Resolved, rest: seq<Resolved>)
    requires AllFirstPass(word, r, [p] + rest)
    ensures IsFirstPass(word, r, p) && AllFirstPass(word, r, rest)
  {
    var rs := [p] + rest;
    assert rs[0] == p;
    assert forall k :: 0 <= k < |rest| ==> rest[k] == rs[k + 1];
  }

  lemma {:induction false} TextTwice(word: string, r: Rules, g: Generator, p: Resolved, rest: seq<Resolved>)
    requires ValidKey(word) && AllFirstPass(word, r, [p] + rest) && NothingReplaceable(r, [p] + rest)
    ensures SameText(word, r, g, [p] + rest)
    decreases |rest|
  {
    FirstPassSplit(word, r, p, rest);
    if rest == [] {
      assert [p] + rest == [p];
      LastLineTwice(word, r, g, p);
    } else {
      Splits(r, g, p, rest);
      assert [rest[0]] + rest[1..] == rest;
      TextTwice(word, r, g, rest[0], rest[1..]);
      MoreLinesTwice(word, r, g, p, rest);
    }
  }

  /** The second pass over every template whose secrets are generated on one line, with secrets of its own.
      It generates nothing if and only if no resulting secret is empty or a placeholder. It gives the same
      entries if and only if each is plain, or is a replaced secret that is drawn again as it was. When it
      generates nothing, it gives the same text if and only if every value is plain and the lines survive
      being joined. */
  lemma SecondPass(word: string, r: Rules, g: Generator, template: string)
    requires ValidKey(word) && OneLineSecrets(r)
    ensures var rs := ResolveLines(word, r, Lines(template));
      var text := JoinLines(NewLines(rs));
      var rs2 := ResolveLines(word, Again(r, g), Lines(text));
      && (GeneratedKeys(rs2) == [] <==> NothingReplaceable(r, rs))
      && (Entries(rs2) == Entries(rs) <==> AllStable(r, g, rs))
      && (NothingReplaceable(r, rs) ==>
            (JoinLines(NewLines(rs2)) == text <==> AllPlain(rs) && StableLines(NewLines(rs))))
  {
    var rs := ResolveLines(word, r, Lines(template));
    LinesHaveNoLineFeed(template);
    FirstPassLines(word, r, Lines(template));
    SecondAnswers(word, r, g, rs);
    if NothingReplaceable(r, rs) && rs != [] {
      assert [rs[0]] + rs[1..] == rs;
      TextTwice(word, r, g, rs[0], rs[1..]);
    }
  }
}
