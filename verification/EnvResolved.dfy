/** The text that the template resolver writes, and when it reads back as the returned entries. */
module EnvResolved {
  import opened Basics
  import opened Text
  import opened Env

  // ---- A written line

  lemma TrimShrinks(s: string)
    ensures |Trim(s)| <= |s| && (|Trim(s)| == |s| ==> Trim(s) == s)
  {
    var a, b := TrimParts(s);
    if |Trim(s)| == |s| {
      assert a == [] && b == [] && [] + Trim(s) + [] == Trim(s);
    }
  }

  lemma CleanShrinks(u: string)
    ensures |CleanValue(u)| <= |u|
    ensures |CleanValue(u)| == |u| ==> !Quoted(u) && CommentIndex(u) == |u|
  {
    if !Quoted(u) { TrimShrinks(u[..CommentIndex(u)]); }
  }

  /** What a value becomes when it is written without quotes and read again. */
  function Reread(v: string): string {
    CleanValue(Trim(v))
  }

  /** Exactly the plain values read as they are written, and every other value gets shorter. */
  lemma RereadIffPlain(v: string)
    requires NL !in v
    ensures |Reread(v)| <= |v|
    ensures Reread(v) == v <==> Plain(v)
    ensures |Reread(v)| == |v| <==> Plain(v)
  {
    TrimShrinks(v);
    CleanShrinks(Trim(v));
    var a, b := TrimParts(v);
    if Plain(v) {
      PlainIsClean(v);
    }
  }

  lemma HeadIsSolid(word: string, exported: bool, key: string, value: string)
    requires ValidKey(word) && ValidKey(key)
    ensures var s := WriteLine(word, exported, key, value);
      s != [] && !IsWhitespace(s[0]) && s[0] != '#' && Exports(word, s) == exported
      && StripExport(word, s) == key + ['='] + value
  {
    WordIsSolid(word);
    WordIsSolid(key);
    var body := key + ['='] + value;
    if exported {
      assert WriteLine(word, exported, key, value) == word + [' '] + body;
      StripOf(word, body);
    } else {
      assert WriteLine(word, exported, key, value) == body;
      BodyExportsNothing(word, key, value);
    }
  }

  lemma BodyExportsNothing(word: string, key: string, value: string)
    requires ValidKey(word) && ValidKey(key)
    ensures !Exports(word, key + ['='] + value)
  {
    WordIsSolid(word);
    WordIsSolid(key);
    var body, prefix := key + ['='] + value, word + [' '];
    assert body[|key|] == '=' && prefix[|word|] == ' ';
    assert forall k :: 0 <= k < |key| ==> body[k] == key[k] && key[k] in key;
    assert forall k :: 0 <= k < |word| ==> prefix[k] == word[k] && word[k] in word;
  }

  lemma KeyValueOfWritten(key: string, value: string)
    requires ValidKey(key)
    ensures KeyValue(key + ['='] + value) == Some((key, Trim(value)))
  {
    WordIsSolid(key);
    SplitOnceOf(key, '=', value);
    TrimTrimmed(key);
  }

  lemma NotIndented(word: string, line: string)
    requires line != [] && !IsWhitespace(line[0])
    ensures !IndentedExport(word, line) && (line[0] != '#' ==> !Skipped(line))
  {
    var b := SolidStart(line);
    if Exports(word, Trim(line)) {
      assert line[..|word| + 1] == Trim(line)[..|word| + 1];
    }
  }

  /** Trimming a text that starts without a blank only cuts its end. */
  lemma SolidStart(line: string) returns (b: string)
    requires line != [] && !IsWhitespace(line[0])
    ensures line == Trim(line) + b && Trim(line) != [] && Trim(line)[0] == line[0]
  {
    assert TrimStart(line) == line;
    b := TrimEndParts(line);
  }

  /** What each reader makes of a written line, whatever its value. */
  lemma WrittenLine(word: string, r: Rules, exported: bool, key: string, value: string)
    requires ValidKey(word) && ValidKey(key)
    ensures var s := WriteLine(word, exported, key, value);
      && FileEntry(word, s) == Some((key, Reread(value)))
      && ProcessLine(word, r, s) ==
         Resolved(WriteLine(word, exported, key, FinalValue(r, key, Trim(value))),
                  Some(Entry(key, FinalValue(r, key, Trim(value)), r.isSecret(key))), Needs(r, key, Trim(value)))
  {
    var s := WriteLine(word, exported, key, value);
    HeadIsSolid(word, exported, key, value);
    NotIndented(word, s);
    KeyValueOfWritten(key, value);
    var plain := r.(isSecret := _ => false);
    ReadersAgreeUnlessIndented(word, plain, s);
    assert ProcessLine(word, plain, s).entry == Some(Entry(key, Reread(value), false));
  }

  // ---- Texts with more lines

  lemma StripCrParts(s: string) returns (b: string)
    ensures s == StripCr(s) + b && Blank(b)
  {
    b := if s != [] && s[|s| - 1] == CR then [CR] else [];
  }

  lemma StripCrKeepsTrim(s: string)
    ensures Trim(StripCr(s)) == Trim(s)
  {
    var b := StripCrParts(s);
    TrimPadded([], StripCr(s), b);
    assert [] + StripCr(s) + b == s;
  }

  lemma FileEntryOfStripped(word: string, line: string)
    ensures FileEntry(word, StripCr(line)) == FileEntry(word, line)
  {
    StripCrKeepsTrim(line);
  }

  ghost predicate OneLiners(lines: seq<string>) {
    forall k :: 0 <= k < |lines| ==> NL !in lines[k]
  }

  function Pairs(es: seq<Entry>): seq<(string, string)> {
    if es == [] then [] else [(es[0].key, es[0].value)] + Pairs(es[1..])
  }

  ghost predicate AllPlain(rs: seq<Resolved>) {
    forall k :: 0 <= k < |rs| && rs[k].entry.Some? ==> Plain(rs[k].entry.value.value)
  }

  lemma AllPlainSplit(p: Resolved, rest: seq<Resolved>)
    ensures AllPlain([p] + rest) <==> (p.entry.Some? ==> Plain(p.entry.value.value)) && AllPlain(rest)
  {
    var rs := [p] + rest;
    assert rs[0] == p;
    assert forall k :: 0 <= k < |rest| ==> rest[k] == rs[k + 1];
    assert forall k :: 1 <= k < |rs| ==> rs[k] == rest[k - 1];
  }

  /** The text of a line in front of others. */
  function TextOf(p: Resolved, rest: seq<Resolved>): string {
    JoinLines(NewLines([p] + rest))
  }

  lemma {:induction false} NewLinesLength(rs: seq<Resolved>)
    ensures |NewLines(rs)| == |rs|
  {
    if rs != [] {
      NewLinesLength(rs[1..]);
    }
  }

  lemma TextParts(p: Resolved, rest: seq<Resolved>)
    ensures TextOf(p, rest) == if rest == [] then p.line else p.line + [NL] + JoinLines(NewLines(rest))
  {
    Views(p, rest);
    NewLinesLength(rest);
    assert NewLines([p] + rest)[1..] == NewLines(rest);
  }

  /** The lines of that text when the first is one line. */
  lemma LinesOfText(p: Resolved, rest: seq<Resolved>)
    requires NL !in p.line
    ensures Lines(TextOf(p, rest)) ==
            if rest != [] then [StripCr(p.line)] + Lines(JoinLines(NewLines(rest)))
            else if p.line == [] then [] else [p.line]
  {
    TextParts(p, rest);
    if rest == [] {
      LinesOfOne(p.line);
    } else {
      LinesOfMore(p.line, JoinLines(NewLines(rest)));
    }
  }

  lemma SkippedReadsNothing(word: string)
    ensures FileEntry(word, []) == None
  {
    assert Trim([]) == [];
  }

  /** What the file reader sees of that text. */
  lemma EntriesOfText(word: string, p: Resolved, rest: seq<Resolved>)
    requires NL !in p.line
    ensures var e, tail := FileEntry(word, p.line), FileEntries(word, Lines(JoinLines(NewLines(rest))));
      FileEntries(word, Lines(TextOf(p, rest))) == (if e.None? then [] else [e.value]) + tail
  {
    LinesOfText(p, rest);
    var lines, tail := Lines(TextOf(p, rest)), Lines(JoinLines(NewLines(rest)));
    if rest == [] {
      assert tail == [];
      SkippedReadsNothing(word);
      if p.line != [] { assert lines[1..] == []; }
    } else {
      FileEntryOfStripped(word, p.line);
      assert lines[1..] == tail;
    }
  }

  // ---- Reading the resolved text again

  lemma ShorterIsOther(a: (string, string), b: (string, string), s: seq<(string, string)>, t: seq<(string, string)>)
    requires a != b
    ensures [a] + s != [b] + t
  {
    assert ([a] + s)[0] == a && ([b] + t)[0] == b;
  }

  lemma SameHeads(a: (string, string), s: seq<(string, string)>, t: seq<(string, string)>)
    ensures [a] + s == [a] + t <==> s == t
  {
    assert ([a] + s)[1..] == s && ([a] + t)[1..] == t;
  }

  lemma {:induction false} WrittenIsCut(word: string, exported: bool, key: string, a: string, b: string)
    requires ValidKey(word) && ValidKey(key) && NL !in a
    ensures WriteLine(word, exported, key, a + [NL] + b) == WriteLine(word, exported, key, a) + [NL] + b
    ensures NL !in WriteLine(word, exported, key, a)
  {
    WordIsSolid(word);
    WordIsSolid(key);
    assert key + ['='] + (a + [NL] + b) == (key + ['='] + a) + [NL] + b;
  }

  /** A value with a line feed is cut at it, so its variable is lost. */
  lemma LineFeedIsLost(word: string, exported: bool, key: string, value: string, p: Resolved, rest: seq<Resolved>)
    requires ValidKey(word) && ValidKey(key) && NL in value && p.line == WriteLine(word, exported, key, value)
    ensures var vars := FileEntries(word, Lines(TextOf(p, rest))); vars != [] && vars[0] != (key, value)
  {
    SplitOnceParts(value, NL);
    var (a, b) := SplitOnce(value, NL).value;
    var first := WriteLine(word, exported, key, a);
    WrittenIsCut(word, exported, key, a, b);
    var tail := if rest == [] then b else b + [NL] + JoinLines(NewLines(rest));
    TextParts(p, rest);
    CutText(first, b, JoinLines(NewLines(rest)));
    FirstLineReads(word, exported, key, a, tail);
    TrimShrinks(a);
    CleanShrinks(Trim(a));
  }

  lemma CutText(first: string, b: string, more: string)
    ensures (first + [NL] + b) + [NL] + more == first + [NL] + (b + [NL] + more)
  {
  }

  lemma FirstLineReads(word: string, exported: bool, key: string, a: string, tail: string)
    requires ValidKey(word) && ValidKey(key) && NL !in a
    ensures var vars := FileEntries(word, Lines(WriteLine(word, exported, key, a) + [NL] + tail));
      vars != [] && vars[0] == (key, Reread(a))
  {
    var first := WriteLine(word, exported, key, a);
    WordIsSolid(word);
    WordIsSolid(key);
    LinesOfMore(first, tail);
    FileEntryOfStripped(word, first);
    WrittenLine(word, Rules(_ => false, _ => false, k => k, false), exported, key, a);
  }

  ghost predicate ReadsBack(word: string, rs: seq<Resolved>) {
    FileEntries(word, Lines(JoinLines(NewLines(rs)))) == Pairs(Entries(rs))
  }

  lemma CopiedLine(word: string, r: Rules, line: string, rest: seq<Resolved>)
    requires ValidKey(word) && NL !in line && !IndentedExport(word, line) && ProcessLine(word, r, line).entry.None?
    ensures ReadsBack(word, [ProcessLine(word, r, line)] + rest) <==> ReadsBack(word, rest)
  {
    var p := ProcessLine(word, r, line);
    ReadersAgreeUnlessIndented(word, r, line);
    EntriesOfText(word, p, rest);
    Views(p, rest);
    var tail := FileEntries(word, Lines(JoinLines(NewLines(rest))));
    assert [] + tail == tail;
  }

  lemma VariableLine(word: string, exported: bool, p: Resolved, rest: seq<Resolved>)
    requires ValidKey(word) && p.entry.Some? && ValidKey(p.entry.value.key)
    requires p.line == WriteLine(word, exported, p.entry.value.key, p.entry.value.value)
    ensures ReadsBack(word, [p] + rest) <==> Plain(p.entry.value.value) && ReadsBack(word, rest)
  {
    var key, value := p.entry.value.key, p.entry.value.value;
    Views(p, rest);
    assert Entries([p] + rest)[1..] == Entries(rest);
    var wanted := Pairs(Entries(rest));
    assert Pairs(Entries([p] + rest)) == [(key, value)] + wanted;
    if NL in value {
      LineFeedIsLost(word, exported, key, value, p, rest);
      assert ([(key, value)] + wanted)[0] == (key, value);
    } else {
      WordIsSolid(word);
      WordIsSolid(key);
      assert NL !in p.line;
      WrittenLine(word, Rules(_ => false, _ => false, k => k, false), exported, key, value);
      EntriesOfText(word, p, rest);
      RereadIffPlain(value);
      var tail := FileEntries(word, Lines(JoinLines(NewLines(rest))));
      if Plain(value) {
        SameHeads((key, value), tail, wanted);
      } else {
        ShorterIsOther((key, Reread(value)), (key, value), tail, wanted);
      }
    }
  }

  // ---- Indented exports

  /** The line is an indented export of a variable, which the resolver copies. */
  predicate IndentedVariable(word: string, line: string) {
    IndentedExport(word, line) && KeyValue(StripExport(word, Trim(line))).value.0 != []
  }

  ghost predicate NoIndentedVariable(word: string, lines: seq<string>) {
    forall k :: 0 <= k < |lines| ==> !IndentedVariable(word, lines[k])
  }

  lemma IndentedVariableIsCopied(word: string, r: Rules, line: string)
    requires ValidKey(word) && IndentedVariable(word, line)
    ensures ProcessLine(word, r, line) == Resolved(line, None, false) && FileEntry(word, line).Some?
  {
    IndentedKey(word, line);
    KeyValueOfTrim(StripExport(word, Trim(line)));
  }

  /** Every other line that the resolver copies is read alike. */
  lemma CopiedIsNotIndented(word: string, r: Rules, line: string)
    requires ValidKey(word) && !IndentedVariable(word, line) && ProcessLine(word, r, line).entry.None?
    ensures !IndentedExport(word, line)
  {
    if IndentedExport(word, line) {
      IndentedKey(word, line);
    }
  }

  /** How many variables the file reader sees in a text. */
  function VariablesIn(word: string, text: string): nat {
    |FileEntries(word, Lines(text))|
  }

  lemma {:induction false} FrontCounts(word: string, line: string, text: string)
    requires NL !in line
    ensures VariablesIn(word, line + [NL] + text) ==
            VariablesIn(word, text) + if FileEntry(word, line).Some? then 1 else 0
  {
    LinesOfMore(line, text);
    FileEntryOfStripped(word, line);
    assert ([StripCr(line)] + Lines(text))[1..] == Lines(text);
  }

  /** Lines in front of a text lose none of its variables. */
  lemma {:induction false} MoreText(word: string, b: string, text: string)
    ensures VariablesIn(word, b + [NL] + text) >= VariablesIn(word, text)
    decreases |b|
  {
    if NL in b {
      SplitOnceParts(b, NL);
      var (x, y) := SplitOnce(b, NL).value;
      CutText(x, y, text);
      FrontCounts(word, x, y + [NL] + text);
      MoreText(word, y, text);
    } else {
      FrontCounts(word, b, text);
    }
  }

  lemma {:induction false} WrittenIsRead(word: string, exported: bool, key: string, value: string)
    requires ValidKey(word) && ValidKey(key)
    ensures FileEntry(word, WriteLine(word, exported, key, value)).Some?
  {
    WrittenLine(word, Rules(_ => false, _ => false, k => k, false), exported, key, value);
  }

  lemma {:induction false} CutCounts(
    word: string, exported: bool, key: string, a: string, b: string, more: string, last: bool)
    requires ValidKey(word) && ValidKey(key) && NL !in a
    ensures var line := WriteLine(word, exported, key, a + [NL] + b);
      if last then VariablesIn(word, line) >= 1
      else VariablesIn(word, line + [NL] + more) >= 1 + VariablesIn(word, more)
  {
    var first := WriteLine(word, exported, key, a);
    WrittenIsCut(word, exported, key, a, b);
    WrittenIsRead(word, exported, key, a);
    if last {
      FrontCounts(word, first, b);
    } else {
      CutText(first, b, more);
      FrontCounts(word, first, b + [NL] + more);
      MoreText(word, b, more);
    }
  }

  lemma {:induction false} WholeCounts(
    word: string, exported: bool, key: string, value: string, more: string, last: bool)
    requires ValidKey(word) && ValidKey(key) && NL !in value
    ensures var line := WriteLine(word, exported, key, value);
      if last then VariablesIn(word, line) >= 1
      else VariablesIn(word, line + [NL] + more) >= 1 + VariablesIn(word, more)
  {
    var line := WriteLine(word, exported, key, value);
    WrittenIsCut(word, exported, key, value, []);
    WrittenIsRead(word, exported, key, value);
    if last {
      HeadIsSolid(word, exported, key, value);
      LinesOfOne(line);
      assert [line][1..] == [];
    } else {
      FrontCounts(word, line, more);
    }
  }

  /** A written line is at least one variable, even when its value has a line feed. */
  lemma {:induction false} WrittenCounts(word: string, exported: bool, p: Resolved, rest: seq<Resolved>)
    requires ValidKey(word) && p.entry.Some? && ValidKey(p.entry.value.key)
    requires p.line == WriteLine(word, exported, p.entry.value.key, p.entry.value.value)
    ensures VariablesIn(word, TextOf(p, rest)) >= 1 + VariablesIn(word, JoinLines(NewLines(rest)))
  {
    var key, value, more := p.entry.value.key, p.entry.value.value, JoinLines(NewLines(rest));
    TextParts(p, rest);
    if rest == [] {
      assert VariablesIn(word, more) == 0 by { assert Lines([]) == []; }
    }
    if NL in value {
      SplitOnceParts(value, NL);
      var (a, b) := SplitOnce(value, NL).value;
      CutCounts(word, exported, key, a, b, more, rest == []);
    } else {
      WholeCounts(word, exported, key, value, more, rest == []);
    }
  }

  lemma {:induction false} PairsLength(es: seq<Entry>)
    ensures |Pairs(es)| == |es|
  {
    if es != [] { PairsLength(es[1..]); }
  }

  /** The text never has fewer variables than the resolver returned. */
  lemma {:induction false} NoneIsLost(word: string, r: Rules, lines: seq<string>)
    requires ValidKey(word) && OneLiners(lines)
    ensures var rs := ResolveLines(word, r, lines);
      VariablesIn(word, JoinLines(NewLines(rs))) >= |Entries(rs)|
  {
    if lines != [] {
      var p, rest := ProcessLine(word, r, lines[0]), ResolveLines(word, r, lines[1..]);
      NoneIsLost(word, r, lines[1..]);
      Views(p, rest);
      if p.entry.None? {
        EntriesOfText(word, p, rest);
      } else {
        WrittenCounts(word, Exports(word, lines[0]), p, rest);
      }
    }
  }

  /** An indented export adds a variable that the resolver did not return. */
  lemma IndentedLine(word: string, r: Rules, line: string, lines: seq<string>)
    requires ValidKey(word) && NL !in line && OneLiners(lines) && IndentedVariable(word, line)
    ensures !ReadsBack(word, [ProcessLine(word, r, line)] + ResolveLines(word, r, lines))
  {
    var p, rest := ProcessLine(word, r, line), ResolveLines(word, r, lines);
    IndentedVariableIsCopied(word, r, line);
    EntriesOfText(word, p, rest);
    NoneIsLost(word, r, lines);
    Views(p, rest);
    PairsLength(Entries([p] + rest));
  }

  /** One line in front of others. */
  lemma {:induction false} FrontReadsBack(word: string, r: Rules, line: string, more: seq<string>)
    requires ValidKey(word) && NL !in line && OneLiners(more)
    ensures var p, rest := ProcessLine(word, r, line), ResolveLines(word, r, more);
      ReadsBack(word, [p] + rest) <==>
      (p.entry.Some? ==> Plain(p.entry.value.value)) && !IndentedVariable(word, line) && ReadsBack(word, rest)
  {
    var p, rest := ProcessLine(word, r, line), ResolveLines(word, r, more);
    if IndentedVariable(word, line) {
      IndentedLine(word, r, line, more);
    } else if p.entry.None? {
      CopiedIsNotIndented(word, r, line);
      CopiedLine(word, r, line, rest);
    } else {
      VariableLine(word, Exports(word, line), p, rest);
    }
  }

  lemma {:induction false} NoIndentedSplit(word: string, lines: seq<string>)
    requires lines != []
    ensures NoIndentedVariable(word, lines) <==>
            !IndentedVariable(word, lines[0]) && NoIndentedVariable(word, lines[1..])
  {
    var more := lines[1..];
    assert forall k :: 0 <= k < |more| ==> more[k] == lines[k + 1];
    assert forall k :: 1 <= k < |lines| ==> lines[k] == more[k - 1];
  }

  lemma {:induction false} ReadsBackIffPlain(word: string, r: Rules, lines: seq<string>)
    requires ValidKey(word) && OneLiners(lines)
    ensures ReadsBack(word, ResolveLines(word, r, lines)) <==>
            AllPlain(ResolveLines(word, r, lines)) && NoIndentedVariable(word, lines)
  {
    if lines != [] {
      ReadsBackIffPlain(word, r, lines[1..]);
      AllPlainSplit(ProcessLine(word, r, lines[0]), ResolveLines(word, r, lines[1..]));
      NoIndentedSplit(word, lines);
      FrontReadsBack(word, r, lines[0], lines[1..]);
    }
  }

  /** The exact condition: the resolved text reads back as the returned entries if and only if every
      resulting value is plain and no line is an indented export of a variable. */
  lemma ResolvedTextReadsBack(word: string, r: Rules, template: string)
    requires ValidKey(word)
    ensures var rs := ResolveLines(word, r, Lines(template));
      FileEntries(word, Lines(JoinLines(NewLines(rs)))) == Pairs(Entries(rs)) <==>
      AllPlain(rs) && NoIndentedVariable(word, Lines(template))
  {
    LinesHaveNoLineFeed(template);
    ReadsBackIffPlain(word, r, Lines(template));
  }

  /** For every variable, value and indentation: the file reader sees an indented export, and the resolver
      copies the line without a variable. */
  lemma IndentedExportIsMissed(word: string, r: Rules, indent: string, key: string, value: string)
    requires ValidKey(word) && ValidKey(key) && Blank(indent) && indent != []
    ensures var line := indent + WriteLine(word, true, key, value);
      && IndentedVariable(word, line)
      && FileEntry(word, line) == Some((key, Reread(value)))
      && ProcessLine(word, r, line) == Resolved(line, None, false)
  {
    var s, m := WriteLine(word, true, key, value), key + ['='] + value;
    var line := indent + s;
    assert s == word + [' '] + m;
    assert Trim(line) == Trim(s) by {
      TrimPadded(indent, s, []);
      assert indent + s + [] == line;
    }
    WrittenLine(word, r, true, key, value);
    KeyValueOfWritten(key, value);
    WordIsSolid(word);
    assert Trim(m) != [] by { WordIsSolid(key); var b := SolidStart(m); }
    TrimWordAndText(word, m);
    var m' :| Trim(s) == word + [' '] + m' && KeyValue(m') == KeyValue(m);
    StripOf(word, m');
    assert !Exports(word, line) by { assert line[0] == indent[0]; }
    IndentedVariableIsCopied(word, r, line);
  }

  /** For every one-line value that is not plain there is a template that gives it, in quotes, and whose
      resolved text gives another. */
  lemma QuotedValueIsLost(word: string, r: Rules, key: string, value: string)
    requires ValidKey(word) && ValidKey(key) && !r.isSecret(key) && NL !in value && !Plain(value)
    ensures var line := WriteLine(word, false, key, ['"'] + value + ['"']);
      var p := ProcessLine(word, r, line);
      && p.entry == Some(Entry(key, value, false))
      && FileEntry(word, line) == Some((key, value))
      && FileEntry(word, p.line) != Some((key, value))
  {
    var quoted := ['"'] + value + ['"'];
    TrimTrimmed(quoted);
    assert Quoted(quoted) && quoted[1..|quoted| - 1] == value;
    WrittenLine(word, r, false, key, quoted);
    WrittenLine(word, r, false, key, value);
    RereadIffPlain(value);
  }

  /** Such a value: a hash behind a blank. */
  lemma HashIsNotPlain()
    ensures !Plain("x # y") && NL !in "x # y"
  {
    var v := "x # y";
    assert v[1] == ' ' && v[2] == '#' && v[1..][0] == v[1] && v[1..][1] == v[2];
    assert CommentIndex(v[1..]) == 0 && CommentIndex(v) == 1;
  }

  // ---- Names and values as they are written

  /** Letters, digits and underscores, up to 4096, without a digit in front. */
  ghost predicate IsName(s: string) {
    && 1 <= |s| <= 4096 && !('0' <= s[0] <= '9')
    && forall i :: 0 <= i < |s| ==>
         '0' <= s[i] <= '9' || 'A' <= s[i] <= 'Z' || 'a' <= s[i] <= 'z' || s[i] == '_'
  }

  lemma NameIff(s: string)
    ensures ValidKey(s) <==> IsName(s)
  {
    if s != [] { assert s[0] == s[0]; }
  }

  /** Only names become variables. */
  lemma OnlyNames(word: string, line: string)
    ensures FileEntry(word, line).Some? ==> IsName(FileEntry(word, line).value.0)
  {
    if FileEntry(word, line).Some? { NameIff(FileEntry(word, line).value.0); }
  }

  /** A value in quotes of either kind is what is between them. */
  lemma QuotedLine(word: string, exported: bool, key: string, quote: char, value: string)
    requires ValidKey(word) && IsName(key) && (quote == '"' || quote == '\'')
    ensures FileEntry(word, WriteLine(word, exported, key, [quote] + value + [quote])) == Some((key, value))
  {
    var quoted := [quote] + value + [quote];
    NameIff(key);
    TrimTrimmed(quoted);
    assert Quoted(quoted) && quoted[1..|quoted| - 1] == value;
    WrittenLine(word, Rules(_ => false, _ => false, k => k, false), exported, key, quoted);
  }

  ghost predicate StartsComment(v: string, i: nat) {
    i + 1 < |v| && v[i] == ' ' && v[i + 1] == '#'
  }

  lemma {:induction false} CommentIsFirst(v: string, n: nat)
    requires StartsComment(v, n) && forall i: nat :: i < n ==> !StartsComment(v, i)
    ensures CommentIndex(v) == n
  {
    if n > 0 {
      assert !StartsComment(v, 0);
      forall i: nat | i < n - 1 ensures !StartsComment(v[1..], i) {
        assert !StartsComment(v, i + 1);
      }
      CommentIsFirst(v[1..], n - 1);
    }
  }

  /** A value without quotes ends at the first space and hash. */
  lemma CommentedLine(word: string, exported: bool, key: string, value: string, note: string)
    requires ValidKey(word) && IsName(key) && value != [] && IsTrimmed(value)
    requires value[0] != '"' && value[0] != '\'' && forall i: nat :: !StartsComment(value, i)
    ensures FileEntry(word, WriteLine(word, exported, key, value + [' ', '#'] + note)) == Some((key, value))
  {
    NameIff(key);
    CommentIsCut(value, note);
    WrittenLine(word, Rules(_ => false, _ => false, k => k, false), exported, key, value + [' ', '#'] + note);
  }

  lemma CommentIsCut(value: string, note: string)
    requires value != [] && IsTrimmed(value)
    requires value[0] != '"' && value[0] != '\'' && forall i: nat :: !StartsComment(value, i)
    ensures Reread(value + [' ', '#'] + note) == value
  {
    var b := TrimEndParts(note);
    var v := value + [' ', '#'] + TrimEnd(note);
    assert value + [' ', '#'] + note == [] + v + b;
    TrimOf([], v, b);
    forall i: nat | i < |value| ensures !StartsComment(v, i) {
      assert !StartsComment(value, i);
      assert v[i] == value[i] && (i + 1 < |value| ==> v[i + 1] == value[i + 1]);
    }
    assert v[|value|] == ' ' && v[|value| + 1] == '#';
    CommentIsFirst(v, |value|);
    assert v[..|value|] == value;
    TrimTrimmed(value);
  }
}
