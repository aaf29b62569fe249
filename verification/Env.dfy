/** The two readers of `.env` text: `parse_env_file`, and the template resolver that also generates
    secrets and writes the text again.

    The readers are stated for any `export` word that is itself a variable name, and the resolver for
    any rule that says which names are secret and which values are placeholders. */
module Env {
  import opened Basics
  import opened Text

  const MAX_PATH_LENGTH := 4096

  /** `EnvKey::from_str` */
  predicate ValidKey(s: string) {
    && 0 < |s| <= MAX_PATH_LENGTH
    && (IsUpper(s[0]) || IsLower(s[0]) || s[0] == '_')
    && forall i :: 0 <= i < |s| ==> IsAlphanumeric(s[i]) || s[i] == '_'
  }

  // ---- Values

  predicate Quoted(v: string) {
    |v| >= 2 && v[0] == v[|v| - 1] && (v[0] == '"' || v[0] == '\'')
  }

  /** The first position of a space and a hash, or the length. */
  function CommentIndex(v: string): (i: nat)
    ensures i <= |v|
  {
    if v == [] || (|v| > 1 && v[0] == ' ' && v[1] == '#') then 0 else CommentIndex(v[1..]) + 1
  }

  /** `parse_env_value`, which `extract_clean_value` repeats. */
  function CleanValue(v: string): string {
    if Quoted(v) then v[1..|v| - 1] else Trim(v[..CommentIndex(v)])
  }

  /** A value that reads as it is written. */
  predicate Plain(v: string) {
    NL !in v && IsTrimmed(v) && !Quoted(v) && CommentIndex(v) == |v|
  }

  lemma PlainIsClean(v: string)
    requires Plain(v)
    ensures CleanValue(v) == v && Trim(v) == v
  {
    TrimTrimmed(v);
    assert v[..|v|] == v;
  }

  // ---- Lines

  /** The trimmed texts in front of and behind the first equals sign. */
  function KeyValue(s: string): Option<(string, string)> {
    match SplitOnce(s, '=')
    case None => None
    case Some((a, b)) => Some((Trim(a), Trim(b)))
  }

  predicate Exports(word: string, s: string) {
    word + [' '] <= s
  }

  /** `strip_prefix("export ").unwrap_or(line)` */
  function StripExport(word: string, s: string): string {
    if Exports(word, s) then s[|word| + 1..] else s
  }

  predicate Skipped(line: string) {
    var t := Trim(line);
    t == [] || t[0] == '#'
  }

  function Keyed(kv: Option<(string, string)>): Option<(string, string)> {
    if kv.Some? && ValidKey(kv.value.0) then kv else None
  }

  /** The variable that a line gives to `parse_env_file`. */
  function FileEntry(word: string, line: string): Option<(string, string)> {
    if Skipped(line) then None
    else
      var kv := Keyed(KeyValue(Trim(StripExport(word, Trim(line)))));
      if kv.None? then None else Some((kv.value.0, CleanValue(kv.value.1)))
  }

  datatype Entry = Entry(key: string, value: string, secret: bool)

  datatype Rules = Rules(isSecret: string -> bool, isPlaceholder: string -> bool, generate: string -> string,
      overwrite: bool)

  /** A line of a template: the line to write, and the variable with a mark when it was generated. */
  datatype Resolved = Resolved(line: string, entry: Option<Entry>, generated: bool)

  predicate Needs(r: Rules, key: string, raw: string) {
    r.isSecret(key) && (r.isPlaceholder(raw) || r.overwrite)
  }

  function FinalValue(r: Rules, key: string, raw: string): string {
    if Needs(r, key, raw) then r.generate(key) else CleanValue(raw)
  }

  function WriteLine(word: string, exported: bool, key: string, value: string): string {
    (if exported then word + [' '] else []) + key + ['='] + value
  }

  /** `process_template_line` */
  function ProcessLine(word: string, r: Rules, line: string): Resolved {
    if Skipped(line) then Resolved(line, None, false)
    else
      var kv := Keyed(KeyValue(StripExport(word, line)));
      if kv.None? then Resolved(line, None, false)
      else
        var (key, raw) := kv.value;
        var value := FinalValue(r, key, raw);
        Resolved(WriteLine(word, Exports(word, line), key, value), Some(Entry(key, value, r.isSecret(key))),
            Needs(r, key, raw))
  }

  // ---- Where the readers agree on a line

  lemma {:induction false} TrimAgain(s: string)
    ensures Trim(Trim(s)) == Trim(s)
  {
    var a, b := TrimParts(s);
    TrimTrimmed(Trim(s));
  }

  lemma BlankHasNo(a: string, c: char)
    requires Blank(a) && !IsWhitespace(c)
    ensures c !in a
  {
  }

  lemma KeyValueOfParts(a: string, x: string, y: string, b: string)
    requires Blank(a) && Blank(b) && '=' !in x
    ensures KeyValue(a + (x + ['='] + y) + b) == KeyValue(x + ['='] + y)
  {
    BlankHasNo(a, '=');
    SplitOnceOf(x, '=', y);
    assert a + (x + ['='] + y) + b == (a + x) + ['='] + (y + b);
    SplitOnceOf(a + x, '=', y + b);
    TrimPadded(a, x, []);
    TrimPadded([], y, b);
    assert a + x + [] == a + x && [] + y + b == y + b;
  }

  /** Blanks around a text change nothing of its key and value. */
  lemma KeyValueOfBlanks(a: string, s: string, b: string)
    requires Blank(a) && Blank(b)
    ensures KeyValue(a + s + b) == KeyValue(s)
  {
    if '=' in s {
      SplitOnceParts(s, '=');
      var (x, y) := SplitOnce(s, '=').value;
      KeyValueOfParts(a, x, y, b);
    } else {
      BlankHasNo(a, '=');
      BlankHasNo(b, '=');
      SplitOnceNone(s, '=');
      SplitOnceNone(a + s + b, '=');
    }
  }

  lemma KeyValueOfTrim(s: string)
    ensures KeyValue(Trim(s)) == KeyValue(s)
  {
    var a, b := TrimParts(s);
    KeyValueOfBlanks(a, Trim(s), b);
  }

  lemma NoEquals(s: string)
    requires '=' !in s
    ensures KeyValue(s).None?
  {
    SplitOnceNone(s, '=');
  }

  lemma StripOf(word: string, m: string)
    ensures Exports(word, word + [' '] + m) && StripExport(word, word + [' '] + m) == m
  {
    assert (word + [' '] + m)[..|word| + 1] == word + [' '];
    assert (word + [' '] + m)[|word| + 1..] == m;
  }

  lemma ExportsParts(word: string, s: string)
    requires Exports(word, s)
    ensures s == word + [' '] + StripExport(word, s)
  {
  }

  lemma WordIsSolid(word: string)
    requires ValidKey(word)
    ensures IsTrimmed(word) && '=' !in word && ' ' !in word && NL !in word
  {
  }

  /** Nothing but blanks behind the word. */
  lemma TrimBareWord(word: string, m: string)
    requires ValidKey(word) && Trim(m) == []
    ensures Trim(word + [' '] + m) == word && KeyValue(m).None? && KeyValue(word).None? && !Exports(word, word)
  {
    WordIsSolid(word);
    var a, b := TrimParts(m);
    assert m == a + b;
    assert word + [' '] + m == [] + word + ([' '] + m);
    TrimOf([], word, [' '] + m);
    NoEquals(word);
    BlankHasNo(m, '=');
    NoEquals(m);
  }

  /** Some text behind the word: trimming reaches into it only from the end. */
  lemma TrimWordAndText(word: string, m: string)
    requires ValidKey(word) && Trim(m) != []
    ensures exists m' :: Trim(word + [' '] + m) == word + [' '] + m' && KeyValue(m') == KeyValue(m)
  {
    WordIsSolid(word);
    var a, b := TrimParts(m);
    var m' := a + Trim(m);
    var t := word + [' '] + m';
    assert word + [' '] + m == [] + t + b;
    assert t[0] == word[0] && t[|t| - 1] == Trim(m)[|Trim(m)| - 1];
    TrimOf([], t, b);
    KeyValueOfBlanks([], m', b);
    assert [] + m' + b == m;
  }

  /** An exported line keeps what follows the word when it is trimmed. */
  lemma TrimExported(word: string, line: string)
    requires ValidKey(word) && Exports(word, line)
    ensures KeyValue(Trim(StripExport(word, Trim(line)))) == KeyValue(StripExport(word, line))
  {
    var m := StripExport(word, line);
    ExportsParts(word, line);
    KeyValueOfTrim(StripExport(word, Trim(line)));
    if Trim(m) == [] {
      TrimBareWord(word, m);
    } else {
      TrimWordAndText(word, m);
      var m' :| Trim(line) == word + [' '] + m' && KeyValue(m') == KeyValue(m);
      StripOf(word, m');
    }
  }

  /** The line is indented in front of the word, and the text between the word and the equals sign is
      a variable name or nothing. */
  predicate IndentedExport(word: string, line: string) {
    var t := Trim(line);
    && !Skipped(line) && Exports(word, t) && !Exports(word, line)
    && var kv := KeyValue(StripExport(word, t));
       kv.Some? && (kv.value.0 == [] || ValidKey(kv.value.0))
  }

  /** Both readers see the same variable, or none. */
  predicate SameVariable(word: string, r: Rules, line: string) {
    var f, p := FileEntry(word, line), ProcessLine(word, r, line);
    if f.None? then p.entry.None?
    else p.entry.Some? && p.entry.value.key == f.value.0 && (!p.generated ==> p.entry.value.value == f.value.1)
  }

  /** An indented export names the word itself or no name at all for the template. */
  lemma IndentedKey(word: string, line: string)
    requires ValidKey(word) && Exports(word, Trim(line)) && !Exports(word, line)
    ensures var kv, outer := KeyValue(StripExport(word, Trim(line))), KeyValue(line);
      && outer.Some? == kv.Some?
      && (kv.Some? ==> (ValidKey(outer.value.0) <==> kv.value.0 == []))
  {
    ExportsParts(word, Trim(line));
    KeyValueOfTrim(line);
    KeyBehindWord(word, StripExport(word, Trim(line)));
  }

  lemma KeyBehindWord(word: string, m: string)
    requires ValidKey(word)
    ensures var kv, outer := KeyValue(m), KeyValue(word + [' '] + m);
      && outer.Some? == kv.Some?
      && (kv.Some? ==> (ValidKey(outer.value.0) <==> kv.value.0 == []))
  {
    WordIsSolid(word);
    var t := word + [' '] + m;
    SplitOnceNone(m, '=');
    if '=' in m {
      SplitOnceParts(m, '=');
      var (x, y) := SplitOnce(m, '=').value;
      assert t == (word + [' '] + x) + ['='] + y;
      SplitOnceOf(word + [' '] + x, '=', y);
      WordAndText(word, x);
    } else {
      NoEquals(t);
    }
  }

  lemma WordAndText(word: string, x: string)
    requires ValidKey(word)
    ensures Trim(x) == [] ==> Trim(word + [' '] + x) == word
    ensures Trim(x) != [] ==> !ValidKey(Trim(word + [' '] + x))
  {
    var a, b := TrimParts(x);
    if Trim(x) == [] {
      assert word + [' '] + x == [] + word + ([' '] + x);
      assert x == a + b;
      TrimOf([], word, [' '] + x);
    } else {
      var t := word + [' '] + a + Trim(x);
      assert word + [' '] + x == [] + t + b;
      TrimOf([], t, b);
      assert t[|word|] == ' ';
    }
  }

  /** The exact condition: the two readers see the same variable of a line unless it is an indented
      export. */
  lemma ReadersAgreeUnlessIndented(word: string, r: Rules, line: string)
    requires ValidKey(word)
    ensures SameVariable(word, r, line) <==> !IndentedExport(word, line)
  {
    if !Skipped(line) {
      var t := Trim(line);
      KeyValueOfTrim(StripExport(word, t));
      if Exports(word, line) {
        TrimExported(word, line);
      } else if Exports(word, t) {
        IndentedKey(word, line);
      } else {
        KeyValueOfTrim(line);
        TrimAgain(line);
      }
    }
  }

  // ---- Whole texts

  function FileEntries(word: string, lines: seq<string>): seq<(string, string)> {
    if lines == [] then []
    else
      var e := FileEntry(word, lines[0]);
      (if e.None? then [] else [e.value]) + FileEntries(word, lines[1..])
  }

  method ParseEnvFile(word: string, content: string) returns (vars: seq<(string, string)>)
    ensures vars == FileEntries(word, Lines(content))
  {
    vars := [];
    var lines := Lines(content);
    ghost var whole := FileEntries(word, lines);
    var i := 0;
    assert lines[0..] == lines && [] + whole == whole;
    while i < |lines|
      invariant 0 <= i <= |lines|
      invariant vars + FileEntries(word, lines[i..]) == whole
    {
      EntriesStep(word, vars, lines, i);
      var e := FileEntry(word, lines[i]);
      if e.Some? {
        vars := vars + [e.value];
      }
      i := i + 1;
    }
    assert FileEntries(word, lines[i..]) == [] && vars + [] == vars;
  }

  lemma EntriesStep(word: string, vars: seq<(string, string)>, lines: seq<string>, i: nat)
    requires i < |lines|
    ensures var e := FileEntry(word, lines[i]);
      vars + FileEntries(word, lines[i..]) ==
      (if e.None? then vars else vars + [e.value]) + FileEntries(word, lines[i + 1..])
  {
    assert lines[i..][0] == lines[i] && lines[i..][1..] == lines[i + 1..];
    var e := FileEntry(word, lines[i]);
    if e.None? {
      assert [] + FileEntries(word, lines[i + 1..]) == FileEntries(word, lines[i + 1..]);
    } else {
      assert vars + ([e.value] + FileEntries(word, lines[i + 1..])) ==
          vars + [e.value] + FileEntries(word, lines[i + 1..]);
    }
  }

  function ResolveLines(word: string, r: Rules, lines: seq<string>): seq<Resolved> {
    if lines == [] then [] else [ProcessLine(word, r, lines[0])] + ResolveLines(word, r, lines[1..])
  }

  function NewLines(rs: seq<Resolved>): seq<string> {
    if rs == [] then [] else [rs[0].line] + NewLines(rs[1..])
  }

  function Entries(rs: seq<Resolved>): seq<Entry> {
    if rs == [] then []
    else (if rs[0].entry.None? then [] else [rs[0].entry.value]) + Entries(rs[1..])
  }

  function GeneratedKeys(rs: seq<Resolved>): seq<string> {
    if rs == [] then []
    else (if rs[0].generated && rs[0].entry.Some? then [rs[0].entry.value.key] else []) + GeneratedKeys(rs[1..])
  }

  /** `resolve_env_template`, whose three results are views of the resolved lines. */
  method ResolveEnvTemplate(word: string, r: Rules, template: string)
    returns (text: string, entries: seq<Entry>, generated: seq<string>)
    ensures var rs := ResolveLines(word, r, Lines(template));
      text == JoinLines(NewLines(rs)) && entries == Entries(rs) && generated == GeneratedKeys(rs)
  {
    var lines := Lines(template);
    var newLines: seq<string>;
    newLines, entries, generated := [], [], [];
    ghost var rs := ResolveLines(word, r, lines);
    var i := 0;
    assert lines[0..] == lines;
    assert [] + NewLines(rs) == NewLines(rs) && [] + Entries(rs) == Entries(rs)
        && [] + GeneratedKeys(rs) == GeneratedKeys(rs);
    while i < |lines|
      invariant 0 <= i <= |lines|
      invariant newLines + NewLines(ResolveLines(word, r, lines[i..])) == NewLines(rs)
      invariant entries + Entries(ResolveLines(word, r, lines[i..])) == Entries(rs)
      invariant generated + GeneratedKeys(ResolveLines(word, r, lines[i..])) == GeneratedKeys(rs)
    {
      var p := ProcessLine(word, r, lines[i]);
      ResolveHead(word, r, lines, i);
      ResolveStep(newLines, entries, generated, p, ResolveLines(word, r, lines[i + 1..]));
      newLines := newLines + [p.line];
      if p.entry.Some? {
        entries := entries + [p.entry.value];
        if p.generated {
          generated := generated + [p.entry.value.key];
        }
      }
      i := i + 1;
    }
    assert newLines + [] == newLines && entries + [] == entries && generated + [] == generated;
    text := JoinLines(newLines);
  }

  lemma ResolveHead(word: string, r: Rules, lines: seq<string>, i: nat)
    requires i < |lines|
    ensures ResolveLines(word, r, lines[i..]) ==
            [ProcessLine(word, r, lines[i])] + ResolveLines(word, r, lines[i + 1..])
  {
    assert lines[i..][0] == lines[i] && lines[i..][1..] == lines[i + 1..];
  }

  lemma ResolveStep(newLines: seq<string>, entries: seq<Entry>, generated: seq<string>, p: Resolved,
      rest: seq<Resolved>)
    ensures newLines + NewLines([p] + rest) == newLines + [p.line] + NewLines(rest)
    ensures entries + Entries([p] + rest) ==
            (if p.entry.None? then entries else entries + [p.entry.value]) + Entries(rest)
    ensures generated + GeneratedKeys([p] + rest) ==
            (if p.generated && p.entry.Some? then generated + [p.entry.value.key] else generated) + GeneratedKeys(rest)
  {
    Views(p, rest);
    assert newLines + ([p.line] + NewLines(rest)) == newLines + [p.line] + NewLines(rest);
    if p.entry.Some? {
      assert entries + ([p.entry.value] + Entries(rest)) == entries + [p.entry.value] + Entries(rest);
      if p.generated {
        assert generated + ([p.entry.value.key] + GeneratedKeys(rest)) ==
            generated + [p.entry.value.key] + GeneratedKeys(rest);
      }
    }
  }

  /** The three views of a line in front of others. */
  lemma Views(p: Resolved, rest: seq<Resolved>)
    ensures NewLines([p] + rest) == [p.line] + NewLines(rest)
    ensures Entries([p] + rest) == (if p.entry.None? then Entries(rest) else [p.entry.value] + Entries(rest))
    ensures GeneratedKeys([p] + rest) ==
            if p.generated && p.entry.Some? then [p.entry.value.key] + GeneratedKeys(rest) else GeneratedKeys(rest)
  {
    assert ([p] + rest)[0] == p && ([p] + rest)[1..] == rest;
    assert [] + Entries(rest) == Entries(rest) && [] + GeneratedKeys(rest) == GeneratedKeys(rest);
  }

  ghost predicate NoIndentedExport(word: string, lines: seq<string>) {
    forall k :: 0 <= k < |lines| ==> !IndentedExport(word, lines[k])
  }

  function Keys(es: seq<Entry>): seq<string> {
    if es == [] then [] else [es[0].key] + Keys(es[1..])
  }

  function FileKeys(vars: seq<(string, string)>): seq<string> {
    if vars == [] then [] else [vars[0].0] + FileKeys(vars[1..])
  }

  ghost predicate Subsequence(a: seq<string>, b: seq<string>) {
    a == [] || (b != [] && ((a[0] == b[0] && Subsequence(a[1..], b[1..])) || Subsequence(a, b[1..])))
  }

  /** The variables of the resolver are those of the file reader, with its values but for the
      generated ones. */
  ghost predicate SameVariables(rs: seq<Resolved>, vars: seq<(string, string)>) {
    if rs == [] then vars == []
    else if rs[0].entry.None? then SameVariables(rs[1..], vars)
    else
      && vars != []
      && vars[0].0 == rs[0].entry.value.key
      && (rs[0].generated || vars[0].1 == rs[0].entry.value.value)
      && SameVariables(rs[1..], vars[1..])
  }

  lemma {:induction false} ReadersAgree(word: string, r: Rules, lines: seq<string>)
    requires ValidKey(word) && NoIndentedExport(word, lines)
    ensures SameVariables(ResolveLines(word, r, lines), FileEntries(word, lines))
  {
    if lines != [] {
      ReadersAgreeUnlessIndented(word, r, lines[0]);
      ReadersAgree(word, r, lines[1..]);
      var rs, vars := ResolveLines(word, r, lines), FileEntries(word, lines);
      assert rs[1..] == ResolveLines(word, r, lines[1..]);
      if FileEntry(word, lines[0]).Some? {
        assert vars[1..] == FileEntries(word, lines[1..]);
      } else {
        assert vars == FileEntries(word, lines[1..]);
      }
    }
  }

  lemma {:induction false} SameVariablesSameKeys(rs: seq<Resolved>, vars: seq<(string, string)>)
    requires SameVariables(rs, vars)
    ensures Keys(Entries(rs)) == FileKeys(vars)
  {
    if rs != [] {
      Views(rs[0], rs[1..]);
      assert [rs[0]] + rs[1..] == rs;
      if rs[0].entry.None? {
        SameVariablesSameKeys(rs[1..], vars);
      } else {
        SameVariablesSameKeys(rs[1..], vars[1..]);
        assert Entries(rs)[1..] == Entries(rs[1..]);
      }
    }
  }

  lemma {:induction false} GeneratedAreEntries(rs: seq<Resolved>)
    ensures Subsequence(GeneratedKeys(rs), Keys(Entries(rs)))
  {
    if rs != [] {
      GeneratedAreEntries(rs[1..]);
      Views(rs[0], rs[1..]);
      assert [rs[0]] + rs[1..] == rs;
      if rs[0].entry.Some? {
        var b := Keys(Entries(rs));
        assert Entries(rs)[1..] == Entries(rs[1..]);
        assert b[1..] == Keys(Entries(rs[1..]));
        if rs[0].generated {
          assert GeneratedKeys(rs)[1..] == GeneratedKeys(rs[1..]);
        }
      }
    }
  }

  /** On a text without an indented export both readers give the same names in the same order and the
      same values but for the generated ones, and the generated names are among them in order. */
  lemma ReadersAgreeOnText(word: string, r: Rules, template: string)
    requires ValidKey(word) && NoIndentedExport(word, Lines(template))
    ensures var rs, vars := ResolveLines(word, r, Lines(template)), FileEntries(word, Lines(template));
      && SameVariables(rs, vars)
      && Keys(Entries(rs)) == FileKeys(vars)
      && Subsequence(GeneratedKeys(rs), Keys(Entries(rs)))
  {
    ReadersAgree(word, r, Lines(template));
    SameVariablesSameKeys(ResolveLines(word, r, Lines(template)), FileEntries(word, Lines(template)));
    GeneratedAreEntries(ResolveLines(word, r, Lines(template)));
  }
}
