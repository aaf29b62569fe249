/** Which names are secret and which values are placeholders for the template resolver, and a template
    whose second pass generates what the first one kept. */
module EnvSecrets {
  import opened Basics
  import opened Text
  import opened Env
  import opened EnvResolved

  const SECRET_SUFFIXES: seq<string> := [
    "_PASSWORD", "_PASSWD", "_PWD", "_SECRET", "_SECRET_KEY", "_KEY", "_TOKEN", "_SALT", "_HASH",
    "_PASSPHRASE", "_PRIVATE_KEY"
  ]

  const SECRET_SUBSTRINGS: seq<string> := [
    "JWT_SECRET", "AUTH_SECRET", "ENCRYPTION_KEY", "ROOT_PASSWORD", "ADMIN_PASSWORD", "DB_PASSWORD"
  ]

  const SECRET_WORDS: seq<string> := [
    "PASSWORD", "PASSWD", "PWD", "SECRET", "SECRET_KEY", "KEY", "TOKEN", "SALT", "HASH", "PASSPHRASE",
    "PRIVATE_KEY"
  ]

  const PLACEHOLDER_WORDS: seq<string> := [
    "changeme", "change_me", "replace_me", "replaceme", "your_secret_here", "your-secret-here",
    "your_password_here", "generate_secret", "secret", "password", "todo", "fixme", "xxx", "xxxx",
    "<secret>", "<password>", "<replace_me>"
  ]

  predicate EndsWith(s: string, suffix: string) {
    |suffix| <= |s| && s[|s| - |suffix|..] == suffix
  }

  predicate IsSecretKey(key: string) {
    var upper := ToUpper(key);
    || (exists i :: 0 <= i < |SECRET_SUFFIXES| && EndsWith(upper, SECRET_SUFFIXES[i]))
    || upper in SECRET_WORDS
    || (exists i :: 0 <= i < |SECRET_SUBSTRINGS| && Contains(upper, SECRET_SUBSTRINGS[i]))
  }

  /** `trim_matches` of one character. */
  function TrimMatches(s: string, c: char): string {
    if s != [] && s[0] == c then TrimMatches(s[1..], c)
    else if s != [] && s[|s| - 1] == c then TrimMatches(s[..|s| - 1], c)
    else s
  }

  predicate EmptyOrOneOf(words: seq<string>, value: string) {
    var trimmed := Trim(value);
    trimmed == [] ||
    var unquoted := Trim(TrimMatches(TrimMatches(trimmed, '\''), '"'));
    unquoted == [] || ToLower(unquoted) in words || IsBracketPlaceholder(unquoted)
  }

  predicate IsEmptyOrPlaceholder(value: string) {
    EmptyOrOneOf(PLACEHOLDER_WORDS, value)
  }

  predicate IsBracketPlaceholder(unquoted: string) {
    || (unquoted != [] && unquoted[0] == '<' && unquoted[|unquoted| - 1] == '>')
    || (|unquoted| >= 2 && unquoted[0] == '$' && unquoted[1] == '{' && unquoted[|unquoted| - 1] == '}')
  }

  function SecretRules(generate: string -> string, overwrite: bool): Rules {
    Rules(IsSecretKey, IsEmptyOrPlaceholder, generate, overwrite)
  }

  // ---- What is secret and what is a placeholder

  ghost predicate Surrounds(s: string, part: string) {
    exists a, b :: s == a + part + b
  }

  ghost predicate IsEnd(s: string, suffix: string) {
    exists a :: s == a + suffix
  }

  lemma EndsWithIff(s: string, suffix: string)
    ensures EndsWith(s, suffix) <==> IsEnd(s, suffix)
  {
    if EndsWith(s, suffix) { assert s == s[..|s| - |suffix|] + suffix; }
  }

  lemma ContainsIff(s: string, part: string)
    ensures Contains(s, part) <==> Surrounds(s, part)
  {
    if i :| 0 <= i <= |s| - |part| && s[i..][..|part|] == part {
      assert s == s[..i] + part + s[i + |part|..];
    }
    if a, b :| s == a + part + b {
      assert s[|a|..][..|part|] == part;
    }
  }

  /** A name is secret exactly when, in capitals, it ends like one of the eleven, is one of the words, or
      has one of the six somewhere. */
  lemma SecretIff(key: string)
    ensures IsSecretKey(key) <==>
            || (exists i :: 0 <= i < |SECRET_SUFFIXES| && IsEnd(ToUpper(key), SECRET_SUFFIXES[i]))
            || (exists i :: 0 <= i < |SECRET_WORDS| && ToUpper(key) == SECRET_WORDS[i])
            || (exists i :: 0 <= i < |SECRET_SUBSTRINGS| && Surrounds(ToUpper(key), SECRET_SUBSTRINGS[i]))
  {
    var upper := ToUpper(key);
    forall w ensures EndsWith(upper, w) <==> IsEnd(upper, w) { EndsWithIff(upper, w); }
    forall w ensures Contains(upper, w) <==> Surrounds(upper, w) { ContainsIff(upper, w); }
  }

  /** Angle brackets around anything, or a dollar sign and braces. */
  lemma BracketIff(u: string)
    ensures IsBracketPlaceholder(u) <==> exists x :: u == ['<'] + x + ['>'] || u == ['$', '{'] + x + ['}']
  {
    if IsBracketPlaceholder(u) {
      if u[0] == '<' {
        assert u == ['<'] + u[1..|u| - 1] + ['>'];
      } else {
        assert u == ['$', '{'] + u[2..|u| - 1] + ['}'];
      }
    }
  }

  // ---- A kept value that a second pass replaces

  function Assignment(key: string, value: string): string {
    key + ['='] + value
  }

  /** A value that is no placeholder, but is one without its comment, is kept by the first pass, which
      strips the comment, and generated by the second, which has a generator of its own. */
  lemma KeptThenGenerated(word: string, r: Rules, again: string -> string, key: string, raw: string)
    requires ValidKey(word) && ValidKey(key) && IsTrimmed(raw) && !r.overwrite && r.isSecret(key)
    requires !r.isPlaceholder(raw) && r.isPlaceholder(Trim(CleanValue(raw)))
    ensures ProcessLine(word, r, Assignment(key, raw)) ==
            Resolved(Assignment(key, CleanValue(raw)), Some(Entry(key, CleanValue(raw), true)), false)
    ensures ProcessLine(word, r.(generate := again), Assignment(key, CleanValue(raw))) ==
            Resolved(Assignment(key, again(key)), Some(Entry(key, again(key), true)), true)
  {
    assert forall v :: WriteLine(word, false, key, v) == Assignment(key, v);
    TrimTrimmed(raw);
    WrittenLine(word, r, false, key, raw);
    WrittenLine(word, r.(generate := again), false, key, CleanValue(raw));
  }

  /** The two passes over a template of one line. */
  lemma OneLineTemplate(word: string, r: Rules, line: string, p: Resolved)
    requires NL !in line && line != [] && ProcessLine(word, r, line) == p
    ensures ResolveLines(word, r, Lines(line)) == [p] && JoinLines(NewLines([p])) == p.line
    ensures p.entry.Some? ==> GeneratedKeys([p]) == if p.generated then [p.entry.value.key] else []
    ensures p.entry.Some? ==> Entries([p]) == [p.entry.value]
  {
    LinesOfOne(line);
    assert [line][1..] == [] && [p][1..] == [];
    Views(p, []);
    assert [p] + [] == [p];
  }

  lemma PlainWord(words: seq<string>, v: string)
    requires v != [] && IsTrimmed(v) && v[0] != '\'' && v[0] != '"' && v[|v| - 1] != '\'' && v[|v| - 1] != '"'
    ensures EmptyOrOneOf(words, v) <==> ToLower(v) in words || IsBracketPlaceholder(v)
  {
    TrimTrimmed(v);
    assert TrimMatches(v, '\'') == v;
    assert TrimMatches(v, '"') == v;
  }

  lemma KeyIsSecret()
    ensures IsSecretKey("KEY") && ValidKey("KEY")
  {
    assert ToUpper("KEY") == "KEY";
    assert SECRET_WORDS[5] == "KEY";
  }

  lemma ChangemeIsAWord()
    ensures "changeme" in PLACEHOLDER_WORDS
    ensures forall i :: 0 <= i < |PLACEHOLDER_WORDS| ==> |PLACEHOLDER_WORDS[i]| != 14
  {
    assert PLACEHOLDER_WORDS[0] == "changeme";
  }

  lemma {:induction false} CommentAt(v: string, k: nat)
    requires k + 1 < |v| && v[k] == ' ' && v[k + 1] == '#' && forall i :: 0 <= i < k ==> v[i] != ' '
    ensures CommentIndex(v) == k
  {
    if k > 0 {
      CommentAt(v[1..], k - 1);
    }
  }

  lemma CommentIsStripped(raw: string)
    requires raw == "changeme # old"
    ensures CleanValue(raw) == "changeme" && IsTrimmed(raw) && IsTrimmed("changeme")
  {
    CommentAt(raw, 8);
    assert raw[..8] == "changeme";
    TrimTrimmed("changeme");
  }

  lemma CommentedPlaceholder(words: seq<string>, raw: string)
    requires |raw| == 14 && IsTrimmed(raw) && raw[0] == 'c' && raw[13] == 'd'
    requires forall i :: 0 <= i < |words| ==> |words[i]| != 14
    ensures !EmptyOrOneOf(words, raw)
  {
    PlainWord(words, raw);
    assert |ToLower(raw)| == 14;
  }

  lemma LowerPlaceholder(words: seq<string>, clean: string)
    requires clean in words && |clean| == 8 && IsTrimmed(clean) && clean[0] == 'c' && clean[7] == 'e'
    requires ToLower(clean) == clean
    ensures EmptyOrOneOf(words, clean)
  {
    PlainWord(words, clean);
  }

  lemma {:induction false} SuchAValue(words: seq<string>, raw: string, clean: string)
    requires raw == "changeme # old" && clean == "changeme" && clean in words
    requires forall i :: 0 <= i < |words| ==> |words[i]| != 14
    ensures !EmptyOrOneOf(words, raw) && EmptyOrOneOf(words, clean)
  {
    CommentIsStripped(raw);
    CommentedPlaceholder(words, raw);
    assert ToLower(clean) == clean;
    LowerPlaceholder(words, clean);
  }

  lemma {:induction false} TheProgramHasSuchAValue(raw: string, clean: string)
    requires raw == "changeme # old" && clean == "changeme"
    ensures !IsEmptyOrPlaceholder(raw) && IsEmptyOrPlaceholder(clean)
  {
    ChangemeIsAWord();
    SuchAValue(PLACEHOLDER_WORDS, raw, clean);
  }

  /** The word of the program. */
  lemma ExportIsAName()
    ensures ValidKey("export")
  {
  }

  /** The template `KEY=changeme # old`, with the rules of the program: the first pass keeps the secret and
      writes `KEY=changeme`, the second generates it. */
  lemma {:induction false} ProgramGeneratesOnTheSecondPass(
    generate: string -> string, again: string -> string, word: string, key: string, raw: string, clean: string)
    requires word == "export" && key == "KEY" && raw == "changeme # old" && clean == "changeme"
    ensures var r, r2 := SecretRules(generate, false), SecretRules(again, false);
      var line, text := Assignment(key, raw), Assignment(key, clean);
      var first, second := ResolveLines(word, r, Lines(line)), ResolveLines(word, r2, Lines(text));
      && JoinLines(NewLines(first)) == text && GeneratedKeys(first) == []
      && Entries(first) == [Entry(key, clean, true)]
      && GeneratedKeys(second) == [key] && Entries(second) == [Entry(key, again(key), true)]
  {
    CommentedInTheProgram(generate, word, key, raw, clean);
    PassesOf(word, SecretRules(generate, false), again, key, raw, clean);
  }

  lemma {:induction false} CommentedInTheProgram(
    generate: string -> string, word: string, key: string, raw: string, clean: string)
    requires word == "export" && key == "KEY" && raw == "changeme # old" && clean == "changeme"
    ensures Commented(SecretRules(generate, false), word, key, raw, clean)
  {
    ExportIsAName();
    KeyIsSecret();
    CommentIsStripped(raw);
    TheProgramHasSuchAValue(raw, clean);
    ProgramCommented(generate, word, key, raw, clean);
  }

  lemma {:induction false} ProgramCommented(
    generate: string -> string, word: string, key: string, raw: string, clean: string)
    requires ValidKey(word) && ValidKey(key) && IsSecretKey(key) && IsTrimmed(raw) && IsTrimmed(clean)
    requires NL !in raw && NL !in clean && clean == CleanValue(raw)
    requires !IsEmptyOrPlaceholder(raw) && IsEmptyOrPlaceholder(clean)
    ensures Commented(SecretRules(generate, false), word, key, raw, clean)
  {
    TrimTrimmed(clean);
  }

  /** A secret whose value is a placeholder once its comment is stripped, and not before. */
  ghost predicate Commented(r: Rules, word: string, key: string, raw: string, clean: string) {
    && ValidKey(word) && ValidKey(key) && r.isSecret(key) && !r.overwrite
    && IsTrimmed(raw) && NL !in raw && NL !in clean
    && clean == CleanValue(raw) && !r.isPlaceholder(raw) && r.isPlaceholder(Trim(clean))
  }

  lemma {:induction false} PassesOf(
    word: string, r: Rules, again: string -> string, key: string, raw: string, clean: string)
    requires Commented(r, word, key, raw, clean)
    ensures var line, text := Assignment(key, raw), Assignment(key, clean);
      var first, second := ResolveLines(word, r, Lines(line)), ResolveLines(word, r.(generate := again), Lines(text));
      && JoinLines(NewLines(first)) == text && GeneratedKeys(first) == []
      && Entries(first) == [Entry(key, clean, true)]
      && GeneratedKeys(second) == [key] && Entries(second) == [Entry(key, again(key), true)]
  {
    var line, text, r2 := Assignment(key, raw), Assignment(key, clean), r.(generate := again);
    KeptThenGenerated(word, r, again, key, raw);
    WordIsSolid(key);
    OneLineTemplate(word, r, line, ProcessLine(word, r, line));
    OneLineTemplate(word, r2, text, ProcessLine(word, r2, text));
  }

  // ---- A line that only the file reader sees

  lemma IsOneLetter(key: string, value: string)
    requires key == "A" && value == "1"
    ensures ValidKey(key) && Reread(value) == value
  {
    assert CommentIndex(value) == |value|;
    RereadIffPlain(value);
  }

  /** The line ` export A=1`: the file reader of the program sees the variable, and the resolver copies the
      line without it. */
  lemma {:induction false} ProgramMissesIndentedExport(r: Rules, word: string, line: string, key: string, value: string)
    requires word == "export" && key == "A" && value == "1" && line == " export A=1"
    ensures IndentedExport(word, line) && FileEntry(word, line) == Some((key, value))
    ensures ProcessLine(word, r, line) == Resolved(line, None, false)
  {
    ExportIsAName();
    IsOneLetter(key, value);
    assert line == [' '] + WriteLine(word, true, key, value);
    IndentedExportIsMissed(word, r, [' '], key, value);
  }
}
