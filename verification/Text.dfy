/** The part of Rust's `str` that the modelled code uses, on sequences of Unicode scalar values. */
module Text {
  import opened Basics

  /** `char::is_whitespace`: the Unicode property White_Space. */
  predicate IsWhitespace(c: char) {
    var n := c as int;
    9 <= n <= 13 || n == 0x20 || n == 0x85 || n == 0xA0 || n == 0x1680 || 0x2000 <= n <= 0x200A
    || n == 0x2028 || n == 0x2029 || n == 0x202F || n == 0x205F || n == 0x3000
  }

  /** `char::is_control`: the Unicode category Cc. */
  predicate IsControl(c: char) {
    var n := c as int;
    n < 0x20 || 0x7F <= n <= 0x9F
  }

  predicate IsDigit(c: char) { '0' <= c <= '9' }

  predicate IsUpper(c: char) { 'A' <= c <= 'Z' }

  predicate IsLower(c: char) { 'a' <= c <= 'z' }

  predicate IsAlphanumeric(c: char) { IsDigit(c) || IsUpper(c) || IsLower(c) }

  // ---- ASCII case

  function LowerChar(c: char): char {
    if IsUpper(c) then c - 'A' + 'a' else c
  }

  function UpperChar(c: char): char {
    if IsLower(c) then c - 'a' + 'A' else c
  }

  /** `to_ascii_lowercase` */
  function ToLower(s: string): (r: string)
    ensures |r| == |s| && forall i :: 0 <= i < |s| ==> r[i] == LowerChar(s[i])
  {
    if s == [] then [] else ToLower(s[..|s| - 1]) + [LowerChar(s[|s| - 1])]
  }

  lemma {:induction false} LowerAppend(a: string, b: string)
    ensures ToLower(a + b) == ToLower(a) + ToLower(b)
  {
    if b == [] {
      assert a + b == a;
    } else {
      var n := |b| - 1;
      assert (a + b)[..|a + b| - 1] == a + b[..n];
      LowerAppend(a, b[..n]);
    }
  }

  /** `to_ascii_uppercase` */
  function ToUpper(s: string): (r: string)
    ensures |r| == |s| && forall i :: 0 <= i < |s| ==> r[i] == UpperChar(s[i])
  {
    if s == [] then [] else ToUpper(s[..|s| - 1]) + [UpperChar(s[|s| - 1])]
  }

  /** `eq_ignore_ascii_case` */
  predicate EqIgnoreCase(a: string, b: string) {
    ToLower(a) == ToLower(b)
  }

  // ---- Searching and splitting

  /** `str::contains` */
  predicate Contains(s: string, part: string) {
    exists i :: 0 <= i <= |s| - |part| && s[i..][..|part|] == part
  }

  /** The first position of `c`, or the length. */
  function IndexOf(s: string, c: char): (i: nat)
    ensures i <= |s| && c !in s[..i] && (i < |s| ==> s[i] == c)
  {
    if s == [] || s[0] == c then 0
    else
      var i := IndexOf(s[1..], c);
      assert s[..i + 1] == [s[0]] + s[1..][..i];
      i + 1
  }

  /** `split_once` */
  function SplitOnce(s: string, c: char): Option<(string, string)> {
    var i := IndexOf(s, c);
    if i == |s| then None else Some((s[..i], s[i + 1..]))
  }

  /** `split` on one character */
  function Split(s: string, c: char): (parts: seq<string>)
    ensures parts != []
    decreases |s|
  {
    match SplitOnce(s, c)
    case None => [s]
    case Some((a, b)) => [a] + Split(b, c)
  }

  lemma {:induction false} IndexOfAppend(a: string, c: char, b: string)
    requires c !in a
    ensures IndexOf(a + [c] + b, c) == |a|
  {
    var s := a + [c] + b;
    assert forall k :: 0 <= k < |a| ==> s[k] == a[k];
    forall j | |a| < j <= |s| ensures c in s[..j] {
      assert s[..j][|a|] == c;
    }
  }

  lemma SplitOnceOf(a: string, c: char, b: string)
    requires c !in a
    ensures SplitOnce(a + [c] + b, c) == Some((a, b))
  {
    IndexOfAppend(a, c, b);
    assert (a + [c] + b)[..|a|] == a;
    assert (a + [c] + b)[|a| + 1..] == b;
  }

  lemma SplitOnceNone(s: string, c: char)
    ensures SplitOnce(s, c).None? <==> c !in s
  {
    var i := IndexOf(s, c);
    assert i == |s| ==> s[..i] == s;
  }

  lemma SplitOnceParts(s: string, c: char)
    requires SplitOnce(s, c).Some?
    ensures var (a, b) := SplitOnce(s, c).value; s == a + [c] + b && c !in a
  {
  }

  // ---- Trimming

  lemma {:induction false} SplitJoined(a: string, c: char, b: string)
    ensures Split(a + [c] + b, c) == Split(a, c) + Split(b, c)
    decreases |a|
  {
    if c !in a {
      SplitOnceNone(a, c);
      SplitOnceOf(a, c, b);
    } else {
      SplitOnceParts(a, c);
      var (x, y) := SplitOnce(a, c).value;
      assert a + [c] + b == x + [c] + (y + [c] + b);
      SplitOnceOf(x, c, y + [c] + b);
      SplitJoined(y, c, b);
    }
  }

  lemma SplitOne(s: string, c: char)
    requires c !in s
    ensures Split(s, c) == [s]
  {
    SplitOnceNone(s, c);
  }

  predicate Blank(s: string) {
    forall i :: 0 <= i < |s| ==> IsWhitespace(s[i])
  }

  predicate IsTrimmed(s: string) {
    s == [] || (!IsWhitespace(s[0]) && !IsWhitespace(s[|s| - 1]))
  }

  function TrimStart(s: string): string {
    if s != [] && IsWhitespace(s[0]) then TrimStart(s[1..]) else s
  }

  function TrimEnd(s: string): string {
    if s != [] && IsWhitespace(s[|s| - 1]) then TrimEnd(s[..|s| - 1]) else s
  }

  function Trim(s: string): string {
    TrimEnd(TrimStart(s))
  }

  lemma {:induction false} TrimStartParts(s: string) returns (a: string)
    ensures s == a + TrimStart(s) && Blank(a)
    ensures TrimStart(s) == [] || !IsWhitespace(TrimStart(s)[0])
  {
    if s != [] && IsWhitespace(s[0]) {
      var a' := TrimStartParts(s[1..]);
      a := [s[0]] + a';
    } else {
      a := [];
    }
  }

  lemma {:induction false} TrimEndParts(s: string) returns (b: string)
    ensures s == TrimEnd(s) + b && Blank(b)
    ensures TrimEnd(s) == [] || !IsWhitespace(TrimEnd(s)[|TrimEnd(s)| - 1])
  {
    if s != [] && IsWhitespace(s[|s| - 1]) {
      var b' := TrimEndParts(s[..|s| - 1]);
      b := b' + [s[|s| - 1]];
    } else {
      b := [];
    }
  }

  /** What trimming cuts off is blank, and what it keeps is trimmed. */
  lemma TrimParts(s: string) returns (a: string, b: string)
    ensures s == a + Trim(s) + b && Blank(a) && Blank(b) && IsTrimmed(Trim(s))
  {
    a := TrimStartParts(s);
    b := TrimEndParts(TrimStart(s));
    assert s == a + (Trim(s) + b);
    if Trim(s) != [] {
      assert TrimStart(s)[0] == Trim(s)[0];
    }
  }

  lemma {:induction false} TrimStartOf(a: string, s: string)
    requires Blank(a)
    ensures TrimStart(a + s) == TrimStart(s)
  {
    if a == [] {
      assert a + s == s;
    } else {
      assert (a + s)[1..] == a[1..] + s;
      TrimStartOf(a[1..], s);
    }
  }

  lemma {:induction false} TrimEndOf(s: string, b: string)
    requires Blank(b)
    ensures TrimEnd(s + b) == TrimEnd(s)
  {
    if b == [] {
      assert s + b == s;
    } else {
      assert (s + b)[..|s + b| - 1] == s + b[..|b| - 1];
      TrimEndOf(s, b[..|b| - 1]);
    }
  }

  /** Trimming finds the trimmed text between blanks. */
  lemma TrimOf(a: string, s: string, b: string)
    requires Blank(a) && Blank(b) && IsTrimmed(s)
    ensures Trim(a + s + b) == s
  {
    assert a + s + b == a + (s + b);
    TrimStartOf(a, s + b);
    if s == [] {
      assert s + b == b + [];
      TrimStartOf(b, []);
    } else {
      TrimEndOf(s, b);
    }
  }

  /** Whitespace around a text does not change its trimmed form. */
  lemma TrimPadded(a: string, s: string, b: string)
    requires Blank(a) && Blank(b)
    ensures Trim(a + s + b) == Trim(s)
  {
    var p, q := TrimParts(s);
    assert a + s + b == (a + p) + Trim(s) + (q + b);
    TrimOf(a + p, Trim(s), q + b);
  }

  lemma TrimTrimmed(s: string)
    requires IsTrimmed(s)
    ensures Trim(s) == s
  {
    TrimOf([], s, []);
    assert [] + s + [] == s;
  }

  // ---- Lines

  const NL: char := '\n'
  const CR: char := '\r'

  function StripCr(s: string): string {
    if s != [] && s[|s| - 1] == CR then s[..|s| - 1] else s
  }

  /** `str::lines`: a line ends with a line feed, which a carriage return can precede. */
  function Lines(s: string): seq<string>
    decreases |s|
  {
    if s == [] then []
    else
      var i := IndexOf(s, NL);
      if i == |s| then [s] else [StripCr(s[..i])] + Lines(s[i + 1..])
  }

  /** `join("\n")` */
  function JoinLines(lines: seq<string>): string {
    if lines == [] then []
    else if |lines| == 1 then lines[0]
    else lines[0] + [NL] + JoinLines(lines[1..])
  }

  lemma {:induction false} LinesHaveNoLineFeed(s: string)
    ensures forall k :: 0 <= k < |Lines(s)| ==> NL !in Lines(s)[k]
    decreases |s|
  {
    if s != [] {
      var i := IndexOf(s, NL);
      if i < |s| {
        LinesHaveNoLineFeed(s[i + 1..]);
      } else {
        assert s[..i] == s;
      }
    }
  }

  lemma LinesOfOne(s: string)
    requires NL !in s
    ensures Lines(s) == if s == [] then [] else [s]
  {
    SplitOnceNone(s, NL);
  }

  lemma LinesOfMore(a: string, b: string)
    requires NL !in a
    ensures Lines(a + [NL] + b) == [StripCr(a)] + Lines(b)
  {
    IndexOfAppend(a, NL, b);
    assert (a + [NL] + b)[..|a|] == a;
    assert (a + [NL] + b)[|a| + 1..] == b;
  }
}
