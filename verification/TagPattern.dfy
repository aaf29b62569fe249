/** The git tag matcher of the platform (`matches_tag_pattern`): one loop over bytes with a
    remembered star, against two independent meanings of a pattern.

    `Glob` is the documented meaning: `*` stands for any run of bytes and `?` for one byte.
    `LiteralFirst` differs in one point, which the loop takes from testing a literal match before
    a star: a `*` of the pattern that meets a `*` byte of the tag stands for that byte only. */
module TagPattern {
  import opened Basics

  type Byte = b: int | 0 <= b < 256

  const STAR: Byte := 42
  const ANY: Byte := 63

  predicate CharMatches(p: Byte, t: Byte) {
    p == t || p == ANY
  }

  /** `p[i..]` describes `t[j..]`, with `*` (42) for any run of bytes and `?` (63) for one byte. */
  ghost predicate Glob(p: seq<Byte>, i: nat, t: seq<Byte>, j: nat)
    requires i <= |p| && j <= |t|
    decreases |p| - i, 0
  {
    if i == |p| then j == |t|
    else if p[i] == 42 then GlobFrom(p, i + 1, t, j)
    else j < |t| && (p[i] == t[j] || p[i] == 63) && Glob(p, i + 1, t, j + 1)
  }

  /** `p[i..]` describes some suffix of `t[j..]`. */
  ghost predicate GlobFrom(p: seq<Byte>, i: nat, t: seq<Byte>, j: nat)
    requires i <= |p| && j <= |t|
    decreases |p| - i, 1
  {
    exists k :: j <= k <= |t| && Glob(p, i, t, k)
  }

  /** As `Glob`, but a `*` that meets a `*` byte stands for exactly that byte. */
  ghost predicate LiteralFirst(p: seq<Byte>, i: nat, t: seq<Byte>, j: nat)
    requires i <= |p| && j <= |t|
    decreases |p| - i, 0
  {
    if i == |p| then j == |t|
    else if j < |t| && CharMatches(p[i], t[j]) then LiteralFirst(p, i + 1, t, j + 1)
    else p[i] == STAR && LiteralFirstFrom(p, i + 1, t, j)
  }

  ghost predicate LiteralFirstFrom(p: seq<Byte>, i: nat, t: seq<Byte>, j: nat)
    requires i <= |p| && j <= |t|
    decreases |p| - i, 1
  {
    exists k :: j <= k <= |t| && LiteralFirst(p, i, t, k)
  }

  /** The bytes of `p[i..i+n]` match those of `t[j..j+n]` one by one. */
  ghost predicate Lockstep(p: seq<Byte>, i: nat, t: seq<Byte>, j: nat, n: nat)
    requires i + n <= |p| && j + n <= |t|
  {
    forall q :: i <= q < i + n ==> CharMatches(p[q], t[q - i + j])
  }

  lemma {:induction false} LockstepKeepsTheAnswer(p: seq<Byte>, i: nat, t: seq<Byte>, j: nat, n: nat)
    requires i + n <= |p| && j + n <= |t|
    requires Lockstep(p, i, t, j, n)
    ensures LiteralFirst(p, i, t, j) == LiteralFirst(p, i + n, t, j + n)
    decreases n
  {
    if n > 0 {
      LockstepKeepsTheAnswer(p, i + 1, t, j + 1, n - 1);
    }
  }

  /** Starting the same stretch of pattern later in the tag leaves it no earlier: the reason why
      a later star makes every retry of an earlier star useless. */
  lemma {:induction false} LaterStartEndsLater(p: seq<Byte>, i: nat, t: seq<Byte>, j: nat, n: nat, k: nat)
    returns (e: nat)
    requires i + n <= |p| && j + n <= |t| && j <= k <= |t|
    requires Lockstep(p, i, t, j, n)
    requires LiteralFirst(p, i, t, k)
    ensures j + n <= e <= |t| && LiteralFirst(p, i + n, t, e)
    decreases n
  {
    if n == 0 {
      e := k;
    } else if k == j {
      LockstepKeepsTheAnswer(p, i, t, j, n);
      e := j + n;
    } else if k < |t| && CharMatches(p[i], t[k]) {
      e := LaterStartEndsLater(p, i + 1, t, j + 1, n - 1, k + 1);
    } else {
      var k' :| k <= k' <= |t| && LiteralFirst(p, i + 1, t, k');
      e := LaterStartEndsLater(p, i + 1, t, j + 1, n - 1, k');
    }
  }

  /** A star that is reached in lockstep takes over from the star before `i`. */
  lemma StarTakesOver(p: seq<Byte>, i: nat, t: seq<Byte>, j: nat, n: nat)
    requires i + n < |p| && j + n < |t|
    requires Lockstep(p, i, t, j, n)
    requires p[i + n] == STAR && t[j + n] != STAR
    ensures LiteralFirstFrom(p, i, t, j) == LiteralFirstFrom(p, i + n + 1, t, j + n)
  {
    if k :| j <= k <= |t| && LiteralFirst(p, i, t, k) {
      var e := LaterStartEndsLater(p, i, t, j, n, k);
      var next := i + n + 1;
      if e < |t| && t[e] == STAR {
        assert LiteralFirst(p, next, t, e + 1);
      } else {
        assert LiteralFirstFrom(p, next, t, e);
      }
    }
    if LiteralFirstFrom(p, i + n + 1, t, j + n) {
      assert LiteralFirst(p, i + n, t, j + n);
      LockstepKeepsTheAnswer(p, i, t, j, n);
    }
  }

  ghost predicate OnlyStars(p: seq<Byte>, i: nat)
    requires i <= |p|
  {
    forall q :: i <= q < |p| ==> p[q] == STAR
  }

  lemma {:induction false} AtTheEndOnlyStarsMatch(p: seq<Byte>, i: nat, t: seq<Byte>)
    requires i <= |p|
    ensures LiteralFirst(p, i, t, |t|) == OnlyStars(p, i)
    decreases |p| - i
  {
    if i < |p| {
      AtTheEndOnlyStarsMatch(p, i + 1, t);
      if p[i] == STAR {
        assert LiteralFirst(p, i, t, |t|) == LiteralFirst(p, i + 1, t, |t|);
      }
    }
  }

  /** A star, the lockstep behind it, and the end of the tag decide the answer. */
  lemma StarAtTheEnd(p: seq<Byte>, i: nat, t: seq<Byte>, j: nat, n: nat)
    requires i + n <= |p| && j + n == |t|
    requires Lockstep(p, i, t, j, n)
    ensures LiteralFirstFrom(p, i, t, j) == OnlyStars(p, i + n)
  {
    AtTheEndOnlyStarsMatch(p, i + n, t);
    if OnlyStars(p, i + n) {
      LockstepKeepsTheAnswer(p, i, t, j, n);
    }
    if k :| j <= k <= |t| && LiteralFirst(p, i, t, k) {
      var _ := LaterStartEndsLater(p, i, t, j, n, k);
    }
  }

  method SkipTrailingStars(p: seq<Byte>, start: nat) returns (idx: nat)
    requires start <= |p|
    ensures start <= idx <= |p|
    ensures forall q :: start <= q < idx ==> p[q] == STAR
    ensures idx < |p| ==> p[idx] != STAR
  {
    idx := start;
    while idx < |p| && p[idx] == STAR
      invariant start <= idx <= |p|
      invariant forall q :: start <= q < idx ==> p[q] == STAR
    {
      idx := idx + 1;
    }
  }

  /** What the loop knows: the question it started with equals the question it is at. */
  ghost predicate Progress(p: seq<Byte>, t: seq<Byte>, pIdx: nat, tIdx: nat, star: Option<nat>, matchIdx: nat)
  {
    && pIdx <= |p| && matchIdx <= tIdx <= |t|
    && match star {
      case None => LiteralFirst(p, 0, t, 0) == LiteralFirst(p, pIdx, t, tIdx)
      case Some(s) =>
        && s < pIdx && p[s] == STAR
        && pIdx - (s + 1) == tIdx - matchIdx
        && Lockstep(p, s + 1, t, matchIdx, tIdx - matchIdx)
        && LiteralFirst(p, 0, t, 0) == LiteralFirstFrom(p, s + 1, t, matchIdx)
    }
  }

  lemma LiteralStep(p: seq<Byte>, t: seq<Byte>, pIdx: nat, tIdx: nat, star: Option<nat>, matchIdx: nat)
    requires Progress(p, t, pIdx, tIdx, star, matchIdx)
    requires pIdx < |p| && tIdx < |t| && CharMatches(p[pIdx], t[tIdx])
    ensures Progress(p, t, pIdx + 1, tIdx + 1, star, matchIdx)
  {
  }

  lemma StarStep(p: seq<Byte>, t: seq<Byte>, pIdx: nat, tIdx: nat, star: Option<nat>, matchIdx: nat)
    requires Progress(p, t, pIdx, tIdx, star, matchIdx)
    requires pIdx < |p| && tIdx < |t| && !CharMatches(p[pIdx], t[tIdx]) && p[pIdx] == STAR
    ensures Progress(p, t, pIdx + 1, tIdx, Some(pIdx), tIdx)
  {
    if star.Some? {
      StarTakesOver(p, star.value + 1, t, matchIdx, tIdx - matchIdx);
    }
  }

  lemma BacktrackStep(p: seq<Byte>, t: seq<Byte>, pIdx: nat, tIdx: nat, s: nat, matchIdx: nat)
    requires Progress(p, t, pIdx, tIdx, Some(s), matchIdx)
    requires tIdx < |t| && (pIdx < |p| ==> !CharMatches(p[pIdx], t[tIdx]) && p[pIdx] != STAR)
    ensures Progress(p, t, s + 1, matchIdx + 1, Some(s), matchIdx + 1)
  {
    assert !LiteralFirst(p, pIdx, t, tIdx);
    LockstepKeepsTheAnswer(p, s + 1, t, matchIdx, tIdx - matchIdx);
    var i := s + 1;
    if k :| matchIdx <= k <= |t| && LiteralFirst(p, i, t, k) {
      assert matchIdx + 1 <= k;
    }
  }

  /** Byte by byte the pattern is the tag, but for its `?`. */
  ghost predicate SameLetters(p: seq<Byte>, t: seq<Byte>) {
    |p| == |t| && forall q :: 0 <= q < |p| ==> p[q] == t[q] || p[q] == 63
  }

  lemma {:induction false} WithoutStars(p: seq<Byte>, i: nat, t: seq<Byte>, j: nat)
    requires i <= |p| && j <= |t| && 42 !in p
    ensures Glob(p, i, t, j) == SameLetters(p[i..], t[j..])
    decreases |p| - i
  {
    if i < |p| && j < |t| {
      WithoutStars(p, i + 1, t, j + 1);
      assert p[i..] == [p[i]] + p[i + 1..] && t[j..] == [t[j]] + t[j + 1..];
      FirstLetters(p[i], p[i + 1..], t[j], t[j + 1..]);
    }
  }

  lemma FirstLetters(a: Byte, p: seq<Byte>, b: Byte, t: seq<Byte>)
    ensures SameLetters([a] + p, [b] + t) == ((a == b || a == 63) && SameLetters(p, t))
  {
    var x, y := [a] + p, [b] + t;
    assert x[0] == a && y[0] == b;
    assert forall q :: 0 <= q < |p| ==> x[q + 1] == p[q];
    assert forall q :: 0 <= q < |t| ==> y[q + 1] == t[q];
    assert forall q :: 1 <= q < |x| ==> x[q] == p[q - 1];
  }

  lemma AnswerMeans(p: seq<Byte>, t: seq<Byte>)
    ensures LiteralFirst(p, 0, t, 0) ==> Glob(p, 0, t, 0)
    ensures 42 !in p || 42 !in t ==> LiteralFirst(p, 0, t, 0) == Glob(p, 0, t, 0)
    ensures 42 !in p ==> LiteralFirst(p, 0, t, 0) == SameLetters(p, t)
    ensures 42 !in p && 63 !in p ==> (LiteralFirst(p, 0, t, 0) <==> p == t)
  {
    if LiteralFirst(p, 0, t, 0) { Sound(p, 0, t, 0); }
    if (42 !in p || 42 !in t) && Glob(p, 0, t, 0) { Complete(p, 0, t, 0); }
    if 42 !in p {
      WithoutStars(p, 0, t, 0);
      assert p[0..] == p && t[0..] == t;
    }
  }

  /** The loop decides `LiteralFirst` on every pattern and every tag, in at most
      (|p| + 1) * (|t| + 1) turns. A positive answer is right, and so is a negative one when the pattern or
      the tag has no `*`. Without a `*` the pattern is the tag up to its `?`. */
  method MatchesTagPattern(p: seq<Byte>, t: seq<Byte>) returns (matched: bool, ghost turns: nat)
    ensures matched == LiteralFirst(p, 0, t, 0)
    ensures matched ==> Glob(p, 0, t, 0)
    ensures 42 !in p || 42 !in t ==> matched == Glob(p, 0, t, 0)
    ensures 42 !in p ==> matched == SameLetters(p, t)
    ensures 42 !in p && 63 !in p ==> (matched <==> p == t)
    ensures turns <= (|p| + 1) * (|t| + 1)
  {
    AnswerMeans(p, t);
    var pIdx: nat, tIdx: nat, matchIdx: nat := 0, 0, 0;
    var star: Option<nat> := None;
    turns := 0;
    ghost var backtracks: nat := 0;
    while tIdx < |t|
      invariant Progress(p, t, pIdx, tIdx, star, matchIdx)
      invariant backtracks <= matchIdx
      invariant turns <= backtracks * (|p| + 1) + pIdx
      decreases |t| - backtracks, |p| - pIdx
    {
      turns := turns + 1;
      if pIdx < |p| && CharMatches(p[pIdx], t[tIdx]) {
        LiteralStep(p, t, pIdx, tIdx, star, matchIdx);
        pIdx, tIdx := pIdx + 1, tIdx + 1;
      } else if pIdx < |p| && p[pIdx] == STAR {
        StarStep(p, t, pIdx, tIdx, star, matchIdx);
        star := Some(pIdx);
        pIdx := pIdx + 1;
        matchIdx := tIdx;
      } else if star.Some? {
        BacktrackStep(p, t, pIdx, tIdx, star.value, matchIdx);
        assert (backtracks + 1) * (|p| + 1) == backtracks * (|p| + 1) + |p| + 1;
        backtracks := backtracks + 1;
        pIdx := star.value + 1;
        matchIdx := matchIdx + 1;
        tIdx := matchIdx;
      } else {
        TurnsBound(turns, backtracks, |p|, |t|, pIdx, 1);
        return false, turns;
      }
    }
    var idx := SkipTrailingStars(p, pIdx);
    if star.Some? {
      StarAtTheEnd(p, star.value + 1, t, matchIdx, tIdx - matchIdx);
    } else {
      AtTheEndOnlyStarsMatch(p, pIdx, t);
    }
    TurnsBound(turns, backtracks, |p|, |t|, pIdx, 0);
    matched := idx == |p|;
  }

  lemma TurnsBound(turns: nat, backtracks: nat, np: nat, nt: nat, pIdx: nat, extra: nat)
    requires turns <= backtracks * (np + 1) + pIdx + extra
    requires backtracks <= nt && pIdx <= np && extra <= 1
    ensures turns <= (np + 1) * (nt + 1)
  {
    assert backtracks * (np + 1) <= nt * (np + 1);
    assert (np + 1) * (nt + 1) == nt * (np + 1) + np + 1;
  }

  // ---- The loop against the documented meaning

  /** A positive answer is always right. */
  lemma {:induction false} Sound(p: seq<Byte>, i: nat, t: seq<Byte>, j: nat)
    requires i <= |p| && j <= |t|
    requires LiteralFirst(p, i, t, j)
    ensures Glob(p, i, t, j)
    decreases |p| - i
  {
    if i < |p| {
      if j < |t| && CharMatches(p[i], t[j]) {
        Sound(p, i + 1, t, j + 1);
      } else {
        var k :| j <= k <= |t| && LiteralFirst(p, i + 1, t, k);
        Sound(p, i + 1, t, k);
      }
    }
  }

  /** A negative answer is right when the tag or the pattern has no `*` left. */
  lemma {:induction false} Complete(p: seq<Byte>, i: nat, t: seq<Byte>, j: nat)
    requires i <= |p| && j <= |t|
    requires STAR !in t || STAR !in p
    requires Glob(p, i, t, j)
    ensures LiteralFirst(p, i, t, j)
    decreases |p| - i
  {
    if i < |p| {
      if p[i] == STAR {
        var k :| j <= k <= |t| && Glob(p, i + 1, t, k);
        Complete(p, i + 1, t, k);
      } else {
        Complete(p, i + 1, t, j + 1);
      }
    }
  }

  ghost predicate Agree(p: seq<Byte>, t: seq<Byte>) {
    LiteralFirst(p, 0, t, 0) == Glob(p, 0, t, 0)
  }

  function Repeat(b: Byte, n: nat): (s: seq<Byte>)
    ensures |s| == n && forall q :: 0 <= q < n ==> s[q] == b
  {
    seq(n, _ => b)
  }

  lemma {:induction false} AnyRun(p: seq<Byte>, i: nat, t: seq<Byte>, j: nat)
    requires i <= |p| && j <= |t|
    requires forall q :: i <= q < |p| ==> p[q] == ANY
    ensures Glob(p, i, t, j) == LiteralFirst(p, i, t, j) == (|p| - i == |t| - j)
    decreases |p| - i
  {
    if i < |p| && j < |t| {
      AnyRun(p, i + 1, t, j + 1);
    }
  }

  /** Reading equal bytes one by one, a star may be passed as one byte of the tag. */
  lemma {:induction false} GlobLockstep(p: seq<Byte>, i: nat, t: seq<Byte>, j: nat, n: nat)
    requires i + n <= |p| && j + n <= |t|
    requires Lockstep(p, i, t, j, n)
    requires Glob(p, i + n, t, j + n)
    ensures Glob(p, i, t, j)
    decreases n
  {
    if n > 0 {
      GlobLockstep(p, i + 1, t, j + 1, n - 1);
    }
  }

  /** The pattern on which a tag with a `*` byte at `i` gets a wrong answer. */
  function Breaking(t: seq<Byte>, i: nat): seq<Byte>
    requires i < |t|
  {
    t[..i] + [STAR] + Repeat(ANY, |t| - i)
  }

  lemma StarInTagBreaksAPattern(t: seq<Byte>, i: nat)
    requires i < |t| && t[i] == STAR
    ensures !Agree(Breaking(t, i), t)
  {
    var p := Breaking(t, i);
    assert Lockstep(p, 0, t, 0, i);
    assert p[i] == STAR;
    AnyRun(p, i + 1, t, i);
    assert Glob(p, i, t, i);
    GlobLockstep(p, 0, t, 0, i);
    AnyRun(p, i + 1, t, i + 1);
    LockstepKeepsTheAnswer(p, 0, t, 0, i);
  }

  /** The position of the last star. */
  lemma LastStar(p: seq<Byte>) returns (i: nat)
    requires STAR in p
    ensures i < |p| && p[i] == STAR && STAR !in p[i + 1..]
  {
    i := |p| - 1;
    while p[i] != STAR
      invariant i < |p| && STAR !in p[i + 1..]
      invariant STAR in p[..i + 1]
      decreases i
    {
      assert p[..i + 1] == p[..i] + [p[i]];
      assert p[i..] == [p[i]] + p[i + 1..];
      i := i - 1;
    }
  }

  /** The tag on which a pattern with its last star at `i` gets a wrong answer: the pattern itself,
      one more byte, and the end of the pattern once more. */
  function Twice(p: seq<Byte>, i: nat): seq<Byte>
    requires i < |p|
  {
    p + [ANY] + p[i + 1..]
  }

  lemma StarInPatternBreaksATag(p: seq<Byte>, i: nat)
    requires i < |p| && p[i] == STAR && STAR !in p[i + 1..]
    ensures !Agree(p, Twice(p, i))
  {
    var t := Twice(p, i);
    assert Lockstep(p, 0, t, 0, |p|);
    LockstepKeepsTheAnswer(p, 0, t, 0, |p|);
    assert !LiteralFirst(p, 0, t, 0);
    assert Lockstep(p, i + 1, t, |p| + 1, |p| - (i + 1));
    assert Glob(p, |p|, t, |t|);
    GlobLockstep(p, i + 1, t, |p| + 1, |p| - (i + 1));
    assert i <= |p| + 1 <= |t| && Glob(p, i + 1, t, |p| + 1);
    assert Glob(p, i, t, i);
    assert Lockstep(p, 0, t, 0, i);
    GlobLockstep(p, 0, t, 0, i);
  }

  /** The exact condition on the tag: the matcher follows the documented meaning of every pattern
      if and only if the tag has no `*` byte. */
  lemma AgreesOnEveryPatternIffTagHasNoStar(t: seq<Byte>)
    ensures (forall p: seq<Byte> :: Agree(p, t)) <==> STAR !in t
  {
    if STAR in t {
      var i :| 0 <= i < |t| && t[i] == STAR;
      StarInTagBreaksAPattern(t, i);
    } else {
      forall p: seq<Byte> ensures Agree(p, t) {
        if Glob(p, 0, t, 0) { Complete(p, 0, t, 0); }
        if LiteralFirst(p, 0, t, 0) { Sound(p, 0, t, 0); }
      }
    }
  }

  /** The exact condition on the pattern, with the same reading. */
  lemma AgreesOnEveryTagIffPatternHasNoStar(p: seq<Byte>)
    ensures (forall t: seq<Byte> :: Agree(p, t)) <==> STAR !in p
  {
    if STAR in p {
      var i := LastStar(p);
      StarInPatternBreaksATag(p, i);
    } else {
      forall t: seq<Byte> ensures Agree(p, t) {
        if Glob(p, 0, t, 0) { Complete(p, 0, t, 0); }
        if LiteralFirst(p, 0, t, 0) { Sound(p, 0, t, 0); }
      }
    }
  }
}
