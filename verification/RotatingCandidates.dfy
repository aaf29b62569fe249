/** Round robin when the candidates change between turns, as health and circuits come and go: the current
    weights of the whole group always cancel out, and each stays within half of (servers - 1) times the
    largest total weight.

    The reason is a bound on every subset of servers at once (`Contained`). A turn moves weight from the
    server with the highest increased weight to the other candidates. When that carries weight into a
    subset from outside, the server it comes from holds about as much as the server it goes to, so the
    subset together with that server would already be over its own bound. */
module RotatingCandidates {
  import opened RoundRobin

  type Subset = seq<bool>

  function SumIn(c: seq<int>, t: Subset, n: nat): int
    requires n <= |c| && n <= |t|
  {
    if n == 0 then 0 else SumIn(c, t, n - 1) + if t[n - 1] then c[n - 1] else 0
  }

  function Size(t: Subset, n: nat): (k: nat)
    requires n <= |t|
    ensures k <= n
  {
    if n == 0 then 0 else Size(t, n - 1) + if t[n - 1] then 1 else 0
  }

  // ---- Products

  lemma {:induction false} TimesMinus(k: nat, a: int, b: int)
    ensures Times(k, a - b) == Times(k, a) - Times(k, b)
  {
    if k > 0 { TimesMinus(k - 1, a, b); }
  }

  lemma {:induction false} TimesNonNegative(k: nat, a: int)
    requires a >= 0
    ensures Times(k, a) >= 0
  {
    if k > 0 { TimesNonNegative(k - 1, a); }
  }

  /** Twice what `k` of `n` servers may hold together: k * (n - k) times the total. */
  function Cap(w: nat, n: nat, k: nat): int
    requires k <= n
  {
    Times(k, Times(n - k, w))
  }

  lemma CapStep(w: nat, n: nat, k: nat)
    requires k < n
    ensures Cap(w, n, k + 1) == Cap(w, n, k) + Times(n, w) - 2 * Times(k, w) - w
  {
    TimesMinus(k, Times(n - k, w), w);
    assert Times(n - k, w) == Times(n - k - 1, w) + w;
    TimesSum(n - k - 1, k, w);
    assert Times(n, w) == Times(n - 1, w) + w;
    assert n - 1 == n - k - 1 + k;
  }

  lemma {:induction false} TimesSum(a: nat, b: nat, w: int)
    ensures Times(a + b, w) == Times(a, w) + Times(b, w)
  {
    if b > 0 {
      TimesSum(a, b - 1, w);
      assert a + b - 1 == a + (b - 1);
    }
  }

  /** The caps bend by twice the total. */
  lemma CapBends(w: nat, n: nat, k: nat)
    requires 0 < k < n
    ensures 2 * Cap(w, n, k) == Cap(w, n, k + 1) + Cap(w, n, k - 1) + 2 * w
  {
    CapStep(w, n, k);
    CapStep(w, n, k - 1);
  }

  lemma CapIsNotNegative(w: nat, n: nat, k: nat)
    requires k <= n
    ensures Cap(w, n, k) >= 0
  {
    TimesNonNegative(n - k, w);
    TimesNonNegative(k, Times(n - k, w));
  }

  // ---- Sums over subsets

  lemma {:induction false} SumChanges(c: seq<int>, t: Subset, i: nat, b: bool, n: nat)
    requires n <= |c| == |t| && i < |t|
    ensures SumIn(c, t[i := b], n) ==
            SumIn(c, t, n) + if i < n && b && !t[i] then c[i] else if i < n && !b && t[i] then -c[i] else 0
  {
    if n > 0 { SumChanges(c, t, i, b, n - 1); }
  }

  lemma {:induction false} SizeChanges(t: Subset, i: nat, b: bool, n: nat)
    requires n <= |t| && i < |t|
    ensures Size(t[i := b], n) == Size(t, n) + if i < n && b && !t[i] then 1 else if i < n && !b && t[i] then -1 else 0
  {
    if n > 0 { SizeChanges(t, i, b, n - 1); }
  }

  /** The weights of a subset are part of the total, without the weight of a server outside. */
  lemma {:induction false} PartOfTotal(e: seq<int>, t: Subset, p: nat, n: nat)
    requires n <= |e| == |t| && p < |e| && forall i :: 0 <= i < |e| ==> e[i] >= 0
    ensures 0 <= SumIn(e, t, n) <= SumOfFirst(e, n)
    ensures !t[p] && p < n ==> SumIn(e, t, n) + e[p] <= SumOfFirst(e, n)
  {
    if n > 0 { PartOfTotal(e, t, p, n - 1); }
  }

  lemma {:induction false} NoWeightInside(e: seq<int>, t: Subset, n: nat)
    requires n <= |e| == |t| && forall i :: 0 <= i < |e| ==> e[i] >= 0
    requires forall i :: 0 <= i < n && t[i] ==> e[i] == 0
    ensures SumIn(e, t, n) == 0
  {
    if n > 0 { NoWeightInside(e, t, n - 1); }
  }

  /** What a turn does to the sum over a subset. */
  lemma {:induction false} SumAfterTurn(e: seq<int>, c: seq<int>, c': seq<int>, p: int, total: int, t: Subset, n: nat)
    requires |c| == |e| == |c'| == |t| && n <= |e| && 0 <= p < |e|
    requires forall i :: 0 <= i < |e| ==> c'[i] == c[i] + e[i] - if i == p then total else 0
    ensures SumIn(c', t, n) == SumIn(c, t, n) + SumIn(e, t, n) - if p < n && t[p] then total else 0
  {
    if n > 0 { SumAfterTurn(e, c, c', p, total, t, n - 1); }
  }

  // ---- The bound on every subset

  ghost predicate Within(w: nat, c: seq<int>, t: Subset) {
    |t| == |c| && 2 * SumIn(c, t, |c|) <= Cap(w, |c|, Size(t, |t|))
  }

  ghost predicate Contained(w: nat, c: seq<int>) {
    forall t: Subset :: |t| == |c| ==> Within(w, c, t)
  }

  /** One turn, as the facts that the bound needs: `p` pays the total and had the highest increased weight. */
  ghost predicate IsTurn(w: nat, e: seq<int>, c: seq<int>, c': seq<int>, p: int) {
    && Fits(e, c) && |c'| == |e| && 0 <= p < |e| && Total(e) <= w
    && (forall i :: 0 <= i < |e| ==> c'[i] == c[i] + e[i] - if i == p then Total(e) else 0)
    && (forall i :: 0 <= i < |e| && e[i] > 0 ==> c[i] + e[i] <= c[p] + e[p])
  }

  lemma TurnIsTurn(w: nat, e: seq<int>, c: seq<int>)
    requires Fits(e, c) && 0 < Total(e) <= w
    ensures IsTurn(w, e, c, Turn(e, c), Pick(e, c))
  {
    HighestIsFirstHighest(e, c, |e|);
    if Pick(e, c) < 0 {
      NoWeight(e, |e|);
    }
  }

  lemma {:induction false} NoWeight(e: seq<int>, n: nat)
    requires n <= |e| && forall k :: 0 <= k < n ==> e[k] <= 0
    ensures SumOfFirst(e, n) <= 0
  {
    if n > 0 { NoWeight(e, n - 1); }
  }

  /** A subset that the winner is in, or that no candidate is in, gains nothing. */
  lemma GainsNothing(w: nat, e: seq<int>, c: seq<int>, c': seq<int>, p: int, t: Subset)
    requires IsTurn(w, e, c, c', p) && |t| == |c| && Within(w, c, t)
    requires t[p] || forall i :: 0 <= i < |t| && t[i] ==> e[i] == 0
    ensures Within(w, c', t)
  {
    SumAfterTurn(e, c, c', p, Total(e), t, |e|);
    PartOfTotal(e, t, p, |e|);
    if !t[p] {
      NoWeightInside(e, t, |e|);
    }
  }

  /** A subset that weight comes into from the winner outside, through the candidate `i` inside. */
  lemma GainsFromOutside(w: nat, e: seq<int>, c: seq<int>, c': seq<int>, p: int, t: Subset, i: nat)
    requires IsTurn(w, e, c, c', p) && |t| == |c| && !t[p] && i < |t| && t[i] && e[i] > 0
    requires Within(w, c, t[p := true]) && Within(w, c', t[i := false])
    ensures Within(w, c', t)
  {
    var n, k := |c|, Size(t, |t|);
    SizeChanges(t, p, true, n);
    SizeChanges(t, i, false, n);
    SumChanges(c, t, p, true, n);
    SumChanges(c', t, i, false, n);
    SumAfterTurn(e, c, c', p, Total(e), t, n);
    PartOfTotal(e, t, p, n);
    CapBends(w, n, k);
    Squeeze(SumIn(c, t, n), SumIn(c', t, n), SumIn(e, t, n), c[p], c'[i], e[p], w, Cap(w, n, k - 1), Cap(w, n, k),
            Cap(w, n, k + 1));
  }

  lemma Squeeze(x: int, y: int, g: int, xp: int, yi: int, ep: int, w: int, below: int, at: int, above: int)
    requires y == x + g && g + ep <= w && yi <= xp + ep
    requires 2 * (x + xp) <= above && 2 * (y - yi) <= below && 2 * at == above + below + 2 * w
    ensures 2 * y <= at
  {
  }

  lemma {:induction false} TurnKeepsWithin(w: nat, e: seq<int>, c: seq<int>, c': seq<int>, p: int, t: Subset, k: nat)
    requires IsTurn(w, e, c, c', p) && Contained(w, c) && |t| == |c| && Size(t, |t|) == k
    ensures Within(w, c', t)
    decreases k
  {
    assert Within(w, c, t);
    if i :| 0 <= i < |t| && t[i] && e[i] > 0 && !t[p] {
      SizeChanges(t, i, false, |t|);
      SizeIsPositive(t, i, |t|);
      TurnKeepsWithin(w, e, c, c', p, t[i := false], k - 1);
      GainsFromOutside(w, e, c, c', p, t, i);
    } else {
      GainsNothing(w, e, c, c', p, t);
    }
  }

  lemma {:induction false} SizeIsPositive(t: Subset, i: nat, n: nat)
    requires i < n <= |t| && t[i]
    ensures Size(t, n) > 0
  {
    if i < n - 1 { SizeIsPositive(t, i, n - 1); }
  }

  lemma TurnKeepsContained(w: nat, e: seq<int>, c: seq<int>)
    requires Fits(e, c) && 0 < Total(e) <= w && Contained(w, c)
    ensures Contained(w, Turn(e, c))
  {
    TurnIsTurn(w, e, c);
    forall t: Subset | |t| == |Turn(e, c)| ensures Within(w, Turn(e, c), t) {
      TurnKeepsWithin(w, e, c, Turn(e, c), Pick(e, c), t, Size(t, |t|));
    }
  }

  // ---- Runs with any candidates

  /** The current weights after turns with these effective weights; without a candidate there is no turn. */
  function PlayAll(es: seq<seq<int>>, c: seq<int>): (c': seq<int>)
    requires forall k :: 0 <= k < |es| ==> |es[k]| == |c|
    ensures |c'| == |c|
  {
    if es == [] then c
    else
      var before, e := PlayAll(es[..|es| - 1], c), es[|es| - 1];
      if Total(e) > 0 then Turn(e, before) else before
  }

  function Everyone(n: nat): (t: Subset)
    ensures |t| == n && forall i :: 0 <= i < n ==> t[i]
  {
    if n == 0 then [] else Everyone(n - 1) + [true]
  }

  lemma {:induction false} EveryoneIsAll(c: seq<int>, t: Subset, n: nat)
    requires n <= |c| == |t| && forall i :: 0 <= i < |t| ==> t[i]
    ensures SumIn(c, t, n) == SumOfFirst(c, n) && Size(t, n) == n
  {
    if n > 0 { EveryoneIsAll(c, t, n - 1); }
  }

  lemma {:induction false} NothingHeldAtFirst(c: seq<int>, t: Subset, n: nat)
    requires n <= |c| == |t| && forall i :: 0 <= i < |c| ==> c[i] == 0
    ensures SumIn(c, t, n) == 0
  {
    if n > 0 { NothingHeldAtFirst(c, t, n - 1); }
  }

  /** The effective weights of one turn. */
  ghost predicate IsCandidates(w: nat, n: nat, e: seq<int>) {
    |e| == n && Total(e) <= w && forall i :: 0 <= i < n ==> e[i] >= 0
  }

  ghost predicate AllCandidates(w: nat, n: nat, es: seq<seq<int>>) {
    forall k :: 0 <= k < |es| ==> IsCandidates(w, n, es[k])
  }

  /** The whole group cancels out, and every subset stays within its bound. */
  lemma {:induction false} RunKeepsContained(w: nat, es: seq<seq<int>>, c: seq<int>)
    requires AllCandidates(w, |c|, es) && Contained(w, c) && Total(c) == 0
    ensures Contained(w, PlayAll(es, c)) && Total(PlayAll(es, c)) == 0
    decreases |es|
  {
    if es != [] {
      var before, e := PlayAll(es[..|es| - 1], c), es[|es| - 1];
      RunKeepsContained(w, es[..|es| - 1], c);
      assert IsCandidates(w, |c|, e);
      if Total(e) > 0 {
        TurnKeepsContained(w, e, before);
        TurnKeepsTotal(w, e, before);
      }
    }
  }

  lemma TurnKeepsTotal(w: nat, e: seq<int>, c: seq<int>)
    requires Fits(e, c) && 0 < Total(e) <= w
    ensures Total(Turn(e, c)) == Total(c)
  {
    var t := Everyone(|c|);
    TurnIsTurn(w, e, c);
    SumAfterTurn(e, c, Turn(e, c), Pick(e, c), Total(e), t, |e|);
    EveryoneIsAll(c, t, |c|);
    EveryoneIsAll(e, t, |e|);
    EveryoneIsAll(Turn(e, c), t, |c|);
  }

  lemma FreshIsContained(w: nat, c: seq<int>)
    requires forall i :: 0 <= i < |c| ==> c[i] == 0
    ensures Contained(w, c) && Total(c) == 0
  {
    forall t: Subset | |t| == |c| ensures Within(w, c, t) {
      NothingHeldAtFirst(c, t, |c|);
      CapIsNotNegative(w, |c|, Size(t, |t|));
    }
    NothingHeldAtFirst(c, Everyone(|c|), |c|);
    EveryoneIsAll(c, Everyone(|c|), |c|);
  }

  lemma {:induction false} NobodyHolds(c: seq<int>, t: Subset, n: nat)
    requires n <= |c| == |t| && forall i :: 0 <= i < n ==> !t[i]
    ensures SumIn(c, t, n) == 0 && Size(t, n) == 0
  {
    if n > 0 { NobodyHolds(c, t, n - 1); }
  }

  /** One server alone, and all others. */
  lemma OneServer(w: nat, c: seq<int>, s: nat)
    requires Contained(w, c) && Total(c) == 0 && s < |c|
    ensures -Times(|c| - 1, w) <= 2 * c[s] <= Times(|c| - 1, w)
  {
    var n, all := |c|, Everyone(|c|);
    var none := Nobody(n);
    NobodyHolds(c, none, n);
    EveryoneIsAll(c, all, n);
    SumChanges(c, none, s, true, n);
    SizeChanges(none, s, true, n);
    SumChanges(c, all, s, false, n);
    SizeChanges(all, s, false, n);
    assert Within(w, c, none[s := true]) && Within(w, c, all[s := false]);
    assert Cap(w, n, 1) == Times(0, Times(n - 1, w)) + Times(n - 1, w);
    assert Times(1, w) == Times(0, w) + w;
  }

  function Nobody(n: nat): (t: Subset)
    ensures |t| == n && forall i :: 0 <= i < n ==> !t[i]
  {
    if n == 0 then [] else Nobody(n - 1) + [false]
  }

  /** From fresh current weights, for any sequence of candidates, the current weights of the group sum to
      zero, and each is at most half of (servers - 1) times the largest total weight away from it. */
  lemma {:induction false} BoundedForAnyCandidates(w: nat, es: seq<seq<int>>, c: seq<int>, s: nat)
    requires AllCandidates(w, |c|, es) && s < |c| && forall i :: 0 <= i < |c| ==> c[i] == 0
    ensures var c' := PlayAll(es, c);
      Total(c') == 0 && -Times(|c| - 1, w) <= 2 * c'[s] <= Times(|c| - 1, w)
  {
    FreshIsContained(w, c);
    RunKeepsContained(w, es, c);
    OneServer(w, PlayAll(es, c), s);
  }

  // ---- A stretch with the same candidates

  lemma {:induction false} PlayKeepsContained(w: nat, e: seq<int>, c: seq<int>, n: nat)
    requires Fits(e, c) && 0 < Total(e) <= w && Contained(w, c) && Total(c) == 0
    ensures Contained(w, Play(e, c, n)) && Total(Play(e, c, n)) == 0
  {
    if n > 0 {
      PlayKeepsContained(w, e, c, n - 1);
      TurnKeepsContained(w, e, Play(e, c, n - 1));
      TurnKeepsTotal(w, e, Play(e, c, n - 1));
    }
  }

  /** After any history of candidates, in a stretch of `n` turns with the same ones, what a server wins
      stays within (servers - 1) times the largest total weight of its share, however long the stretch. */
  lemma {:induction false} NearItsShareAfterAnyHistory(
    w: nat, es: seq<seq<int>>, start: seq<int>, e: seq<int>, n: nat, s: nat)
    requires AllCandidates(w, |start|, es) && forall i :: 0 <= i < |start| ==> start[i] == 0
    requires IsCandidates(w, |start|, e) && Total(e) > 0 && s < |start|
    ensures var c := PlayAll(es, start);
      -Times(|e| - 1, w) <= Times(Wins(e, c, n, s), Total(e)) - Times(n, e[s]) <= Times(|e| - 1, w)
  {
    var c := PlayAll(es, start);
    FreshIsContained(w, start);
    RunKeepsContained(w, es, start);
    PlayKeepsContained(w, e, c, n);
    OneServer(w, c, s);
    OneServer(w, Play(e, c, n), s);
    Account(e, c, n, s);
  }
}
