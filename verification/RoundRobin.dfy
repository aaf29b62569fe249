/** The smooth weighted round robin of an upstream group: in each turn every candidate gains its
    weight, and the candidate with the highest current weight goes first and pays the total.

    A turn is described by the effective weights `e` of the group: the weight of each candidate, and
    zero for a server that takes no part. The main result is `EveryCycleIsFair`: in any stretch of
    as many turns as the total weight, each candidate goes first exactly as often as its weight
    says. */
module RoundRobin {

  /** The sum of the first `n` effective weights. */
  function SumOfFirst(e: seq<int>, n: nat): int
    requires n <= |e|
  {
    if n == 0 then 0 else SumOfFirst(e, n - 1) + e[n - 1]
  }

  function Total(e: seq<int>): int {
    SumOfFirst(e, |e|)
  }

  /** The effective weights of a group with the current weights `c`. */
  ghost predicate Fits(e: seq<int>, c: seq<int>) {
    |c| == |e| && forall i :: 0 <= i < |e| ==> e[i] >= 0
  }

  /** The candidate among the first `n` servers with the highest current weight, the first of them
      on a tie, or -1 without a candidate. */
  function Highest(e: seq<int>, c: seq<int>, n: nat): (b: int)
    requires |c| == |e| && n <= |e|
    ensures -1 <= b < n
  {
    if n == 0 then -1
    else
      var b := Highest(e, c, n - 1);
      if e[n - 1] > 0 && (b < 0 || c[n - 1] + e[n - 1] > c[b] + e[b]) then n - 1 else b
  }

  /** The server that goes first. */
  function Pick(e: seq<int>, c: seq<int>): int
    requires |c| == |e|
  {
    Highest(e, c, |e|)
  }

  /** The first `n` current weights after a turn in which `p` goes first. */
  function Moved(e: seq<int>, c: seq<int>, p: int, n: nat): (c': seq<int>)
    requires |c| == |e| && n <= |e|
    ensures |c'| == n
    ensures forall i :: 0 <= i < n ==> c'[i] == c[i] + e[i] - if i == p then Total(e) else 0
  {
    if n == 0 then []
    else Moved(e, c, p, n - 1) + [c[n - 1] + e[n - 1] - if n - 1 == p then Total(e) else 0]
  }

  /** The current weights after one turn. */
  function Turn(e: seq<int>, c: seq<int>): (c': seq<int>)
    requires |c| == |e|
    ensures |c'| == |c|
  {
    Moved(e, c, Pick(e, c), |e|)
  }

  /** The current weights after `n` turns. */
  function Play(e: seq<int>, c: seq<int>, n: nat): (c': seq<int>)
    requires |c| == |e|
    ensures |c'| == |c|
  {
    if n == 0 then c else Turn(e, Play(e, c, n - 1))
  }

  /** The servers that go first in `n` turns. */
  function Picks(e: seq<int>, c: seq<int>, n: nat): (ps: seq<int>)
    requires |c| == |e|
    ensures |ps| == n
  {
    if n == 0 then [] else Picks(e, c, n - 1) + [Pick(e, Play(e, c, n - 1))]
  }

  function CountOf(ps: seq<int>, s: int): nat {
    if ps == [] then 0 else CountOf(ps[..|ps| - 1], s) + if ps[|ps| - 1] == s then 1 else 0
  }

  /** How often server `s` went first in `n` turns. */
  function Wins(e: seq<int>, c: seq<int>, n: nat, s: int): nat
    requires |c| == |e|
  {
    CountOf(Picks(e, c, n), s)
  }

  lemma NextWin(e: seq<int>, c: seq<int>, n: nat, s: int)
    requires |c| == |e| && n > 0
    ensures Wins(e, c, n, s) == Wins(e, c, n - 1, s) + if Pick(e, Play(e, c, n - 1)) == s then 1 else 0
  {
    var ps := Picks(e, c, n);
    assert ps[..n - 1] == Picks(e, c, n - 1);
  }

  // ---- What every turn keeps

  lemma {:induction false} HighestIsFirstHighest(e: seq<int>, c: seq<int>, n: nat)
    requires |c| == |e| && n <= |e|
    ensures var b := Highest(e, c, n);
      && (b < 0 ==> forall k :: 0 <= k < n ==> e[k] <= 0)
      && (b >= 0 ==> e[b] > 0)
      && (b >= 0 ==> forall k :: 0 <= k < n && e[k] > 0 ==> c[k] + e[k] <= c[b] + e[b])
      && (b >= 0 ==> forall k :: 0 <= k < b && e[k] > 0 ==> c[k] + e[k] < c[b] + e[b])
  {
    if n > 0 {
      HighestIsFirstHighest(e, c, n - 1);
    }
  }

  /** The sum of the current weights of the candidates among the first `n` servers. */
  function Held(e: seq<int>, c: seq<int>, n: nat): int
    requires |c| == |e| && n <= |e|
  {
    if n == 0 then 0 else Held(e, c, n - 1) + if e[n - 1] > 0 then c[n - 1] else 0
  }

  lemma {:induction false} HeldAfterTurn(e: seq<int>, c: seq<int>, c': seq<int>, p: int, total: int, n: nat)
    requires Fits(e, c) && |c'| == |c| && n <= |e|
    requires 0 <= p < |e| && e[p] > 0
    requires forall i :: 0 <= i < n ==> c'[i] == c[i] + e[i] - if i == p then total else 0
    ensures Held(e, c', n) == Held(e, c, n) + SumOfFirst(e, n) - if p < n then total else 0
  {
    if n > 0 {
      HeldAfterTurn(e, c, c', p, total, n - 1);
    }
  }

  /** Candidates that all lose by gaining their weight hold less than nothing. */
  lemma {:induction false} SomeoneHolds(e: seq<int>, c: seq<int>, n: nat)
    requires Fits(e, c) && n <= |e|
    requires forall i :: 0 <= i < n && e[i] > 0 ==> c[i] + e[i] <= 0
    ensures Held(e, c, n) + SumOfFirst(e, n) <= 0
  {
    if n > 0 {
      SomeoneHolds(e, c, n - 1);
    }
  }

  /** The current weights of the candidates cancel out, and none owes a whole cycle. */
  ghost predicate Balanced(e: seq<int>, c: seq<int>) {
    && Fits(e, c)
    && Total(e) > 0
    && Held(e, c, |e|) == 0
    && forall i :: 0 <= i < |e| && e[i] > 0 ==> c[i] > -Total(e)
  }

  lemma PickGainsSomething(e: seq<int>, c: seq<int>)
    requires Balanced(e, c)
    ensures var p := Pick(e, c); 0 <= p < |e| && e[p] > 0 && c[p] + e[p] > 0
  {
    HighestIsFirstHighest(e, c, |e|);
    var p := Pick(e, c);
    if p < 0 || c[p] + e[p] <= 0 {
      SomeoneHolds(e, c, |e|);
    }
  }

  lemma TurnKeepsBalance(e: seq<int>, c: seq<int>)
    requires Balanced(e, c)
    ensures Balanced(e, Turn(e, c))
  {
    PickGainsSomething(e, c);
    HeldAfterTurn(e, c, Turn(e, c), Pick(e, c), Total(e), |e|);
  }

  lemma {:induction false} PlayKeepsBalance(e: seq<int>, c: seq<int>, n: nat)
    requires Balanced(e, c)
    ensures Balanced(e, Play(e, c, n))
  {
    if n > 0 {
      PlayKeepsBalance(e, c, n - 1);
      TurnKeepsBalance(e, Play(e, c, n - 1));
    }
  }

  // ---- Runs with the same candidates

  /** The product, in a form that grows step by step. */
  function Times(n: nat, x: int): int {
    if n == 0 then 0 else Times(n - 1, x) + x
  }

  lemma {:induction false} TimesIsProduct(n: nat, x: int)
    ensures Times(n, x) == n * x
  {
    if n > 0 {
      TimesIsProduct(n - 1, x);
      assert n * x == (n - 1) * x + x;
    }
  }

  /** The current weight of a server is what it gained less what it paid. */
  lemma {:induction false} Account(e: seq<int>, c: seq<int>, n: nat, s: int)
    requires |c| == |e| && 0 <= s < |e|
    ensures Play(e, c, n)[s] == c[s] + Times(n, e[s]) - Times(Wins(e, c, n, s), Total(e))
  {
    if n > 0 {
      Account(e, c, n - 1, s);
      NextWin(e, c, n, s);
      var before := Play(e, c, n - 1);
      assert Play(e, c, n) == Moved(e, before, Pick(e, before), |e|);
    }
  }

  lemma {:induction false} PlayNext(e: seq<int>, c: seq<int>, n: nat, before: seq<int>)
    requires |c| == |e| && n > 0 && before == Play(e, c, n - 1)
    ensures Play(e, c, n) == Turn(e, before)
  {
  }

  lemma {:induction false} PlayTo(e: seq<int>, c: seq<int>, start: seq<int>, m: nat, n: nat, k: nat)
    requires |c| == |e| && k == m + n && start == Play(e, c, m)
    ensures Play(e, c, k) == Play(e, start, n)
    decreases n
  {
    if n > 0 {
      PlayTo(e, c, start, m, n - 1, k - 1);
      var before := Play(e, c, k - 1);
      PlayNext(e, c, k, before);
      PlayNext(e, start, n, before);
    }
  }

  lemma {:induction false} PlayOn(e: seq<int>, c: seq<int>, m: nat, n: nat)
    requires |c| == |e|
    ensures Play(e, c, m + n) == Play(e, Play(e, c, m), n)
  {
    PlayTo(e, c, Play(e, c, m), m, n, m + n);
  }

  lemma {:induction false} PicksNext(e: seq<int>, c: seq<int>, n: nat, before: seq<int>, done: seq<int>)
    requires |c| == |e| && n > 0 && before == Play(e, c, n - 1) && done == Picks(e, c, n - 1)
    ensures Picks(e, c, n) == done + [Pick(e, before)]
  {
  }

  lemma {:induction false} PicksJoin(
    e: seq<int>, c: seq<int>, k: nat, start: seq<int>, n: nat, before: seq<int>, first: seq<int>, more: seq<int>)
    requires |c| == |e| == |start| && k > 0 && n > 0 && before == Play(e, c, k - 1) == Play(e, start, n - 1)
    requires first + more == Picks(e, c, k - 1) && more == Picks(e, start, n - 1)
    ensures Picks(e, c, k) == first + Picks(e, start, n)
  {
    PicksNext(e, c, k, before, first + more);
    PicksNext(e, start, n, before, more);
    assert first + more + [Pick(e, before)] == first + (more + [Pick(e, before)]);
  }

  lemma {:induction false} PicksNone(e: seq<int>, c: seq<int>, start: seq<int>, m: nat)
    requires |c| == |e| == |start|
    ensures Picks(e, c, m) == Picks(e, c, m) + Picks(e, start, 0)
  {
    assert Picks(e, start, 0) == [];
  }

  lemma {:induction false} PicksOn(e: seq<int>, c: seq<int>, m: nat, n: nat)
    requires |c| == |e|
    ensures Picks(e, c, m + n) == Picks(e, c, m) + Picks(e, Play(e, c, m), n)
    decreases n
  {
    var start := Play(e, c, m);
    if n == 0 {
      PicksNone(e, c, start, m);
    } else {
      var k := n - 1;
      PlayOn(e, c, m, k);
      PicksOn(e, c, m, k);
      PicksJoin(e, c, m + n, start, n, Play(e, c, m + k), Picks(e, c, m), Picks(e, start, k));
    }
  }

  lemma {:induction false} CountAppend(a: seq<int>, b: seq<int>, s: int)
    ensures CountOf(a + b, s) == CountOf(a, s) + CountOf(b, s)
  {
    if b == [] {
      assert a + b == a;
    } else {
      var n := |b| - 1;
      assert (a + b)[..|a + b| - 1] == a + b[..n];
      CountAppend(a, b[..n], s);
    }
  }

  lemma PlayInTwoParts(e: seq<int>, c: seq<int>, m: nat, n: nat, s: int)
    requires |c| == |e|
    ensures Play(e, c, m + n) == Play(e, Play(e, c, m), n)
    ensures Wins(e, c, m + n, s) == Wins(e, c, m, s) + Wins(e, Play(e, c, m), n, s)
  {
    PlayOn(e, c, m, n);
    PicksOn(e, c, m, n);
    CountAppend(Picks(e, c, m), Picks(e, Play(e, c, m), n), s);
  }

  /** Candidates that start with nothing gained and nothing owed. */
  ghost predicate Unplayed(e: seq<int>, c: seq<int>) {
    Fits(e, c) && Total(e) > 0 && forall i :: 0 <= i < |e| && e[i] > 0 ==> c[i] == 0
  }

  lemma {:induction false} NothingHeld(e: seq<int>, c: seq<int>, n: nat)
    requires Fits(e, c) && n <= |e| && forall i :: 0 <= i < n && e[i] > 0 ==> c[i] == 0
    ensures Held(e, c, n) == 0
  {
    if n > 0 {
      NothingHeld(e, c, n - 1);
    }
  }

  lemma UnplayedIsBalanced(e: seq<int>, c: seq<int>)
    requires Unplayed(e, c)
    ensures Balanced(e, c)
  {
    NothingHeld(e, c, |e|);
  }

  /** One candidate holds at most what the others owe. */
  lemma {:induction false} HeldBound(e: seq<int>, c: seq<int>, low: int, s: int, n: nat)
    requires Fits(e, c) && n <= |e| && low <= 0
    requires forall i :: 0 <= i < n && e[i] > 0 ==> c[i] >= low
    ensures Held(e, c, n) >= Times(n, low)
    ensures 0 <= s < n && e[s] > 0 ==> Held(e, c, n) >= c[s] + Times(n - 1, low)
  {
    if n > 0 {
      HeldBound(e, c, low, s, n - 1);
    }
  }

  lemma {:induction false} TimesZero(n: nat)
    ensures Times(n, 0) == 0
  {
    if n > 0 {
      TimesZero(n - 1);
    }
  }

  lemma {:induction false} TimesOneMore(n: nat, x: int)
    ensures Times(n, x + 1) == Times(n, x) + n
  {
    if n > 0 {
      TimesOneMore(n - 1, x);
    }
  }

  lemma {:induction false} TimesCommutes(n: nat, x: nat)
    ensures Times(n, x) == Times(x, n)
  {
    if x == 0 {
      TimesZero(n);
    } else {
      TimesCommutes(n, x - 1);
      TimesOneMore(n, x - 1);
    }
  }

  lemma {:induction false} TimesGrows(a: nat, b: nat, x: nat)
    requires a < b
    ensures Times(b, x) >= Times(a, x) + x
  {
    if a + 1 < b {
      TimesGrows(a, b - 1, x);
    }
  }

  /** A server that gained its weight once per unit of the total holds a multiple of the total. */
  lemma CycleMultiple(weight: nat, total: nat, wins: nat)
    requires total > 0 && Times(total, weight) - Times(wins, total) + total > 0
    ensures Times(total, weight) - Times(wins, total) >= 0
    ensures Times(total, weight) == Times(wins, total) ==> wins == weight
  {
    TimesCommutes(total, weight);
    if wins > weight {
      TimesGrows(weight, wins, total);
    } else if wins < weight {
      TimesGrows(wins, weight, total);
    }
  }

  /** After a cycle no candidate owes anything. */
  lemma AfterACycle(e: seq<int>, c: seq<int>, s: int)
    requires Unplayed(e, c) && 0 <= s < |e| && e[s] > 0
    ensures var c' := Play(e, c, Total(e));
      c'[s] >= 0 && (c'[s] == 0 ==> Wins(e, c, Total(e), s) == e[s])
  {
    var total := Total(e);
    UnplayedIsBalanced(e, c);
    PlayKeepsBalance(e, c, total);
    Account(e, c, total, s);
    CycleMultiple(e[s], total, Wins(e, c, total, s));
  }

  /** A server that takes no part never goes first, so it keeps its current weight. */
  lemma {:induction false} Bystander(e: seq<int>, c: seq<int>, n: nat, s: int)
    requires Balanced(e, c) && 0 <= s < |e| && e[s] == 0
    ensures Play(e, c, n)[s] == c[s] && Wins(e, c, n, s) == 0
  {
    if n > 0 {
      Bystander(e, c, n - 1, s);
      PlayKeepsBalance(e, c, n - 1);
      var before := Play(e, c, n - 1);
      PickGainsSomething(e, before);
      assert Play(e, c, n) == Moved(e, before, Pick(e, before), |e|);
    }
  }

  /** After one cycle every server went first exactly as often as its weight says, and the current
      weights are back where they started. */
  lemma OneCycle(e: seq<int>, c: seq<int>)
    requires Unplayed(e, c)
    ensures Play(e, c, Total(e)) == c
    ensures forall s :: 0 <= s < |e| ==> Wins(e, c, Total(e), s) == e[s]
  {
    var total := Total(e);
    var c' := Play(e, c, total);
    UnplayedIsBalanced(e, c);
    PlayKeepsBalance(e, c, total);
    forall s | 0 <= s < |e| && e[s] > 0 ensures c'[s] >= 0 {
      AfterACycle(e, c, s);
    }
    forall s | 0 <= s < |e| ensures c'[s] == c[s] && Wins(e, c, total, s) == e[s] {
      if e[s] > 0 {
        HeldBound(e, c', 0, s, |e|);
        TimesZero(|e| - 1);
        AfterACycle(e, c, s);
      } else {
        Bystander(e, c, total, s);
      }
    }
  }

  /** Any stretch of one cycle, wherever it starts, is fair, and the game repeats. */
  lemma {:induction false} EveryCycleIsFair(e: seq<int>, c: seq<int>, m: nat, s: int)
    requires Unplayed(e, c) && 0 <= s < |e|
    ensures Wins(e, c, m + Total(e), s) == Wins(e, c, m, s) + e[s]
    ensures Play(e, c, m + Total(e)) == Play(e, c, m)
  {
    OneCycle(e, c);
    var cycle := Total(e);
    CycleThenMore(e, c, cycle, m, s);
    assert cycle + m == m + cycle;
  }

  lemma {:induction false} CycleThenMore(e: seq<int>, c: seq<int>, cycle: nat, m: nat, s: int)
    requires |c| == |e| && Play(e, c, cycle) == c
    ensures Wins(e, c, cycle + m, s) == Wins(e, c, cycle, s) + Wins(e, c, m, s)
    ensures Play(e, c, cycle + m) == Play(e, c, m)
  {
    PlayInTwoParts(e, c, cycle, m, s);
  }

  lemma {:induction false} TimesNegated(n: nat, x: int)
    ensures Times(n, -x) == -Times(n, x)
  {
    if n > 0 {
      TimesNegated(n - 1, x);
    }
  }

  lemma CurrentWeightBounds(e: seq<int>, c: seq<int>, n: nat, s: int)
    requires Unplayed(e, c) && 0 <= s < |e| && e[s] > 0
    ensures -Total(e) < Play(e, c, n)[s] <= Times(|e| - 1, Total(e))
  {
    UnplayedIsBalanced(e, c);
    PlayKeepsBalance(e, c, n);
    HeldBound(e, Play(e, c, n), -Total(e), s, |e|);
    TimesNegated(|e| - 1, Total(e));
  }

  /** At every moment a candidate is less than one turn ahead of its share, and behind it by fewer
      turns than the group has servers. */
  lemma NeverFarFromItsShare(e: seq<int>, c: seq<int>, n: nat, s: int)
    requires Unplayed(e, c) && 0 <= s < |e| && e[s] > 0
    ensures Times(Wins(e, c, n, s), Total(e)) < Times(n, e[s]) + Total(e)
    ensures Times(Wins(e, c, n, s), Total(e)) >= Times(n, e[s]) - Times(|e| - 1, Total(e))
  {
    CurrentWeightBounds(e, c, n, s);
    Account(e, c, n, s);
  }
}
