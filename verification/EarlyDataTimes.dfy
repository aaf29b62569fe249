/** When the anti-replay buffer is the plain history: the times of the calls are read before the lock is
    taken, so they need not come in order. `AgreesIffOrderly` is the exact condition on the times. */
module EarlyDataTimes {
  import opened Basics
  import opened Net
  import opened EarlyData

  /** Every answer in the run is the one of the plain history. */
  ghost predicate Agree(c: Config, run: seq<Event>) {
    forall i :: 0 <= i < |run| ==> Accepted(c, run, i) == HistoryAccepts(c, run, i)
  }

  /** No run with these times, whatever its keys, clears and limit, shows a difference. */
  ghost predicate AlwaysAgree(window: nat, ts: seq<nat>) {
    forall maxEntries: nat, run: seq<Event> :: Times(run) == ts ==> Agree(Config(window, maxEntries), run)
  }

  // ---- A run that shows the difference

  function KeyA(): ReplayKey { ReplayKey(V4(1), [], []) }

  function KeyB(): ReplayKey { ReplayKey(V4(2), [], []) }

  /** One key at the calls `l` and `j`, another at all others. */
  function Confusing(ts: seq<nat>, l: nat, j: nat, n: nat): (run: seq<Event>)
    requires n <= |ts|
    ensures |run| == n
    ensures forall x :: 0 <= x < n ==> run[x] == Request(if x == l || x == j then KeyA() else KeyB(), ts[x])
  {
    if n == 0 then []
    else
      var x := n - 1;
      Confusing(ts, l, j, x) + [Request(if x == l || x == j then KeyA() else KeyB(), ts[x])]
  }

  /** The map before call `n`, which comes no later than `j`. */
  ghost predicate MapBefore(m: Entries, ts: seq<nat>, l: nat, i: nat, n: nat) {
    && m.Keys <= {KeyA(), KeyB()}
    && (n >= 2 || (n == 1 && l > 0) ==> KeyB() in m)
    && (KeyA() in m ==> l < n <= i && l < |ts| && m[KeyA()] == ts[l])
  }

  lemma TwoKeys(m: Entries)
    requires m.Keys <= {KeyA(), KeyB()}
    ensures |m| <= 2
    ensures KeyA() !in m ==> |m| <= 1
    ensures KeyA() in m && KeyB() in m ==> |m| == 2
  {
    assert |m| == |m.Keys|;
    SubsetSize(m.Keys, {KeyA(), KeyB()});
    if KeyA() !in m {
      SubsetSize(m.Keys, {KeyB()});
    } else if KeyB() in m {
      assert m.Keys == {KeyA(), KeyB()};
    }
  }

  lemma CallOfB(c: Config, m: Entries, ts: seq<nat>, l: nat, i: nat, n: nat)
    requires c.maxEntries == 3 && MapBefore(m, ts, l, i, n) && l < i && 2 <= i && n != l && n < |ts| && i < |ts|
    requires c.window > 0 && ts[l] + c.window <= ts[i]
    ensures MapBefore(Checked(c, m, KeyB(), ts[n]).0, ts, l, i, n + 1)
  {
    TwoKeys(m);
    var kept := Evicted(c, m, ts[n]);
    SubsetSize(kept.Keys, m.Keys);
    if n == i && KeyA() in m {
      assert |m| == 2;
    }
  }

  lemma CallOfA(c: Config, m: Entries, ts: seq<nat>, l: nat, i: nat)
    requires c.maxEntries == 3 && MapBefore(m, ts, l, i, l) && l < i && l < |ts|
    ensures MapBefore(Checked(c, m, KeyA(), ts[l]).0, ts, l, i, l + 1)
  {
    TwoKeys(m);
    assert Evicted(c, m, ts[l]) == m;
  }

  lemma {:induction false} MapsBefore(c: Config, run: seq<Event>, ts: seq<nat>, l: nat, i: nat, j: nat, n: nat)
    requires c.maxEntries == 3 && c.window > 0 && l < i < j < |ts| && 2 <= i && n <= j
    requires ts[l] + c.window <= ts[i] && run == Confusing(ts, l, j, |ts|)
    ensures MapBefore(After(c, run[..n]), ts, l, i, n)
  {
    if n == 0 {
      assert run[..0] == [];
    } else {
      var x := n - 1;
      MapsBefore(c, run, ts, l, i, j, x);
      Step(c, run, x);
      if x == l {
        CallOfA(c, After(c, run[..x]), ts, l, i);
      } else {
        CallOfB(c, After(c, run[..x]), ts, l, i, x);
      }
    }
  }

  /** The buffer has pruned the key of call `l` before call `j`, and lets it pass. */
  lemma BufferForgets(c: Config, run: seq<Event>, ts: seq<nat>, l: nat, i: nat, j: nat)
    requires c.maxEntries == 3 && c.window > 0 && l < i < j < |ts| && 2 <= i
    requires ts[l] + c.window <= ts[i] && run == Confusing(ts, l, j, |ts|)
    ensures Accepted(c, run, j)
  {
    MapsBefore(c, run, ts, l, i, j, j);
    var kept := Evicted(c, After(c, run[..j]), ts[j]);
    assert KeyA() !in kept;
  }

  /** What the history holds before call `n`: only these keys, and the key of call `l` only from there. */
  ghost predicate HistoryBefore(h: History, ts: seq<nat>, l: nat, n: nat) {
    && (forall x :: 0 <= x < |h| ==> h[x].key == KeyB() || (h[x].key == KeyA() && l < n))
    && (l < n && l < |ts| ==> Acceptance(KeyA(), ts[l]) in h)
  }

  lemma NeverFull(c: Config, h: History, ts: seq<nat>, l: nat, n: nat, now: nat)
    requires c.maxEntries == 3 && HistoryBefore(h, ts, l, n)
    ensures !Full(c, h, now)
  {
    SubsetSize(Recent(c, h, now), {KeyA(), KeyB()});
  }

  lemma HistoryCall(c: Config, h: History, ts: seq<nat>, l: nat, j: nat, n: nat)
    requires c.maxEntries == 3 && HistoryBefore(h, ts, l, n) && l < j && n < j && n < |ts|
    ensures HistoryBefore(Recorded(c, h, if n == l then KeyA() else KeyB(), ts[n]).0, ts, l, n + 1)
  {
    NeverFull(c, h, ts, l, n, ts[n]);
    var key := if n == l then KeyA() else KeyB();
    var h' := Recorded(c, h, key, ts[n]).0;
    if n == l {
      assert key !in Recent(c, h, ts[n]);
      assert h'[|h|] == Acceptance(KeyA(), ts[l]);
    } else if l < n {
      var x :| 0 <= x < |h| && h[x] == Acceptance(KeyA(), ts[l]);
      assert h'[x] == h[x];
    }
  }

  lemma {:induction false} HistoriesBefore(c: Config, run: seq<Event>, ts: seq<nat>, l: nat, j: nat, n: nat)
    requires c.maxEntries == 3 && l < j < |ts| && n <= j && run == Confusing(ts, l, j, |ts|)
    ensures HistoryBefore(HistoryAfter(c, run[..n]), ts, l, n)
  {
    if n == 0 {
      assert run[..0] == [];
    } else {
      HistoriesBefore(c, run, ts, l, j, n - 1);
      HistoryStep(c, run, n - 1);
      HistoryCall(c, HistoryAfter(c, run[..n - 1]), ts, l, j, n - 1);
    }
  }

  /** The history still holds it, and rejects it. */
  lemma HistoryRemembers(c: Config, run: seq<Event>, ts: seq<nat>, l: nat, j: nat)
    requires c.maxEntries == 3 && c.window > 0 && l < j < |ts| && ts[j] < ts[l] + c.window
             && run == Confusing(ts, l, j, |ts|)
    ensures !HistoryAccepts(c, run, j)
  {
    HistoriesBefore(c, run, ts, l, j, j);
    var h := HistoryAfter(c, run[..j]);
    NeverFull(c, h, ts, l, j, ts[j]);
    RejectsTheRemembered(c, h, KeyA(), ts[l], ts[j]);
  }

  lemma SameTimes(run: seq<Event>, ts: seq<nat>)
    requires |run| == |ts| && forall x :: 0 <= x < |ts| ==> run[x].now == ts[x]
    ensures Times(run) == ts
  {
  }

  /** Every list of times that is not orderly has a run in which a replay passes. */
  lemma DisorderShows(window: nat, ts: seq<nat>, l: nat, i: nat, j: nat)
    requires window > 0 && l < i < j < |ts| && 2 <= i && ts[l] + window <= ts[i] && ts[j] < ts[l] + window
    ensures var run := Confusing(ts, l, j, |ts|);
      Times(run) == ts && Accepted(Config(window, 3), run, j) && !HistoryAccepts(Config(window, 3), run, j)
  {
    var run := Confusing(ts, l, j, |ts|);
    SameTimes(run, ts);
    BufferForgets(Config(window, 3), run, ts, l, i, j);
    HistoryRemembers(Config(window, 3), run, ts, l, j);
  }

  /** The exact condition on the times: the buffer is the plain history in every run with these times if
      and only if the window is empty or the times are orderly. */
  lemma {:induction false} AgreesIffOrderly(window: nat, ts: seq<nat>)
    ensures AlwaysAgree(window, ts) <==> window == 0 || Orderly(window, ts)
  {
    if window == 0 || Orderly(window, ts) {
      forall maxEntries: nat, run: seq<Event> | Times(run) == ts ensures Agree(Config(window, maxEntries), run) {
        OrderlyAgrees(Config(window, maxEntries), run);
      }
    } else {
      var l: nat, i: nat :| 2 <= i && !Settled(window, ts, l, i);
      var j :| i + 1 <= j < |ts| && !(ts[l] + window <= ts[j]);
      DisorderShows(window, ts, l, i, j);
      assert !Agree(Config(window, 3), Confusing(ts, l, j, |ts|));
    }
  }

  lemma {:induction false} OrderlyAgrees(c: Config, run: seq<Event>)
    requires c.window == 0 || Orderly(c.window, Times(run))
    ensures Agree(c, run)
  {
    forall i | 0 <= i < |run| ensures Accepted(c, run, i) == HistoryAccepts(c, run, i) {
      if c.window == 0 {
        if run[i].Request? {
          NoRoomMatches(c, After(c, run[..i]), HistoryAfter(c, run[..i]), run[i].key, run[i].now);
        }
      } else {
        BufferRefinesHistory(c, run, i);
      }
    }
  }
}
