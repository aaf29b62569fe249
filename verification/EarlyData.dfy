/** The 0-RTT anti-replay buffer: a bounded map from request keys to the time they were last
    accepted, pruned lazily and emptied when it is full.

    The reference model is `History`, the plain list of accepted requests since the last reset. It
    has no map, no pruning and no half-full test. `BufferRefinesHistory` shows that no run with orderly
    times can tell the two apart; `EarlyDataTimes` shows that other times can. */
module EarlyData {
  import opened Basics
  import opened Text
  import opened Net

  datatype ReplayKey = ReplayKey(clientIp: IpAddr, method_: string, pathAndQuery: string)

  /** The key folds the case of the method and of nothing else. */
  function KeyOf(clientIp: IpAddr, httpMethod: string, pathAndQuery: string): ReplayKey {
    ReplayKey(clientIp, ToUpper(httpMethod), pathAndQuery)
  }

  datatype Config = Config(window: nat, maxEntries: nat)

  type Entries = map<ReplayKey, nat>

  /** `Instant::duration_since` is zero for a later instant. */
  function Elapsed(now: nat, seenAt: nat): nat {
    if seenAt <= now then now - seenAt else 0
  }

  // ---- One call on the map

  function Retained(c: Config, m: Entries, now: nat): (r: Entries)
    ensures r.Keys <= m.Keys
  {
    map k | k in m && Elapsed(now, m[k]) < c.window :: m[k]
  }

  function Evicted(c: Config, m: Entries, now: nat): Entries {
    var kept := if |m| > c.maxEntries / 2 then Retained(c, m, now) else m;
    if |kept| >= c.maxEntries then map[] else kept
  }

  predicate IsReplay(c: Config, m: Entries, key: ReplayKey, now: nat) {
    key in m && Elapsed(now, m[key]) < c.window
  }

  function Checked(c: Config, m: Entries, key: ReplayKey, now: nat): (Entries, bool) {
    var kept := Evicted(c, m, now);
    if IsReplay(c, kept, key, now) then (kept, false) else (kept[key := now], true)
  }

  class AntiReplayBuffer {
    const config: Config
    var entries: Entries

    constructor (window: nat, maxEntries: nat)
      ensures config == Config(window, maxEntries) && entries == map[]
    {
      config := Config(window, maxEntries);
      entries := map[];
    }

    method CheckAndRecord(clientIp: IpAddr, httpMethod: string, pathAndQuery: string, now: nat) returns (accepted: bool)
      modifies this`entries
      ensures (entries, accepted) == Checked(config, old(entries), KeyOf(clientIp, httpMethod, pathAndQuery), now)
      ensures accepted ==> KeyOf(clientIp, httpMethod, pathAndQuery) in entries
      ensures |entries| <= Capacity(config)
    {
      var key := KeyOf(clientIp, httpMethod, pathAndQuery);
      CheckKeepsCapacity(config, entries, key, now);
      EvictExpiredOrOverflow(now);
      if IsReplay(config, entries, key, now) {
        return false;
      }
      entries := entries[key := now];
      return true;
    }

    method EvictExpiredOrOverflow(now: nat)
      modifies this`entries
      ensures entries == Evicted(config, old(entries), now)
      ensures |entries| < config.maxEntries || entries == map[]
      ensures forall k :: k in entries ==> k in old(entries) && entries[k] == old(entries)[k]
    {
      if |entries| > config.maxEntries / 2 {
        entries := Retained(config, entries, now);
      }
      if |entries| >= config.maxEntries {
        entries := map[];
      }
    }

    method Clear()
      modifies this`entries
      ensures entries == map[]
      ensures forall key, now: nat :: Checked(config, entries, key, now) == (map[key := now], true)
    {
      entries := map[];
    }
  }

  // ---- Runs

  /** One locked call, with the time the caller read before it. */
  datatype Event = Request(key: ReplayKey, now: nat) | Clear(now: nat)

  function After(c: Config, run: seq<Event>): Entries {
    if run == [] then map[]
    else
      var before := After(c, run[..|run| - 1]);
      match run[|run| - 1]
      case Request(key, now) => Checked(c, before, key, now).0
      case Clear(_) => map[]
  }

  /** The call at `i` was a request and the buffer let it through. */
  predicate Accepted(c: Config, run: seq<Event>, i: nat)
    requires i < |run|
  {
    run[i].Request? && Checked(c, After(c, run[..i]), run[i].key, run[i].now).1
  }

  /** The times of the calls in the order of the lock. */
  function Times(run: seq<Event>): (ts: seq<nat>)
    ensures |ts| == |run| && forall i :: 0 <= i < |run| ==> ts[i] == run[i].now
  {
    if run == [] then [] else Times(run[..|run| - 1]) + [run[|run| - 1].now]
  }

  /** From call `n` on no time is within the window of `at`. */
  ghost predicate Over(window: nat, at: nat, ts: seq<nat>, n: nat) {
    forall j :: n <= j < |ts| ==> at + window <= ts[j]
  }

  /** When call `i` finds the time of call `l` expired, so does every later call. */
  ghost predicate Settled(window: nat, ts: seq<nat>, l: nat, i: nat) {
    l < i < |ts| && ts[l] + window <= ts[i] ==> Over(window, ts[l], ts, i + 1)
  }

  /** What a call finds expired is expired for every later call. The first two calls are exempt: the map
      cannot hold two entries before them. */
  ghost predicate Orderly(window: nat, ts: seq<nat>) {
    forall l: nat, i: nat :: 2 <= i ==> Settled(window, ts, l, i)
  }

  lemma NonDecreasingIsOrderly(window: nat, ts: seq<nat>)
    requires forall i, j :: 0 <= i <= j < |ts| ==> ts[i] <= ts[j]
    ensures Orderly(window, ts)
  {
    forall l: nat, i: nat | 2 <= i ensures Settled(window, ts, l, i) {
      if l < i < |ts| && ts[l] + window <= ts[i] {
        assert forall j :: i <= j < |ts| ==> ts[i] <= ts[j];
      }
    }
  }

  // ---- The size of the map

  function Capacity(c: Config): nat {
    if c.maxEntries == 0 then 1 else c.maxEntries
  }

  lemma CheckKeepsCapacity(c: Config, m: Entries, key: ReplayKey, now: nat)
    ensures |Checked(c, m, key, now).0| <= Capacity(c)
  {
    var kept := Evicted(c, m, now);
    assert |kept| < Capacity(c);
    assert kept[key := now].Keys == kept.Keys + {key};
  }

  /** The map never outgrows its limit, whatever the times of the calls are. */
  lemma {:induction false} NeverOutgrows(c: Config, run: seq<Event>)
    ensures |After(c, run)| <= Capacity(c)
  {
    if run != [] {
      var before := run[..|run| - 1];
      NeverOutgrows(c, before);
      if run[|run| - 1].Request? {
        CheckKeepsCapacity(c, After(c, before), run[|run| - 1].key, run[|run| - 1].now);
      }
    }
  }

  // ---- The plain history

  datatype Acceptance = Acceptance(key: ReplayKey, at: nat)

  type History = seq<Acceptance>

  /** The keys accepted less than a window ago. */
  function Recent(c: Config, h: History, now: nat): (ks: set<ReplayKey>)
    ensures forall k :: k in ks <==> exists i :: 0 <= i < |h| && h[i].key == k && Elapsed(now, h[i].at) < c.window
  {
    set i | 0 <= i < |h| && Elapsed(now, h[i].at) < c.window :: h[i].key
  }

  /** A full history is forgotten. */
  predicate Full(c: Config, h: History, now: nat) {
    |Recent(c, h, now)| >= c.maxEntries
  }

  function Remembered(c: Config, h: History, now: nat): History {
    if Full(c, h, now) then [] else h
  }

  function Recorded(c: Config, h: History, key: ReplayKey, now: nat): (History, bool) {
    var kept := Remembered(c, h, now);
    if key in Recent(c, kept, now) then (kept, false) else (kept + [Acceptance(key, now)], true)
  }

  function HistoryAfter(c: Config, run: seq<Event>): History {
    if run == [] then []
    else
      var before := HistoryAfter(c, run[..|run| - 1]);
      match run[|run| - 1]
      case Request(key, now) => Recorded(c, before, key, now).0
      case Clear(_) => []
  }

  predicate HistoryAccepts(c: Config, run: seq<Event>, i: nat)
    requires i < |run|
  {
    run[i].Request? && Recorded(c, HistoryAfter(c, run[..i]), run[i].key, run[i].now).1
  }

  // ---- The refinement

  ghost predicate IsCallTime(at: nat, ts: seq<nat>, n: nat) {
    exists l :: 0 <= l < n && l < |ts| && ts[l] == at
  }

  /** Before call `n` the map holds the last acceptance of each key it has, and every key that a call to
      come can still find recent. */
  ghost predicate Represents(c: Config, m: Entries, h: History, ts: seq<nat>, n: nat) {
    && (forall k :: k in m ==> Acceptance(k, m[k]) in h)
    && (forall i :: 0 <= i < |h| && h[i].key in m ==> h[i].at <= m[h[i].key])
    && (forall i :: 0 <= i < |h| && h[i].key !in m ==> Over(c.window, h[i].at, ts, n))
    && (forall i :: 0 <= i < |h| ==> IsCallTime(h[i].at, ts, n))
  }

  lemma RecentIsRetained(c: Config, m: Entries, h: History, ts: seq<nat>, n: nat)
    requires n < |ts| && Represents(c, m, h, ts, n)
    ensures Recent(c, h, ts[n]) == Retained(c, m, ts[n]).Keys
  {
    var now := ts[n];
    var kept := Retained(c, m, now);
    forall i | 0 <= i < |h| && h[i].key !in m ensures h[i].at + c.window <= now {
      assert Over(c.window, h[i].at, ts, n);
    }
    forall k | k in Recent(c, h, now) ensures k in kept {
      var i :| 0 <= i < |h| && h[i].key == k && Elapsed(now, h[i].at) < c.window;
    }
    forall k | k in kept ensures k in Recent(c, h, now) {
      var i :| 0 <= i < |h| && h[i] == Acceptance(k, m[k]);
      assert h[i].key == k && Elapsed(now, h[i].at) < c.window;
    }
  }

  lemma SameSize(c: Config, m: Entries, h: History, ts: seq<nat>, n: nat)
    requires n < |ts| && Represents(c, m, h, ts, n)
    ensures |Recent(c, h, ts[n])| == |Retained(c, m, ts[n])| <= |m|
  {
    RecentIsRetained(c, m, h, ts, n);
    var kept := Retained(c, m, ts[n]);
    assert |kept.Keys| == |kept| && |m.Keys| == |m|;
    SubsetSize(kept.Keys, m.Keys);
  }

  lemma SubsetSize<T>(a: set<T>, b: set<T>)
    requires a <= b
    ensures |a| <= |b|
  {
    assert b == a + (b - a);
  }

  /** Pruning at orderly times loses nothing that a later call could find. */
  lemma PruningIsInvisible(c: Config, m: Entries, h: History, ts: seq<nat>, n: nat)
    requires Orderly(c.window, ts) && 2 <= n < |ts| && c.window > 0 && Represents(c, m, h, ts, n)
    ensures Represents(c, Retained(c, m, ts[n]), h, ts, n + 1)
  {
    var kept := Retained(c, m, ts[n]);
    forall i | 0 <= i < |h| && h[i].key !in kept ensures Over(c.window, h[i].at, ts, n + 1) {
      if h[i].key in m {
        var l :| 0 <= l < n && ts[l] == h[i].at;
        assert Settled(c.window, ts, l, n);
      } else {
        assert Over(c.window, h[i].at, ts, n);
      }
    }
    OlderCalls(h, ts, n);
  }

  lemma OlderCalls(h: History, ts: seq<nat>, n: nat)
    requires n < |ts| && forall i :: 0 <= i < |h| ==> IsCallTime(h[i].at, ts, n)
    ensures forall i :: 0 <= i < |h| ==> IsCallTime(h[i].at, ts, n + 1)
  {
    forall i | 0 <= i < |h| ensures IsCallTime(h[i].at, ts, n + 1) {
      var l :| 0 <= l < n && l < |ts| && ts[l] == h[i].at;
    }
  }

  lemma TimePasses(c: Config, m: Entries, h: History, ts: seq<nat>, n: nat)
    requires n < |ts| && Represents(c, m, h, ts, n)
    ensures Represents(c, m, h, ts, n + 1)
  {
    forall i | 0 <= i < |h| && h[i].key !in m ensures Over(c.window, h[i].at, ts, n + 1) {
      assert Over(c.window, h[i].at, ts, n);
    }
    OlderCalls(h, ts, n);
  }

  /** The lazy half-full test decides the same resets as a history that is never pruned. */
  lemma EvictionMatches(c: Config, m: Entries, h: History, ts: seq<nat>, n: nat)
    requires Orderly(c.window, ts) && n < |ts| && |m| <= n && c.maxEntries >= 2 && c.window > 0
    requires Represents(c, m, h, ts, n)
    ensures var m', h' := Evicted(c, m, ts[n]), Remembered(c, h, ts[n]);
      && Represents(c, m', h', ts, n + 1)
      && (forall key :: IsReplay(c, m', key, ts[n]) <==> key in Recent(c, h', ts[n]))
    ensures Full(c, h, ts[n]) ==> Evicted(c, m, ts[n]) == map[]
  {
    SameSize(c, m, h, ts, n);
    RecentIsRetained(c, m, h, ts, n);
    if |m| > c.maxEntries / 2 {
      PruningIsInvisible(c, m, h, ts, n);
    } else {
      TimePasses(c, m, h, ts, n);
    }
  }

  lemma RecordMatches(c: Config, m: Entries, h: History, ts: seq<nat>, n: nat, key: ReplayKey)
    requires n < |ts| && c.window > 0 && Represents(c, m, h, ts, n + 1) && key !in Recent(c, h, ts[n])
    ensures Represents(c, m[key := ts[n]], h + [Acceptance(key, ts[n])], ts, n + 1)
  {
    var m', h' := m[key := ts[n]], h + [Acceptance(key, ts[n])];
    assert h'[|h|] == Acceptance(key, ts[n]) && IsCallTime(ts[n], ts, n + 1);
    forall k | k in m' ensures Acceptance(k, m'[k]) in h' {
      assert k != key ==> Acceptance(k, m[k]) in h;
    }
    forall i | 0 <= i < |h'| && h'[i].key in m' ensures h'[i].at <= m'[h'[i].key] {
      if i < |h| && h[i].key == key {
        assert !(Elapsed(ts[n], h[i].at) < c.window);
      }
    }
  }

  lemma CallMatches(c: Config, m: Entries, h: History, ts: seq<nat>, n: nat, key: ReplayKey)
    requires Orderly(c.window, ts) && n < |ts| && |m| <= n && c.maxEntries >= 2 && c.window > 0
    requires Represents(c, m, h, ts, n)
    ensures Checked(c, m, key, ts[n]).1 == Recorded(c, h, key, ts[n]).1
    ensures Represents(c, Checked(c, m, key, ts[n]).0, Recorded(c, h, key, ts[n]).0, ts, n + 1)
  {
    EvictionMatches(c, m, h, ts, n);
    var m', h' := Evicted(c, m, ts[n]), Remembered(c, h, ts[n]);
    assert IsReplay(c, m', key, ts[n]) <==> key in Recent(c, h', ts[n]);
    if key !in Recent(c, h', ts[n]) {
      RecordMatches(c, m', h', ts, n, key);
    }
  }

  lemma Step(c: Config, run: seq<Event>, m: nat)
    requires m < |run|
    ensures After(c, run[..m + 1]) ==
            if run[m].Clear? then map[] else Checked(c, After(c, run[..m]), run[m].key, run[m].now).0
  {
    assert run[..m + 1][..m] == run[..m];
  }

  lemma HistoryStep(c: Config, run: seq<Event>, m: nat)
    requires m < |run|
    ensures HistoryAfter(c, run[..m + 1]) ==
            if run[m].Clear? then [] else Recorded(c, HistoryAfter(c, run[..m]), run[m].key, run[m].now).0
  {
    assert run[..m + 1][..m] == run[..m];
  }

  lemma OneMoreEntry(c: Config, m: Entries, key: ReplayKey, now: nat)
    ensures |Checked(c, m, key, now).0| <= |m| + 1
  {
    var kept := Evicted(c, m, now);
    SubsetSize(kept.Keys, m.Keys);
    assert |kept.Keys| == |kept| && |m.Keys| == |m|;
    assert kept[key := now].Keys == kept.Keys + {key};
  }

  lemma {:induction false} AtMostOneEntryPerCall(c: Config, run: seq<Event>, n: nat)
    requires n <= |run|
    ensures |After(c, run[..n])| <= n
  {
    if n == 0 {
      assert run[..0] == [];
    } else {
      AtMostOneEntryPerCall(c, run, n - 1);
      Step(c, run, n - 1);
      if run[n - 1].Request? {
        OneMoreEntry(c, After(c, run[..n - 1]), run[n - 1].key, run[n - 1].now);
      }
    }
  }

  lemma {:induction false} StatesMatch(c: Config, run: seq<Event>, n: nat)
    requires Orderly(c.window, Times(run)) && n <= |run| && c.maxEntries >= 2 && c.window > 0
    ensures Represents(c, After(c, run[..n]), HistoryAfter(c, run[..n]), Times(run), n)
  {
    if n == 0 {
      assert run[..0] == [];
    } else {
      var i := n - 1;
      StatesMatch(c, run, i);
      Step(c, run, i);
      HistoryStep(c, run, i);
      AtMostOneEntryPerCall(c, run, i);
      if run[i].Request? {
        CallMatches(c, After(c, run[..i]), HistoryAfter(c, run[..i]), Times(run), i, run[i].key);
      }
    }
  }

  /** With room for one entry or none, or without a window, both accept every request. */
  lemma NoRoomMatches(c: Config, m: Entries, h: History, key: ReplayKey, now: nat)
    requires c.maxEntries <= 1 || c.window == 0
    ensures Checked(c, m, key, now).1 && Recorded(c, h, key, now).1
  {
    if c.maxEntries <= 1 {
      assert Evicted(c, m, now) == map[];
      var h' := Remembered(c, h, now);
      assert Recent(c, h', now) == {};
    }
  }

  /** In every run with orderly times the buffer gives the answers of the plain history: it rejects
      exactly the requests accepted less than a window ago since the last reset. */
  lemma {:induction false} BufferRefinesHistory(c: Config, run: seq<Event>, i: nat)
    requires Orderly(c.window, Times(run)) && i < |run|
    ensures Accepted(c, run, i) == HistoryAccepts(c, run, i)
  {
    if run[i].Request? {
      SameAnswer(c, run, i);
    }
  }

  lemma SameAnswer(c: Config, run: seq<Event>, i: nat)
    requires Orderly(c.window, Times(run)) && i < |run| && run[i].Request?
    ensures Checked(c, After(c, run[..i]), run[i].key, run[i].now).1
         == Recorded(c, HistoryAfter(c, run[..i]), run[i].key, run[i].now).1
  {
    var m, h := After(c, run[..i]), HistoryAfter(c, run[..i]);
    if c.maxEntries <= 1 || c.window == 0 {
      NoRoomMatches(c, m, h, run[i].key, run[i].now);
    } else {
      StatesMatch(c, run, i);
      AtMostOneEntryPerCall(c, run, i);
      CallMatches(c, m, h, Times(run), i, run[i].key);
    }
  }

  // ---- What a caller can rely on

  /** The keys of the requests accepted before call `m` and less than a window before it. */
  function AcceptedRecently(c: Config, run: seq<Event>, m: nat): set<ReplayKey>
    requires m < |run|
  {
    set l | 0 <= l < m && Accepted(c, run, l) && Elapsed(run[m].now, run[l].now) < c.window :: run[l].key
  }

  /** Every entry was there before, at the same place, or is the accepted request. */
  ghost predicate Extends(before: History, after: History, ok: bool, a: Acceptance) {
    forall e :: 0 <= e < |after| ==> (e < |before| && after[e] == before[e]) || (ok && after[e] == a)
  }

  lemma {:induction false} SourceOf(hs: seq<History>, oks: seq<bool>, calls: seq<Acceptance>, n: nat, e: nat)
      returns (l: nat)
    requires n < |hs| && n <= |oks| && n <= |calls| && hs[0] == [] && e < |hs[n]|
    requires forall m :: 0 <= m < n ==> Extends(hs[m], hs[m + 1], oks[m], calls[m])
    ensures l < n && oks[l] && calls[l] == hs[n][e]
  {
    var m := n - 1;
    assert Extends(hs[m], hs[m + 1], oks[m], calls[m]);
    var x := hs[n][e];
    if e < |hs[m]| && hs[m][e] == x {
      l := SourceOf(hs, oks, calls, n - 1, e);
    } else {
      l := n - 1;
    }
  }

  ghost function Histories(c: Config, run: seq<Event>, n: nat): (hs: seq<History>)
    requires n <= |run|
    ensures |hs| == n + 1 && forall m :: 0 <= m <= n ==> hs[m] == HistoryAfter(c, run[..m])
  {
    if n == 0 then [HistoryAfter(c, run[..0])]
    else
      var before, last := Histories(c, run, n - 1), HistoryAfter(c, run[..n]);
      before + [last]
  }

  ghost function Answers(c: Config, run: seq<Event>, n: nat): (oks: seq<bool>)
    requires n <= |run|
    ensures |oks| == n && forall m :: 0 <= m < n ==> oks[m] == Accepted(c, run, m)
  {
    if n == 0 then []
    else
      var before, last := Answers(c, run, n - 1), Accepted(c, run, n - 1);
      before + [last]
  }

  function CallAt(e: Event): Acceptance {
    match e
    case Request(key, now) => Acceptance(key, now)
    case Clear(now) => Acceptance(ReplayKey(V4(0), [], []), now)
  }

  function Calls(run: seq<Event>, n: nat): (calls: seq<Acceptance>)
    requires n <= |run|
    ensures |calls| == n && forall m :: 0 <= m < n ==> calls[m] == CallAt(run[m])
  {
    if n == 0 then [] else Calls(run, n - 1) + [CallAt(run[n - 1])]
  }

  /** Every entry of the history is an accepted request. */
  lemma HistoryIsAccepted(c: Config, run: seq<Event>, n: nat, e: nat) returns (l: nat)
    requires Orderly(c.window, Times(run)) && n <= |run|
    requires e < |HistoryAfter(c, run[..n])|
    ensures l < n && Accepted(c, run, l) && Acceptance(run[l].key, run[l].now) == HistoryAfter(c, run[..n])[e]
  {
    var hs, oks, calls := Histories(c, run, n), Answers(c, run, n), Calls(run, n);
    forall m | 0 <= m < n ensures Extends(hs[m], hs[m + 1], oks[m], calls[m]) {
      LastCall(c, run, m);
    }
    l := SourceOf(hs, oks, calls, n, e);
  }

  lemma LastCall(c: Config, run: seq<Event>, m: nat)
    requires Orderly(c.window, Times(run)) && m < |run|
    ensures Extends(HistoryAfter(c, run[..m]), HistoryAfter(c, run[..m + 1]), Accepted(c, run, m), CallAt(run[m]))
  {
    HistoryStep(c, run, m);
    BufferRefinesHistory(c, run, m);
    if run[m].Request? {
      forall e | 0 <= e < |HistoryAfter(c, run[..m + 1])| {
        RecordedAt(c, HistoryAfter(c, run[..m]), run[m].key, run[m].now, e);
      }
    }
  }

  /** An entry after a call was there before, at the same place, or is the accepted request. */
  lemma RecordedAt(c: Config, h: History, key: ReplayKey, now: nat, e: nat)
    requires e < |Recorded(c, h, key, now).0|
    ensures var r := Recorded(c, h, key, now);
      (e < |h| && r.0[e] == h[e]) || (r.1 && r.0[e] == Acceptance(key, now))
  {
  }

  ghost predicate ResetAt(c: Config, run: seq<Event>, m: nat)
    requires m < |run|
  {
    run[m].Clear? || Full(c, HistoryAfter(c, run[..m]), run[m].now)
  }

  lemma KeptUnlessReset(c: Config, run: seq<Event>, m: nat, a: Acceptance)
    requires m < |run| && !ResetAt(c, run, m) && a in HistoryAfter(c, run[..m])
    ensures a in HistoryAfter(c, run[..m + 1])
  {
    HistoryStep(c, run, m);
  }

  lemma RecordedWhenAccepted(c: Config, run: seq<Event>, i: nat)
    requires Orderly(c.window, Times(run)) && i < |run| && Accepted(c, run, i)
    ensures Acceptance(run[i].key, run[i].now) in HistoryAfter(c, run[..i + 1])
  {
    HistoryStep(c, run, i);
    BufferRefinesHistory(c, run, i);
    var h := HistoryAfter(c, run[..i + 1]);
    assert h[|h| - 1] == Acceptance(run[i].key, run[i].now);
  }

  ghost predicate Quiet(c: Config, run: seq<Event>, m: nat) {
    m < |run| && !ResetAt(c, run, m)
  }

  lemma {:induction false} Survives(c: Config, run: seq<Event>, i: nat, j: nat, a: Acceptance)
    requires i <= j <= |run|
    requires a in HistoryAfter(c, run[..i])
    requires forall m :: i <= m < j ==> Quiet(c, run, m)
    ensures a in HistoryAfter(c, run[..j])
    decreases j - i
  {
    if i < j {
      assert Quiet(c, run, i);
      KeptUnlessReset(c, run, i, a);
      Survives(c, run, i + 1, j, a);
    }
  }

  /** A full history shows `maxEntries` different keys that were accepted within the window. */
  lemma FullIsObservable(c: Config, run: seq<Event>, m: nat)
    requires Orderly(c.window, Times(run)) && m < |run|
    requires Full(c, HistoryAfter(c, run[..m]), run[m].now)
    ensures |AcceptedRecently(c, run, m)| >= c.maxEntries
  {
    var h := HistoryAfter(c, run[..m]);
    var ks := Recent(c, h, run[m].now);
    forall k | k in ks ensures k in AcceptedRecently(c, run, m) {
      var e :| 0 <= e < |h| && h[e].key == k && Elapsed(run[m].now, h[e].at) < c.window;
      var l := HistoryIsAccepted(c, run, m, e);
    }
    SubsetSize(ks, AcceptedRecently(c, run, m));
  }

  lemma RejectsTheRemembered(c: Config, h: History, key: ReplayKey, at: nat, now: nat)
    requires Acceptance(key, at) in h && Elapsed(now, at) < c.window && !Full(c, h, now)
    ensures !Recorded(c, h, key, now).1
  {
    var e :| 0 <= e < |h| && h[e] == Acceptance(key, at);
    assert h[e].key == key;
  }

  /** The call is a request, and fewer than `maxEntries` keys were accepted within the window before it. */
  ghost predicate HasRoom(c: Config, run: seq<Event>, m: nat) {
    m < |run| && run[m].Request? && |AcceptedRecently(c, run, m)| < c.maxEntries
  }

  /** The same request passes twice within a window only across a reset: a `clear()`, or a call
      before which `maxEntries` different keys were accepted within the window. */
  lemma SecondAcceptanceNeedsAReset(c: Config, run: seq<Event>, i: nat, j: nat) returns (m: nat)
    requires Orderly(c.window, Times(run)) && i < j < |run|
    requires Accepted(c, run, i) && Accepted(c, run, j) && run[i].key == run[j].key
    requires Elapsed(run[j].now, run[i].now) < c.window
    ensures i < m <= j
    ensures run[m].Clear? || |AcceptedRecently(c, run, m)| >= c.maxEntries
    ensures !HasRoom(c, run, m)
  {
    if forall m :: i < m <= j ==> Quiet(c, run, m) {
      RecordedWhenAccepted(c, run, i);
      Survives(c, run, i + 1, j, Acceptance(run[i].key, run[i].now));
      assert Quiet(c, run, j);
      BufferRefinesHistory(c, run, j);
      RejectsTheRemembered(c, HistoryAfter(c, run[..j]), run[i].key, run[i].now, run[j].now);
      assert false;
    }
    m :| i < m <= j && !Quiet(c, run, m);
    if !run[m].Clear? {
      FullIsObservable(c, run, m);
    }
  }

  /** While fewer than `maxEntries` keys are accepted per window and nobody clears the buffer, no
      request passes twice within a window. */
  lemma {:induction false} NoReplayWithinCapacity(c: Config, run: seq<Event>)
    requires Orderly(c.window, Times(run))
    requires forall m :: 0 <= m < |run| ==> HasRoom(c, run, m)
    ensures forall i, j :: 0 <= i < j < |run| && Accepted(c, run, i) && Accepted(c, run, j) && run[i].key == run[j].key
              ==> Elapsed(run[j].now, run[i].now) >= c.window
  {
    forall i, j | 0 <= i < j < |run| && Accepted(c, run, i) && Accepted(c, run, j) && run[i].key == run[j].key
      ensures Elapsed(run[j].now, run[i].now) >= c.window
    {
      if Elapsed(run[j].now, run[i].now) < c.window {
        var _ := SecondAcceptanceNeedsAReset(c, run, i, j);
      }
    }
  }

  /** A buffer with a limit of one or less accepts everything, and so does one without a window: it
      protects nothing. */
  lemma NoRoomAcceptsEverything(c: Config, run: seq<Event>, i: nat)
    requires (c.maxEntries <= 1 || c.window == 0) && i < |run|
    ensures Accepted(c, run, i) == run[i].Request?
  {
    if run[i].Request? {
      NoRoomMatches(c, After(c, run[..i]), [], run[i].key, run[i].now);
    }
  }
}
