/** The anti-replay buffer in terms of requests: which calls are the same request, and exactly which
    requests a run rejects. */
module EarlyDataRequests {
  import opened Basics
  import opened Text
  import opened Net
  import opened EarlyData

  datatype Call = Ask(client: IpAddr, verb: string, path: string, now: nat) | Reset(now: nat)

  /** One letter, in either case. */
  predicate SameLetter(a: char, b: char) {
    || a == b
    || ('a' <= a <= 'z' && b as int == a as int - 32)
    || ('a' <= b <= 'z' && a as int == b as int - 32)
  }

  predicate SameVerb(v: string, w: string) {
    |v| == |w| && forall i :: 0 <= i < |v| ==> SameLetter(v[i], w[i])
  }

  lemma UpperIffSameLetter(a: char, b: char)
    ensures UpperChar(a) == UpperChar(b) <==> SameLetter(a, b)
  {
  }

  lemma UpperIffSameVerb(v: string, w: string)
    ensures ToUpper(v) == ToUpper(w) <==> SameVerb(v, w)
  {
    var a, b := ToUpper(v), ToUpper(w);
    if a == b {
      forall i | 0 <= i < |v| ensures SameLetter(v[i], w[i]) {
        assert a[i] == b[i];
        UpperIffSameLetter(v[i], w[i]);
      }
    }
    if SameVerb(v, w) {
      forall i | 0 <= i < |v| ensures a[i] == b[i] {
        assert SameLetter(v[i], w[i]);
        UpperIffSameLetter(v[i], w[i]);
      }
    }
  }

  /** Two calls have one key if and only if the client and the path are the same and the methods differ at
      most in the case of their ASCII letters. */
  lemma SameKeyIffSameRequest(client: IpAddr, verb: string, path: string, client': IpAddr, verb': string, path': string)
    ensures KeyOf(client, verb, path) == KeyOf(client', verb', path') <==>
            client == client' && path == path' && SameVerb(verb, verb')
  {
    UpperIffSameVerb(verb, verb');
  }

  // ---- Runs of requests

  function EventOf(call: Call): Event {
    match call
    case Ask(client, verb, path, now) => Request(KeyOf(client, verb, path), now)
    case Reset(now) => Event.Clear(now)
  }

  function RunOf(calls: seq<Call>): (run: seq<Event>)
    ensures |run| == |calls| && forall i :: 0 <= i < |calls| ==> run[i] == EventOf(calls[i])
  {
    if calls == [] then [] else RunOf(calls[..|calls| - 1]) + [EventOf(calls[|calls| - 1])]
  }

  function ClockOf(calls: seq<Call>): (ts: seq<nat>)
    ensures |ts| == |calls| && forall i :: 0 <= i < |calls| ==> ts[i] == calls[i].now
  {
    if calls == [] then [] else ClockOf(calls[..|calls| - 1]) + [calls[|calls| - 1].now]
  }

  predicate SameRequest(x: Call, y: Call) {
    x.Ask? && y.Ask? && x.client == y.client && x.path == y.path && SameVerb(x.verb, y.verb)
  }

  /** The buffer lets call `i` through. */
  predicate Passes(c: Config, calls: seq<Call>, i: nat)
    requires i < |calls|
  {
    Accepted(c, RunOf(calls), i)
  }

  /** Call `l` was let through and is less than a window before call `m`. */
  predicate Fresh(c: Config, calls: seq<Call>, l: nat, m: nat)
    requires l < |calls| && m < |calls|
  {
    Passes(c, calls, l) && c.window > 0 && calls[m].now < calls[l].now + c.window
  }

  /** Nothing is forgotten behind call `l` and before call `m`; `forgets` tells it for each call. */
  ghost predicate Kept(forgets: seq<bool>, l: nat, m: nat)
    requires m <= |forgets|
  {
    forall k :: l < k < m ==> !forgets[k]
  }

  /** The different requests that are fresh at call `m` and not forgotten before it. */
  ghost function FreshKeys(c: Config, calls: seq<Call>, forgets: seq<bool>, m: nat): set<ReplayKey>
    requires m < |calls| && m <= |forgets|
  {
    set l | 0 <= l < m && Fresh(c, calls, l, m) && Kept(forgets, l, m) :: RunOf(calls)[l].key
  }

  /** For each of the first `n` calls, whether everything is forgotten at it: by a reset, or because as many
      different requests as the limit are fresh then. */
  ghost function Forgets(c: Config, calls: seq<Call>, n: nat): (forgets: seq<bool>)
    requires n <= |calls|
    ensures |forgets| == n
  {
    if n == 0 then []
    else
      var before := Forgets(c, calls, n - 1);
      before + [calls[n - 1].Reset? || |FreshKeys(c, calls, before, n - 1)| >= c.maxEntries]
  }

  // ---- The history, entry by entry

  /** Every entry was there before, at the same place, and nothing was reset, or is the accepted request. */
  ghost predicate Follows(before: History, after: History, quiet: bool, ok: bool, a: Acceptance) {
    forall e :: 0 <= e < |after| ==> (quiet && e < |before| && after[e] == before[e]) || (ok && after[e] == a)
  }

  lemma {:induction false} SourceIn(
    hs: seq<History>, quiets: seq<bool>, oks: seq<bool>, asked: seq<Acceptance>, n: nat, e: nat) returns (l: nat)
    requires n < |hs| && n <= |oks| && n <= |asked| && n <= |quiets| && hs[0] == [] && e < |hs[n]|
    requires forall m :: 0 <= m < n ==> Follows(hs[m], hs[m + 1], quiets[m], oks[m], asked[m])
    ensures l < n && oks[l] && asked[l] == hs[n][e] && forall k :: l < k < n ==> quiets[k]
  {
    var m := n - 1;
    assert Follows(hs[m], hs[m + 1], quiets[m], oks[m], asked[m]);
    var x := hs[n][e];
    if quiets[m] && e < |hs[m]| && hs[m][e] == x {
      l := SourceIn(hs, quiets, oks, asked, m, e);
    } else {
      l := m;
    }
  }

  ghost function Quiets(c: Config, run: seq<Event>, n: nat): (qs: seq<bool>)
    requires n <= |run|
    ensures |qs| == n && forall m :: 0 <= m < n ==> qs[m] == Quiet(c, run, m)
  {
    if n == 0 then []
    else
      var before, last := Quiets(c, run, n - 1), Quiet(c, run, n - 1);
      before + [last]
  }

  lemma FollowsRecorded(c: Config, h: History, key: ReplayKey, now: nat)
    ensures var r := Recorded(c, h, key, now); Follows(h, r.0, !Full(c, h, now), r.1, Acceptance(key, now))
  {
  }

  lemma {:induction false} FollowsCall(c: Config, run: seq<Event>, m: nat)
    requires Orderly(c.window, Times(run)) && m < |run|
    ensures Follows(HistoryAfter(c, run[..m]), HistoryAfter(c, run[..m + 1]), Quiet(c, run, m), Accepted(c, run, m),
                    CallAt(run[m]))
  {
    HistoryStep(c, run, m);
    if run[m].Request? {
      BufferRefinesHistory(c, run, m);
      FollowsRecorded(c, HistoryAfter(c, run[..m]), run[m].key, run[m].now);
    }
  }

  /** Every entry of the history is an accepted request with no reset behind it. */
  lemma {:induction false} SourceSince(c: Config, run: seq<Event>, n: nat, e: nat) returns (l: nat)
    requires Orderly(c.window, Times(run)) && n <= |run| && e < |HistoryAfter(c, run[..n])|
    ensures l < n && Accepted(c, run, l) && Acceptance(run[l].key, run[l].now) == HistoryAfter(c, run[..n])[e]
    ensures forall k :: l < k < n ==> Quiet(c, run, k)
  {
    var hs, quiets, oks, asked := Histories(c, run, n), Quiets(c, run, n), Answers(c, run, n), Calls(run, n);
    forall m | 0 <= m < n ensures Follows(hs[m], hs[m + 1], quiets[m], oks[m], asked[m]) {
      FollowsCall(c, run, m);
    }
    l := SourceIn(hs, quiets, oks, asked, n, e);
  }

  /** An accepted request with no reset behind it is in the history. */
  lemma StillThere(c: Config, run: seq<Event>, l: nat, n: nat)
    requires Orderly(c.window, Times(run)) && l < n <= |run| && Accepted(c, run, l)
    requires forall k :: l < k < n ==> Quiet(c, run, k)
    ensures Acceptance(run[l].key, run[l].now) in HistoryAfter(c, run[..n])
  {
    RecordedWhenAccepted(c, run, l);
    Survives(c, run, l + 1, n, Acceptance(run[l].key, run[l].now));
  }

  /** The recent keys of the history at call `m` are those of the accepted requests less than a window
      before it with no reset in between. */
  lemma RecentIff(c: Config, run: seq<Event>, m: nat, key: ReplayKey)
    requires Orderly(c.window, Times(run)) && m < |run|
    ensures key in Recent(c, HistoryAfter(c, run[..m]), run[m].now) <==>
            exists l :: 0 <= l < m && IsSource(c, run, l, m, key)
  {
    var h := HistoryAfter(c, run[..m]);
    if key in Recent(c, h, run[m].now) {
      var e :| 0 <= e < |h| && h[e].key == key && Elapsed(run[m].now, h[e].at) < c.window;
      var l := SourceSince(c, run, m, e);
      assert IsSource(c, run, l, m, key);
    }
    if l :| 0 <= l < m && IsSource(c, run, l, m, key) {
      StillThere(c, run, l, m);
      var e :| 0 <= e < |h| && h[e] == Acceptance(key, run[l].now);
      assert h[e].key == key && Elapsed(run[m].now, h[e].at) < c.window;
    }
  }

  ghost predicate IsSource(c: Config, run: seq<Event>, l: nat, m: nat, key: ReplayKey)
    requires l < m < |run|
  {
    && Accepted(c, run, l) && run[l].key == key && Elapsed(run[m].now, run[l].now) < c.window
    && forall k :: l < k < m ==> Quiet(c, run, k)
  }

  // ---- Exactly the replays are rejected

  lemma SameTimes(calls: seq<Call>)
    ensures Times(RunOf(calls)) == ClockOf(calls)
  {
  }

  /** The flags are those of the resets of the buffer. */
  ghost predicate AreResets(c: Config, run: seq<Event>, forgets: seq<bool>) {
    |forgets| <= |run| && forall k :: 0 <= k < |forgets| ==> forgets[k] == !Quiet(c, run, k)
  }

  lemma {:induction false} SourceIff(
    c: Config, calls: seq<Call>, forgets: seq<bool>, l: nat, m: nat, key: ReplayKey)
    requires l < m < |calls| && m <= |forgets| && AreResets(c, RunOf(calls), forgets)
    ensures IsSource(c, RunOf(calls), l, m, key) <==>
            Fresh(c, calls, l, m) && Kept(forgets, l, m) && RunOf(calls)[l].key == key
  {
  }

  lemma {:induction false} FreshIff(c: Config, calls: seq<Call>, forgets: seq<bool>, m: nat, key: ReplayKey)
    requires m < |calls| && m <= |forgets| && AreResets(c, RunOf(calls), forgets)
    ensures key in FreshKeys(c, calls, forgets, m) <==>
            exists l :: 0 <= l < m && IsSource(c, RunOf(calls), l, m, key)
  {
    var run := RunOf(calls);
    if key in FreshKeys(c, calls, forgets, m) {
      var l :| 0 <= l < m && Fresh(c, calls, l, m) && Kept(forgets, l, m) && run[l].key == key;
      SourceIff(c, calls, forgets, l, m, key);
    }
    if l :| 0 <= l < m && IsSource(c, run, l, m, key) {
      SourceIff(c, calls, forgets, l, m, key);
      assert Fresh(c, calls, l, m) && Kept(forgets, l, m) && run[l].key == key;
    }
  }

  lemma SameKeys(a: set<ReplayKey>, b: set<ReplayKey>)
    requires forall key :: key in a <==> key in b
    ensures a == b
  {
  }

  lemma {:induction false} FreshIsRecent(c: Config, calls: seq<Call>, forgets: seq<bool>, m: nat)
    requires Orderly(c.window, Times(RunOf(calls)))
    requires m < |calls| && m <= |forgets| && AreResets(c, RunOf(calls), forgets)
    ensures Recent(c, HistoryAfter(c, RunOf(calls)[..m]), RunOf(calls)[m].now) == FreshKeys(c, calls, forgets, m)
  {
    var run := RunOf(calls);
    var recent, now := Recent(c, HistoryAfter(c, run[..m]), run[m].now), FreshKeys(c, calls, forgets, m);
    forall key ensures key in recent <==> key in now {
      RecentIff(c, run, m, key);
      FreshIff(c, calls, forgets, m, key);
    }
    SameKeys(recent, now);
  }

  lemma {:induction false} QuietIff(c: Config, run: seq<Event>, m: nat)
    requires m < |run|
    ensures Quiet(c, run, m) <==>
            run[m].Request? && |Recent(c, HistoryAfter(c, run[..m]), run[m].now)| < c.maxEntries
  {
  }

  lemma {:induction false} OneMoreReset(c: Config, run: seq<Event>, forgets: seq<bool>, last: bool)
    requires |forgets| < |run| && AreResets(c, run, forgets) && last == !Quiet(c, run, |forgets|)
    ensures AreResets(c, run, forgets + [last])
  {
  }

  lemma {:induction false} LastForgets(c: Config, calls: seq<Call>, forgets: seq<bool>, m: nat)
    requires Orderly(c.window, Times(RunOf(calls)))
    requires m < |calls| && m == |forgets| && AreResets(c, RunOf(calls), forgets)
    ensures (calls[m].Reset? || |FreshKeys(c, calls, forgets, m)| >= c.maxEntries) == !Quiet(c, RunOf(calls), m)
  {
    FreshIsRecent(c, calls, forgets, m);
    QuietIff(c, RunOf(calls), m);
  }

  lemma {:induction false} ForgetsAreResets(c: Config, calls: seq<Call>, n: nat)
    requires Orderly(c.window, Times(RunOf(calls))) && n <= |calls|
    ensures AreResets(c, RunOf(calls), Forgets(c, calls, n))
  {
    if n > 0 {
      var before := Forgets(c, calls, n - 1);
      ForgetsAreResets(c, calls, n - 1);
      LastForgets(c, calls, before, n - 1);
      OneMoreReset(c, RunOf(calls), before, !Quiet(c, RunOf(calls), n - 1));
    }
  }

  /** The answer to call `i` in terms of the accepted requests before it. */
  lemma {:induction false} AcceptedIff(c: Config, run: seq<Event>, i: nat)
    requires Orderly(c.window, Times(run)) && i < |run| && run[i].Request?
    ensures Accepted(c, run, i) <==>
            !(Quiet(c, run, i) && exists l :: 0 <= l < i && IsSource(c, run, l, i, run[i].key))
  {
    BufferRefinesHistory(c, run, i);
    RecentIff(c, run, i, run[i].key);
    AnswerOf(c, HistoryAfter(c, run[..i]), run[i].key, run[i].now);
  }

  lemma AnswerOf(c: Config, h: History, key: ReplayKey, now: nat)
    ensures Recorded(c, h, key, now).1 <==> Full(c, h, now) || key !in Recent(c, h, now)
  {
  }

  ghost predicate IsReplayOf(c: Config, calls: seq<Call>, forgets: seq<bool>, l: nat, i: nat)
    requires l < i < |calls| && i < |forgets|
  {
    SameRequest(calls[l], calls[i]) && Fresh(c, calls, l, i) && Kept(forgets, l, i + 1)
  }

  lemma {:induction false} KeyIff(calls: seq<Call>, l: nat, i: nat)
    requires l < |calls| && i < |calls| && calls[l].Ask? && calls[i].Ask?
    ensures RunOf(calls)[l].key == RunOf(calls)[i].key <==> SameRequest(calls[l], calls[i])
  {
    var a, b := calls[l], calls[i];
    SameKeyIffSameRequest(a.client, a.verb, a.path, b.client, b.verb, b.path);
  }

  lemma {:induction false} ReplayIff(c: Config, calls: seq<Call>, forgets: seq<bool>, l: nat, i: nat)
    requires l < i < |calls| && calls[i].Ask? && i < |forgets| && AreResets(c, RunOf(calls), forgets)
    ensures IsReplayOf(c, calls, forgets, l, i) <==>
            Quiet(c, RunOf(calls), i) && IsSource(c, RunOf(calls), l, i, RunOf(calls)[i].key)
  {
    SourceIff(c, calls, forgets, l, i, RunOf(calls)[i].key);
    if calls[l].Ask? { KeyIff(calls, l, i); }
    assert Kept(forgets, l, i + 1) <==> Kept(forgets, l, i) && !forgets[i];
  }

  lemma {:induction false} RejectedIff(c: Config, calls: seq<Call>, forgets: seq<bool>, i: nat)
    requires Orderly(c.window, Times(RunOf(calls)))
    requires i < |calls| == |forgets| && calls[i].Ask? && AreResets(c, RunOf(calls), forgets)
    ensures Passes(c, calls, i) <==> !exists l :: 0 <= l < i && IsReplayOf(c, calls, forgets, l, i)
  {
    var run := RunOf(calls);
    AcceptedIff(c, run, i);
    if l :| 0 <= l < i && IsReplayOf(c, calls, forgets, l, i) {
      ReplayIff(c, calls, forgets, l, i);
    }
    if !Passes(c, calls, i) {
      var l :| 0 <= l < i && IsSource(c, run, l, i, run[i].key);
      ReplayIff(c, calls, forgets, l, i);
    }
  }

  /** At orderly times a request is rejected if and only if the same request was let through less than a
      window before it and nothing has been forgotten since. */
  lemma {:induction false} ExactlyReplaysAreRejected(c: Config, calls: seq<Call>, forgets: seq<bool>, i: nat)
    requires Orderly(c.window, ClockOf(calls)) && forgets == Forgets(c, calls, |calls|)
    requires i < |calls| && calls[i].Ask?
    ensures Passes(c, calls, i) <==> !exists l :: 0 <= l < i && IsReplayOf(c, calls, forgets, l, i)
  {
    SameTimes(calls);
    ForgetsAreResets(c, calls, |calls|);
    RejectedIff(c, calls, forgets, i);
  }
}
