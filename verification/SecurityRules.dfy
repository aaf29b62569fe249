/** Lists of header rules as a profile changes them and as an audit reads them.

    Setting a rule replaces the first rule with its name, ignoring case, or adds it at the end. The
    audit reads the last rule with a name that carries a value. */
module SecurityRules {
  import opened Basics
  import opened Text
  import opened HeaderRules

  /** What ignoring case means. */
  type Fold = string -> string

  predicate Named(fold: Fold, r: HeaderRule, name: string) {
    fold(r.name) == fold(name)
  }

  /** The first rule with the name, or the length. */
  function Position(fold: Fold, rules: seq<HeaderRule>, name: string): (i: nat)
    ensures i <= |rules| && (i < |rules| ==> Named(fold, rules[i], name))
    ensures forall k :: 0 <= k < i ==> !Named(fold, rules[k], name)
  {
    if rules == [] || Named(fold, rules[0], name) then 0 else Position(fold, rules[1..], name) + 1
  }

  function Put(fold: Fold, rules: seq<HeaderRule>, r: HeaderRule): seq<HeaderRule> {
    var i := Position(fold, rules, r.name);
    if i < |rules| then rules[i := r] else rules + [r]
  }

  function PutAll(fold: Fold, rules: seq<HeaderRule>, profile: seq<HeaderRule>): seq<HeaderRule>
    decreases |profile|
  {
    if profile == [] then rules else PutAll(fold, Put(fold, rules, profile[0]), profile[1..])
  }

  method ApplyRules(fold: Fold, existing: seq<HeaderRule>, profile: seq<HeaderRule>) returns (result: seq<HeaderRule>)
    ensures result == PutAll(fold, existing, profile)
  {
    result := existing;
    var i := 0;
    while i < |profile|
      invariant 0 <= i <= |profile| && PutAll(fold, result, profile[i..]) == PutAll(fold, existing, profile)
    {
      assert profile[i..][1..] == profile[i + 1..];
      var pos := Position(fold, result, profile[i].name);
      if pos < |result| {
        result := result[pos := profile[i]];
      } else {
        result := result + [profile[i]];
      }
      i := i + 1;
    }
  }

  /** Which rules a reader of the list takes notice of. */
  type Sight = HeaderRule -> bool

  predicate Carries(r: HeaderRule) { !r.Remove? }

  /** The last rule with the name that the reader takes notice of. */
  function Last(fold: Fold, rules: seq<HeaderRule>, name: string, sees: Sight): (r: Option<HeaderRule>)
    ensures r.Some? ==> Named(fold, r.value, name) && sees(r.value)
  {
    if rules == [] then None
    else
      var last := rules[|rules| - 1];
      if Named(fold, last, name) && sees(last) then Some(last)
      else Last(fold, rules[..|rules| - 1], name, sees)
  }

  /** The value that the audit reads for a name. */
  function Found(fold: Fold, rules: seq<HeaderRule>, name: string): Option<string> {
    match Last(fold, rules, name, Carries)
    case None => None
    case Some(r) => Some(r.value)
  }

  /** The list shows the value of every rule that the profile sets. */
  ghost predicate Matches(fold: Fold, rules: seq<HeaderRule>, profile: seq<HeaderRule>) {
    forall j :: 0 <= j < |profile| && profile[j].Set? ==> Shows(fold, rules, profile[j])
  }

  predicate Shows(fold: Fold, rules: seq<HeaderRule>, r: HeaderRule)
    requires r.Set?
  {
    var found := Found(fold, rules, r.name);
    found.Some? && fold(found.value) == fold(r.value)
  }

  method MatchesProfile(fold: Fold, rules: seq<HeaderRule>, profile: seq<HeaderRule>) returns (r: bool)
    ensures r <==> Matches(fold, rules, profile)
  {
    for j := 0 to |profile|
      invariant forall k :: 0 <= k < j && profile[k].Set? ==> Shows(fold, rules, profile[k])
    {
      if profile[j].Set? && !Shows(fold, rules, profile[j]) {
        return false;
      }
    }
    return true;
  }

  // ---- What applying a profile changes

  ghost predicate DistinctNames(fold: Fold, profile: seq<HeaderRule>) {
    forall i, j :: 0 <= i < |profile| && 0 <= j < |profile| && Named(fold, profile[i], profile[j].name) ==> i == j
  }

  /** The first rule with that name is exactly `r`. */
  ghost predicate Holds(fold: Fold, rules: seq<HeaderRule>, r: HeaderRule) {
    var i := Position(fold, rules, r.name);
    i < |rules| && rules[i] == r
  }

  lemma PutKeepsNames(fold: Fold, rules: seq<HeaderRule>, r: HeaderRule, name: string)
    ensures |rules| <= |Put(fold, rules, r)|
    ensures forall i :: 0 <= i < |rules| ==>
            (Named(fold, Put(fold, rules, r)[i], name) <==> Named(fold, rules[i], name))
  {
  }

  lemma PutHolds(fold: Fold, rules: seq<HeaderRule>, r: HeaderRule)
    ensures Holds(fold, Put(fold, rules, r), r)
  {
    PutKeepsNames(fold, rules, r, r.name);
    var i := Position(fold, rules, r.name);
    assert Put(fold, rules, r)[i] == r && Named(fold, Put(fold, rules, r)[i], r.name);
  }

  lemma PutKeepsOthers(fold: Fold, rules: seq<HeaderRule>, r: HeaderRule, s: HeaderRule)
    requires !Named(fold, r, s.name) && Holds(fold, rules, s)
    ensures Holds(fold, Put(fold, rules, r), s)
  {
    PutKeepsNames(fold, rules, r, s.name);
  }

  lemma {:induction false} PutAllKeepsOthers(fold: Fold, rules: seq<HeaderRule>, profile: seq<HeaderRule>,
      s: HeaderRule)
    requires Holds(fold, rules, s) && forall j :: 0 <= j < |profile| ==> Foreign(fold, profile[j], s)
    ensures Holds(fold, PutAll(fold, rules, profile), s)
    decreases |profile|
  {
    if profile != [] {
      PutKeepsOthers(fold, rules, profile[0], s);
      PutAllKeepsOthers(fold, Put(fold, rules, profile[0]), profile[1..], s);
    }
  }

  lemma {:induction false} PutAllHolds(fold: Fold, rules: seq<HeaderRule>, profile: seq<HeaderRule>, j: nat)
    requires DistinctNames(fold, profile) && j < |profile|
    ensures Holds(fold, PutAll(fold, rules, profile), profile[j])
    decreases |profile|
  {
    var next, rest := Put(fold, rules, profile[0]), profile[1..];
    TailIsDistinct(fold, profile);
    if j == 0 {
      PutHolds(fold, rules, profile[0]);
      PutAllKeepsOthers(fold, next, rest, profile[0]);
    } else {
      PutAllHolds(fold, next, rest, j - 1);
    }
  }

  lemma TailIsDistinct(fold: Fold, profile: seq<HeaderRule>)
    requires profile != [] && DistinctNames(fold, profile)
    ensures DistinctNames(fold, profile[1..])
    ensures forall k :: 0 <= k < |profile[1..]| ==> Foreign(fold, profile[1..][k], profile[0])
  {
    var rest := profile[1..];
    assert forall k :: 0 <= k < |rest| ==> rest[k] == profile[k + 1];
    forall k | 0 <= k < |rest| ensures Foreign(fold, rest[k], profile[0]) {
      assert rest[k] == profile[k + 1];
      assert Named(fold, profile[k + 1], profile[0].name) ==> k + 1 == 0;
    }
  }

  predicate Foreign(fold: Fold, r: HeaderRule, s: HeaderRule) {
    !Named(fold, r, s.name) && !Named(fold, s, r.name)
  }

  lemma {:induction false} NothingToPut(fold: Fold, rules: seq<HeaderRule>, profile: seq<HeaderRule>)
    requires forall j :: 0 <= j < |profile| ==> Holds(fold, rules, profile[j])
    ensures PutAll(fold, rules, profile) == rules
    decreases |profile|
  {
    if profile != [] {
      assert Put(fold, rules, profile[0]) == rules;
      NothingToPut(fold, rules, profile[1..]);
    }
  }

  /** Applying a profile again changes nothing. */
  lemma ApplyIsIdempotent(fold: Fold, rules: seq<HeaderRule>, profile: seq<HeaderRule>)
    requires DistinctNames(fold, profile)
    ensures PutAll(fold, PutAll(fold, rules, profile), profile) == PutAll(fold, rules, profile)
  {
    forall j | 0 <= j < |profile| ensures Holds(fold, PutAll(fold, rules, profile), profile[j]) {
      PutAllHolds(fold, rules, profile, j);
    }
    NothingToPut(fold, PutAll(fold, rules, profile), profile);
  }

  /** No rule of the profile replaces the rule at `i`: its name is foreign, or it is not the first. */
  ghost predicate Untouched(fold: Fold, rules: seq<HeaderRule>, profile: seq<HeaderRule>, i: nat)
    requires i < |rules|
  {
    forall j :: 0 <= j < |profile| ==> Position(fold, rules, profile[j].name) != i
  }

  lemma PutKeepsPositions(fold: Fold, rules: seq<HeaderRule>, r: HeaderRule, name: string)
    ensures Position(fold, rules, name) < |rules| ==>
            Position(fold, Put(fold, rules, r), name) == Position(fold, rules, name)
    ensures Position(fold, rules, name) == |rules| ==> Position(fold, Put(fold, rules, r), name) >= |rules|
  {
    PutKeepsNames(fold, rules, r, name);
  }

  /** Every rule that the profile does not replace stays at its index, as it was. */
  lemma {:induction false} OthersStay(fold: Fold, rules: seq<HeaderRule>, profile: seq<HeaderRule>, i: nat)
    requires i < |rules| && Untouched(fold, rules, profile, i)
    ensures |rules| <= |PutAll(fold, rules, profile)| && PutAll(fold, rules, profile)[i] == rules[i]
    decreases |profile|
  {
    if profile != [] {
      var next, rest := Put(fold, rules, profile[0]), profile[1..];
      forall j | 0 <= j < |rest| ensures Position(fold, next, rest[j].name) != i {
        assert rest[j] == profile[j + 1];
        PutKeepsPositions(fold, rules, profile[0], rest[j].name);
      }
      PutKeepsNames(fold, rules, profile[0], []);
      OthersStay(fold, next, rest, i);
    }
  }

  /** The rules of the profile whose name the list does not have. */
  function Absent(fold: Fold, rules: seq<HeaderRule>, profile: seq<HeaderRule>): seq<HeaderRule> {
    if profile == [] then []
    else
      var first := if Position(fold, rules, profile[0].name) == |rules| then [profile[0]] else [];
      first + Absent(fold, rules, profile[1..])
  }

  lemma {:induction false} AbsentAfterPut(fold: Fold, rules: seq<HeaderRule>, r: HeaderRule, profile: seq<HeaderRule>)
    requires forall j :: 0 <= j < |profile| ==> Foreign(fold, profile[j], r)
    ensures Absent(fold, Put(fold, rules, r), profile) == Absent(fold, rules, profile)
  {
    if profile != [] {
      PutKeepsNames(fold, rules, r, profile[0].name);
      AbsentAfterPut(fold, rules, r, profile[1..]);
    }
  }

  /** What is added at the end is exactly the missing rules, in the order of the profile. */
  lemma {:induction false} MissingAreAppended(fold: Fold, rules: seq<HeaderRule>, profile: seq<HeaderRule>)
    requires DistinctNames(fold, profile)
    ensures |rules| <= |PutAll(fold, rules, profile)|
            && PutAll(fold, rules, profile)[|rules|..] == Absent(fold, rules, profile)
    decreases |profile|
  {
    if profile != [] {
      var r, rest := profile[0], profile[1..];
      var next := Put(fold, rules, r);
      TailIsDistinct(fold, profile);
      AbsentAfterPut(fold, rules, r, rest);
      MissingAreAppended(fold, next, rest);
      if Position(fold, rules, r.name) == |rules| {
        ForeignIsAfter(fold, rules, r, rest);
        AddedFirst(PutAll(fold, next, rest), |rules|, r, Absent(fold, rules, rest));
        assert Absent(fold, rules, profile) == [r] + Absent(fold, rules, rest);
      } else {
        assert Absent(fold, rules, profile) == [] + Absent(fold, rules, rest) && |next| == |rules|;
      }
    }
  }

  lemma ForeignIsAfter(fold: Fold, rules: seq<HeaderRule>, r: HeaderRule, rest: seq<HeaderRule>)
    requires Position(fold, rules, r.name) == |rules| && forall j :: 0 <= j < |rest| ==> Foreign(fold, rest[j], r)
    ensures var all := PutAll(fold, rules + [r], rest); |rules| < |all| && all[|rules|] == r
  {
    ForeignStays(fold, rules + [r], rest, |rules|);
  }

  lemma AddedFirst(all: seq<HeaderRule>, n: nat, r: HeaderRule, rest: seq<HeaderRule>)
    requires n < |all| && all[n] == r && all[n + 1..] == rest
    ensures all[n..] == [r] + rest
  {
  }

  /** A rule whose name is foreign to the profile stays. */
  lemma ForeignStays(fold: Fold, rules: seq<HeaderRule>, profile: seq<HeaderRule>, i: nat)
    requires i < |rules| && forall j :: 0 <= j < |profile| ==> Foreign(fold, profile[j], rules[i])
    ensures |rules| <= |PutAll(fold, rules, profile)| && PutAll(fold, rules, profile)[i] == rules[i]
  {
    OthersStay(fold, rules, profile, i);
  }

  // ---- The last rule with a name afterwards

  lemma {:induction false} LastAppend(fold: Fold, a: seq<HeaderRule>, b: seq<HeaderRule>, name: string, sees: Sight)
    ensures Last(fold, a + b, name, sees) ==
            if Last(fold, b, name, sees).Some? then Last(fold, b, name, sees) else Last(fold, a, name, sees)
  {
    if b == [] {
      assert a + b == a;
    } else {
      var n := |b| - 1;
      assert (a + b)[|a + b| - 1] == b[n] && (a + b)[..|a + b| - 1] == a + b[..n];
      LastAppend(fold, a, b[..n], name, sees);
    }
  }

  lemma LastAround(fold: Fold, a: seq<HeaderRule>, r: HeaderRule, b: seq<HeaderRule>, name: string, sees: Sight)
    ensures Last(fold, a + [r] + b, name, sees) ==
            if Last(fold, b, name, sees).Some? then Last(fold, b, name, sees)
            else if Named(fold, r, name) && sees(r) then Some(r)
            else Last(fold, a, name, sees)
  {
    LastAppend(fold, a + [r], b, name, sees);
    assert (a + [r])[..|a|] == a;
  }

  lemma {:induction false} LastOfNone(fold: Fold, rules: seq<HeaderRule>, name: string, sees: Sight)
    requires forall i :: 0 <= i < |rules| ==> !Named(fold, rules[i], name)
    ensures Last(fold, rules, name, sees) == None
  {
    if rules != [] { LastOfNone(fold, rules[..|rules| - 1], name, sees); }
  }

  lemma RemovalCarriesNothing(fold: Fold, r: HeaderRule, name: string)
    requires r.Remove?
    ensures Last(fold, [r], name, Carries) == None
  {
    assert [r][..0] == [];
  }

  /** The last rule with the name behind the first one. */
  function Later(fold: Fold, rules: seq<HeaderRule>, name: string, sees: Sight): Option<HeaderRule> {
    var i := Position(fold, rules, name);
    if i < |rules| then Last(fold, rules[i + 1..], name, sees) else None
  }

  lemma LastAfterPut(fold: Fold, rules: seq<HeaderRule>, r: HeaderRule, sees: Sight)
    ensures var later := Later(fold, rules, r.name, sees);
      Last(fold, Put(fold, rules, r), r.name, sees) == if later.Some? then later else if sees(r) then Some(r) else None
  {
    var i := Position(fold, rules, r.name);
    if i < |rules| {
      assert Put(fold, rules, r) == rules[..i] + [r] + rules[i + 1..];
      LastAround(fold, rules[..i], r, rules[i + 1..], r.name, sees);
      LastOfNone(fold, rules[..i], r.name, sees);
    } else {
      assert rules + [r] == rules + [r] + [];
      LastAround(fold, rules, r, [], r.name, sees);
      LastOfNone(fold, rules, r.name, sees);
    }
  }

  lemma PutIsForeign(fold: Fold, rules: seq<HeaderRule>, r: HeaderRule, name: string, sees: Sight)
    requires !Named(fold, r, name)
    ensures Last(fold, Put(fold, rules, r), name, sees) == Last(fold, rules, name, sees)
  {
    var i := Position(fold, rules, r.name);
    if i < |rules| {
      var a, b := rules[..i], rules[i + 1..];
      assert Put(fold, rules, r) == a + [r] + b && rules == a + [rules[i]] + b;
      SwapForeign(fold, a, r, rules[i], b, name, sees);
    } else {
      LastAppend(fold, rules, [r], name, sees);
    }
  }

  /** A rule with another name can stand for a rule with another name. */
  lemma SwapForeign(fold: Fold, a: seq<HeaderRule>, r: HeaderRule, s: HeaderRule, b: seq<HeaderRule>, name: string,
                    sees: Sight)
    requires !Named(fold, r, name) && !Named(fold, s, name)
    ensures Last(fold, a + [r] + b, name, sees) == Last(fold, a + [s] + b, name, sees)
  {
    LastAround(fold, a, r, b, name, sees);
    LastAround(fold, a, s, b, name, sees);
  }

  lemma PutKeepsLater(fold: Fold, rules: seq<HeaderRule>, r: HeaderRule, name: string, sees: Sight)
    requires !Named(fold, r, name)
    ensures Later(fold, Put(fold, rules, r), name, sees) == Later(fold, rules, name, sees)
  {
    var i := Position(fold, rules, name);
    PutKeepsPositions(fold, rules, r, name);
    if i < |rules| {
      LaterRest(fold, rules, r, i, name, sees);
    } else {
      AbsentStays(fold, rules, r, name);
    }
  }

  lemma AbsentStays(fold: Fold, rules: seq<HeaderRule>, r: HeaderRule, name: string)
    requires !Named(fold, r, name) && Position(fold, rules, name) == |rules|
    ensures Position(fold, Put(fold, rules, r), name) == |Put(fold, rules, r)|
  {
    PutKeepsNames(fold, rules, r, name);
  }

  lemma LaterRest(fold: Fold, rules: seq<HeaderRule>, r: HeaderRule, i: nat, name: string, sees: Sight)
    requires !Named(fold, r, name) && i < |rules| && Named(fold, rules[i], name)
    ensures Last(fold, Put(fold, rules, r)[i + 1..], name, sees) == Last(fold, rules[i + 1..], name, sees)
  {
    var p := Position(fold, rules, r.name);
    var rest := rules[i + 1..];
    if p == |rules| {
      assert Put(fold, rules, r)[i + 1..] == rest + [r];
      LastAppend(fold, rest, [r], name, sees);
    } else if p <= i {
      assert Put(fold, rules, r)[i + 1..] == rest;
    } else {
      var a, b := rules[i + 1..p], rules[p + 1..];
      assert Put(fold, rules, r)[i + 1..] == a + [r] + b && rest == a + [rules[p]] + b;
      SwapForeign(fold, a, r, rules[p], b, name, sees);
    }
  }

  lemma {:induction false} PutAllIsForeign(fold: Fold, rules: seq<HeaderRule>, profile: seq<HeaderRule>, name: string,
                                           sees: Sight)
    requires forall j :: 0 <= j < |profile| ==> !Named(fold, profile[j], name)
    ensures Last(fold, PutAll(fold, rules, profile), name, sees) == Last(fold, rules, name, sees)
    decreases |profile|
  {
    if profile != [] {
      PutIsForeign(fold, rules, profile[0], name, sees);
      PutAllIsForeign(fold, Put(fold, rules, profile[0]), profile[1..], name, sees);
    }
  }

  /** After applying a profile, the last rule with one of its names is the one that stood behind the first
      with that name, or else the rule of the profile. */
  lemma {:induction false} LastAfterApply(fold: Fold, rules: seq<HeaderRule>, profile: seq<HeaderRule>, j: nat,
      sees: Sight)
    requires DistinctNames(fold, profile) && j < |profile|
    ensures var later := Later(fold, rules, profile[j].name, sees);
      Last(fold, PutAll(fold, rules, profile), profile[j].name, sees) ==
      if later.Some? then later else if sees(profile[j]) then Some(profile[j]) else None
    decreases |profile|
  {
    var r, rest := profile[0], profile[1..];
    TailIsDistinct(fold, profile);
    if j == 0 {
      LastAfterPut(fold, rules, r, sees);
      PutAllIsForeign(fold, Put(fold, rules, r), rest, r.name, sees);
    } else {
      LastAfterApply(fold, Put(fold, rules, r), rest, j - 1, sees);
      PutKeepsLater(fold, rules, r, profile[j].name, sees);
    }
  }

  // ---- What the audit reads

  /** The list carries no other value for the name behind the first rule with that name. */
  predicate Undisturbed(fold: Fold, rules: seq<HeaderRule>, r: HeaderRule)
    requires r.Set?
  {
    var later := Later(fold, rules, r.name, Carries);
    later.None? || fold(later.value.value) == fold(r.value)
  }

  ghost predicate AllSet(profile: seq<HeaderRule>) {
    forall j :: 0 <= j < |profile| ==> profile[j].Set?
  }

  ghost predicate AllUndisturbed(fold: Fold, rules: seq<HeaderRule>, profile: seq<HeaderRule>)
    requires AllSet(profile)
  {
    forall j :: 0 <= j < |profile| ==> Undisturbed(fold, rules, profile[j])
  }

  /** The exact condition under which the audit sees the profile that was applied. */
  lemma SeenIffUndisturbed(fold: Fold, rules: seq<HeaderRule>, profile: seq<HeaderRule>)
    requires DistinctNames(fold, profile) && AllSet(profile)
    ensures Matches(fold, PutAll(fold, rules, profile), profile) <==> AllUndisturbed(fold, rules, profile)
  {
    forall j | 0 <= j < |profile|
      ensures Shows(fold, PutAll(fold, rules, profile), profile[j]) <==> Undisturbed(fold, rules, profile[j])
    {
      LastAfterApply(fold, rules, profile, j, Carries);
    }
  }

  lemma OnePerNameHasNoLater(fold: Fold, rules: seq<HeaderRule>, name: string, sees: Sight)
    requires DistinctNames(fold, rules)
    ensures Later(fold, rules, name, sees).None?
  {
    var i := Position(fold, rules, name);
    if i < |rules| {
      var rest := rules[i + 1..];
      forall k | 0 <= k < |rest| ensures !Named(fold, rest[k], name) {
        assert rest[k] == rules[i + 1 + k] && !Named(fold, rules[i + 1 + k], rules[i].name);
      }
      LastOfNone(fold, rest, name, sees);
    }
  }

  // ---- What the proxy sends

  /** What the proxy does for one response: the rules that it compiles, and the text that it sends for the
      value of a rule, if that is a header value. */
  datatype Proxy = Proxy(compiles: HeaderRule -> bool, render: string -> Option<string>)

  /** The values of a header in the response, when the upstream server sends `own`: a rule that sets it
      leaves its value alone, one that appends adds its value, and one that removes it leaves none. A rule
      whose text is no header value removes the header instead of setting it, and appends nothing. A rule
      that does not compile is skipped. */
  function Sent(fold: Fold, px: Proxy, rules: seq<HeaderRule>, name: string, own: seq<string>): seq<string> {
    if rules == [] then own
    else
      var before, last := Sent(fold, px, rules[..|rules| - 1], name, own), rules[|rules| - 1];
      if !Named(fold, last, name) || !px.compiles(last) then before
      else
        match last
        case Set(_, value) => Values(px.render(value))
        case Append(_, value) => before + Values(px.render(value))
        case Remove(_) => []
  }

  function Values(value: Option<string>): seq<string> {
    if value.None? then [] else [value.value]
  }

  function LastValue(values: seq<string>): Option<string> {
    if values == [] then None else Some(values[|values| - 1])
  }

  /** The rules that do something: those that compile, but for those that append what is no header value. */
  function Acts(px: Proxy): Sight {
    (r: HeaderRule) => px.compiles(r) && (r.Append? ==> px.render(r.value).Some?)
  }

  /** What a rule that does something leaves as the last value. */
  function Output(px: Proxy, r: HeaderRule): Option<string> {
    if r.Remove? then None else px.render(r.value)
  }

  /** The last rule with the name that does something decides the last value that is sent. */
  lemma {:induction false} LastRuleDecides(
    fold: Fold, px: Proxy, rules: seq<HeaderRule>, name: string, own: seq<string>)
    ensures var last := Last(fold, rules, name, Acts(px));
      && LastValue(Sent(fold, px, rules, name, own)) ==
         (if last.None? then LastValue(own) else Output(px, last.value))
      && (last.Some? && Output(px, last.value).None? ==> Sent(fold, px, rules, name, own) == [])
  {
    if rules != [] {
      var n := |rules| - 1;
      LastRuleDecides(fold, px, rules[..n], name, own);
      var before := Sent(fold, px, rules[..n], name, own);
      if rules[n].Append? && px.render(rules[n].value).None? {
        assert before + [] == before;
      }
    }
  }

  /** The audit reads what is sent. */
  predicate Truthful(fold: Fold, px: Proxy, rules: seq<HeaderRule>, name: string, own: seq<string>) {
    Found(fold, rules, name) == LastValue(Sent(fold, px, rules, name, own))
  }

  ghost predicate CarriesNothing(fold: Fold, rules: seq<HeaderRule>, name: string) {
    forall i :: 0 <= i < |rules| && Named(fold, rules[i], name) ==> rules[i].Remove?
  }

  predicate AsWritten(px: Proxy, r: HeaderRule)
    requires Carries(r)
  {
    px.compiles(r) && px.render(r.value) == Some(r.value)
  }

  /** The values for the name are sent as they are written. */
  ghost predicate Verbatim(fold: Fold, px: Proxy, rules: seq<HeaderRule>, name: string) {
    forall i :: 0 <= i < |rules| && Named(fold, rules[i], name) && Carries(rules[i]) ==>
      AsWritten(px, rules[i])
  }

  lemma {:induction false} NothingCarried(fold: Fold, rules: seq<HeaderRule>, name: string)
    ensures Last(fold, rules, name, Carries).None? <==> CarriesNothing(fold, rules, name)
  {
    if rules != [] {
      NothingCarried(fold, rules[..|rules| - 1], name);
    }
  }

  lemma {:induction false} LastAgree(fold: Fold, px: Proxy, rules: seq<HeaderRule>, name: string)
    requires Verbatim(fold, px, rules, name)
    ensures var last := Last(fold, rules, name, Acts(px));
      && (last.None? ==> Last(fold, rules, name, Carries).None?)
      && (last.Some? && !last.value.Remove? ==>
            Last(fold, rules, name, Carries) == last && px.render(last.value.value) == Some(last.value.value))
  {
    if rules != [] {
      var front := rules[..|rules| - 1];
      assert forall i :: 0 <= i < |front| ==> front[i] == rules[i];
      LastAgree(fold, px, front, name);
    }
  }

  /** The exact condition, for every list: of the rules with the name that do something the last one
      removes the header and no rule carries a value, or its text is what the audit reads; or there is
      none and the audit reads what the server sends itself. When the values are sent as written, that is:
      the last rule does not remove the header behind a rule that carries a value. */
  lemma TruthfulIffNotRemoved(fold: Fold, px: Proxy, rules: seq<HeaderRule>, name: string, own: seq<string>)
    ensures Truthful(fold, px, rules, name, own) <==>
            match Last(fold, rules, name, Acts(px))
            case None => Found(fold, rules, name) == LastValue(own)
            case Some(r) =>
              if Output(px, r).None? then CarriesNothing(fold, rules, name)
              else Found(fold, rules, name) == px.render(r.value)
    ensures Verbatim(fold, px, rules, name) ==>
            (Truthful(fold, px, rules, name, own) <==>
             match Last(fold, rules, name, Acts(px))
             case None => own == []
             case Some(r) => r.Remove? ==> CarriesNothing(fold, rules, name))
  {
    LastRuleDecides(fold, px, rules, name, own);
    NothingCarried(fold, rules, name);
    if Verbatim(fold, px, rules, name) {
      LastAgree(fold, px, rules, name);
    }
  }

  predicate Sends(fold: Fold, px: Proxy, rules: seq<HeaderRule>, r: HeaderRule, own: seq<string>)
    requires r.Set?
  {
    var last := LastValue(Sent(fold, px, rules, r.name, own));
    last.Some? && fold(last.value) == fold(r.value)
  }

  /** Behind the first rule with the name, the last one that does something, if any, sends the same value. */
  predicate Unopposed(fold: Fold, px: Proxy, rules: seq<HeaderRule>, r: HeaderRule)
    requires r.Set?
  {
    var later := Later(fold, rules, r.name, Acts(px));
    later.None? ||
    var output := Output(px, later.value);
    output.Some? && fold(output.value) == fold(r.value)
  }

  /** The exact condition under which an applied profile, whose values are sent as written, is sent: like
      the one for the audit, but a rule that removes a header counts. */
  lemma SentIffUnopposed(
    fold: Fold, px: Proxy, rules: seq<HeaderRule>, profile: seq<HeaderRule>, j: nat, own: seq<string>)
    requires DistinctNames(fold, profile) && AllSet(profile) && j < |profile|
    requires AsWritten(px, profile[j])
    ensures Sends(fold, px, PutAll(fold, rules, profile), profile[j], own) <==>
            Unopposed(fold, px, rules, profile[j])
  {
    LastAfterApply(fold, rules, profile, j, Acts(px));
    LastRuleDecides(fold, px, PutAll(fold, rules, profile), profile[j].name, own);
  }

  lemma {:induction false} LaterAgree(fold: Fold, px: Proxy, rules: seq<HeaderRule>, name: string)
    requires Verbatim(fold, px, rules, name)
    ensures var later := Later(fold, rules, name, Acts(px));
      && (later.None? ==> Later(fold, rules, name, Carries).None?)
      && (later.Some? && !later.value.Remove? ==>
            Later(fold, rules, name, Carries) == later && px.render(later.value.value) == Some(later.value.value))
  {
    var i := Position(fold, rules, name);
    if i < |rules| {
      var rest := rules[i + 1..];
      assert forall k :: 0 <= k < |rest| ==> rest[k] == rules[i + 1 + k];
      LastAgree(fold, px, rest, name);
    }
  }

  /** What the audit sees of an applied profile is sent, when the values are sent as written, if and only
      if no rule that removes the header stands last behind the first rule with its name. */
  lemma SeenIsSentUnlessRemoved(
    fold: Fold, px: Proxy, rules: seq<HeaderRule>, profile: seq<HeaderRule>, j: nat, own: seq<string>)
    requires DistinctNames(fold, profile) && AllSet(profile) && j < |profile|
    requires AsWritten(px, profile[j]) && Verbatim(fold, px, rules, profile[j].name)
    requires Shows(fold, PutAll(fold, rules, profile), profile[j])
    ensures Sends(fold, px, PutAll(fold, rules, profile), profile[j], own) <==>
            var later := Later(fold, rules, profile[j].name, Acts(px)); later.None? || !later.value.Remove?
  {
    SentIffUnopposed(fold, px, rules, profile, j, own);
    LastAfterApply(fold, rules, profile, j, Carries);
    LaterAgree(fold, px, rules, profile[j].name);
  }
}
