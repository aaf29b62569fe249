/** The security header profiles and the audit that grades a list of response rules.

    `Texts` is how header names, the values that a profile sets and the checks of the audit are
    spelled. What is proved holds of every spelling that is `Clear`; `ProgramIsClear` is about the one
    that the program uses. */
module SecurityProfiles {
  import opened Basics
  import opened Text
  import opened HeaderRules
  import opened SecurityRules

  datatype Profile = Strict | Balanced | ApiOnly | SpaFrontend

  datatype Header = Hsts | ContentType | Frame | Referrer | Permissions | Csp | Opener | Resource | Cache

  /** The audited headers that every profile sets. */
  predicate IsCommon(h: Header) {
    h == Hsts || h == Csp || h == Frame || h == ContentType || h == Referrer
  }

  /** Whether a value is good enough. */
  type Check = string -> bool

  datatype Texts = Texts(fold: Fold, name: Header -> string, hsts: Profile -> string, frame: Profile -> string,
                         referrer: Profile -> string, permissions: Profile -> string, csp: Profile -> string,
                         fixed: Header -> string, good: Header -> Check) {

    /** The value that a profile sets. */
    function Value(p: Profile, h: Header): string {
      match h
      case Hsts => hsts(p)
      case Frame => frame(p)
      case Referrer => referrer(p)
      case Permissions => permissions(p)
      case Csp => csp(p)
      case _ => fixed(h)
    }

    ghost predicate NameIsOwn(h: Header) {
      forall k :: fold(name(h)) == fold(name(k)) ==> h == k
    }

    ghost predicate IgnoresCase(h: Header) {
      forall v, w :: fold(v) == fold(w) ==> good(h)(v) == good(h)(w)
    }

    predicate Passes(p: Profile, h: Header) {
      IsCommon(h) ==> good(h)(Value(p, h))
    }

    predicate Differ(p: Profile, q: Profile) {
      p != q ==> fold(Value(p, Telling(p, q))) != fold(Value(q, Telling(p, q)))
    }

    ghost predicate AllowsAny(h: Header) {
      forall v :: good(h)(v)
    }

    /** Names differ, checks ignore case, every profile passes them, and any two profiles differ. */
    ghost predicate Clear() {
      && (forall h :: NameIsOwn(h))
      && (forall h :: IgnoresCase(h))
      && (forall p, h :: Passes(p, h))
      && (forall p, q :: Differ(p, q))
      && AllowsAny(Permissions)
    }
  }

  /** The headers that a profile sets, in order. */
  function Headers(p: Profile): seq<Header> {
    match p
    case Strict => [Hsts, ContentType, Frame, Referrer, Permissions, Csp, Opener, Resource]
    case Balanced => [Hsts, ContentType, Frame, Referrer, Permissions, Csp]
    case ApiOnly => [Hsts, ContentType, Frame, Referrer, Cache, Csp]
    case SpaFrontend => [Hsts, ContentType, Frame, Referrer, Csp]
  }

  function RulesFor(t: Texts, p: Profile, hs: seq<Header>): (rules: seq<HeaderRule>)
    ensures |rules| == |hs| && forall i :: 0 <= i < |hs| ==> rules[i] == Set(t.name(hs[i]), t.Value(p, hs[i]))
  {
    if hs == [] then [] else [Set(t.name(hs[0]), t.Value(p, hs[0]))] + RulesFor(t, p, hs[1..])
  }

  function GenerateRules(t: Texts, p: Profile): seq<HeaderRule> {
    RulesFor(t, p, Headers(p))
  }

  // ---- The audit

  /** What a good value of the header earns; no header outside the audit earns anything. */
  function Weight(h: Header): nat {
    match h
    case Hsts => 25
    case Csp => 25
    case Frame => 15
    case ContentType => 15
    case Referrer => 10
    case Permissions => 10
    case _ => 0
  }

  /** What another value earns. */
  function Weak(h: Header): nat {
    match h
    case Hsts => 15
    case Csp => 15
    case Frame => 8
    case ContentType => 5
    case Referrer => 5
    case _ => 0
  }

  function Earned(t: Texts, h: Header, rules: seq<HeaderRule>): (e: nat)
    ensures e <= Weight(h)
  {
    match Found(t.fold, rules, t.name(h))
    case None => 0
    case Some(v) => if t.good(h)(v) then Weight(h) else Weak(h)
  }

  function Score(t: Texts, rules: seq<HeaderRule>): nat {
    Earned(t, Hsts, rules) + Earned(t, Csp, rules) + Earned(t, Frame, rules) + Earned(t, ContentType, rules)
    + Earned(t, Referrer, rules) + Earned(t, Permissions, rules)
  }

  ghost predicate IsAudited(h: Header) { IsCommon(h) || h == Permissions }

  /** The audit finds a value that passes its check. */
  ghost predicate IsGood(t: Texts, rules: seq<HeaderRule>, h: Header) {
    var v := Found(t.fold, rules, t.name(h));
    v.Some? && t.good(h)(v.value)
  }


  /** The points of each header: nothing without a value, all of them for a good value, and fewer for
      another. */
  lemma PointsOf(t: Texts, h: Header, rules: seq<HeaderRule>)
    ensures Found(t.fold, rules, t.name(h)).None? ==> Earned(t, h, rules) == 0
    ensures var v := Found(t.fold, rules, t.name(h));
      v.Some? && t.good(h)(v.value) ==>
      Earned(t, h, rules) == if h == Hsts || h == Csp then 25
                             else if h == Frame || h == ContentType then 15
                             else if h == Referrer || h == Permissions then 10 else 0
    ensures var v := Found(t.fold, rules, t.name(h));
      v.Some? && !t.good(h)(v.value) ==>
      Earned(t, h, rules) == if h == Hsts || h == Csp then 15 else if h == Frame then 8
                             else if h == ContentType || h == Referrer then 5 else 0
  {
  }

  datatype Grade = APlus | A | B | C | D | F

  /** All points are for good values only, and no points for no values only. */
  lemma ScoreEnds(t: Texts, rules: seq<HeaderRule>)
    requires t.AllowsAny(Permissions)
    ensures Score(t, rules) == 100 <==> forall h :: IsAudited(h) ==> IsGood(t, rules, h)
    ensures Score(t, rules) == 0 <==> forall h :: IsAudited(h) ==> Found(t.fold, rules, t.name(h)).None?
  {
    PointsOf(t, Hsts, rules);
    PointsOf(t, Csp, rules);
    PointsOf(t, Frame, rules);
    PointsOf(t, ContentType, rules);
    PointsOf(t, Referrer, rules);
    PointsOf(t, Permissions, rules);
    assert IsAudited(Hsts) && IsAudited(Csp) && IsAudited(Frame) && IsAudited(ContentType) && IsAudited(Referrer);
    assert IsAudited(Permissions);
    if Score(t, rules) == 100 {
      forall h | IsAudited(h) ensures IsGood(t, rules, h) {
        assert Earned(t, h, rules) == Weight(h);
      }
    } else if Score(t, rules) == 0 {
      forall h | IsAudited(h) ensures Found(t.fold, rules, t.name(h)).None? {
        assert Earned(t, h, rules) == 0;
      }
    }
  }

  function GradeOf(score: nat): Grade {
    if score >= 95 then APlus
    else if score >= 80 then A
    else if score >= 65 then B
    else if score >= 50 then C
    else if score >= 35 then D
    else F
  }

  datatype Audit = Audit(score: nat, grade: Grade, detected: Option<Profile>)

  /** A header on which two profiles differ. */
  function Telling(p: Profile, q: Profile): Header {
    if p == Strict || q == Strict then Hsts
    else if p == ApiOnly || q == ApiOnly then Frame
    else Csp
  }

  ghost predicate IsProfile(t: Texts, rules: seq<HeaderRule>, p: Profile) {
    Matches(t.fold, rules, GenerateRules(t, p))
  }

  lemma ShowsHeader(t: Texts, rules: seq<HeaderRule>, p: Profile, h: Header)
    requires IsProfile(t, rules, p) && h in Headers(p)
    ensures Found(t.fold, rules, t.name(h)).Some?
            && t.fold(Found(t.fold, rules, t.name(h)).value) == t.fold(t.Value(p, h))
  {
    var hs := Headers(p);
    var i :| 0 <= i < |hs| && hs[i] == h;
    assert Shows(t.fold, rules, RulesFor(t, p, hs)[i]);
  }

  lemma TellingIsSet(p: Profile, q: Profile)
    ensures Telling(p, q) in Headers(p) && Telling(p, q) in Headers(q)
  {
    assert Headers(Strict)[0] == Hsts && Headers(Balanced)[0] == Hsts && Headers(ApiOnly)[0] == Hsts
        && Headers(SpaFrontend)[0] == Hsts;
    assert Headers(Strict)[2] == Frame && Headers(Balanced)[2] == Frame && Headers(ApiOnly)[2] == Frame
        && Headers(SpaFrontend)[2] == Frame;
    assert Headers(Balanced)[5] == Csp && Headers(SpaFrontend)[4] == Csp;
  }

  /** No list of rules is two profiles at once. */
  lemma AtMostOneProfile(t: Texts, rules: seq<HeaderRule>, p: Profile, q: Profile)
    requires t.Clear() && IsProfile(t, rules, p) && IsProfile(t, rules, q)
    ensures p == q
  {
    assert t.Differ(p, q);
    TellingIsSet(p, q);
    ShowsHeader(t, rules, p, Telling(p, q));
    ShowsHeader(t, rules, q, Telling(p, q));
  }

  ghost predicate IsAnswer(t: Texts, rules: seq<HeaderRule>, r: Option<Profile>) {
    forall p :: r == Some(p) <==> IsProfile(t, rules, p)
  }

  lemma FirstIsTheAnswer(t: Texts, rules: seq<HeaderRule>, p: Profile)
    requires t.Clear() && IsProfile(t, rules, p)
    ensures IsAnswer(t, rules, Some(p))
  {
    forall q | IsProfile(t, rules, q) ensures p == q {
      AtMostOneProfile(t, rules, p, q);
    }
  }

  /** The profiles are tried in a fixed order, and the answer does not depend on it. */
  method DetectMatchingProfile(t: Texts, rules: seq<HeaderRule>) returns (r: Option<Profile>)
    requires t.Clear()
    ensures IsAnswer(t, rules, r)
  {
    var all := AllProfiles();
    for i := 0 to |all|
      invariant forall k :: 0 <= k < i ==> !IsProfile(t, rules, all[k])
    {
      var matches := MatchesProfile(t.fold, rules, GenerateRules(t, all[i]));
      if matches {
        FirstIsTheAnswer(t, rules, all[i]);
        return Some(all[i]);
      }
    }
    NoneIsTheAnswer(t, rules, all);
    return None;
  }

  lemma NoneIsTheAnswer(t: Texts, rules: seq<HeaderRule>, all: seq<Profile>)
    requires all == AllProfiles() && forall k :: 0 <= k < |all| ==> !IsProfile(t, rules, all[k])
    ensures IsAnswer(t, rules, None)
  {
    forall p ensures !IsProfile(t, rules, p) {
      EveryProfileIsListed(p);
      var k :| 0 <= k < |all| && all[k] == p;
    }
  }

  function AllProfiles(): seq<Profile> {
    [Strict, Balanced, ApiOnly, SpaFrontend]
  }

  lemma EveryProfileIsListed(p: Profile)
    ensures p in AllProfiles()
  {
    var all := AllProfiles();
    assert all[0] == Strict && all[1] == Balanced && all[2] == ApiOnly && all[3] == SpaFrontend;
  }

  method AnalyzeResponseRules(t: Texts, rules: seq<HeaderRule>) returns (audit: Audit)
    requires t.Clear()
    ensures audit.score == Score(t, rules) <= 100
    ensures audit.score == 100 <==> forall h :: IsAudited(h) ==> IsGood(t, rules, h)
    ensures audit.score == 0 <==> forall h :: IsAudited(h) ==> Found(t.fold, rules, t.name(h)).None?
    ensures audit.grade == APlus <==> 95 <= audit.score
    ensures audit.grade == A <==> 80 <= audit.score < 95
    ensures audit.grade == B <==> 65 <= audit.score < 80
    ensures audit.grade == C <==> 50 <= audit.score < 65
    ensures audit.grade == D <==> 35 <= audit.score < 50
    ensures IsAnswer(t, rules, audit.detected)
  {
    var score := Score(t, rules);
    ScoreEnds(t, rules);
    var detected := DetectMatchingProfile(t, rules);
    return Audit(score, GradeOf(score), detected);
  }

  method ApplyProfileToRules(t: Texts, existing: seq<HeaderRule>, p: Profile) returns (result: seq<HeaderRule>)
    ensures result == PutAll(t.fold, existing, GenerateRules(t, p))
    ensures t.Clear() ==> forall h :: h in Headers(p) ==> Holds(t.fold, result, Set(t.name(h), t.Value(p, h)))
    ensures t.Clear() ==> forall h :: h !in Headers(p) ==>
      Found(t.fold, result, t.name(h)) == Found(t.fold, existing, t.name(h))
  {
    result := ApplyRules(t.fold, existing, GenerateRules(t, p));
    if t.Clear() {
      forall h | h in Headers(p) ensures Holds(t.fold, result, Set(t.name(h), t.Value(p, h))) {
        HoldsHeader(t, existing, p, h);
      }
      forall h | h !in Headers(p) ensures Found(t.fold, result, t.name(h)) == Found(t.fold, existing, t.name(h)) {
        ForeignHeader(t, existing, p, h);
      }
    }
  }

  lemma HoldsHeader(t: Texts, rules: seq<HeaderRule>, p: Profile, h: Header)
    requires t.Clear() && h in Headers(p)
    ensures Holds(t.fold, PutAll(t.fold, rules, GenerateRules(t, p)), Set(t.name(h), t.Value(p, h)))
  {
    var hs := Headers(p);
    var j :| 0 <= j < |hs| && hs[j] == h;
    ProfileIsDistinct(t, p);
    PutAllHolds(t.fold, rules, GenerateRules(t, p), j);
  }

  // ---- Applying a profile, then auditing

  lemma HeadersAreDistinct(p: Profile)
    ensures forall i, j :: 0 <= i < |Headers(p)| && 0 <= j < |Headers(p)| && Headers(p)[i] == Headers(p)[j] ==> i == j
  {
  }

  lemma ProfileIsDistinct(t: Texts, p: Profile)
    requires t.Clear()
    ensures DistinctNames(t.fold, GenerateRules(t, p)) && AllSet(GenerateRules(t, p))
  {
    HeadersAreDistinct(p);
    var hs, rules := Headers(p), GenerateRules(t, p);
    forall i, j | 0 <= i < |rules| && 0 <= j < |rules| && Named(t.fold, rules[i], rules[j].name) ensures i == j {
      assert t.NameIsOwn(hs[i]) && t.fold(t.name(hs[i])) == t.fold(t.name(hs[j]));
    }
  }

  lemma CommonHeaders(p: Profile, h: Header)
    ensures IsCommon(h) ==> h in Headers(p)
    ensures Permissions in Headers(p) <==> p == Strict || p == Balanced
  {
    assert Headers(p)[0] == Hsts && Headers(p)[1] == ContentType && Headers(p)[2] == Frame && Headers(p)[3] == Referrer;
    assert Headers(Strict)[5] == Csp && Headers(Balanced)[5] == Csp && Headers(ApiOnly)[5] == Csp
        && Headers(SpaFrontend)[4] == Csp;
    assert Headers(Strict)[4] == Permissions && Headers(Balanced)[4] == Permissions;
  }

  lemma CommonEarnsAll(t: Texts, rules: seq<HeaderRule>, p: Profile, h: Header)
    requires t.Clear() && IsProfile(t, rules, p) && IsCommon(h)
    ensures Earned(t, h, rules) == Weight(h)
  {
    assert t.Passes(p, h) && t.IgnoresCase(h);
    CommonHeaders(p, h);
    ShowsHeader(t, rules, p, h);
  }

  lemma PermissionsEarn(t: Texts, rules: seq<HeaderRule>, p: Profile)
    requires t.Clear() && IsProfile(t, rules, p)
    ensures Earned(t, Permissions, rules) == if Found(t.fold, rules, t.name(Permissions)).Some? then 10 else 0
    ensures p == Strict || p == Balanced ==> Found(t.fold, rules, t.name(Permissions)).Some?
  {
    CommonHeaders(p, Permissions);
    if p == Strict || p == Balanced {
      ShowsHeader(t, rules, p, Permissions);
    }
  }

  /** Every list that shows a profile scores 100, or 90 when it carries no permissions policy. */
  lemma ProfileScore(t: Texts, rules: seq<HeaderRule>, p: Profile)
    requires t.Clear() && IsProfile(t, rules, p)
    ensures Score(t, rules) == if Found(t.fold, rules, t.name(Permissions)).Some? then 100 else 90
    ensures p == Strict || p == Balanced ==> Found(t.fold, rules, t.name(Permissions)).Some?
  {
    CommonEarnsAll(t, rules, p, Hsts);
    CommonEarnsAll(t, rules, p, Csp);
    CommonEarnsAll(t, rules, p, Frame);
    CommonEarnsAll(t, rules, p, ContentType);
    CommonEarnsAll(t, rules, p, Referrer);
    PermissionsEarn(t, rules, p);
  }

  lemma ForeignHeader(t: Texts, rules: seq<HeaderRule>, p: Profile, h: Header)
    requires t.Clear() && h !in Headers(p)
    ensures Found(t.fold, PutAll(t.fold, rules, GenerateRules(t, p)), t.name(h)) == Found(t.fold, rules, t.name(h))
  {
    var hs, profile := Headers(p), GenerateRules(t, p);
    forall j | 0 <= j < |profile| ensures !Named(t.fold, profile[j], t.name(h)) {
      assert t.NameIsOwn(hs[j]) && hs[j] != h;
    }
    PutAllIsForeign(t.fold, rules, profile, t.name(h), Carries);
  }

  /** The value that the audit reads for a header after the profile is applied, from the list before. */
  function ReadAfter(t: Texts, rules: seq<HeaderRule>, p: Profile, h: Header): Option<string> {
    if h !in Headers(p) then Found(t.fold, rules, t.name(h))
    else
      var later := Later(t.fold, rules, t.name(h), Carries);
      if later.Some? && !later.value.Remove? then Some(later.value.value) else Some(t.Value(p, h))
  }

  lemma ReadAfterApply(t: Texts, rules: seq<HeaderRule>, p: Profile, h: Header)
    requires t.Clear()
    ensures Found(t.fold, PutAll(t.fold, rules, GenerateRules(t, p)), t.name(h)) == ReadAfter(t, rules, p, h)
  {
    if h !in Headers(p) {
      ForeignHeader(t, rules, p, h);
    } else {
      var hs, profile := Headers(p), GenerateRules(t, p);
      var j :| 0 <= j < |hs| && hs[j] == h;
      ProfileIsDistinct(t, p);
      LastAfterApply(t.fold, rules, profile, j, Carries);
    }
  }

  /** What a header earns after the profile is applied: its whole weight when the profile sets it and the
      list has no other value behind the first rule with its name, and what that value earns otherwise. */
  function EarnedAfter(t: Texts, rules: seq<HeaderRule>, p: Profile, h: Header): nat {
    var read := ReadAfter(t, rules, p, h);
    if read.None? then 0 else if t.good(h)(read.value) then Weight(h) else Weak(h)
  }

  lemma EarnedAfterApply(t: Texts, rules: seq<HeaderRule>, p: Profile, h: Header)
    requires t.Clear()
    ensures Earned(t, h, PutAll(t.fold, rules, GenerateRules(t, p))) == EarnedAfter(t, rules, p, h)
  {
    ReadAfterApply(t, rules, p, h);
  }

  predicate NothingBehind(t: Texts, rules: seq<HeaderRule>, h: Header) {
    Later(t.fold, rules, t.name(h), Carries).None?
  }

  lemma UndisturbedEarnsAll(t: Texts, rules: seq<HeaderRule>, p: Profile, h: Header)
    requires t.Clear() && IsCommon(h) && NothingBehind(t, rules, h)
    ensures EarnedAfter(t, rules, p, h) == Weight(h)
  {
    CommonHeaders(p, h);
    assert t.Passes(p, h);
  }

  /** The score of every list after every profile. */
  lemma ScoreAfterApply(t: Texts, rules: seq<HeaderRule>, p: Profile)
    requires t.Clear()
    ensures Score(t, PutAll(t.fold, rules, GenerateRules(t, p))) ==
            EarnedAfter(t, rules, p, Hsts) + EarnedAfter(t, rules, p, Csp) + EarnedAfter(t, rules, p, Frame)
            + EarnedAfter(t, rules, p, ContentType) + EarnedAfter(t, rules, p, Referrer)
            + EarnedAfter(t, rules, p, Permissions)
  {
    EarnedAfterApply(t, rules, p, Hsts);
    EarnedAfterApply(t, rules, p, Csp);
    EarnedAfterApply(t, rules, p, Frame);
    EarnedAfterApply(t, rules, p, ContentType);
    EarnedAfterApply(t, rules, p, Referrer);
    EarnedAfterApply(t, rules, p, Permissions);
  }

  /** With no value behind the first rule of each audited name the score is 90 and what the permissions
      policy earns, whatever the list held before. */
  lemma {:induction false} UndisturbedScore(t: Texts, rules: seq<HeaderRule>, p: Profile)
    requires t.Clear() && forall h :: IsCommon(h) ==> NothingBehind(t, rules, h)
    ensures Score(t, PutAll(t.fold, rules, GenerateRules(t, p))) == 90 + EarnedAfter(t, rules, p, Permissions)
  {
    ScoreAfterApply(t, rules, p);
    forall h | IsCommon(h) ensures EarnedAfter(t, rules, p, h) == Weight(h) {
      UndisturbedEarnsAll(t, rules, p, h);
    }
    CommonWeights(h => EarnedAfter(t, rules, p, h));
  }

  lemma CommonWeights(earned: Header -> nat)
    requires forall h :: IsCommon(h) ==> earned(h) == Weight(h)
    ensures earned(Hsts) + earned(Csp) + earned(Frame) + earned(ContentType) + earned(Referrer) == 90
  {
  }

  /** Applying a profile is idempotent and leaves every rule that is not the first with one of its names
      where it was. The audit then detects the profile if and only if the list carries no other value for
      one of its names behind the first rule with that name; then the score is 100, or 90 when neither the
      profile nor the list sets a permissions policy. */
  lemma ApplyThenAudit(t: Texts, rules: seq<HeaderRule>, p: Profile)
    requires t.Clear()
    ensures var profile := GenerateRules(t, p); var result := PutAll(t.fold, rules, profile);
      && PutAll(t.fold, result, profile) == result
      && |rules| <= |result|
      && (forall i :: 0 <= i < |rules| && Untouched(t.fold, rules, profile, i) ==> result[i] == rules[i])
      && AllSet(profile)
      && (IsProfile(t, result, p) <==> AllUndisturbed(t.fold, rules, profile))
      && (IsProfile(t, result, p) ==>
            Score(t, result) ==
            if p == Strict || p == Balanced || Found(t.fold, rules, t.name(Permissions)).Some? then 100 else 90)
  {
    var profile := GenerateRules(t, p);
    var result := PutAll(t.fold, rules, profile);
    ProfileIsDistinct(t, p);
    ApplyIsIdempotent(t.fold, rules, profile);
    MissingAreAppended(t.fold, rules, profile);
    forall i | 0 <= i < |rules| && Untouched(t.fold, rules, profile, i) ensures result[i] == rules[i] {
      OthersStay(t.fold, rules, profile, i);
    }
    SeenIffUndisturbed(t.fold, rules, profile);
    if IsProfile(t, result, p) {
      ProfileScore(t, result, p);
      ReadAfterApply(t, rules, p, Permissions);
      CommonHeaders(p, Permissions);
    }
  }

  /** With at most one rule per name the applied profile is always the detected one. */
  lemma OnePerNameIsDetected(t: Texts, rules: seq<HeaderRule>, p: Profile)
    requires t.Clear() && DistinctNames(t.fold, rules)
    ensures IsProfile(t, PutAll(t.fold, rules, GenerateRules(t, p)), p)
  {
    var profile := GenerateRules(t, p);
    ProfileIsDistinct(t, p);
    SeenIffUndisturbed(t.fold, rules, profile);
    forall j | 0 <= j < |profile| ensures Undisturbed(t.fold, rules, profile[j]) {
      OnePerNameHasNoLater(t.fold, rules, profile[j].name, Carries);
    }
  }

  lemma RestIsUndisturbed(t: Texts, rules: seq<HeaderRule>, p: Profile)
    requires t.Clear() && Later(t.fold, rules, t.name(Hsts), Carries).None?
    requires forall i :: 0 <= i < |rules| ==> Named(t.fold, rules[i], t.name(Hsts))
    ensures AllSet(GenerateRules(t, p)) && AllUndisturbed(t.fold, rules, GenerateRules(t, p))
  {
    var hs, profile := Headers(p), GenerateRules(t, p);
    ProfileIsDistinct(t, p);
    forall j | 0 <= j < |profile| ensures Undisturbed(t.fold, rules, profile[j]) {
      assert t.NameIsOwn(hs[j]);
      if hs[j] != Hsts {
        forall i | 0 <= i < |rules| ensures !Named(t.fold, rules[i], profile[j].name) {
          assert Named(t.fold, rules[i], t.name(Hsts));
        }
        assert Position(t.fold, rules, profile[j].name) == |rules|;
      }
    }
  }

  /** A list in which a rule removes the header behind the one that sets it: the audit detects the profile
      and gives the full score, and the response carries no such header. */
  lemma RemovalIsNotSeen(t: Texts, px: Proxy, first: string, own: seq<string>)
    requires t.Clear() && px.compiles(Remove(t.name(Hsts)))
    ensures var rules := [Set(t.name(Hsts), first), Remove(t.name(Hsts))];
      var result := PutAll(t.fold, rules, GenerateRules(t, Strict));
      && IsProfile(t, result, Strict) && Score(t, result) == 100
      && Sent(t.fold, px, result, t.name(Hsts), own) == []
  {
    var rules := [Set(t.name(Hsts), first), Remove(t.name(Hsts))];
    var profile := GenerateRules(t, Strict);
    assert rules[1..] == [Remove(t.name(Hsts))] && Position(t.fold, rules, t.name(Hsts)) == 0;
    RemovalCarriesNothing(t.fold, Remove(t.name(Hsts)), t.name(Hsts));
    RestIsUndisturbed(t, rules, Strict);
    ApplyThenAudit(t, rules, Strict);
    ProfileIsDistinct(t, Strict);
    assert Headers(Strict)[0] == Hsts;
    LastAfterApply(t.fold, rules, profile, 0, Acts(px));
    LastRuleDecides(t.fold, px, PutAll(t.fold, rules, profile), t.name(Hsts), own);
  }

  /** A second rule for a name hides what the profile set, so the profile is not detected. */
  lemma SecondRuleHides(t: Texts, first: string, second: string)
    requires t.Clear() && t.fold(second) != t.fold(t.hsts(Strict))
    ensures var rules := [Set(t.name(Hsts), first), Append(t.name(Hsts), second)];
      !IsProfile(t, PutAll(t.fold, rules, GenerateRules(t, Strict)), Strict)
  {
    var rules := [Set(t.name(Hsts), first), Append(t.name(Hsts), second)];
    var profile := GenerateRules(t, Strict);
    ProfileIsDistinct(t, Strict);
    SeenIffUndisturbed(t.fold, rules, profile);
    assert Headers(Strict)[0] == Hsts && Position(t.fold, rules, t.name(Hsts)) == 0;
    assert rules[1..] == [Append(t.name(Hsts), second)];
    assert Later(t.fold, rules, t.name(Hsts), Carries) == Some(Append(t.name(Hsts), second));
    assert !Undisturbed(t.fold, rules, profile[0]);
  }

  // ---- The texts of the program

  function HeaderName(h: Header): string {
    match h
    case Hsts => "Strict-Transport-Security"
    case ContentType => "X-Content-Type-Options"
    case Frame => "X-Frame-Options"
    case Referrer => "Referrer-Policy"
    case Permissions => "Permissions-Policy"
    case Csp => "Content-Security-Policy"
    case Opener => "Cross-Origin-Opener-Policy"
    case Resource => "Cross-Origin-Resource-Policy"
    case Cache => "Cache-Control"
  }

  function HstsText(age: string, tail: string): string {
    "max-age=" + age + "includeSubDomains" + tail
  }

  function HstsValue(p: Profile): string {
    if p == Strict then HstsText("63072000; ", "; preload") else HstsText("31536000; ", "")
  }

  function CspTail(p: Profile): string {
    match p
    case Strict => " 'self'; " + "base-uri 'self'; " + "object-src 'none'; " + "frame-ancestors 'none'; "
        + "form-action 'self'"
    case Balanced =>
      " 'self'; " + "script-src 'self' 'unsafe-inline' " + "'unsafe-eval'; " + "style-src 'self' 'unsafe-inline'; "
      + "img-src 'self' data: https:; " + "font-src 'self' data:; " + "connect-src 'self'; " + "frame-ancestors 'self'"
    case ApiOnly => " 'none'; " + "frame-ancestors 'none'"
    case SpaFrontend =>
      " 'self'; " + "script-src 'self'; " + "style-src 'self' 'unsafe-inline'; " + "img-src 'self' data: blob:; "
      + "font-src 'self' data:; " + "connect-src 'self' wss: https:; " + "worker-src 'self' blob:; "
      + "frame-ancestors 'self'"
  }

  function CspValue(p: Profile): string {
    "default-src" + CspTail(p)
  }

  function FrameValue(p: Profile): string {
    if p == Strict || p == ApiOnly then "DENY" else "SAMEORIGIN"
  }

  function ReferrerValue(p: Profile): string {
    if p == Strict || p == ApiOnly then "no-referrer" + "" else "strict-origin" + "-when-cross-origin"
  }

  function PermissionsValue(p: Profile): string {
    if p == Strict then
      "accelerometer=(), " + "camera=(), " + "geolocation=(), " + "gyroscope=(), " + "magnetometer=(), "
      + "microphone=(), " + "payment=(), " + "usb=()"
    else "camera=(), " + "microphone=(), " + "geolocation=()"
  }

  function FixedValue(h: Header): string {
    match h
    case ContentType => "nosniff"
    case Cache => "no-store, max-age=0"
    case _ => "same-origin"
  }

  predicate AnyValue(v: string) { true }

  predicate GoodHsts(v: string) { Contains(ToLower(v), "max-age=") && Contains(ToLower(v), "includesubdomains") }

  predicate GoodCsp(v: string) { Contains(ToLower(v), "default-src") || Contains(ToLower(v), "script-src") }

  predicate GoodFrame(v: string) { Contains(ToUpper(v), "DENY") || Contains(ToUpper(v), "SAMEORIGIN") }

  predicate GoodContentType(v: string) { EqIgnoreCase(v, "nosniff") }

  predicate GoodReferrer(v: string) { Contains(ToLower(v), "strict-origin") || Contains(ToLower(v), "no-referrer") }

  function CheckOf(h: Header): Check {
    match h
    case Hsts => GoodHsts
    case Csp => GoodCsp
    case Frame => GoodFrame
    case ContentType => GoodContentType
    case Referrer => GoodReferrer
    case _ => AnyValue
  }

  function ProgramTexts(): Texts {
    Texts(ToLower, HeaderName, HstsValue, FrameValue, ReferrerValue, PermissionsValue, CspValue, FixedValue, CheckOf)
  }

  function NameLength(h: Header): nat {
    match h
    case Hsts => 25
    case ContentType => 22
    case Frame => 15
    case Referrer => 15
    case Permissions => 18
    case Csp => 23
    case Opener => 26
    case Resource => 28
    case Cache => 13
  }

  predicate HasShape(name: string, h: Header) {
    |name| == NameLength(h) && |name| > 0 && (h == Frame ==> name[0] == 'X') && (h == Referrer ==> name[0] == 'R')
  }

  lemma NameHasShape(h: Header)
    ensures HasShape(HeaderName(h), h)
  {
  }

  lemma ShapesDiffer(a: string, h: Header, b: string, k: Header)
    requires HasShape(a, h) && HasShape(b, k) && |a| == |b| && LowerChar(a[0]) == LowerChar(b[0])
    ensures h == k
  {
  }

  lemma SameFirst(a: string, b: string)
    requires EqIgnoreCase(a, b)
    ensures |a| == |b| && (|a| > 0 ==> LowerChar(a[0]) == LowerChar(b[0]))
  {
    assert |ToLower(a)| == |a| && |ToLower(b)| == |b|;
    if a != [] {
      assert ToLower(a)[0] == LowerChar(a[0]) && ToLower(b)[0] == LowerChar(b[0]);
    }
  }

  lemma NamesDiffer(h: Header, k: Header)
    requires EqIgnoreCase(HeaderName(h), HeaderName(k))
    ensures h == k
  {
    NameHasShape(h);
    NameHasShape(k);
    SameFirst(HeaderName(h), HeaderName(k));
    ShapesDiffer(HeaderName(h), h, HeaderName(k), k);
  }

  lemma UpperOfLowerChar(c: char, d: char)
    requires LowerChar(c) == LowerChar(d)
    ensures UpperChar(c) == UpperChar(d)
  {
  }

  lemma UpperOfLower(v: string, w: string)
    requires EqIgnoreCase(v, w)
    ensures ToUpper(v) == ToUpper(w)
  {
    var a, b, l, m := ToUpper(v), ToUpper(w), ToLower(v), ToLower(w);
    assert |l| == |v| && |m| == |w|;
    forall i | 0 <= i < |v| ensures a[i] == b[i] {
      assert l[i] == m[i];
      UpperOfLowerChar(v[i], w[i]);
    }
  }

  lemma GoodIgnoresCase(h: Header, v: string, w: string)
    requires EqIgnoreCase(v, w)
    ensures CheckOf(h)(v) == CheckOf(h)(w)
  {
    UpperOfLower(v, w);
  }

  lemma ContainsPart(a: string, part: string, b: string)
    ensures Contains(a + part + b, part)
  {
    assert (a + part + b)[|a|..][..|part|] == part;
  }

  lemma ContainsFirst(m: string, tail: string)
    ensures Contains(m + tail, m)
  {
    assert (m + tail)[0..][..|m|] == m;
  }

  lemma LowerContainsTwo(m: string, d: string, i: string, tail: string)
    ensures Contains(ToLower(m + d + i + tail), ToLower(m)) && Contains(ToLower(m + d + i + tail), ToLower(i))
  {
    LowerAppend(m + d + i, tail);
    LowerAppend(m + d, i);
    LowerAppend(m, d);
    InBoth(ToLower(m), ToLower(d), ToLower(i), ToLower(tail));
  }

  lemma InBoth(m: string, d: string, i: string, tail: string)
    ensures Contains(m + d + i + tail, m) && Contains(m + d + i + tail, i)
  {
    ContainsFirst(m, d + i + tail);
    assert m + (d + i + tail) == m + d + i + tail;
    ContainsPart(m + d, i, tail);
  }

  lemma LowerContainsFirst(m: string, tail: string)
    ensures Contains(ToLower(m + tail), ToLower(m))
  {
    LowerAppend(m, tail);
    ContainsFirst(ToLower(m), ToLower(tail));
  }

  lemma AlreadyLower(s: string)
    requires forall i :: 0 <= i < |s| ==> !IsUpper(s[i])
    ensures ToLower(s) == s
  {
    var l := ToLower(s);
    forall i | 0 <= i < |s| ensures l[i] == s[i] {
      assert !IsUpper(s[i]);
    }
  }

  lemma LowerOf(s: string, l: string)
    requires |s| == |l| && forall i :: 0 <= i < |s| ==> LowerChar(s[i]) == l[i]
    ensures ToLower(s) == l
  {
    var t := ToLower(s);
    forall i | 0 <= i < |s| ensures t[i] == l[i] {
      assert LowerChar(s[i]) == l[i];
    }
  }

  lemma MaxAgeIsLower()
    ensures ToLower("max-age=") == "max-age="
  {
    AlreadyLower("max-age=");
  }

  lemma SubDomainsIsLower()
    ensures ToLower("includeSubDomains") == "includesubdomains"
  {
    LowerOf("includeSubDomains", "includesubdomains");
  }

  lemma DefaultSrcIsLower()
    ensures ToLower("default-src") == "default-src"
  {
    AlreadyLower("default-src");
  }

  lemma StrictOriginIsLower()
    ensures ToLower("strict-origin") == "strict-origin"
  {
    AlreadyLower("strict-origin");
  }

  lemma NoReferrerIsLower()
    ensures ToLower("no-referrer") == "no-referrer"
  {
    AlreadyLower("no-referrer");
  }

  // ---- What the checks look for

  /** The part occurs in the value, in any case. */
  ghost predicate Occurs(part: string, v: string) {
    exists i :: OccursAt(part, v, i)
  }

  ghost predicate OccursAt(part: string, v: string, i: int) {
    0 <= i <= |v| - |part| && EqIgnoreCase(v[i..i + |part|], part)
  }

  lemma OccursHere(part: string, lower: string, v: string, i: int)
    requires ToLower(part) == lower && 0 <= i <= |v| - |part|
    ensures ToLower(v)[i..][..|part|] == lower <==> OccursAt(part, v, i)
  {
    var m, l := v[i..i + |part|], ToLower(v)[i..][..|part|];
    assert ToLower(m) == l;
  }

  lemma OccursIff(part: string, lower: string, v: string)
    requires ToLower(part) == lower
    ensures Occurs(part, v) <==> Contains(ToLower(v), lower)
  {
    if i :| OccursAt(part, v, i) { OccursHere(part, lower, v, i); }
    if Contains(ToLower(v), lower) {
      var i :| 0 <= i <= |ToLower(v)| - |lower| && ToLower(v)[i..][..|lower|] == lower;
      OccursHere(part, lower, v, i);
    }
  }

  lemma LowerOfUpper(a: string, b: string)
    requires ToUpper(a) == ToUpper(b)
    ensures EqIgnoreCase(a, b)
  {
    var u, w, l, m := ToUpper(a), ToUpper(b), ToLower(a), ToLower(b);
    assert |u| == |a| && |w| == |b|;
    forall i | 0 <= i < |a| ensures l[i] == m[i] {
      assert u[i] == w[i];
      LowerOfUpperChar(a[i], b[i]);
    }
  }

  lemma LowerOfUpperChar(c: char, d: char)
    requires UpperChar(c) == UpperChar(d)
    ensures LowerChar(c) == LowerChar(d)
  {
  }

  lemma OccursUpperHere(part: string, v: string, i: int)
    requires ToUpper(part) == part && 0 <= i <= |v| - |part|
    ensures ToUpper(v)[i..][..|part|] == part <==> OccursAt(part, v, i)
  {
    var m, u := v[i..i + |part|], ToUpper(v)[i..][..|part|];
    assert ToUpper(m) == u;
    if EqIgnoreCase(m, part) { UpperOfLower(m, part); }
    if ToUpper(m) == ToUpper(part) { LowerOfUpper(m, part); }
  }

  lemma OccursUpper(part: string, v: string)
    requires ToUpper(part) == part
    ensures Occurs(part, v) <==> Contains(ToUpper(v), part)
  {
    if i :| OccursAt(part, v, i) { OccursUpperHere(part, v, i); }
    if Contains(ToUpper(v), part) {
      var i :| 0 <= i <= |ToUpper(v)| - |part| && ToUpper(v)[i..][..|part|] == part;
      OccursUpperHere(part, v, i);
    }
  }

  lemma {:induction false} AlreadyUpper(s: string)
    requires forall i :: 0 <= i < |s| ==> !IsLower(s[i])
    ensures ToUpper(s) == s
  {
    var u := ToUpper(s);
    forall i | 0 <= i < |s| ensures u[i] == s[i] {
      assert !IsLower(s[i]);
    }
  }

  /** What makes a value good, in any case of the letters. */
  lemma HstsNeeds(v: string)
    ensures CheckOf(Hsts)(v) <==> Occurs("max-age=", v) && Occurs("includeSubDomains", v)
  {
    MaxAgeIsLower();
    SubDomainsIsLower();
    OccursIff("max-age=", "max-age=", v);
    OccursIff("includeSubDomains", "includesubdomains", v);
  }

  lemma CspNeeds(v: string)
    ensures CheckOf(Csp)(v) <==> Occurs("default-src", v) || Occurs("script-src", v)
  {
    DefaultSrcIsLower();
    AlreadyLower("script-src");
    OccursIff("default-src", "default-src", v);
    OccursIff("script-src", "script-src", v);
  }

  lemma FrameNeeds(v: string)
    ensures CheckOf(Frame)(v) <==> Occurs("DENY", v) || Occurs("SAMEORIGIN", v)
  {
    AlreadyUpper("DENY");
    AlreadyUpper("SAMEORIGIN");
    OccursUpper("DENY", v);
    OccursUpper("SAMEORIGIN", v);
  }

  lemma ReferrerNeeds(v: string)
    ensures CheckOf(Referrer)(v) <==> Occurs("strict-origin", v) || Occurs("no-referrer", v)
  {
    StrictOriginIsLower();
    NoReferrerIsLower();
    OccursIff("strict-origin", "strict-origin", v);
    OccursIff("no-referrer", "no-referrer", v);
  }

  lemma HstsIsGood(age: string, tail: string)
    ensures GoodHsts(HstsText(age, tail))
  {
    MaxAgeIsLower();
    SubDomainsIsLower();
    LowerContainsTwo("max-age=", age, "includeSubDomains", tail);
  }

  lemma CspIsGood(tail: string)
    ensures GoodCsp("default-src" + tail)
  {
    DefaultSrcIsLower();
    LowerContainsFirst("default-src", tail);
  }

  lemma StrictOriginIsGood(tail: string)
    ensures GoodReferrer("strict-origin" + tail)
  {
    StrictOriginIsLower();
    LowerContainsFirst("strict-origin", tail);
  }

  lemma NoReferrerIsGood(tail: string)
    ensures GoodReferrer("no-referrer" + tail)
  {
    NoReferrerIsLower();
    LowerContainsFirst("no-referrer", tail);
  }

  lemma FrameIsGood(p: Profile)
    ensures GoodFrame(FrameValue(p))
  {
    var v := FrameValue(p);
    assert ToUpper(v) == v && v[0..][..|v|] == v;
  }

  lemma HstsDiffers(p: Profile)
    requires p != Strict
    ensures |HstsValue(Strict)| != |HstsValue(p)|
  {
  }

  lemma CspDiffers()
    ensures |CspValue(Balanced)| != |CspValue(SpaFrontend)|
  {
  }

  lemma LengthsDiffer(v: string, w: string)
    requires |v| != |w|
    ensures !EqIgnoreCase(v, w)
  {
  }

  lemma {:induction false} DifferByLength(p: Profile, q: Profile, h: Header)
    requires h == Telling(p, q) && |ProgramTexts().Value(p, h)| != |ProgramTexts().Value(q, h)|
    ensures ProgramTexts().Differ(p, q)
  {
    LengthsDiffer(ProgramTexts().Value(p, h), ProgramTexts().Value(q, h));
  }

  lemma {:induction false} FrameDiffers(p: Profile, q: Profile)
    requires (p == ApiOnly) != (q == ApiOnly) && p != Strict && q != Strict
    ensures |FrameValue(p)| != |FrameValue(q)|
  {
  }

  lemma {:induction false} ProfilesDiffer(p: Profile, q: Profile)
    ensures ProgramTexts().Differ(p, q)
  {
    if p == q {
    } else if p == Strict {
      HstsDiffers(q);
      DifferByLength(p, q, Hsts);
    } else if q == Strict {
      HstsDiffers(p);
      DifferByLength(p, q, Hsts);
    } else if p == ApiOnly || q == ApiOnly {
      FrameDiffers(p, q);
      DifferByLength(p, q, Frame);
    } else {
      CspDiffers();
      DifferByLength(p, q, Csp);
    }
  }

  lemma ProgramNameIsOwn(h: Header)
    ensures ProgramTexts().NameIsOwn(h)
  {
    forall k | EqIgnoreCase(HeaderName(h), HeaderName(k)) ensures h == k {
      NamesDiffer(h, k);
    }
  }

  lemma ProgramIgnoresCase(h: Header)
    ensures ProgramTexts().IgnoresCase(h)
  {
    var t := ProgramTexts();
    forall v, w | t.fold(v) == t.fold(w) ensures t.good(h)(v) == t.good(h)(w) {
      GoodIgnoresCase(h, v, w);
    }
  }

  lemma HstsPasses(p: Profile)
    ensures GoodHsts(HstsValue(p))
  {
    if p == Strict {
      HstsIsGood("63072000; ", "; preload");
    } else {
      HstsIsGood("31536000; ", "");
    }
  }

  lemma ReferrerPasses(p: Profile)
    ensures GoodReferrer(ReferrerValue(p))
  {
    if p == Strict || p == ApiOnly {
      NoReferrerIsGood("");
    } else {
      StrictOriginIsGood("-when-cross-origin");
    }
  }

  lemma CspPasses(p: Profile)
    ensures GoodCsp(CspValue(p))
  {
    CspIsGood(CspTail(p));
  }

  lemma ProgramPasses(p: Profile, h: Header)
    ensures ProgramTexts().Passes(p, h)
  {
    match h {
      case Hsts => HstsPasses(p);
      case Csp => CspPasses(p);
      case Frame => FrameIsGood(p);
      case Referrer => ReferrerPasses(p);
      case _ =>
    }
  }

  lemma ProgramIsClear()
    ensures ProgramTexts().Clear()
  {
    forall h ensures ProgramTexts().NameIsOwn(h) { ProgramNameIsOwn(h); }
    forall h ensures ProgramTexts().IgnoresCase(h) { ProgramIgnoresCase(h); }
    forall p, h ensures ProgramTexts().Passes(p, h) { ProgramPasses(p, h); }
    forall p, q ensures ProgramTexts().Differ(p, q) { ProfilesDiffer(p, q); }
  }
}
