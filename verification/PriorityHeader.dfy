/** The `Priority` header of RFC 9218: members `u=<urgency>` and `i`, separated by commas. */
module PriorityHeader {
  import opened Basics
  import opened Text
  import Decimal

  datatype Priority = Priority(urgency: nat, incremental: bool)

  datatype Member = Urgency(u: nat) | Incremental(on: bool)

  function ParseUrgency(text: string): Option<Member> {
    match Decimal.Parse(Trim(text), 255)
    case None => None
    case Some(u) => Some(Urgency(if u < 7 then u else 7))
  }

  /** One member, trimmed. */
  function ParseMember(m: string): Option<Member> {
    if |m| >= 2 && m[0] == 'u' && m[1] == '=' then ParseUrgency(m[2..])
    else if |m| >= 3 && m[0] == 'u' && m[1] == ' ' && m[2] == '=' then ParseUrgency(m[3..])
    else if m == "i" || m == "i=?1" || m == "i=1" then Some(Incremental(true))
    else if m == "i=?0" || m == "i=0" then Some(Incremental(false))
    else None
  }

  /** How one trimmed member is read. */
  type Reader = string -> Option<Member>

  function Members(read: Reader, parts: seq<string>): seq<Option<Member>> {
    if parts == [] then [] else [read(Trim(parts[0]))] + Members(read, parts[1..])
  }

  function ToHeaderValue(p: Priority): string {
    if p.incremental then "u=" + Decimal.Print(p.urgency) + ", i" else "u=" + Decimal.Print(p.urgency)
  }

  /** No urgency above 7, and nothing in an empty member. */
  ghost predicate Clamps(read: Reader) {
    read([]) == None && forall m :: read(m).Some? && read(m).value.Urgency? ==> read(m).value.u <= 7
  }

  lemma ProgramClamps()
    ensures Clamps(ParseMember)
  {
  }

  // ---- What a list of members means

  /** The last member that the test accepts, or the length. */
  function LastOf(ms: seq<Option<Member>>, test: Member -> bool): (i: nat)
    ensures i <= |ms|
    ensures i < |ms| ==> ms[i].Some? && test(ms[i].value)
    ensures forall k :: 0 <= k < |ms| && ms[k].Some? && test(ms[k].value) ==> i < |ms| && k <= i
  {
    if ms == [] then 0
    else
      var n := |ms| - 1;
      if ms[n].Some? && test(ms[n].value) then n
      else
        var i := LastOf(ms[..n], test);
        if i == n then |ms| else i
  }

  predicate IsUrgency(m: Member) { m.Urgency? }

  predicate IsIncremental(m: Member) { m.Incremental? }

  /** What a member at the end does to a meaning. */
  function Extended(p: Option<Priority>, m: Option<Member>): Option<Priority> {
    match m
    case None => p
    case Some(Urgency(u)) => Some(Priority(u, p.Some? && p.value.incremental))
    case Some(Incremental(on)) => Some(Priority(if p.Some? then p.value.urgency else 3, on))
  }

  function Meaning(ms: seq<Option<Member>>): Option<Priority> {
    if ms == [] then None else Extended(Meaning(ms[..|ms| - 1]), ms[|ms| - 1])
  }

  /** Nothing when no member is recognised; otherwise the last urgency, or 3, and the last flag. */
  lemma {:induction false} LastMembersDecide(ms: seq<Option<Member>>)
    ensures var u, i := LastOf(ms, IsUrgency), LastOf(ms, IsIncremental);
      Meaning(ms) == if u == |ms| && i == |ms| then None
                     else Some(Priority(if u < |ms| then ms[u].value.u else 3, i < |ms| && ms[i].value.on))
  {
    if ms != [] { LastMembersDecide(ms[..|ms| - 1]); }
  }

  function Parse(read: Reader, header: string): Option<Priority> {
    Meaning(Members(read, Split(header, ',')))
  }

  /** The loop reads the trimmed header, which means the same. */
  method ParseRfc9218Priority(read: Reader, header: string) returns (r: Option<Priority>)
    requires Clamps(read)
    ensures r == Parse(read, header)
    ensures r.Some? ==> r.value.urgency <= 7
  {
    var s := Trim(header);
    TrimIsInvisible(read, header);
    if s == [] {
      NothingInEmpty(read);
      return None;
    }
    r := ReadParts(read, Split(s, ','));
  }

  method ReadParts(read: Reader, parts: seq<string>) returns (r: Option<Priority>)
    requires Clamps(read)
    ensures r == Meaning(Members(read, parts))
    ensures r.Some? ==> r.value.urgency <= 7
  {
    var urgency, incremental, parsedAny := None, false, false;
    ghost var ms := Members(read, parts);
    MembersAt(read, parts);
    for k := 0 to |parts|
      invariant Meaning(ms[..k]) == Gathered(parsedAny, urgency, incremental)
      invariant !parsedAny ==> urgency.None? && !incremental
      invariant urgency.Some? ==> urgency.value <= 7
    {
      assert ms[..k + 1] == ms[..k] + [ms[k]];
      MeaningOfMore(ms[..k], ms[k]);
      match read(Trim(parts[k])) {
        case None =>
        case Some(Urgency(u)) => parsedAny := true; urgency := Some(u);
        case Some(Incremental(on)) => parsedAny := true; incremental := on;
      }
    }
    assert ms[..|ms|] == ms;
    return Gathered(parsedAny, urgency, incremental);
  }

  function Gathered(parsedAny: bool, urgency: Option<nat>, incremental: bool): Option<Priority> {
    if parsedAny then Some(Priority(if urgency.Some? then urgency.value else 3, incremental)) else None
  }

  lemma {:induction false} MembersAt(read: Reader, parts: seq<string>)
    ensures |Members(read, parts)| == |parts|
    ensures forall k :: 0 <= k < |parts| ==> Members(read, parts)[k] == read(Trim(parts[k]))
  {
    if parts != [] { MembersAt(read, parts[1..]); }
  }

  lemma MembersAppend(read: Reader, a: seq<string>, b: seq<string>)
    ensures Members(read, a + b) == Members(read, a) + Members(read, b)
  {
    MembersAt(read, a);
    MembersAt(read, b);
    MembersAt(read, a + b);
  }

  // ---- Whitespace around the header

  lemma PadFront(read: Reader, a: string, s: string)
    requires Blank(a)
    ensures Members(read, Split(a + s, ',')) == Members(read, Split(s, ','))
  {
    BlankHasNoComma(a);
    if ',' !in s {
      SplitOne(s, ',');
      SplitOne(a + s, ',');
      TrimFront(a, s);
    } else {
      SplitOnceParts(s, ',');
      var (x, y) := SplitOnce(s, ',').value;
      PadFirst(read, a, x, y);
    }
  }

  lemma PadFirst(read: Reader, a: string, x: string, y: string)
    requires Blank(a) && ',' !in x
    ensures Members(read, Split(a + (x + [','] + y), ',')) == Members(read, Split(x + [','] + y, ','))
  {
    BlankHasNoComma(a);
    assert a + (x + [','] + y) == (a + x) + [','] + y;
    SplitOnceOf(a + x, ',', y);
    SplitOnceOf(x, ',', y);
    TrimFront(a, x);
  }

  lemma TrimFront(a: string, s: string)
    requires Blank(a)
    ensures Trim(a + s) == Trim(s)
  {
    assert a + s == a + s + [];
    TrimPadded(a, s, []);
  }

  lemma {:induction false} PadBack(read: Reader, s: string, b: string)
    requires Blank(b)
    ensures Members(read, Split(s + b, ',')) == Members(read, Split(s, ','))
    decreases |s|
  {
    BlankHasNoComma(b);
    if ',' !in s {
      SplitOne(s, ',');
      SplitOne(s + b, ',');
      assert s + b == [] + s + b;
      TrimPadded([], s, b);
    } else {
      SplitOnceParts(s, ',');
      var (x, y) := SplitOnce(s, ',').value;
      assert s + b == x + [','] + (y + b);
      SplitOnceOf(x, ',', y + b);
      PadBack(read, y, b);
    }
  }

  lemma BlankHasNoComma(a: string)
    requires Blank(a)
    ensures ',' !in a
  {
  }

  lemma TrimIsInvisible(read: Reader, header: string)
    ensures Members(read, Split(Trim(header), ',')) == Members(read, Split(header, ','))
  {
    var a, b := TrimParts(header);
    var s := Trim(header);
    assert header == a + (s + b);
    PadFront(read, a, s + b);
    PadBack(read, s, b);
  }

  lemma NothingInEmpty(read: Reader)
    requires read([]) == None
    ensures Parse(read, []) == None
  {
    SplitOne([], ',');
    TrimTrimmed([]);
    assert Members(read, [[]]) == [] + [read([])];
    MeaningOfMore([], read([]));
  }

  // ---- One more member

  lemma MeaningOfMore(ms: seq<Option<Member>>, m: Option<Member>)
    ensures Meaning(ms + [m]) == Extended(Meaning(ms), m)
  {
    assert (ms + [m])[..|ms|] == ms;
  }

  /** The last member of each kind wins: a member at the end overrides its kind and nothing else. */
  lemma LastMemberWins(read: Reader, header: string, m: string)
    requires ',' !in m
    ensures Parse(read, header + [','] + m) == Extended(Parse(read, header), read(Trim(m)))
  {
    SplitJoined(header, ',', m);
    SplitOne(m, ',');
    MembersAppend(read, Split(header, ','), [m]);
    assert Members(read, [m]) == [read(Trim(m))];
    MeaningOfMore(Members(read, Split(header, ',')), read(Trim(m)));
  }

  lemma {:induction false} MeaningSkips(a: seq<Option<Member>>, b: seq<Option<Member>>)
    ensures Meaning(a + [None] + b) == Meaning(a + b)
  {
    if b == [] {
      assert a + [None] + b == a + [None] && a + b == a;
      MeaningOfMore(a, None);
    } else {
      var n := |b| - 1;
      MeaningSkips(a, b[..n]);
      assert a + [None] + b == (a + [None] + b[..n]) + [b[n]] && a + b == (a + b[..n]) + [b[n]];
      MeaningOfMore(a + [None] + b[..n], b[n]);
      MeaningOfMore(a + b[..n], b[n]);
    }
  }

  /** A member that is not recognised changes nothing, wherever it stands. */
  lemma UnrecognisedIsInvisible(read: Reader, a: string, m: string, b: string)
    requires ',' !in m && read(Trim(m)) == None
    ensures Parse(read, a + [','] + m + [','] + b) == Parse(read, a + [','] + b)
    ensures Parse(read, m + [','] + b) == Parse(read, b)
    ensures Parse(read, a + [','] + m) == Parse(read, a)
  {
    var sa, sb := Split(a, ','), Split(b, ',');
    SplitOne(m, ',');
    SplitJoined(a, ',', m);
    SplitJoined(a + [','] + m, ',', b);
    SplitJoined(a, ',', b);
    SplitJoined(m, ',', b);
    MembersAppend(read, sa + [m], sb);
    MembersAppend(read, sa, [m]);
    MembersAppend(read, sa, sb);
    MembersAppend(read, [m], sb);
    assert Members(read, [m]) == [None];
    SkipAnywhere(Members(read, sa), Members(read, sb));
  }

  lemma SkipAnywhere(a: seq<Option<Member>>, b: seq<Option<Member>>)
    ensures Meaning(a + [None] + b) == Meaning(a + b)
    ensures Meaning([None] + b) == Meaning(b)
    ensures Meaning(a + [None]) == Meaning(a)
  {
    MeaningSkips(a, b);
    MeaningSkips([], b);
    assert [] + [None] + b == [None] + b && [] + b == b;
    MeaningOfMore(a, None);
  }

  // ---- Printing and reading

  lemma UrgencyReads(u: nat)
    requires u <= 255
    ensures var m := "u=" + Decimal.Print(u);
      ',' !in m && Trim(m) == m && ParseMember(m) == Some(Urgency(if u < 7 then u else 7))
  {
    var d := Decimal.Print(u);
    var m := "u=" + d;
    assert m[2..] == d;
    TrimTrimmed(d);
    TrimTrimmed(m);
    Decimal.ParseOfPrint(u, 255);
  }

  lemma FlagReads()
    ensures ',' !in " i" && ParseMember(Trim(" i")) == Some(Incremental(true))
  {
    TrimPadded(" ", "i", "");
    TrimTrimmed("i");
    assert " " + "i" + "" == " i";
  }

  /** Reading a printed priority gives it back with its urgency clamped to 7, so exactly the priorities
      with an urgency up to 7 are read back unchanged. */
  lemma PrintedReadsBack(p: Priority)
    requires p.urgency <= 255
    ensures Parse(ParseMember, ToHeaderValue(p)) ==
            Some(Priority(if p.urgency < 7 then p.urgency else 7, p.incremental))
  {
    var m := "u=" + Decimal.Print(p.urgency);
    UrgencyReads(p.urgency);
    SplitOne(m, ',');
    assert Members(ParseMember, [m]) == [] + [ParseMember(m)];
    MeaningOfMore([], ParseMember(m));
    if p.incremental {
      FlagReads();
      assert ToHeaderValue(p) == m + [','] + " i";
      LastMemberWins(ParseMember, m, " i");
    }
  }
}
