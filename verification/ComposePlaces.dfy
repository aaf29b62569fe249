/** The topology of a Compose document, edge by edge and node by node: every place that calls for an edge
    gives exactly one, in the order of the document before the sort. */
module ComposePlaces {
  import opened Basics
  import opened Topology
  import opened Sorting
  import opened Compose
  import opened ComposeEdges

  ghost predicate InOrder(ps: seq<Place>) {
    forall k, l :: 0 <= k < l < |ps| ==> Before(ps[k], ps[l])
  }

  // ---- Stretches of a document

  /** The number of the section of a place. */
  function Number(p: Place): nat {
    6 * p.entry + Rank(p.section)
  }

  ghost predicate Within(p: Place, a: nat, b: nat) {
    a <= Number(p) < b
  }

  /** What a place calls for. */
  type Relation = (Place, Mention) -> bool

  /** The mentions are those that the places of a stretch of the document call for, in order. */
  ghost predicate Piece(calls: Relation, ms: seq<Mention>, ps: seq<Place>, a: nat, b: nat) {
    && |ms| == |ps| && InOrder(ps)
    && (forall k :: 0 <= k < |ps| ==> calls(ps[k], ms[k]) && Within(ps[k], a, b))
    && (forall p, m :: calls(p, m) && Within(p, a, b) ==> p in ps)
  }

  lemma LowerIsBefore(p: Place, q: Place)
    requires Number(p) < Number(q)
    ensures Before(p, q)
  {
  }

  lemma {:induction false} SortedJoin(ps: seq<Place>, qs: seq<Place>, b: nat)
    requires InOrder(ps) && InOrder(qs)
    requires forall k :: 0 <= k < |ps| ==> Number(ps[k]) < b
    requires forall k :: 0 <= k < |qs| ==> b <= Number(qs[k])
    ensures InOrder(ps + qs)
  {
    var all := ps + qs;
    forall k, l | 0 <= k < l < |all| ensures Before(all[k], all[l]) {
      if k < |ps| <= l {
        assert all[k] == ps[k] && all[l] == qs[l - |ps|];
        LowerIsBefore(ps[k], qs[l - |ps|]);
      } else if l < |ps| {
        assert all[k] == ps[k] && all[l] == ps[l];
      } else {
        assert all[k] == qs[k - |ps|] && all[l] == qs[l - |ps|];
      }
    }
  }

  lemma {:induction false} Combine(
    calls: Relation, ms: seq<Mention>, ps: seq<Place>, a: nat, b: nat, ns: seq<Mention>, qs: seq<Place>, c: nat)
    requires a <= b <= c && Piece(calls, ms, ps, a, b) && Piece(calls, ns, qs, b, c)
    ensures Piece(calls, ms + ns, ps + qs, a, c)
  {
    var all, pall := ms + ns, ps + qs;
    forall k | 0 <= k < |ps| ensures Number(ps[k]) < b { assert Within(ps[k], a, b); }
    forall k | 0 <= k < |qs| ensures b <= Number(qs[k]) { assert Within(qs[k], b, c); }
    SortedJoin(ps, qs, b);
    forall k | 0 <= k < |pall| ensures calls(pall[k], all[k]) && Within(pall[k], a, c) {
      if k < |ps| {
        assert pall[k] == ps[k] && all[k] == ms[k] && Within(ps[k], a, b);
      } else {
        assert pall[k] == qs[k - |ps|] && all[k] == ns[k - |ps|] && Within(qs[k - |ps|], b, c);
      }
    }
    forall p, m | calls(p, m) && Within(p, a, c) ensures p in pall {
      if Number(p) < b { assert Within(p, a, b) && p in ps; } else { assert Within(p, b, c) && p in qs; }
    }
  }

  lemma EmptyPiece(calls: Relation, a: nat, b: nat)
    requires forall p, m :: calls(p, m) ==> !Within(p, a, b)
    ensures Piece(calls, [], [], a, b)
  {
  }

  // ---- One service

  /** What an item of a section of one service calls for. */
  type Body = (Section, nat, Mention) -> bool

  /** The mentions of a section with the items that call for them, in order and without a gap. */
  ghost predicate FromSection(calls: Body, s: Section, ms: seq<Mention>, ks: seq<nat>) {
    && |ms| == |ks| && Ascends(ks)
    && (forall k :: 0 <= k < |ks| ==> calls(s, ks[k], ms[k]))
    && (forall j: nat, m :: calls(s, j, m) ==> j in ks)
  }

  ghost predicate IsService(calls: Relation, body: Body, i: nat) {
    forall s, j, m :: calls(Place(i, s, j), m) <==> body(s, j, m)
  }

  function PlacesAt(i: nat, s: Section, ks: seq<nat>): (ps: seq<Place>)
    ensures |ps| == |ks| && forall k :: 0 <= k < |ks| ==> ps[k] == Place(i, s, ks[k])
  {
    seq(|ks|, k requires 0 <= k < |ks| => Place(i, s, ks[k]))
  }

  lemma NumberIs(p: Place, i: nat, s: Section)
    ensures Within(p, 6 * i + Rank(s), 6 * i + Rank(s) + 1) <==> p.entry == i && p.section == s
  {
  }

  lemma {:induction false} SectionPiece(
    calls: Relation, body: Body, i: nat, s: Section, ms: seq<Mention>, ks: seq<nat>)
    requires IsService(calls, body, i) && FromSection(body, s, ms, ks)
    ensures Piece(calls, ms, PlacesAt(i, s, ks), 6 * i + Rank(s), 6 * i + Rank(s) + 1)
  {
    var ps, n := PlacesAt(i, s, ks), 6 * i + Rank(s);
    forall k | 0 <= k < |ps| ensures calls(ps[k], ms[k]) && Within(ps[k], n, n + 1) {
      NumberIs(ps[k], i, s);
      assert calls(Place(i, s, ks[k]), ms[k]) <==> body(s, ks[k], ms[k]);
    }
    forall p, m | calls(p, m) && Within(p, n, n + 1) ensures p in ps {
      NumberIs(p, i, s);
      assert calls(Place(i, s, p.item), m) <==> body(s, p.item, m);
      var k :| 0 <= k < |ks| && ks[k] == p.item;
      assert ps[k] == p;
    }
  }

  lemma {:induction false} ServicePiece(
    calls: Relation, body: Body, i: nat, ms: Section -> seq<Mention>, ks: Section -> seq<nat>)
    returns (ps: seq<Place>)
    requires IsService(calls, body, i) && forall s :: FromSection(body, s, ms(s), ks(s))
    ensures Piece(calls, ms(DependencyList) + ms(DependencyMap) + ms(NetworkList) + ms(NetworkMap) + ms(VolumeList)
                         + ms(LinkList), ps, 6 * i, 6 * i + 6)
  {
    forall s ensures Piece(calls, ms(s), PlacesAt(i, s, ks(s)), 6 * i + Rank(s), 6 * i + Rank(s) + 1) {
      SectionPiece(calls, body, i, s, ms(s), ks(s));
    }
    ps := SixPieces(calls, ms, s => PlacesAt(i, s, ks(s)), 6 * i);
  }

  lemma {:induction false} SixPieces(
    calls: Relation, ms: Section -> seq<Mention>, ps: Section -> seq<Place>, n: nat) returns (all: seq<Place>)
    requires forall s :: Piece(calls, ms(s), ps(s), n + Rank(s), n + Rank(s) + 1)
    ensures Piece(calls, ms(DependencyList) + ms(DependencyMap) + ms(NetworkList) + ms(NetworkMap) + ms(VolumeList)
                         + ms(LinkList), all, n, n + 6)
  {
    var m, p := ms(DependencyList), ps(DependencyList);
    m, p := Behind(calls, m, p, n, 1, ms, ps, DependencyMap);
    m, p := Behind(calls, m, p, n, 2, ms, ps, NetworkList);
    m, p := Behind(calls, m, p, n, 3, ms, ps, NetworkMap);
    m, p := Behind(calls, m, p, n, 4, ms, ps, VolumeList);
    m, p := Behind(calls, m, p, n, 5, ms, ps, LinkList);
    all := p;
  }

  lemma {:induction false} Behind(
    calls: Relation, m: seq<Mention>, p: seq<Place>, n: nat, r: nat,
    ms: Section -> seq<Mention>, ps: Section -> seq<Place>, s: Section) returns (m': seq<Mention>, p': seq<Place>)
    requires Piece(calls, m, p, n, n + r) && Rank(s) == r && Piece(calls, ms(s), ps(s), n + r, n + r + 1)
    ensures m' == m + ms(s) && Piece(calls, m', p', n, n + r + 1)
  {
    Combine(calls, m, p, n, n + r, ms(s), ps(s), n + r + 1);
    m', p' := m + ms(s), p + ps(s);
  }

  // ---- The services of a document

  lemma ServiceIsEntry(doc: seq<(Yaml, Yaml)>, i: nat, name: string, body: Yaml)
    ensures ServiceAt(doc, i, name, body) <==>
            i < |AsMap(Get(doc, "services"))| && AsMap(Get(doc, "services"))[i] == (Str(name), body)
  {
    if m :| Holds(doc, "services", Map(m)) && i < |m| && m[i] == (Str(name), body) {
      HoldsIsGet(doc, "services", Map(m));
    }
    var m := AsMap(Get(doc, "services"));
    if i < |m| && m[i] == (Str(name), body) {
      HoldsIsGet(doc, "services", Map(m));
    }
  }

  lemma CallsOfService(ids: Ids, doc: seq<(Yaml, Yaml)>, p: Place, m: Mention, name: string, body: seq<(Yaml, Yaml)>)
    requires p.entry < |AsMap(Get(doc, "services"))|
    requires AsMap(Get(doc, "services"))[p.entry] == (Str(name), Map(body))
    ensures Calls(ids, doc, p, m) <==> CallsIn(ids, ids.service(name), body, p.section, p.item, m)
  {
    if Calls(ids, doc, p, m) {
      var name', body' :| ServiceAt(doc, p.entry, name', Map(body'))
        && CallsIn(ids, ids.service(name'), body', p.section, p.item, m);
      ServiceIsEntry(doc, p.entry, name', Map(body'));
    }
    ServiceIsEntry(doc, p.entry, name, Map(body));
  }

  /** Only an entry that is a service with a mapping calls for something. */
  lemma OnlyServicesCall(ids: Ids, doc: seq<(Yaml, Yaml)>, p: Place, m: Mention)
    requires Calls(ids, doc, p, m)
    ensures p.entry < |AsMap(Get(doc, "services"))|
    ensures var e := AsMap(Get(doc, "services"))[p.entry]; e.0.Str? && e.1.Map?
  {
    var name, body :| ServiceAt(doc, p.entry, name, Map(body))
      && CallsIn(ids, ids.service(name), body, p.section, p.item, m);
    ServiceIsEntry(doc, p.entry, name, Map(body));
  }

  /** The relation that a service with this body follows. */
  ghost predicate Follows(calls: Relation, ids: Ids, i: nat, entry: (Yaml, Yaml)) {
    if entry.0.Str? && entry.1.Map? then
      forall s, j, m :: calls(Place(i, s, j), m) <==>
                        CallsIn(ids, ids.service(entry.0.s), entry.1.entries, s, j, m)
    else forall p, m :: calls(p, m) ==> p.entry != i
  }

  function EntryMentions(ids: Ids, entry: (Yaml, Yaml)): seq<Mention> {
    if entry.0.Str? then ServiceMentions(ids, ids.service(entry.0.s), AsMap(Some(entry.1))) else []
  }

  function DocumentMentions(ids: Ids, m: seq<(Yaml, Yaml)>): seq<Mention> {
    if m == [] then [] else EntryMentions(ids, m[0]) + DocumentMentions(ids, m[1..])
  }

  lemma NothingMentioned(ids: Ids, sid: string)
    ensures ServiceMentions(ids, sid, []) == []
  {
  }

  /** One list of items for each section. */
  lemma OneForEach(
    ok: (Section, seq<nat>) -> bool, a: seq<nat>, b: seq<nat>, c: seq<nat>, d: seq<nat>, e: seq<nat>, f: seq<nat>)
    returns (ks: Section -> seq<nat>)
    requires ok(DependencyList, a) && ok(DependencyMap, b) && ok(NetworkList, c) && ok(NetworkMap, d)
    requires ok(VolumeList, e) && ok(LinkList, f)
    ensures forall s :: ok(s, ks(s))
  {
    ks := (s: Section) => match s
      case DependencyList => a
      case DependencyMap => b
      case NetworkList => c
      case NetworkMap => d
      case VolumeList => e
      case LinkList => f;
  }

  lemma {:induction false} SectionItems(ids: Ids, sid: string, body: seq<(Yaml, Yaml)>)
    returns (ks: Section -> seq<nat>)
    ensures forall s :: SectionFrom(ids, sid, body, s, SectionOf(ids, sid, body, s), ks(s))
  {
    var a := SectionHasPlaces(ids, sid, body, DependencyList);
    var b := SectionHasPlaces(ids, sid, body, DependencyMap);
    var c := SectionHasPlaces(ids, sid, body, NetworkList);
    var d := SectionHasPlaces(ids, sid, body, NetworkMap);
    var e := SectionHasPlaces(ids, sid, body, VolumeList);
    var f := SectionHasPlaces(ids, sid, body, LinkList);
    var ok := (s: Section, k: seq<nat>) => SectionFrom(ids, sid, body, s, SectionOf(ids, sid, body, s), k);
    ks := OneForEach(ok, a, b, c, d, e, f);
    forall s ensures SectionFrom(ids, sid, body, s, SectionOf(ids, sid, body, s), ks(s)) {
      assert ok(s, ks(s));
    }
  }

  lemma {:induction false} FromSections(
    ids: Ids, sid: string, body: seq<(Yaml, Yaml)>, calls: Body, ks: Section -> seq<nat>, s: Section)
    requires forall s, j, m :: calls(s, j, m) <==> CallsIn(ids, sid, body, s, j, m)
    requires SectionFrom(ids, sid, body, s, SectionOf(ids, sid, body, s), ks(s))
    ensures FromSection(calls, s, SectionOf(ids, sid, body, s), ks(s))
  {
  }

  lemma {:induction false} BodyPiece(calls: Relation, ids: Ids, i: nat, name: string, entries: seq<(Yaml, Yaml)>)
    returns (ps: seq<Place>)
    requires Follows(calls, ids, i, (Str(name), Map(entries)))
    ensures Piece(calls, AllSections(ids, ids.service(name), entries), ps, 6 * i, 6 * i + 6)
  {
    var sid := ids.service(name);
    var ks := SectionItems(ids, sid, entries);
    var body: Body := (s: Section, j: nat, m: Mention) => calls(Place(i, s, j), m);
    forall s ensures FromSection(body, s, SectionOf(ids, sid, entries, s), ks(s)) {
      FromSections(ids, sid, entries, body, ks, s);
    }
    ps := ServicePiece(calls, body, i, s => SectionOf(ids, sid, entries, s), ks);
  }

  lemma {:induction false} EntryPiece(calls: Relation, ids: Ids, i: nat, entry: (Yaml, Yaml)) returns (ps: seq<Place>)
    requires Follows(calls, ids, i, entry)
    ensures Piece(calls, EntryMentions(ids, entry), ps, 6 * i, 6 * i + 6)
  {
    if entry.0.Str? && entry.1.Map? {
      ps := BodyPiece(calls, ids, i, entry.0.s, entry.1.entries);
      MentionsAreSections(ids, ids.service(entry.0.s), entry.1.entries);
    } else {
      ps := [];
      if entry.0.Str? { NothingMentioned(ids, ids.service(entry.0.s)); }
      EmptyPiece(calls, 6 * i, 6 * i + 6);
    }
  }

  lemma {:induction false} EntriesPiece(calls: Relation, ids: Ids, m: seq<(Yaml, Yaml)>, i: nat)
    returns (ps: seq<Place>)
    requires i <= |m| && forall k :: 0 <= k < |m| ==> Follows(calls, ids, k, m[k])
    ensures Piece(calls, DocumentMentions(ids, m[i..]), ps, 6 * i, 6 * |m|)
    decreases |m| - i
  {
    if i == |m| {
      ps := [];
      assert m[i..] == [];
      EmptyPiece(calls, 6 * i, 6 * i);
    } else {
      var ps1 := EntryPiece(calls, ids, i, m[i]);
      var ps2 := EntriesPiece(calls, ids, m, i + 1);
      assert m[i..][0] == m[i] && m[i..][1..] == m[i + 1..];
      Combine(calls, EntryMentions(ids, m[i]), ps1, 6 * i, 6 * i + 6, DocumentMentions(ids, m[i + 1..]), ps2, 6 * |m|);
      ps := ps1 + ps2;
    }
  }

  ghost function CallsFrom(ids: Ids, doc: seq<(Yaml, Yaml)>): Relation {
    (p, m) => Calls(ids, doc, p, m)
  }

  lemma EntryFollows(ids: Ids, doc: seq<(Yaml, Yaml)>, i: nat)
    requires i < |AsMap(Get(doc, "services"))|
    ensures Follows(CallsFrom(ids, doc), ids, i, AsMap(Get(doc, "services"))[i])
  {
    var entry := AsMap(Get(doc, "services"))[i];
    if entry.0.Str? && entry.1.Map? {
      forall s, j, m
        ensures Calls(ids, doc, Place(i, s, j), m) <==>
                CallsIn(ids, ids.service(entry.0.s), entry.1.entries, s, j, m)
      {
        CallsOfService(ids, doc, Place(i, s, j), m, entry.0.s, entry.1.entries);
      }
    } else {
      forall p, m | Calls(ids, doc, p, m) ensures p.entry != i {
        OnlyServicesCall(ids, doc, p, m);
      }
    }
  }

  /** The places that call for something, in order, with what they call for. */
  ghost predicate AllPlaces(calls: Relation, ms: seq<Mention>, ps: seq<Place>) {
    && |ms| == |ps| && InOrder(ps)
    && (forall k :: 0 <= k < |ps| ==> calls(ps[k], ms[k]))
    && (forall p, m :: calls(p, m) ==> p in ps)
  }

  lemma WholePiece(calls: Relation, ms: seq<Mention>, ps: seq<Place>, n: nat)
    requires Piece(calls, ms, ps, 0, 6 * n) && forall p, m :: calls(p, m) ==> p.entry < n
    ensures AllPlaces(calls, ms, ps)
  {
    forall p, m | calls(p, m) ensures p in ps {
      assert Within(p, 0, 6 * n);
    }
  }

  lemma {:induction false} DocumentPlaces(ids: Ids, doc: seq<(Yaml, Yaml)>) returns (ps: seq<Place>)
    ensures AllPlaces(CallsFrom(ids, doc), DocumentMentions(ids, AsMap(Get(doc, "services"))), ps)
  {
    var m, calls := AsMap(Get(doc, "services")), CallsFrom(ids, doc);
    forall k | 0 <= k < |m| ensures Follows(calls, ids, k, m[k]) {
      EntryFollows(ids, doc, k);
    }
    forall p, x | calls(p, x) ensures p.entry < |m| {
      OnlyServicesCall(ids, doc, p, x);
    }
    ps := EntriesPiece(calls, ids, m, 0);
    assert m[0..] == m;
    WholePiece(calls, DocumentMentions(ids, m), ps, |m|);
  }
}
