/** Exactly the edges and nodes of a topology: each edge is called for by a place of the document, as often
    as it is there, and each node is a service, a declaration, or what the first place that needs it brings. */
module ComposeContents {
  import opened Basics
  import opened Topology
  import opened Sorting
  import opened Compose
  import opened ComposeEdges
  import opened ComposePlaces

  // ---- A place calls for one thing

  lemma GivesOne<A(!new)>(xs: seq<A>, f: A -> seq<Mention>, m: Mention, m': Mention, j: nat)
    requires Gives(xs, f, m, j) && Gives(xs, f, m', j)
    ensures m == m'
  {
    assert [m][0] == [m'][0];
  }

  lemma {:induction false} CallsInOne(
    ids: Ids, sid: string, body: seq<(Yaml, Yaml)>, s: Section, j: nat, m: Mention, m': Mention)
    requires CallsIn(ids, sid, body, s, j, m) && CallsIn(ids, sid, body, s, j, m')
    ensures m == m'
  {
    match s {
      case DependencyList =>
        DependencyListIff(ids, sid, body, j, m);
        DependencyListIff(ids, sid, body, j, m');
        GivesOne(AsSeq(Get(body, "depends_on")), DependencyItems(ids, sid), m, m', j);
      case DependencyMap =>
        DependencyMapIff(ids, sid, body, j, m);
        DependencyMapIff(ids, sid, body, j, m');
        GivesOne(AsMap(Get(body, "depends_on")), DependencyEntries(ids, sid), m, m', j);
      case NetworkList =>
        NetworkListIff(ids, sid, body, j, m);
        NetworkListIff(ids, sid, body, j, m');
        GivesOne(AsSeq(Get(body, "networks")), NetworkItems(ids, sid), m, m', j);
      case NetworkMap =>
        NetworkMapIff(ids, sid, body, j, m);
        NetworkMapIff(ids, sid, body, j, m');
        GivesOne(AsMap(Get(body, "networks")), NetworkKeys(ids, sid), m, m', j);
      case VolumeList =>
        VolumeListIff(ids, sid, body, j, m);
        VolumeListIff(ids, sid, body, j, m');
        GivesOne(AsSeq(Get(body, "volumes")), VolumeItems(ids, sid), m, m', j);
      case LinkList =>
        LinkListIff(ids, sid, body, j, m);
        LinkListIff(ids, sid, body, j, m');
        GivesOne(AsSeq(Get(body, "links")), LinkItems(ids, sid), m, m', j);
    }
  }

  lemma {:induction false} CallsOne(ids: Ids, doc: seq<(Yaml, Yaml)>, p: Place, m: Mention, m': Mention)
    requires Calls(ids, doc, p, m) && Calls(ids, doc, p, m')
    ensures m == m'
  {
    OnlyServicesCall(ids, doc, p, m);
    var e := AsMap(Get(doc, "services"))[p.entry];
    CallsOfService(ids, doc, p, m, e.0.s, e.1.entries);
    CallsOfService(ids, doc, p, m', e.0.s, e.1.entries);
    CallsInOne(ids, ids.service(e.0.s), e.1.entries, p.section, p.item, m, m');
  }

  // ---- Edges

  lemma {:induction false} EdgesAt(ms: seq<Mention>)
    ensures |EdgesOf(ms)| == |ms| && forall k :: 0 <= k < |ms| ==> EdgesOf(ms)[k] == ms[k].edge
  {
    if ms != [] { EdgesAt(ms[1..]); }
  }

  lemma {:induction false} EdgesJoin(a: seq<Mention>, b: seq<Mention>)
    ensures EdgesOf(a + b) == EdgesOf(a) + EdgesOf(b)
  {
    EdgesAt(a);
    EdgesAt(b);
    EdgesAt(a + b);
  }

  lemma {:induction false} EdgesOfDocument(ids: Ids, c: Context, m: seq<(Yaml, Yaml)>)
    ensures AllEdges(ServicesOf(ids, c, m)) == EdgesOf(DocumentMentions(ids, m))
  {
    if m != [] {
      EdgesOfDocument(ids, c, m[1..]);
      EdgesJoin(EntryMentions(ids, m[0]), DocumentMentions(ids, m[1..]));
      var all, rest := ServicesOf(ids, c, m), ServicesOf(ids, c, m[1..]);
      if m[0].0.Str? {
        assert all[0] == ServiceOf(ids, c, m[0].0.s, m[0].1) && all[1..] == rest;
      } else {
        assert all == rest && EdgesOf([]) == [];
      }
    }
  }

  /** The edges are those that the places of the document call for, each once, in the order of the places
      before the stable sort. */
  lemma EdgesFollowTheDocument(ids: Ids, c: Context, doc: seq<(Yaml, Yaml)>, t: ComposeTopology)
    returns (ms: seq<Mention>, ps: seq<Place>)
    requires IsTopologyOf(ids, c, doc, t)
    ensures AllPlaces(CallsFrom(ids, doc), ms, ps) && t.edges == SortedEdges(EdgesOf(ms))
    ensures ms == DocumentMentions(ids, AsMap(Get(doc, "services")))
  {
    var m := AsMap(Get(doc, "services"));
    ms := DocumentMentions(ids, m);
    ps := DocumentPlaces(ids, doc);
    AddServicesAppends(TopLevel(ids, doc), ServicesOf(ids, c, m));
    EdgesOfDocument(ids, c, m);
    assert [] + EdgesOf(ms) == EdgesOf(ms);
  }

  /** The place calls for the edge. */
  ghost predicate Asks(ids: Ids, doc: seq<(Yaml, Yaml)>, p: Place, e: Edge) {
    exists m :: Calls(ids, doc, p, m) && m.edge == e
  }

  function Indices(es: seq<Edge>, e: Edge, n: nat): (ks: set<nat>)
    requires n <= |es|
    ensures forall k :: k in ks <==> 0 <= k < n && es[k] == e
  {
    set k | 0 <= k < n && es[k] == e
  }

  lemma {:induction false} CountIs(es: seq<Edge>, e: Edge, n: nat)
    requires n <= |es|
    ensures multiset(es[..n])[e] == |Indices(es, e, n)|
  {
    if n == 0 {
      assert es[..0] == [] && Indices(es, e, 0) == {};
    } else {
      CountIs(es, e, n - 1);
      assert es[..n] == es[..n - 1] + [es[n - 1]];
      if es[n - 1] == e {
        assert Indices(es, e, n) == Indices(es, e, n - 1) + {n - 1};
      } else {
        assert Indices(es, e, n) == Indices(es, e, n - 1);
      }
    }
  }

  lemma {:induction false} ImageSize(ks: set<nat>, ps: seq<Place>, places: set<Place>)
    requires forall k :: k in ks ==> k < |ps|
    requires forall k, l :: 0 <= k < |ps| && 0 <= l < |ps| && ps[k] == ps[l] ==> k == l
    requires forall p :: p in places <==> exists k :: k in ks && ps[k] == p
    ensures |places| == |ks|
    decreases |ks|
  {
    if ks == {} {
      assert places == {};
    } else {
      var k :| k in ks;
      assert ps[k] in places;
      forall p ensures p in places - {ps[k]} <==> exists l :: l in ks - {k} && ps[l] == p {
        if p in places - {ps[k]} {
          var l :| l in ks && ps[l] == p;
          assert l in ks - {k};
        }
        if l :| l in ks - {k} && ps[l] == p {
          assert l in ks && p in places;
        }
      }
      ImageSize(ks - {k}, ps, places - {ps[k]});
    }
  }

  lemma OrderedIsDistinct(ps: seq<Place>)
    requires InOrder(ps)
    ensures forall k, l :: 0 <= k < |ps| && 0 <= l < |ps| && ps[k] == ps[l] ==> k == l
  {
    forall k, l | 0 <= k < l < |ps| ensures ps[k] != ps[l] {
      assert Before(ps[k], ps[l]);
    }
  }

  ghost function PlacesIn(ps: seq<Place>, ks: set<nat>): (places: set<Place>)
    requires forall k :: k in ks ==> k < |ps|
    ensures forall p :: p in places <==> exists k :: k in ks && ps[k] == p
  {
    set k | k in ks :: ps[k]
  }

  lemma AsksIff(ids: Ids, doc: seq<(Yaml, Yaml)>, ms: seq<Mention>, ps: seq<Place>, p: Place, e: Edge)
    requires AllPlaces(CallsFrom(ids, doc), ms, ps)
    ensures Asks(ids, doc, p, e) <==> exists k :: 0 <= k < |ps| && ps[k] == p && ms[k].edge == e
  {
    if m :| Calls(ids, doc, p, m) && m.edge == e {
      assert CallsFrom(ids, doc)(p, m);
      var k :| 0 <= k < |ps| && ps[k] == p;
      assert CallsFrom(ids, doc)(ps[k], ms[k]);
      CallsOne(ids, doc, p, m, ms[k]);
    }
    if k :| 0 <= k < |ps| && ps[k] == p && ms[k].edge == e {
      assert CallsFrom(ids, doc)(ps[k], ms[k]);
    }
  }

  /** An edge is in the topology exactly as often as places of the document call for it. */
  lemma EdgeCount(ids: Ids, c: Context, doc: seq<(Yaml, Yaml)>, t: ComposeTopology, e: Edge)
    returns (places: set<Place>)
    requires IsTopologyOf(ids, c, doc, t)
    ensures forall p :: p in places <==> Asks(ids, doc, p, e)
    ensures multiset(t.edges)[e] == |places|
    ensures e in t.edges <==> exists p :: Asks(ids, doc, p, e)
  {
    var ms, ps := EdgesFollowTheDocument(ids, c, doc, t);
    var es := EdgesOf(ms);
    EdgesAt(ms);
    places := CountPlaces(ps, es, e);
    SortKeepsElements(es, EdgeKey, PairLe);
    forall p ensures p in places <==> Asks(ids, doc, p, e) {
      AsksIff(ids, doc, ms, ps, p, e);
    }
    HasIffCounted(t.edges, e, places);
    assert forall p :: p in places ==> Asks(ids, doc, p, e);
  }

  lemma HasIffCounted(es: seq<Edge>, e: Edge, places: set<Place>)
    requires multiset(es)[e] == |places|
    ensures e in es <==> exists p :: p in places
  {
    assert e in es <==> e in multiset(es);
    if e in es {
      assert places != {};
      var p :| p in places;
    }
  }

  /** As many places as the edge has indices. */
  lemma CountPlaces(ps: seq<Place>, es: seq<Edge>, e: Edge) returns (places: set<Place>)
    requires |ps| == |es| && InOrder(ps)
    ensures multiset(es)[e] == |places|
    ensures forall p :: p in places <==> exists k :: 0 <= k < |ps| && ps[k] == p && es[k] == e
  {
    var ks := Indices(es, e, |es|);
    places := PlacesIn(ps, ks);
    CountIs(es, e, |es|);
    assert es[..|es|] == es;
    OrderedIsDistinct(ps);
    ImageSize(ks, ps, places);
  }

  // ---- Nodes

  /** The first status of the service. */
  ghost predicate StatusAt(c: Context, name: string, k: nat) {
    && k < |c.statuses| && c.statuses[k].service == name
    && forall q :: 0 <= q < k ==> c.statuses[q].service != name
  }

  /** The details of a service: whether it is the entrypoint, and its first status, if any. */
  ghost predicate AreDetails(c: Context, name: string, d: ServiceDetails) {
    && d.isEntrypoint == (c.entrypoint == Some(name))
    && (forall k: nat :: StatusAt(c, name, k) ==>
          d.state == Some(c.statuses[k].state) && d.health == c.statuses[k].health
          && d.container == Some(c.statuses[k].container))
    && ((forall k: nat :: !StatusAt(c, name, k)) ==> d.state.None? && d.health.None? && d.container.None?)
  }

  ghost predicate IsServiceNode(ids: Ids, c: Context, doc: seq<(Yaml, Yaml)>, x: Node) {
    exists i: nat, body :: MapItem(doc, "services", i, Str(x.name), body)
      && x.id == ids.service(x.name) && x.details.OfService? && AreDetails(c, x.name, x.details.service)
  }

  /** The settings of a declared network or volume. */
  ghost predicate AreSettings(value: Yaml, driver: Option<string>, external: bool) {
    if value.Map? then
      HoldsText(value.entries, "driver", driver) && external == Holds(value.entries, "external", Bool(true))
    else driver.None? && !external
  }

  ghost predicate IsNetworkNode(ids: Ids, doc: seq<(Yaml, Yaml)>, x: Node) {
    exists j: nat, value :: MapItem(doc, "networks", j, Str(x.name), value)
      && x.id == ids.network(x.name) && x.details.OfNetwork?
      && AreSettings(value, x.details.driver, x.details.external)
  }

  ghost predicate IsVolumeNode(ids: Ids, doc: seq<(Yaml, Yaml)>, x: Node) {
    exists j: nat, value :: MapItem(doc, "volumes", j, Str(x.name), value)
      && x.id == ids.volume(x.name) && x.details.OfVolume? && !x.details.isBindMount
      && x.details.source == Some(x.name) && AreSettings(value, x.details.driver, x.details.external)
  }

  ghost predicate IsDeclared(ids: Ids, doc: seq<(Yaml, Yaml)>, id: string) {
    exists x: Node :: x.id == id && (IsNetworkNode(ids, doc, x) || IsVolumeNode(ids, doc, x))
  }

  /** The place brings the node, and no place before it brings one with the same id. */
  ghost predicate BringsFirst(calls: Relation, p: Place, x: Node) {
    && (exists m :: calls(p, m) && m.node == Some(x))
    && (forall q, m :: calls(q, m) && m.node.Some? && m.node.value.id == x.id ==> !Before(q, p))
  }

  function AllMentions(ss: seq<Service>): seq<Mention> {
    if ss == [] then [] else ss[0].mentions + AllMentions(ss[1..])
  }

  lemma {:induction false} FirstInJoin(a: seq<Mention>, b: seq<Mention>, id: string)
    ensures FirstIn(a + b, id) == if FirstIn(a, id).Some? then FirstIn(a, id) else FirstIn(b, id)
  {
    if a == [] {
      assert a + b == b;
    } else {
      FirstInJoin(a[1..], b, id);
      assert (a + b)[0] == a[0] && (a + b)[1..] == a[1..] + b;
    }
  }

  /** The nodes after all services: those of before, the services, and the first mention of each new id. */
  lemma {:induction false} NodesAfter(g: Graph, ss: seq<Service>, x: Node)
    ensures x in AddServices(g, ss).nodes <==>
            || x in g.nodes
            || (exists s :: s in ss && s.node == x)
            || (x.id !in g.declared && FirstIn(AllMentions(ss), x.id) == Some(x))
    decreases |ss|
  {
    if ss != [] {
      var s, rest := ss[0], ss[1..];
      NodesAfter(AddService(g, s), rest, x);
      AddServiceMembers(g, s, x);
      FirstInJoin(s.mentions, AllMentions(rest), x.id);
      assert ss == [s] + rest;
    }
  }

  lemma {:induction false} MentionsOfDocument(ids: Ids, c: Context, m: seq<(Yaml, Yaml)>)
    ensures AllMentions(ServicesOf(ids, c, m)) == DocumentMentions(ids, m)
  {
    if m != [] {
      MentionsOfDocument(ids, c, m[1..]);
      var all, rest := ServicesOf(ids, c, m), ServicesOf(ids, c, m[1..]);
      if m[0].0.Str? {
        var s := ServiceOf(ids, c, m[0].0.s, m[0].1);
        assert all == [s] + rest && all[1..] == rest;
      } else {
        assert all == rest && DocumentMentions(ids, m) == [] + DocumentMentions(ids, m[1..]);
      }
    }
  }

  ghost predicate FirstAt(ms: seq<Mention>, x: Node, k: nat) {
    && k < |ms| && ms[k].node == Some(x)
    && forall q :: 0 <= q < k && ms[q].node.Some? ==> ms[q].node.value.id != x.id
  }

  lemma {:induction false} FirstInIff(ms: seq<Mention>, x: Node)
    ensures FirstIn(ms, x.id) == Some(x) <==> exists k: nat :: FirstAt(ms, x, k)
  {
    if ms != [] {
      var rest := ms[1..];
      assert forall q :: 0 <= q < |rest| ==> rest[q] == ms[q + 1];
      if ms[0].node.Some? && ms[0].node.value.id == x.id {
        if ms[0].node == Some(x) { assert FirstAt(ms, x, 0); }
      } else {
        FirstInIff(rest, x);
        if k: nat :| FirstAt(rest, x, k) {
          assert FirstAt(ms, x, k + 1);
        }
        if k: nat :| FirstAt(ms, x, k) {
          assert FirstAt(rest, x, k - 1);
        }
      }
    }
  }

  ghost predicate OneEach(calls: Relation) {
    forall p, m, m' :: calls(p, m) && calls(p, m') ==> m == m'
  }

  lemma {:induction false} IndexOfPlace(calls: Relation, ms: seq<Mention>, ps: seq<Place>, p: Place, m: Mention)
    returns (k: nat)
    requires AllPlaces(calls, ms, ps) && OneEach(calls) && calls(p, m)
    ensures k < |ps| && ps[k] == p && ms[k] == m
  {
    assert p in ps;
    k :| 0 <= k < |ps| && ps[k] == p;
    assert calls(ps[k], ms[k]);
  }

  lemma {:induction false} FirstBringerIsFirst(calls: Relation, ms: seq<Mention>, ps: seq<Place>, x: Node, p: Place)
    returns (k: nat)
    requires AllPlaces(calls, ms, ps) && OneEach(calls) && BringsFirst(calls, p, x)
    ensures FirstAt(ms, x, k)
  {
    var m :| calls(p, m) && m.node == Some(x);
    k := IndexOfPlace(calls, ms, ps, p, m);
    forall q | 0 <= q < k && ms[q].node.Some? ensures ms[q].node.value.id != x.id {
      assert calls(ps[q], ms[q]) && Before(ps[q], ps[k]);
    }
  }

  lemma {:induction false} FirstIsFirstBringer(calls: Relation, ms: seq<Mention>, ps: seq<Place>, x: Node, k: nat)
    requires AllPlaces(calls, ms, ps) && OneEach(calls) && FirstAt(ms, x, k)
    ensures BringsFirst(calls, ps[k], x)
  {
    assert calls(ps[k], ms[k]);
    forall q, m | calls(q, m) && m.node.Some? && m.node.value.id == x.id ensures !Before(q, ps[k]) {
      var l := IndexOfPlace(calls, ms, ps, q, m);
      assert l >= k;
      if k < l { assert Before(ps[k], ps[l]); }
    }
  }

  lemma {:induction false} BringsIff(calls: Relation, ms: seq<Mention>, ps: seq<Place>, x: Node)
    requires AllPlaces(calls, ms, ps) && OneEach(calls)
    ensures (exists p :: BringsFirst(calls, p, x)) <==> exists k: nat :: FirstAt(ms, x, k)
  {
    if p :| BringsFirst(calls, p, x) {
      var k := FirstBringerIsFirst(calls, ms, ps, x, p);
    }
    if k: nat :| FirstAt(ms, x, k) {
      FirstIsFirstBringer(calls, ms, ps, x, k);
    }
  }

  lemma CallsOneEach(ids: Ids, doc: seq<(Yaml, Yaml)>)
    ensures OneEach(CallsFrom(ids, doc))
  {
    forall p, m, m' | CallsFrom(ids, doc)(p, m) && CallsFrom(ids, doc)(p, m') ensures m == m' {
      CallsOne(ids, doc, p, m, m');
    }
  }

  // ---- Services and declarations

  lemma {:induction false} StatusIff(statuses: seq<Status>, name: string)
    ensures StatusOf(statuses, name).None? <==> forall k :: 0 <= k < |statuses| ==> statuses[k].service != name
    ensures StatusOf(statuses, name).Some? ==>
            exists k :: 0 <= k < |statuses| && statuses[k] == StatusOf(statuses, name).value
                        && statuses[k].service == name && forall q :: 0 <= q < k ==> statuses[q].service != name
  {
    if statuses != [] && statuses[0].service != name {
      var rest := statuses[1..];
      StatusIff(rest, name);
      assert forall k :: 0 <= k < |rest| ==> rest[k] == statuses[k + 1];
      assert forall k :: 1 <= k < |statuses| ==> statuses[k] == rest[k - 1];
      if StatusOf(rest, name).Some? {
        var k :| 0 <= k < |rest| && rest[k] == StatusOf(rest, name).value
          && rest[k].service == name && forall q :: 0 <= q < k ==> rest[q].service != name;
        assert statuses[k + 1] == StatusOf(statuses, name).value;
      }
    }
  }

  lemma DetailsIff(c: Context, name: string, d: ServiceDetails)
    ensures AreDetails(c, name, d) <==> d == ServiceDetailsOf(c, name)
  {
    StatusIff(c.statuses, name);
    var st := StatusOf(c.statuses, name);
    if st.Some? {
      var k :| 0 <= k < |c.statuses| && c.statuses[k] == st.value && c.statuses[k].service == name
        && forall q :: 0 <= q < k ==> c.statuses[q].service != name;
      assert StatusAt(c, name, k);
      assert forall l: nat :: StatusAt(c, name, l) ==> l == k;
    }
  }

  /** What a mapping of the document gives, entry by entry. */
  lemma {:induction false} EachIff<T(!new)>(doc: seq<(Yaml, Yaml)>, key: string, make: (string, Yaml) -> T, x: T)
    ensures x in Each(AsMap(Get(doc, key)), make) <==>
            exists j: nat, name, value :: MapItem(doc, key, j, Str(name), value) && x == make(name, value)
  {
    var m := AsMap(Get(doc, key));
    EachMembers(m, make, x);
    if e :| e in m && e.0.Str? && x == make(e.0.s, e.1) {
      var j :| 0 <= j < |m| && m[j] == e;
      MapItemIsGet(doc, key, j, Str(e.0.s), e.1);
    }
    if j: nat, name, value :| MapItem(doc, key, j, Str(name), value) && x == make(name, value) {
      MapItemIsGet(doc, key, j, Str(name), value);
      assert m[j] in m;
    }
  }

  lemma ServiceNodeIs(ids: Ids, c: Context, x: Node, name: string, body: Yaml)
    ensures x == ServiceOf(ids, c, name, body).node <==>
            && x.name == name && x.id == ids.service(name)
            && x.details.OfService? && AreDetails(c, name, x.details.service)
  {
    if x.details.OfService? { DetailsIff(c, name, x.details.service); }
  }

  function ServiceNodes(ids: Ids, c: Context): (string, Yaml) -> Node {
    (name: string, body: Yaml) => ServiceOf(ids, c, name, body).node
  }

  lemma {:induction false} NodesOfServices(ids: Ids, c: Context, m: seq<(Yaml, Yaml)>, x: Node)
    ensures x in Each(m, ServiceNodes(ids, c)) <==> exists s :: s in ServicesOf(ids, c, m) && s.node == x
  {
    EachMembers(m, ServiceNodes(ids, c), x);
    if e :| e in m && e.0.Str? && x == ServiceNodes(ids, c)(e.0.s, e.1) {
      var s := ServiceOf(ids, c, e.0.s, e.1);
      EachMembers(m, ServiceMaker(ids, c), s);
      assert s in ServicesOf(ids, c, m) && s.node == x;
    }
    if s :| s in ServicesOf(ids, c, m) && s.node == x {
      EachMembers(m, ServiceMaker(ids, c), s);
    }
  }

  lemma {:induction false} ServiceNodeIff(ids: Ids, c: Context, doc: seq<(Yaml, Yaml)>, x: Node)
    ensures IsServiceNode(ids, c, doc, x) <==>
            exists s :: s in ServicesOf(ids, c, AsMap(Get(doc, "services"))) && s.node == x
  {
    NodesOfServices(ids, c, AsMap(Get(doc, "services")), x);
    EachIff(doc, "services", ServiceNodes(ids, c), x);
    forall name, body {
      ServiceNodeIs(ids, c, x, name, body);
    }
  }

  lemma BoolIff(m: seq<(Yaml, Yaml)>, key: string)
    ensures Holds(m, key, Bool(true)) <==> AsBool(Get(m, key))
  {
    HoldsIsGet(m, key, Bool(true));
  }

  lemma SettingsIff(value: Yaml, driver: Option<string>, external: bool)
    ensures AreSettings(value, driver, external) <==>
            var m := AsMap(Some(value)); driver == AsStr(Get(m, "driver")) && external == AsBool(Get(m, "external"))
  {
    if value.Map? {
      HoldsTextIsGet(value.entries, "driver", driver);
      BoolIff(value.entries, "external");
    }
  }

  lemma NetworkNodeIs(ids: Ids, x: Node, name: string, value: Yaml)
    ensures x == TopNetwork(ids, name, value) <==>
            x.name == name && x.id == ids.network(name) && x.details.OfNetwork?
            && AreSettings(value, x.details.driver, x.details.external)
  {
    if x.details.OfNetwork? { SettingsIff(value, x.details.driver, x.details.external); }
  }

  lemma {:induction false} NetworkNodeIff(ids: Ids, doc: seq<(Yaml, Yaml)>, x: Node)
    ensures IsNetworkNode(ids, doc, x) <==> x in TopNetworks(ids, AsMap(Get(doc, "networks")))
  {
    EachIff(doc, "networks", NetworkMaker(ids), x);
    forall name, value {
      NetworkNodeIs(ids, x, name, value);
    }
  }

  lemma VolumeNodeIs(ids: Ids, x: Node, name: string, value: Yaml)
    ensures x == TopVolume(ids, name, value) <==>
            x.name == name && x.id == ids.volume(name) && x.details.OfVolume? && !x.details.isBindMount
            && x.details.source == Some(name) && AreSettings(value, x.details.driver, x.details.external)
  {
    if x.details.OfVolume? { SettingsIff(value, x.details.driver, x.details.external); }
  }

  lemma {:induction false} VolumeNodeIff(ids: Ids, doc: seq<(Yaml, Yaml)>, x: Node)
    ensures IsVolumeNode(ids, doc, x) <==> x in TopVolumes(ids, AsMap(Get(doc, "volumes")))
  {
    EachIff(doc, "volumes", VolumeMaker(ids), x);
    forall name, value {
      VolumeNodeIs(ids, x, name, value);
    }
  }

  lemma DeclaredIff(ids: Ids, doc: seq<(Yaml, Yaml)>, id: string)
    ensures IsDeclared(ids, doc, id) <==> id in TopLevel(ids, doc).declared
  {
    var nodes := TopLevel(ids, doc).nodes;
    if x: Node :| x.id == id && (IsNetworkNode(ids, doc, x) || IsVolumeNode(ids, doc, x)) {
      NetworkNodeIff(ids, doc, x);
      VolumeNodeIff(ids, doc, x);
      assert x in nodes;
      var i :| 0 <= i < |nodes| && nodes[i] == x;
    }
    if id in TopLevel(ids, doc).declared {
      var i :| 0 <= i < |nodes| && nodes[i].id == id;
      var x := nodes[i];
      NetworkNodeIff(ids, doc, x);
      VolumeNodeIff(ids, doc, x);
      assert x in nodes;
    }
  }

  /** The nodes of a topology: the services, the declarations, and for every other id that a place needs
      what the first such place brings. */
  lemma {:induction false} NodeIff(ids: Ids, c: Context, doc: seq<(Yaml, Yaml)>, t: ComposeTopology, x: Node)
    requires IsTopologyOf(ids, c, doc, t)
    ensures x in t.nodes <==>
            || IsServiceNode(ids, c, doc, x) || IsNetworkNode(ids, doc, x) || IsVolumeNode(ids, doc, x)
            || (!IsDeclared(ids, doc, x.id) && exists p :: BringsFirst(CallsFrom(ids, doc), p, x))
  {
    var m, g := AsMap(Get(doc, "services")), TopLevel(ids, doc);
    var ms := DocumentMentions(ids, m);
    var ps := DocumentPlaces(ids, doc);
    SortedHasTheNodes(GraphOf(ids, c, doc).nodes, x);
    NodesAfter(g, ServicesOf(ids, c, m), x);
    MentionsOfDocument(ids, c, m);
    FirstInIff(ms, x);
    CallsOneEach(ids, doc);
    BringsIff(CallsFrom(ids, doc), ms, ps, x);
    ServiceNodeIff(ids, c, doc, x);
    NetworkNodeIff(ids, doc, x);
    VolumeNodeIff(ids, doc, x);
    DeclaredIff(ids, doc, x.id);
  }
}
