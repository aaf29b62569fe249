/** When the order of the services of a Compose document shows in its topology, stated on the document. */
module ComposeOrder {
  import opened Basics
  import opened Topology
  import opened Compose
  import opened ComposeIds

  function TopologyOf(ids: Ids, c: Context, doc: seq<(Yaml, Yaml)>): (t: ComposeTopology)
    ensures IsTopologyOf(ids, c, doc, t)
  {
    var g := GraphOf(ids, c, doc);
    ComposeTopology(SortedNodes(g.nodes), SortedEdges(g.edges), SummaryOf(SortedNodes(g.nodes)))
  }

  /** Every document with the same entries and the services in any order has the same topology. */
  ghost predicate OrderNeverShows(ids: Ids, c: Context, doc: seq<(Yaml, Yaml)>) {
    forall doc' :: ValidDocument(doc') && SameButOrder(doc, doc') ==>
      TopologyOf(ids, c, doc') == TopologyOf(ids, c, doc)
  }

  // ---- The document with one service in front

  function Entry(doc: seq<(Yaml, Yaml)>, key: string): seq<(Yaml, Yaml)> {
    if Get(doc, key).None? then [] else [(Str(key), Get(doc, key).value)]
  }

  function WithServices(doc: seq<(Yaml, Yaml)>, m: seq<(Yaml, Yaml)>): seq<(Yaml, Yaml)> {
    [(Str("services"), Map(m))] + (Entry(doc, "networks") + Entry(doc, "volumes"))
  }

  lemma GetFront(key: string, value: Yaml, rest: seq<(Yaml, Yaml)>, other: string)
    ensures Get([(Str(key), value)] + rest, other) == if key == other then Some(value) else Get(rest, other)
  {
    assert ([(Str(key), value)] + rest)[1..] == rest;
  }

  lemma GetBehind(doc: seq<(Yaml, Yaml)>, key: string, rest: seq<(Yaml, Yaml)>, other: string)
    ensures Get(Entry(doc, key) + rest, other) ==
            if key == other && Get(doc, key).Some? then Get(doc, key) else Get(rest, other)
  {
    if Get(doc, key).None? {
      assert [] + rest == rest;
    } else {
      GetFront(key, Get(doc, key).value, rest, other);
    }
  }

  lemma PartsOfDocument(doc: seq<(Yaml, Yaml)>, m: seq<(Yaml, Yaml)>)
    ensures var doc' := WithServices(doc, m);
      && Get(doc', "services") == Some(Map(m))
      && Get(doc', "networks") == Get(doc, "networks") && Get(doc', "volumes") == Get(doc, "volumes")
  {
    assert |"services"| == 8 && |"networks"| == 8 && |"volumes"| == 7 && "services"[0] != "networks"[0];
    var volumes := Entry(doc, "volumes");
    var rest := Entry(doc, "networks") + volumes;
    GetFront("services", Map(m), rest, "services");
    GetFront("services", Map(m), rest, "networks");
    GetFront("services", Map(m), rest, "volumes");
    GetBehind(doc, "networks", volumes, "networks");
    GetBehind(doc, "networks", volumes, "volumes");
    GetBehind(doc, "volumes", [], "networks");
    GetBehind(doc, "volumes", [], "volumes");
    assert volumes + [] == volumes;
  }

  function Fronted(m: seq<(Yaml, Yaml)>, i: nat): seq<(Yaml, Yaml)>
    requires i < |m|
  {
    [m[i]] + (m[..i] + m[i + 1..])
  }

  /** Where the entry at `a` came from. */
  function Source(i: nat, a: nat): nat {
    if a == 0 then i else if a <= i then a - 1 else a
  }

  function Target(i: nat, a: nat): nat {
    if a == i then 0 else if a < i then a + 1 else a
  }

  lemma FrontedAt(m: seq<(Yaml, Yaml)>, i: nat, a: nat)
    requires i < |m| && a < |m|
    ensures |Fronted(m, i)| == |m| && Source(i, a) < |m| && Target(i, a) < |m|
    ensures Fronted(m, i)[a] == m[Source(i, a)] && m[a] == Fronted(m, i)[Target(i, a)]
  {
  }

  lemma FrontedIsReordered(m: seq<(Yaml, Yaml)>, i: nat)
    requires i < |m| && UniqueKeys(m)
    ensures UniqueKeys(Fronted(m, i)) && SameEntries(m, Fronted(m, i))
  {
    var m' := Fronted(m, i);
    assert |m'| == |m|;
    forall a, b | 0 <= a < |m'| && 0 <= b < |m'| && m'[a].0 == m'[b].0 ensures a == b {
      FrontedAt(m, i, a);
      FrontedAt(m, i, b);
      assert Source(i, a) == Source(i, b);
    }
    forall e ensures e in m <==> e in m' {
      if e in m {
        var a :| 0 <= a < |m| && m[a] == e;
        FrontedAt(m, i, a);
      }
      if e in m' {
        var a :| 0 <= a < |m'| && m'[a] == e;
        FrontedAt(m, i, a);
      }
    }
  }

  lemma InFront(doc: seq<(Yaml, Yaml)>, i: nat)
    requires ValidDocument(doc) && i < |AsMap(Get(doc, "services"))|
    ensures var doc' := WithServices(doc, Fronted(AsMap(Get(doc, "services")), i));
      ValidDocument(doc') && SameButOrder(doc, doc')
  {
    var m := AsMap(Get(doc, "services"));
    FrontedIsReordered(m, i);
    PartsOfDocument(doc, Fronted(m, i));
  }

  /** The service that is moved to the front decides the node of an undeclared id. */
  lemma FrontShows(ids: Ids, c: Context, doc: seq<(Yaml, Yaml)>, s: Service, x: Node) returns (doc': seq<(Yaml, Yaml)>)
    requires ValidDocument(doc) && s in ServicesOf(ids, c, AsMap(Get(doc, "services")))
    requires x.id !in TopLevel(ids, doc).declared && FirstIn(s.mentions, x.id) == Some(x)
    ensures ValidDocument(doc') && SameButOrder(doc, doc') && x in TopologyOf(ids, c, doc').nodes
  {
    var m := AsMap(Get(doc, "services"));
    EachMembers(m, ServiceMaker(ids, c), s);
    var e :| e in m && e.0.Str? && s == ServiceOf(ids, c, e.0.s, e.1);
    var i :| 0 <= i < |m| && m[i] == e;
    doc' := WithServices(doc, Fronted(m, i));
    InFront(doc, i);
    PartsOfDocument(doc, Fronted(m, i));
    var ss := ServicesOf(ids, c, Fronted(m, i));
    assert ss[0] == s;
    FrontDecides(TopLevel(ids, doc), ss, x);
    SortedHasTheNodes(GraphOf(ids, c, doc').nodes, x);
  }

  lemma ClashShowsInDocument(ids: Ids, c: Context, doc: seq<(Yaml, Yaml)>, s: Service, s': Service, id: string)
    requires ids.Clear() && ValidDocument(doc) && id !in TopLevel(ids, doc).declared
    requires s in ServicesOf(ids, c, AsMap(Get(doc, "services")))
    requires s' in ServicesOf(ids, c, AsMap(Get(doc, "services")))
    requires FirstIn(s.mentions, id).Some? && FirstIn(s'.mentions, id).Some?
    requires FirstIn(s.mentions, id) != FirstIn(s'.mentions, id)
    ensures !OrderNeverShows(ids, c, doc)
  {
    var x, y := FirstIn(s.mentions, id).value, FirstIn(s'.mentions, id).value;
    FirstInHasTheId(s.mentions, id);
    FirstInHasTheId(s'.mentions, id);
    var doc1 := FrontShows(ids, c, doc, s, x);
    var doc2 := FrontShows(ids, c, doc, s', y);
    EveryTopologyIsClosed(ids, c, doc1, TopologyOf(ids, c, doc1));
    TwoWithOneId(TopologyOf(ids, c, doc1).nodes, x, y);
  }

  /** The exact condition for any ids that are clear: two services do not first mention different nodes
      for an id that the top level does not declare. */
  lemma OrderNeverShowsIffNoClash(ids: Ids, c: Context, doc: seq<(Yaml, Yaml)>)
    requires ids.Clear() && ValidDocument(doc)
    ensures OrderNeverShows(ids, c, doc) <==>
            NoClash(TopLevel(ids, doc).declared, ServicesOf(ids, c, AsMap(Get(doc, "services"))))
  {
    var d, ss := TopLevel(ids, doc).declared, ServicesOf(ids, c, AsMap(Get(doc, "services")));
    if NoClash(d, ss) {
      forall doc' | ValidDocument(doc') && SameButOrder(doc, doc')
        ensures TopologyOf(ids, c, doc') == TopologyOf(ids, c, doc)
      {
        TopologyIgnoresServiceOrder(ids, c, doc, doc', TopologyOf(ids, c, doc), TopologyOf(ids, c, doc'));
      }
    } else {
      var s, s', id :| s in ss && s' in ss && id !in d && FirstIn(s.mentions, id).Some?
        && FirstIn(s'.mentions, id).Some? && FirstIn(s.mentions, id) != FirstIn(s'.mentions, id);
      ClashShowsInDocument(ids, c, doc, s, s', id);
    }
  }

  // ---- The ids of the program

  /** One service first mentions the bind mount, the other a named volume that spells it out. */
  ghost predicate Meet(s: Service, s': Service, source: string) {
    && IsBindSource(source)
    && FirstIn(s.mentions, BindVolumeId(source)) == Some(ProgramIds().ImplicitVolume(source))
    && FirstIn(s'.mentions, BindVolumeId(source)) == Some(ProgramIds().ImplicitVolume("bind:" + source))
  }

  /** Two services of the document do, and its top level does not declare the named volume. */
  ghost predicate SpellsOut(c: Context, doc: seq<(Yaml, Yaml)>) {
    exists s, s', source ::
      && s in ServicesOf(ProgramIds(), c, AsMap(Get(doc, "services")))
      && s' in ServicesOf(ProgramIds(), c, AsMap(Get(doc, "services")))
      && Meet(s, s', source) && Get(AsMap(Get(doc, "volumes")), "bind:" + source).None?
  }

  lemma {:induction false} GetFinds(m: seq<(Yaml, Yaml)>, key: string)
    ensures Get(m, key).Some? <==> exists e :: e in m && e.0 == Str(key)
  {
    if m != [] && m[0].0 != Str(key) {
      GetFinds(m[1..], key);
      assert m == [m[0]] + m[1..];
    }
  }

  lemma VolumeIsNamed(ids: Ids, m: seq<(Yaml, Yaml)>, name: string)
    requires ids.Clear()
    ensures ids.volume(name) in IdsIn(TopVolumes(ids, m)) <==> Get(m, name).Some?
  {
    var nodes := TopVolumes(ids, m);
    GetFinds(m, name);
    if ids.volume(name) in IdsIn(nodes) {
      var i :| 0 <= i < |nodes| && nodes[i].id == ids.volume(name);
      EachMembers(m, VolumeMaker(ids), nodes[i]);
      var e :| e in m && e.0.Str? && nodes[i] == TopVolume(ids, e.0.s, e.1);
    }
    if Get(m, name).Some? {
      var e :| e in m && e.0 == Str(name);
      var node := TopVolume(ids, name, e.1);
      EachMembers(m, VolumeMaker(ids), node);
      var i :| 0 <= i < |nodes| && nodes[i] == node;
    }
  }

  lemma NetworksNameNoVolume(ids: Ids, m: seq<(Yaml, Yaml)>, name: string)
    requires ids.Clear()
    ensures ids.volume(name) !in IdsIn(TopNetworks(ids, m))
  {
    var nodes := TopNetworks(ids, m);
    forall i | 0 <= i < |nodes| ensures nodes[i].id != ids.volume(name) {
      EachMembers(m, NetworkMaker(ids), nodes[i]);
      var e :| e in m && e.0.Str? && nodes[i] == TopNetwork(ids, e.0.s, e.1);
    }
  }

  lemma IdsInBoth(a: seq<Node>, b: seq<Node>, id: string)
    ensures id in IdsIn(a + b) <==> id in IdsIn(a) || id in IdsIn(b)
  {
    var all := a + b;
    assert forall i :: 0 <= i < |a| ==> all[i] == a[i];
    assert forall i :: 0 <= i < |b| ==> all[|a| + i] == b[i];
    if id in IdsIn(all) {
      var i :| 0 <= i < |all| && all[i].id == id;
      assert if i < |a| then a[i].id == id else b[i - |a|].id == id;
    }
    if id in IdsIn(b) {
      var i :| 0 <= i < |b| && b[i].id == id;
      assert all[|a| + i].id == id;
    }
  }

  /** The top level declares the id of a bind mount exactly by declaring the volume that spells it out. */
  lemma DeclaredIffNamed(doc: seq<(Yaml, Yaml)>, source: string)
    ensures BindVolumeId(source) in TopLevel(ProgramIds(), doc).declared <==>
            Get(AsMap(Get(doc, "volumes")), "bind:" + source).Some?
  {
    var nets, vols := AsMap(Get(doc, "networks")), AsMap(Get(doc, "volumes"));
    var name := "bind:" + source;
    SharedVolumeId(name, source);
    IdsInBoth(TopNetworks(ProgramIds(), nets), TopVolumes(ProgramIds(), vols), NamedVolumeId(name));
    assert ProgramIds().Clear() by { ProgramIdsAreClear(); }
    NetworksNameNoVolume(ProgramIds(), nets, name);
    VolumeIsNamed(ProgramIds(), vols, name);
  }

  /** Two different nodes with one id are a bind mount and a named volume that spells it out. */
  lemma SameIdOtherNode(x: Node, y: Node)
    requires ProgramIds().IsImplicit(x) && ProgramIds().IsImplicit(y) && x.id == y.id && x != y
    ensures x.details.OfVolume? && y.details.OfVolume? && IsBindSource(x.name) != IsBindSource(y.name)
    ensures IsBindSource(x.name) ==> y.name == "bind:" + x.name
    ensures IsBindSource(y.name) ==> x.name == "bind:" + y.name
  {
    ProgramIdsAreClear();
    SharedVolumeId(x.name, y.name);
    SharedVolumeId(y.name, x.name);
  }

  lemma ClashMeets(ss: seq<Service>, s: Service, s': Service, id: string)
    returns (a: Service, b: Service, source: string)
    requires ProgramIds().AreServices(ss) && s in ss && s' in ss
    requires FirstIn(s.mentions, id).Some? && FirstIn(s'.mentions, id).Some?
    requires FirstIn(s.mentions, id) != FirstIn(s'.mentions, id)
    ensures a in ss && b in ss && Meet(a, b, source) && id == BindVolumeId(source)
  {
    FirstInIsMentioned(s.mentions, id);
    FirstInIsMentioned(s'.mentions, id);
    var x, y := FirstIn(s.mentions, id).value, FirstIn(s'.mentions, id).value;
    SameIdOtherNode(x, y);
    if IsBindSource(x.name) {
      a, b, source := s, s', x.name;
    } else {
      a, b, source := s', s, y.name;
    }
  }

  lemma MeetingClashes(s: Service, s': Service, source: string)
    requires Meet(s, s', source)
    ensures FirstIn(s.mentions, BindVolumeId(source)) != FirstIn(s'.mentions, BindVolumeId(source))
  {
    var spelled := "bind:" + source;
    assert |spelled| > |source|;
    assert ProgramIds().ImplicitVolume(source).name != ProgramIds().ImplicitVolume(spelled).name;
  }

  lemma SpelledOutClashes(c: Context, doc: seq<(Yaml, Yaml)>, d: set<string>, ss: seq<Service>)
    requires d == TopLevel(ProgramIds(), doc).declared && ss == ServicesOf(ProgramIds(), c, AsMap(Get(doc, "services")))
    requires SpellsOut(c, doc)
    ensures !NoClash(d, ss)
  {
    var s, s', source :| s in ss && s' in ss && Meet(s, s', source)
      && Get(AsMap(Get(doc, "volumes")), "bind:" + source).None?;
    MeetingClashes(s, s', source);
    DeclaredIffNamed(doc, source);
  }

  lemma ClashIsSpelledOut(c: Context, doc: seq<(Yaml, Yaml)>, d: set<string>, ss: seq<Service>)
    requires d == TopLevel(ProgramIds(), doc).declared && ss == ServicesOf(ProgramIds(), c, AsMap(Get(doc, "services")))
    requires ProgramIds().AreServices(ss) && !NoClash(d, ss)
    ensures SpellsOut(c, doc)
  {
    var s, s', id :| s in ss && s' in ss && id !in d && FirstIn(s.mentions, id).Some?
      && FirstIn(s'.mentions, id).Some? && FirstIn(s.mentions, id) != FirstIn(s'.mentions, id);
    var a, b, source := ClashMeets(ss, s, s', id);
    DeclaredIffNamed(doc, source);
  }

  /** The exact condition for the ids of the program: the order of the services shows if and only if two
      services first mention a bind mount and a named volume that spells it out, and the top level does
      not declare that volume. */
  lemma OrderShowsIffSpelledOut(c: Context, doc: seq<(Yaml, Yaml)>)
    requires ValidDocument(doc)
    ensures OrderNeverShows(ProgramIds(), c, doc) <==> !SpellsOut(c, doc)
  {
    var ids, m := ProgramIds(), AsMap(Get(doc, "services"));
    var d, ss := TopLevel(ids, doc).declared, ServicesOf(ids, c, m);
    assert ids.Clear() by { ProgramIdsAreClear(); }
    OrderNeverShowsIffNoClash(ids, c, doc);
    if SpellsOut(c, doc) {
      SpelledOutClashes(c, doc, d, ss);
    } else if !NoClash(d, ss) {
      ServicesAreServices(ids, c, m);
      ClashIsSpelledOut(c, doc, d, ss);
    }
  }
}
