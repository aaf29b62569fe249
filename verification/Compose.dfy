/** Reading a Compose document into the graph of `Topology`. The YAML library gives a value whose
    mappings have distinct keys in document order. */
module Compose {
  import opened Basics
  import opened Text
  import opened Topology

  datatype Yaml = Null | Bool(b: bool) | Number(n: int) | Str(s: string) | Seq(items: seq<Yaml>)
      | Map(entries: seq<(Yaml, Yaml)>)

  function Get(m: seq<(Yaml, Yaml)>, key: string): Option<Yaml> {
    if m == [] then None else if m[0].0 == Str(key) then Some(m[0].1) else Get(m[1..], key)
  }

  function AsStr(y: Option<Yaml>): Option<string> {
    if y.Some? && y.value.Str? then Some(y.value.s) else None
  }

  function AsBool(y: Option<Yaml>): bool {
    y.Some? && y.value.Bool? && y.value.b
  }

  /** The entries of a mapping, or none. */
  function AsMap(y: Option<Yaml>): seq<(Yaml, Yaml)> {
    if y.Some? && y.value.Map? then y.value.entries else []
  }

  function AsSeq(y: Option<Yaml>): seq<Yaml> {
    if y.Some? && y.value.Seq? then y.value.items else []
  }

  ghost predicate UniqueKeys(m: seq<(Yaml, Yaml)>) {
    forall i, j :: 0 <= i < |m| && 0 <= j < |m| && m[i].0 == m[j].0 ==> i == j
  }

  // ---- What a service mentions

  function ConditionLabel(c: string): string {
    if c == "service_healthy" then "healthy"
    else if c == "service_started" then "started"
    else if c == "service_completed_successfully" then "completed"
    else c
  }

  function DependsOnItem(ids: Ids, sid: string, item: Yaml): seq<Mention> {
    if item.Str? then [Mention(Edge(sid, ids.service(item.s), DependsOn(None), None), None)] else []
  }

  function DependsOnEntry(ids: Ids, sid: string, entry: (Yaml, Yaml)): seq<Mention> {
    if !entry.0.Str? then []
    else
      var condition := AsStr(Get(AsMap(Some(entry.1)), "condition"));
      var annotation := if condition.None? then None else Some(ConditionLabel(condition.value));
      [Mention(Edge(sid, ids.service(entry.0.s), DependsOn(condition), annotation), None)]
  }

  function DependsOnItems(ids: Ids, sid: string, items: seq<Yaml>): seq<Mention> {
    if items == [] then [] else DependsOnItem(ids, sid, items[0]) + DependsOnItems(ids, sid, items[1..])
  }

  function DependsOnEntries(ids: Ids, sid: string, m: seq<(Yaml, Yaml)>): seq<Mention> {
    if m == [] then [] else DependsOnEntry(ids, sid, m[0]) + DependsOnEntries(ids, sid, m[1..])
  }

  function DependsOnMentions(ids: Ids, sid: string, deps: Option<Yaml>): seq<Mention> {
    DependsOnItems(ids, sid, AsSeq(deps)) + DependsOnEntries(ids, sid, AsMap(deps))
  }

  function NetworkMention(ids: Ids, sid: string, name: string): Mention {
    Mention(Edge(sid, ids.network(name), NetworkEdge, None), Some(ids.ImplicitNetwork(name)))
  }

  /** The names in a list, or the names that a mapping has as keys. */
  function NamesIn(items: seq<Yaml>): seq<string> {
    if items == [] then [] else (if items[0].Str? then [items[0].s] else []) + NamesIn(items[1..])
  }

  function KeysOf(m: seq<(Yaml, Yaml)>): seq<Yaml> {
    if m == [] then [] else [m[0].0] + KeysOf(m[1..])
  }

  function NetworkNames(nets: Option<Yaml>): seq<string> {
    if nets.Some? && nets.value.Seq? then NamesIn(nets.value.items) else NamesIn(KeysOf(AsMap(nets)))
  }

  function NetworkMentions(ids: Ids, sid: string, names: seq<string>): seq<Mention> {
    if names == [] then [] else [NetworkMention(ids, sid, names[0])] + NetworkMentions(ids, sid, names[1..])
  }

  function VolumeMention(ids: Ids, sid: string, source: string, target: Option<string>, mode: Option<string>): Mention {
    Mention(Edge(sid, ids.VolumeId(source), VolumeEdge(target, mode), mode), Some(ids.ImplicitVolume(source)))
  }

  function TrimmedAt(parts: seq<string>, i: nat): Option<string> {
    if i < |parts| then Some(Trim(parts[i])) else None
  }

  function StringVolume(ids: Ids, sid: string, text: string): seq<Mention> {
    var parts := Split(text, ':');
    var source := Trim(parts[0]);
    if source == [] then [] else [VolumeMention(ids, sid, source, TrimmedAt(parts, 1), TrimmedAt(parts, 2))]
  }

  function MappingVolume(ids: Ids, sid: string, m: seq<(Yaml, Yaml)>): seq<Mention> {
    var source := AsStr(Get(m, "source"));
    if source.None? || source.value == [] then []
    else
      var mode := if AsBool(Get(m, "read_only")) then Some("ro") else None;
      [VolumeMention(ids, sid, source.value, AsStr(Get(m, "target")), mode)]
  }

  function VolumeItem(ids: Ids, sid: string, item: Yaml): seq<Mention> {
    match item
    case Str(s) => StringVolume(ids, sid, s)
    case Map(m) => MappingVolume(ids, sid, m)
    case _ => []
  }

  function VolumeMentions(ids: Ids, sid: string, items: seq<Yaml>): seq<Mention> {
    if items == [] then [] else VolumeItem(ids, sid, items[0]) + VolumeMentions(ids, sid, items[1..])
  }

  function LinkItem(ids: Ids, sid: string, item: Yaml): seq<Mention> {
    if !item.Str? then []
    else
      var target := Trim(Split(item.s, ':')[0]);
      if target == [] then [] else [Mention(Edge(sid, ids.service(target), Link, Some("link")), None)]
  }

  function LinkMentions(ids: Ids, sid: string, items: seq<Yaml>): seq<Mention> {
    if items == [] then [] else LinkItem(ids, sid, items[0]) + LinkMentions(ids, sid, items[1..])
  }

  function ServiceMentions(ids: Ids, sid: string, m: seq<(Yaml, Yaml)>): seq<Mention> {
    DependsOnMentions(ids, sid, Get(m, "depends_on"))
    + NetworkMentions(ids, sid, NetworkNames(Get(m, "networks")))
    + VolumeMentions(ids, sid, AsSeq(Get(m, "volumes")))
    + LinkMentions(ids, sid, AsSeq(Get(m, "links")))
  }

  // ---- Services and top-level declarations

  datatype Status = Status(service: string, container: string, state: string, health: Option<Health>)

  function StatusOf(statuses: seq<Status>, name: string): Option<Status> {
    if statuses == [] then None
    else if statuses[0].service == name then Some(statuses[0])
    else StatusOf(statuses[1..], name)
  }

  datatype Context = Context(statuses: seq<Status>, entrypoint: Option<string>)

  function ServiceDetailsOf(c: Context, name: string): ServiceDetails {
    var entry := c.entrypoint == Some(name);
    match StatusOf(c.statuses, name)
    case None => ServiceDetails(entry, None, None, None)
    case Some(st) => ServiceDetails(entry, Some(st.state), st.health, Some(st.container))
  }

  function ServiceOf(ids: Ids, c: Context, name: string, body: Yaml): Service {
    var id := ids.service(name);
    Service(Node(id, name, OfService(ServiceDetailsOf(c, name))), ServiceMentions(ids, id, AsMap(Some(body))))
  }

  /** What `f` makes of the entries with a name, in order. */
  function Each<T>(m: seq<(Yaml, Yaml)>, f: (string, Yaml) -> T): seq<T> {
    if m == [] then [] else (if m[0].0.Str? then [f(m[0].0.s, m[0].1)] else []) + Each(m[1..], f)
  }

  function ServiceMaker(ids: Ids, c: Context): (string, Yaml) -> Service {
    (name: string, body: Yaml) => ServiceOf(ids, c, name, body)
  }

  function ServicesOf(ids: Ids, c: Context, m: seq<(Yaml, Yaml)>): seq<Service> {
    Each(m, ServiceMaker(ids, c))
  }

  function TopNetwork(ids: Ids, name: string, body: Yaml): Node {
    var m := AsMap(Some(body));
    Node(ids.network(name), name, OfNetwork(AsStr(Get(m, "driver")), AsBool(Get(m, "external"))))
  }

  function TopVolume(ids: Ids, name: string, body: Yaml): Node {
    var m := AsMap(Some(body));
    Node(ids.volume(name), name, OfVolume(AsStr(Get(m, "driver")), AsBool(Get(m, "external")), false, Some(name)))
  }

  function NetworkMaker(ids: Ids): (string, Yaml) -> Node {
    (name: string, body: Yaml) => TopNetwork(ids, name, body)
  }

  function VolumeMaker(ids: Ids): (string, Yaml) -> Node {
    (name: string, body: Yaml) => TopVolume(ids, name, body)
  }

  function TopNetworks(ids: Ids, m: seq<(Yaml, Yaml)>): seq<Node> {
    Each(m, NetworkMaker(ids))
  }

  function TopVolumes(ids: Ids, m: seq<(Yaml, Yaml)>): seq<Node> {
    Each(m, VolumeMaker(ids))
  }

  function IdsIn(nodes: seq<Node>): set<string> {
    set i | 0 <= i < |nodes| :: nodes[i].id
  }

  /** The graph of the top-level declarations. */
  function TopLevel(ids: Ids, doc: seq<(Yaml, Yaml)>): Graph {
    var nodes := TopNetworks(ids, AsMap(Get(doc, "networks"))) + TopVolumes(ids, AsMap(Get(doc, "volumes")));
    Graph(nodes, [], IdsIn(nodes))
  }

  /** The graph of a document before it is sorted. */
  function GraphOf(ids: Ids, c: Context, doc: seq<(Yaml, Yaml)>): Graph {
    AddServices(TopLevel(ids, doc), ServicesOf(ids, c, AsMap(Get(doc, "services"))))
  }

  // ---- The document gives what the graph needs

  ghost predicate AllMentions(ids: Ids, sid: string, ms: seq<Mention>) {
    forall i :: 0 <= i < |ms| ==> ids.IsMention(sid, ms[i])
  }

  lemma {:induction false} DependsOnItemsAreMentions(ids: Ids, sid: string, items: seq<Yaml>)
    ensures AllMentions(ids, sid, DependsOnItems(ids, sid, items))
  {
    if items != [] { DependsOnItemsAreMentions(ids, sid, items[1..]); }
  }

  lemma {:induction false} DependsOnEntriesAreMentions(ids: Ids, sid: string, m: seq<(Yaml, Yaml)>)
    ensures AllMentions(ids, sid, DependsOnEntries(ids, sid, m))
  {
    if m != [] { DependsOnEntriesAreMentions(ids, sid, m[1..]); }
  }

  lemma {:induction false} NetworksAreMentions(ids: Ids, sid: string, names: seq<string>)
    ensures AllMentions(ids, sid, NetworkMentions(ids, sid, names))
  {
    if names != [] { NetworksAreMentions(ids, sid, names[1..]); }
  }

  lemma VolumeItemIsMention(ids: Ids, sid: string, item: Yaml)
    ensures AllMentions(ids, sid, VolumeItem(ids, sid, item))
  {
  }

  lemma {:induction false} VolumesAreMentions(ids: Ids, sid: string, items: seq<Yaml>)
    ensures AllMentions(ids, sid, VolumeMentions(ids, sid, items))
  {
    if items != [] {
      VolumeItemIsMention(ids, sid, items[0]);
      VolumesAreMentions(ids, sid, items[1..]);
    }
  }

  lemma {:induction false} LinksAreMentions(ids: Ids, sid: string, items: seq<Yaml>)
    ensures AllMentions(ids, sid, LinkMentions(ids, sid, items))
  {
    if items != [] { LinksAreMentions(ids, sid, items[1..]); }
  }

  lemma ServiceIsService(ids: Ids, c: Context, name: string, body: Yaml)
    ensures ids.IsService(ServiceOf(ids, c, name, body))
  {
    var sid, m := ids.service(name), AsMap(Some(body));
    DependsOnItemsAreMentions(ids, sid, AsSeq(Get(m, "depends_on")));
    DependsOnEntriesAreMentions(ids, sid, AsMap(Get(m, "depends_on")));
    NetworksAreMentions(ids, sid, NetworkNames(Get(m, "networks")));
    VolumesAreMentions(ids, sid, AsSeq(Get(m, "volumes")));
    LinksAreMentions(ids, sid, AsSeq(Get(m, "links")));
    assert AllMentions(ids, sid, ServiceMentions(ids, sid, m));
  }

  ghost predicate IsFrom<T(!new)>(m: seq<(Yaml, Yaml)>, f: (string, Yaml) -> T, x: T, k: nat) {
    k < |m| && m[k].0.Str? && x == f(m[k].0.s, m[k].1)
  }

  /** The element at `i` comes from the entry at `ks[i]`, and the entries come in order. */
  ghost predicate ComeFrom<T(!new)>(m: seq<(Yaml, Yaml)>, f: (string, Yaml) -> T, ks: seq<nat>) {
    && |ks| == |Each(m, f)|
    && (forall i :: 0 <= i < |ks| ==> IsFrom(m, f, Each(m, f)[i], ks[i]))
    && (forall i, j :: 0 <= i < j < |ks| ==> ks[i] < ks[j])
  }

  function Shifted(ks: seq<nat>): (r: seq<nat>)
    ensures |r| == |ks| && forall i :: 0 <= i < |ks| ==> r[i] == ks[i] + 1
  {
    if ks == [] then [] else [ks[0] + 1] + Shifted(ks[1..])
  }

  lemma {:induction false} SkipEntry<T(!new)>(m: seq<(Yaml, Yaml)>, f: (string, Yaml) -> T, rest: seq<nat>)
    requires m != [] && !m[0].0.Str? && ComeFrom(m[1..], f, rest)
    ensures ComeFrom(m, f, Shifted(rest))
  {
    var ks := Shifted(rest);
    assert Each(m, f) == Each(m[1..], f);
    forall i | 0 <= i < |ks| ensures IsFrom(m, f, Each(m, f)[i], ks[i]) {
      assert IsFrom(m[1..], f, Each(m[1..], f)[i], rest[i]);
    }
  }

  lemma {:induction false} TakeEntry<T(!new)>(m: seq<(Yaml, Yaml)>, f: (string, Yaml) -> T, rest: seq<nat>)
    requires m != [] && m[0].0.Str? && ComeFrom(m[1..], f, rest)
    ensures ComeFrom(m, f, [0] + Shifted(rest))
  {
    var ks := [0] + Shifted(rest);
    var all, tail := Each(m, f), Each(m[1..], f);
    assert all[0] == f(m[0].0.s, m[0].1) && all[1..] == tail;
    forall i | 0 <= i < |ks| ensures IsFrom(m, f, all[i], ks[i]) {
      if i > 0 {
        assert IsFrom(m[1..], f, tail[i - 1], rest[i - 1]);
      }
    }
  }

  lemma {:induction false} EachComesFrom<T(!new)>(m: seq<(Yaml, Yaml)>, f: (string, Yaml) -> T) returns (ks: seq<nat>)
    ensures ComeFrom(m, f, ks)
  {
    if m == [] {
      ks := [];
    } else {
      var rest := EachComesFrom(m[1..], f);
      if m[0].0.Str? {
        TakeEntry(m, f, rest);
        ks := [0] + Shifted(rest);
      } else {
        SkipEntry(m, f, rest);
        ks := Shifted(rest);
      }
    }
  }

  /** Elements with one name come from one entry. */
  lemma OneEntryPerName(m: seq<(Yaml, Yaml)>, ks: seq<nat>, i: nat, j: nat)
    requires UniqueKeys(m) && i < |ks| && j < |ks| && ks[i] < |m| && ks[j] < |m|
    requires forall i, j :: 0 <= i < j < |ks| ==> ks[i] < ks[j]
    requires m[ks[i]].0.Str? && m[ks[j]].0.Str? && m[ks[i]].0.s == m[ks[j]].0.s
    ensures i == j
  {
    assert ks[i] == ks[j];
  }

  /** The services of a mapping have distinct names. */
  lemma ServicesAreServices(ids: Ids, c: Context, m: seq<(Yaml, Yaml)>)
    requires UniqueKeys(m)
    ensures ids.AreServices(ServicesOf(ids, c, m))
  {
    var ks := EachComesFrom(m, ServiceMaker(ids, c));
    var ss := ServicesOf(ids, c, m);
    forall i | 0 <= i < |ss|
      ensures ids.IsService(ss[i]) && ks[i] < |m| && m[ks[i]].0.Str? && ss[i].node.name == m[ks[i]].0.s
    {
      assert IsFrom(m, ServiceMaker(ids, c), ss[i], ks[i]);
      ServiceIsService(ids, c, m[ks[i]].0.s, m[ks[i]].1);
    }
    forall i, j | 0 <= i < |ss| && 0 <= j < |ss| && ss[i].node.name == ss[j].node.name ensures i == j {
      OneEntryPerName(m, ks, i, j);
    }
  }

  lemma TopNetworksAre(ids: Ids, m: seq<(Yaml, Yaml)>)
    requires ids.Clear() && UniqueKeys(m)
    ensures var nodes := TopNetworks(ids, m);
      DistinctIds(nodes) && forall i :: 0 <= i < |nodes| ==>
          nodes[i].details.OfNetwork? && nodes[i].id == ids.network(nodes[i].name)
  {
    var ks := EachComesFrom(m, NetworkMaker(ids));
    var nodes := TopNetworks(ids, m);
    forall i | 0 <= i < |nodes|
      ensures ks[i] < |m| && m[ks[i]].0 == Str(nodes[i].name) && nodes[i].details.OfNetwork?
              && nodes[i].id == ids.network(nodes[i].name)
    {
      assert IsFrom(m, NetworkMaker(ids), nodes[i], ks[i]);
    }
    forall i, j | 0 <= i < |nodes| && 0 <= j < |nodes| && nodes[i].id == nodes[j].id ensures i == j {
      OneEntryPerName(m, ks, i, j);
    }
  }

  lemma TopVolumesAre(ids: Ids, m: seq<(Yaml, Yaml)>)
    requires ids.Clear() && UniqueKeys(m)
    ensures var nodes := TopVolumes(ids, m);
      DistinctIds(nodes) && forall i :: 0 <= i < |nodes| ==>
          nodes[i].details.OfVolume? && nodes[i].id == ids.volume(nodes[i].name)
  {
    var ks := EachComesFrom(m, VolumeMaker(ids));
    var nodes := TopVolumes(ids, m);
    forall i | 0 <= i < |nodes|
      ensures ks[i] < |m| && m[ks[i]].0 == Str(nodes[i].name) && nodes[i].details.OfVolume?
              && nodes[i].id == ids.volume(nodes[i].name)
    {
      assert IsFrom(m, VolumeMaker(ids), nodes[i], ks[i]);
    }
    forall i, j | 0 <= i < |nodes| && 0 <= j < |nodes| && nodes[i].id == nodes[j].id ensures i == j {
      OneEntryPerName(m, ks, i, j);
    }
  }

  /** The mappings of a document that the reader uses have distinct keys. */
  ghost predicate ValidDocument(doc: seq<(Yaml, Yaml)>) {
    && UniqueKeys(AsMap(Get(doc, "networks")))
    && UniqueKeys(AsMap(Get(doc, "volumes")))
    && UniqueKeys(AsMap(Get(doc, "services")))
  }

  lemma TopNodesAreGood(ids: Ids, nets: seq<(Yaml, Yaml)>, vols: seq<(Yaml, Yaml)>)
    requires ids.Clear() && UniqueKeys(nets) && UniqueKeys(vols)
    ensures var nodes := TopNetworks(ids, nets) + TopVolumes(ids, vols);
      DistinctIds(nodes) && forall i :: 0 <= i < |nodes| ==> ids.IsTopLevel(nodes[i])
  {
    var a, b := TopNetworks(ids, nets), TopVolumes(ids, vols);
    TopNetworksAre(ids, nets);
    TopVolumesAre(ids, vols);
    JoinTop(ids, a, b);
  }

  lemma JoinTop(ids: Ids, a: seq<Node>, b: seq<Node>)
    requires ids.Clear() && DistinctIds(a) && DistinctIds(b)
    requires forall i :: 0 <= i < |a| ==> a[i].details.OfNetwork? && a[i].id == ids.network(a[i].name)
    requires forall i :: 0 <= i < |b| ==> b[i].details.OfVolume? && b[i].id == ids.volume(b[i].name)
    ensures DistinctIds(a + b) && forall i :: 0 <= i < |a + b| ==> ids.IsTopLevel((a + b)[i])
  {
    forall i, j | 0 <= i < |a| && 0 <= j < |b| ensures a[i].id != b[j].id {
      assert a[i].id == ids.network(a[i].name) && b[j].id == ids.volume(b[j].name);
    }
  }

  lemma TopLevelIsWellFormed(ids: Ids, doc: seq<(Yaml, Yaml)>)
    requires ids.Clear() && ValidDocument(doc)
    ensures WellFormed(ids, TopLevel(ids, doc))
    ensures forall i :: 0 <= i < |TopLevel(ids, doc).nodes| ==> ids.IsTopLevel(TopLevel(ids, doc).nodes[i])
  {
    TopNodesAreGood(ids, AsMap(Get(doc, "networks")), AsMap(Get(doc, "volumes")));
  }

  lemma NoServiceYet(ids: Ids, g: Graph, ss: seq<Service>)
    requires ids.Clear() && ids.AreServices(ss) && forall i :: 0 <= i < |g.nodes| ==> ids.IsTopLevel(g.nodes[i])
    ensures AllNew(g, ss)
  {
    forall k, i | 0 <= k < |ss| && 0 <= i < |g.nodes| ensures g.nodes[i].id != ss[k].node.id {
      assert ids.IsService(ss[k]) && ids.IsTopLevel(g.nodes[i]);
    }
  }

  /** The graph of every document is well formed, and the top-level nodes stay in it as declared. */
  lemma EveryGraphIsWellFormed(ids: Ids, c: Context, doc: seq<(Yaml, Yaml)>)
    requires ids.Clear() && ValidDocument(doc)
    ensures WellFormed(ids, GraphOf(ids, c, doc))
    ensures TopLevel(ids, doc).nodes <= GraphOf(ids, c, doc).nodes
  {
    var g, ss := TopLevel(ids, doc), ServicesOf(ids, c, AsMap(Get(doc, "services")));
    TopLevelIsWellFormed(ids, doc);
    ServicesAreServices(ids, c, AsMap(Get(doc, "services")));
    NoServiceYet(ids, g, ss);
    AddServicesKeeps(ids, g, ss);
    AddServicesAppends(g, ss);
  }

  // ---- The sorted topology

  datatype ComposeTopology = ComposeTopology(nodes: seq<Node>, edges: seq<Edge>, summary: Summary)

  ghost predicate IsTopologyOf(ids: Ids, c: Context, doc: seq<(Yaml, Yaml)>, t: ComposeTopology) {
    && t.nodes == SortedNodes(GraphOf(ids, c, doc).nodes)
    && t.edges == SortedEdges(GraphOf(ids, c, doc).edges)
    && t.summary == SummaryOf(t.nodes)
  }

  /** Exactly one node has the id, and it satisfies the test. */
  ghost predicate OneNode(nodes: seq<Node>, id: string, test: Node -> bool) {
    && (exists i :: 0 <= i < |nodes| && nodes[i].id == id && test(nodes[i]))
    && (forall i, j :: 0 <= i < |nodes| && 0 <= j < |nodes| && nodes[i].id == id && nodes[j].id == id ==> i == j)
  }

  lemma OneNodeIn(nodes: seq<Node>, id: string, test: Node -> bool, x: Node)
    requires DistinctIds(nodes) && x in nodes && x.id == id && test(x)
    ensures OneNode(nodes, id, test)
  {
    var i :| 0 <= i < |nodes| && nodes[i] == x;
  }

  /** In every topology the ids are distinct, each edge starts at the one service node with its source
      id, each network and volume edge ends at the one node with its target id, which has that kind,
      and every top-level node is there as it was declared. */
  lemma EveryTopologyIsClosed(ids: Ids, c: Context, doc: seq<(Yaml, Yaml)>, t: ComposeTopology)
    requires ids.Clear() && ValidDocument(doc) && IsTopologyOf(ids, c, doc, t)
    ensures DistinctIds(t.nodes)
    ensures forall e :: e in t.edges ==>
      && OneNode(t.nodes, e.source, IsServiceOf)
      && (e.kind.NetworkEdge? ==> OneNode(t.nodes, e.target, IsNetworkOf))
      && (e.kind.VolumeEdge? ==> OneNode(t.nodes, e.target, IsVolumeOf))
    ensures forall n :: n in TopLevel(ids, doc).nodes ==> n in t.nodes
  {
    var g := GraphOf(ids, c, doc);
    EveryGraphIsWellFormed(ids, c, doc);
    SortKeepsDistinctIds(g.nodes);
    forall e | e in t.edges
      ensures OneNode(t.nodes, e.source, IsServiceOf)
      ensures e.kind.NetworkEdge? ==> OneNode(t.nodes, e.target, IsNetworkOf)
      ensures e.kind.VolumeEdge? ==> OneNode(t.nodes, e.target, IsVolumeOf)
    {
      SortedHasTheEdges(g.edges, e);
      EdgeEnds(g.nodes, t.nodes, e);
    }
    forall n | n in TopLevel(ids, doc).nodes ensures n in t.nodes {
      SortedHasTheNodes(g.nodes, n);
    }
  }

  lemma EdgeEnds(nodes: seq<Node>, sorted: seq<Node>, e: Edge)
    requires Anchored(nodes, e) && DistinctIds(sorted) && sorted == SortedNodes(nodes)
    ensures OneNode(sorted, e.source, IsServiceOf)
    ensures e.kind.NetworkEdge? ==> OneNode(sorted, e.target, IsNetworkOf)
    ensures e.kind.VolumeEdge? ==> OneNode(sorted, e.target, IsVolumeOf)
  {
    var i :| 0 <= i < |nodes| && nodes[i].id == e.source && nodes[i].details.OfService?;
    SortedHasTheNodes(nodes, nodes[i]);
    OneNodeIn(sorted, e.source, IsServiceOf, nodes[i]);
    if e.kind.NetworkEdge? {
      var j :| 0 <= j < |nodes| && nodes[j].id == e.target && nodes[j].details.OfNetwork?;
      SortedHasTheNodes(nodes, nodes[j]);
      OneNodeIn(sorted, e.target, IsNetworkOf, nodes[j]);
    }
    if e.kind.VolumeEdge? {
      var j :| 0 <= j < |nodes| && nodes[j].id == e.target && nodes[j].details.OfVolume?;
      SortedHasTheNodes(nodes, nodes[j]);
      OneNodeIn(sorted, e.target, IsVolumeOf, nodes[j]);
    }
  }

  // ---- The order of the services mapping

  ghost predicate SameEntries(m: seq<(Yaml, Yaml)>, m': seq<(Yaml, Yaml)>) {
    forall e :: e in m <==> e in m'
  }

  lemma {:induction false} EachMembers<T(!new)>(m: seq<(Yaml, Yaml)>, f: (string, Yaml) -> T, x: T)
    ensures x in Each(m, f) <==> exists e :: e in m && e.0.Str? && x == f(e.0.s, e.1)
  {
    if m != [] {
      EachMembers(m[1..], f, x);
      assert m == [m[0]] + m[1..];
    }
  }

  lemma SameEntriesSameServices(ids: Ids, c: Context, m: seq<(Yaml, Yaml)>, m': seq<(Yaml, Yaml)>)
    requires SameEntries(m, m')
    ensures SameServices(ServicesOf(ids, c, m), ServicesOf(ids, c, m'))
  {
    forall s ensures s in ServicesOf(ids, c, m) <==> s in ServicesOf(ids, c, m') {
      EachMembers(m, ServiceMaker(ids, c), s);
      EachMembers(m', ServiceMaker(ids, c), s);
    }
  }

  /** The documents differ at most in the order of the services. */
  ghost predicate SameButOrder(doc: seq<(Yaml, Yaml)>, doc': seq<(Yaml, Yaml)>) {
    && Get(doc, "networks") == Get(doc', "networks")
    && Get(doc, "volumes") == Get(doc', "volumes")
    && SameEntries(AsMap(Get(doc, "services")), AsMap(Get(doc', "services")))
  }

  /** Reordering the services of a document never changes the edges of its topology, and changes nothing
      at all when no two services clash over a volume id. */
  lemma TopologyIgnoresServiceOrder(ids: Ids, c: Context, doc: seq<(Yaml, Yaml)>, doc': seq<(Yaml, Yaml)>,
                                    t: ComposeTopology, t': ComposeTopology)
    requires ids.Clear() && ValidDocument(doc) && ValidDocument(doc') && SameButOrder(doc, doc')
    requires IsTopologyOf(ids, c, doc, t) && IsTopologyOf(ids, c, doc', t')
    ensures t.edges == t'.edges
    ensures NoClash(TopLevel(ids, doc).declared, ServicesOf(ids, c, AsMap(Get(doc, "services")))) ==> t == t'
  {
    var m, m', g := AsMap(Get(doc, "services")), AsMap(Get(doc', "services")), TopLevel(ids, doc);
    var ss, tt := ServicesOf(ids, c, m), ServicesOf(ids, c, m');
    TopLevelIsWellFormed(ids, doc);
    ServicesAreServices(ids, c, m);
    ServicesAreServices(ids, c, m');
    SameEntriesSameServices(ids, c, m, m');
    EdgesIgnoreServiceOrder(ids, g, ss, tt);
    if NoClash(g.declared, ss) {
      NoServiceYet(ids, g, ss);
      NodesIgnoreServiceOrder(ids, g, ss, tt);
    }
  }
}
