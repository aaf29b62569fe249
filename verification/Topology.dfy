/** The graph of a Compose application: nodes for services, networks and volumes, edges from services.

    A service is given by its node and its mentions in the order in which the parser meets them: an
    edge, and the network or volume node that the edge needs. `AddServices` adds services one after
    the other, declaring a mentioned node the first time its id is met. */
module Topology {
  import opened Basics
  import opened Sorting

  datatype Health = Starting | Healthy | Unhealthy

  datatype ServiceDetails = ServiceDetails(isEntrypoint: bool, state: Option<string>, health: Option<Health>,
      container: Option<string>)

  datatype Details =
    | OfService(service: ServiceDetails)
    | OfNetwork(driver: Option<string>, external: bool)
    | OfVolume(driver: Option<string>, external: bool, isBindMount: bool, source: Option<string>)

  datatype Node = Node(id: string, name: string, details: Details)

  datatype EdgeKind =
    | DependsOn(condition: Option<string>)
    | NetworkEdge
    | VolumeEdge(targetPath: Option<string>, mode: Option<string>)
    | Link

  datatype Edge = Edge(source: string, target: string, kind: EdgeKind, annotation: Option<string>)

  datatype Mention = Mention(edge: Edge, node: Option<Node>)

  datatype Service = Service(node: Node, mentions: seq<Mention>)

  datatype Graph = Graph(nodes: seq<Node>, edges: seq<Edge>, declared: set<string>)

  // ---- Ids

  /** How ids are made of names. */
  datatype Ids = Ids(service: string -> string, network: string -> string, volume: string -> string,
      bind: string -> string,
                     isBind: string -> bool) {

    /** Different names have different ids, and so have different kinds. A named volume and a bind
        mount may share an id. */
    ghost predicate Clear() {
      && (forall a, b :: service(a) == service(b) ==> a == b)
      && (forall a, b :: network(a) == network(b) ==> a == b)
      && (forall a, b :: volume(a) == volume(b) ==> a == b)
      && (forall a, b :: bind(a) == bind(b) ==> a == b)
      && (forall a, b :: service(a) != network(b) && service(a) != volume(b) && service(a) != bind(b))
      && (forall a, b :: network(a) != volume(b) && network(a) != bind(b))
    }

    function VolumeId(name: string): string {
      if isBind(name) then bind(name) else volume(name)
    }

    /** The node of a network or volume that only services mention. */
    function ImplicitNetwork(name: string): Node {
      Node(network(name), name, OfNetwork(None, false))
    }

    function ImplicitVolume(name: string): Node {
      Node(VolumeId(name), name, OfVolume(None, false, isBind(name), Some(name)))
    }

    ghost predicate IsImplicit(n: Node) {
      n == ImplicitNetwork(n.name) || n == ImplicitVolume(n.name)
    }

    ghost predicate IsTopLevel(n: Node) {
      || (n.details.OfNetwork? && n.id == network(n.name))
      || (n.details.OfVolume? && n.id == volume(n.name))
    }

    ghost predicate IsServiceNode(n: Node) {
      n.details.OfService? && n.id == service(n.name)
    }

    /** A mention by the service with that id: a network or volume edge brings the node it ends at, and
        another edge brings none. */
    ghost predicate IsMention(source: string, m: Mention) {
      && m.edge.source == source
      && match m.node {
        case None => m.edge.kind.DependsOn? || m.edge.kind.Link?
        case Some(n) =>
          && IsImplicit(n) && m.edge.target == n.id
          && (if n.details.OfNetwork? then m.edge.kind.NetworkEdge? else m.edge.kind.VolumeEdge?)
      }
    }

    ghost predicate IsService(s: Service) {
      IsServiceNode(s.node) && forall i :: 0 <= i < |s.mentions| ==> IsMention(s.node.id, s.mentions[i])
    }

    ghost predicate AreServices(ss: seq<Service>) {
      && (forall i :: 0 <= i < |ss| ==> IsService(ss[i]))
      && (forall i, j :: 0 <= i < |ss| && 0 <= j < |ss| && ss[i].node.name == ss[j].node.name ==> i == j)
    }
  }

  // ---- Building

  function Touch(g: Graph, m: Mention): Graph {
    var g' := g.(edges := g.edges + [m.edge]);
    if m.node.None? || m.node.value.id in g.declared then g'
    else g'.(nodes := g.nodes + [m.node.value], declared := g.declared + {m.node.value.id})
  }

  function TouchAll(g: Graph, ms: seq<Mention>): Graph
    decreases |ms|
  {
    if ms == [] then g else TouchAll(Touch(g, ms[0]), ms[1..])
  }

  function AddService(g: Graph, s: Service): Graph {
    TouchAll(g.(nodes := g.nodes + [s.node]), s.mentions)
  }

  function AddServices(g: Graph, ss: seq<Service>): Graph
    decreases |ss|
  {
    if ss == [] then g else AddServices(AddService(g, ss[0]), ss[1..])
  }

  /** The ids of the network and volume nodes. */
  ghost predicate Declares(g: Graph) {
    && (forall i :: 0 <= i < |g.nodes| && !g.nodes[i].details.OfService? ==> g.nodes[i].id in g.declared)
    && (forall id :: id in g.declared ==>
        exists i :: 0 <= i < |g.nodes| && g.nodes[i].id == id && !g.nodes[i].details.OfService?)
  }

  ghost predicate GoodNode(ids: Ids, n: Node) {
    ids.IsServiceNode(n) || ids.IsTopLevel(n) || ids.IsImplicit(n)
  }

  ghost predicate DistinctIds(nodes: seq<Node>) {
    forall i, j :: 0 <= i < |nodes| && 0 <= j < |nodes| && nodes[i].id == nodes[j].id ==> i == j
  }

  /** An edge starts at a service node, and a network or volume edge ends at a node of that kind. */
  ghost predicate Anchored(nodes: seq<Node>, e: Edge) {
    && (exists i :: 0 <= i < |nodes| && nodes[i].id == e.source && nodes[i].details.OfService?)
    && (e.kind.NetworkEdge? ==> exists i :: 0 <= i < |nodes| && nodes[i].id == e.target && nodes[i].details.OfNetwork?)
    && (e.kind.VolumeEdge? ==> exists i :: 0 <= i < |nodes| && nodes[i].id == e.target && nodes[i].details.OfVolume?)
  }

  ghost predicate WellFormed(ids: Ids, g: Graph) {
    && (forall i :: 0 <= i < |g.nodes| ==> GoodNode(ids, g.nodes[i]))
    && DistinctIds(g.nodes)
    && Declares(g)
    && (forall e :: e in g.edges ==> Anchored(g.nodes, e))
  }

  lemma AnchoredInMore(nodes: seq<Node>, n: Node, e: Edge)
    requires Anchored(nodes, e)
    ensures Anchored(nodes + [n], e)
  {
    var more := nodes + [n];
    var i :| 0 <= i < |nodes| && nodes[i].id == e.source && nodes[i].details.OfService?;
    assert more[i] == nodes[i];
    if e.kind.NetworkEdge? {
      var j :| 0 <= j < |nodes| && nodes[j].id == e.target && nodes[j].details.OfNetwork?;
      assert more[j] == nodes[j];
    }
    if e.kind.VolumeEdge? {
      var j :| 0 <= j < |nodes| && nodes[j].id == e.target && nodes[j].details.OfVolume?;
      assert more[j] == nodes[j];
    }
  }

  /** A node with a new id, declared unless it is a service. */
  function WithNode(g: Graph, n: Node): Graph {
    g.(nodes := g.nodes + [n], declared := if n.details.OfService? then g.declared else g.declared + {n.id})
  }

  lemma DeclaresMore(g: Graph, n: Node)
    requires Declares(g)
    ensures Declares(WithNode(g, n))
  {
    var g' := WithNode(g, n);
    forall id | id in g'.declared
      ensures exists i :: 0 <= i < |g'.nodes| && g'.nodes[i].id == id && !g'.nodes[i].details.OfService?
    {
      if id in g.declared {
        var i :| 0 <= i < |g.nodes| && g.nodes[i].id == id && !g.nodes[i].details.OfService?;
        assert g'.nodes[i] == g.nodes[i];
      } else {
        assert g'.nodes[|g.nodes|] == n;
      }
    }
  }

  lemma NewNodeKeeps(ids: Ids, g: Graph, n: Node)
    requires WellFormed(ids, g) && GoodNode(ids, n)
    requires forall i :: 0 <= i < |g.nodes| ==> g.nodes[i].id != n.id
    ensures WellFormed(ids, WithNode(g, n))
  {
    var g' := WithNode(g, n);
    DeclaresMore(g, n);
    forall e | e in g'.edges ensures Anchored(g'.nodes, e) {
      AnchoredInMore(g.nodes, n, e);
    }
  }

  /** An id that is not declared belongs to no node, unless it is the id of a service. */
  lemma UndeclaredIsNew(ids: Ids, g: Graph, n: Node)
    requires ids.Clear() && WellFormed(ids, g) && ids.IsImplicit(n) && n.id !in g.declared
    ensures forall i :: 0 <= i < |g.nodes| ==> g.nodes[i].id != n.id
  {
    forall i | 0 <= i < |g.nodes| ensures g.nodes[i].id != n.id {
      assert GoodNode(ids, g.nodes[i]);
    }
  }

  /** The node of a declared id has the kind that the id says. */
  lemma DeclaredKind(ids: Ids, g: Graph, n: Node)
    requires ids.Clear() && WellFormed(ids, g) && ids.IsImplicit(n) && n.id in g.declared
    ensures exists i :: 0 <= i < |g.nodes| && g.nodes[i].id == n.id
                        && g.nodes[i].details.OfNetwork? == n.details.OfNetwork? && !g.nodes[i].details.OfService?
  {
    var i :| 0 <= i < |g.nodes| && g.nodes[i].id == n.id && !g.nodes[i].details.OfService?;
    assert GoodNode(ids, g.nodes[i]);
  }

  ghost predicate HasService(g: Graph, id: string) {
    exists i :: 0 <= i < |g.nodes| && g.nodes[i].id == id && g.nodes[i].details.OfService?
  }

  lemma HasServiceStill(g: Graph, n: Node, id: string)
    requires HasService(g, id)
    ensures HasService(WithNode(g, n), id)
  {
    var i :| 0 <= i < |g.nodes| && g.nodes[i].id == id && g.nodes[i].details.OfService?;
    assert WithNode(g, n).nodes[i] == g.nodes[i];
  }

  lemma NewEdgeKeeps(ids: Ids, g: Graph, e: Edge)
    requires WellFormed(ids, g) && Anchored(g.nodes, e)
    ensures WellFormed(ids, g.(edges := g.edges + [e]))
  {
  }

  lemma TouchKeeps(ids: Ids, g: Graph, m: Mention, source: string)
    requires ids.Clear() && WellFormed(ids, g) && ids.IsMention(source, m) && HasService(g, source)
    ensures WellFormed(ids, Touch(g, m)) && HasService(Touch(g, m), source)
  {
    if m.node.None? {
      NewEdgeKeeps(ids, g, m.edge);
    } else {
      var n := m.node.value;
      var g' := g;
      if n.id !in g.declared {
        UndeclaredIsNew(ids, g, n);
        NewNodeKeeps(ids, g, n);
        HasServiceStill(g, n, source);
        g' := WithNode(g, n);
      }
      DeclaredKind(ids, g', n);
      NewEdgeKeeps(ids, g', m.edge);
      assert Touch(g, m) == g'.(edges := g'.edges + [m.edge]);
    }
  }

  lemma {:induction false} TouchAllKeeps(ids: Ids, g: Graph, ms: seq<Mention>, source: string)
    requires ids.Clear() && WellFormed(ids, g) && HasService(g, source)
    requires forall i :: 0 <= i < |ms| ==> ids.IsMention(source, ms[i])
    ensures WellFormed(ids, TouchAll(g, ms))
    decreases |ms|
  {
    if ms != [] {
      TouchKeeps(ids, g, ms[0], source);
      TouchAllKeeps(ids, Touch(g, ms[0]), ms[1..], source);
    }
  }

  /** No service of the list has a node yet. */
  ghost predicate AllNew(g: Graph, ss: seq<Service>) {
    forall k, i :: 0 <= k < |ss| && 0 <= i < |g.nodes| ==> g.nodes[i].id != ss[k].node.id
  }

  lemma {:induction false} TouchAllNewNodes(ids: Ids, g: Graph, ms: seq<Mention>, source: string, i: nat)
    requires forall k :: 0 <= k < |ms| ==> ids.IsMention(source, ms[k])
    requires i < |TouchAll(g, ms).nodes|
    ensures TouchAll(g, ms).nodes[i] in g.nodes || ids.IsImplicit(TouchAll(g, ms).nodes[i])
    decreases |ms|
  {
    if ms != [] {
      TouchAllNewNodes(ids, Touch(g, ms[0]), ms[1..], source, i);
    }
  }

  lemma AllNewNext(ids: Ids, g: Graph, ss: seq<Service>)
    requires ids.Clear() && ss != [] && ids.AreServices(ss) && AllNew(g, ss)
    ensures AllNew(AddService(g, ss[0]), ss[1..])
  {
    var g1 := g.(nodes := g.nodes + [ss[0].node]);
    var g' := AddService(g, ss[0]);
    forall k, i | 0 <= k < |ss[1..]| && 0 <= i < |g'.nodes| ensures g'.nodes[i].id != ss[1..][k].node.id {
      assert ss[1..][k] == ss[k + 1];
      assert ids.IsService(ss[0]) && ids.IsService(ss[k + 1]);
      TouchAllNewNodes(ids, g1, ss[0].mentions, ss[0].node.id, i);
    }
  }

  lemma TailAreServices(ids: Ids, ss: seq<Service>)
    requires ss != [] && ids.AreServices(ss)
    ensures ids.AreServices(ss[1..])
  {
  }

  lemma AddServiceKeeps(ids: Ids, g: Graph, s: Service)
    requires ids.Clear() && WellFormed(ids, g) && ids.IsService(s)
    requires forall i :: 0 <= i < |g.nodes| ==> g.nodes[i].id != s.node.id
    ensures WellFormed(ids, AddService(g, s))
  {
    NewNodeKeeps(ids, g, s.node);
    var g1 := WithNode(g, s.node);
    assert g1 == g.(nodes := g.nodes + [s.node]);
    assert g1.nodes[|g.nodes|] == s.node;
    TouchAllKeeps(ids, g1, s.mentions, s.node.id);
  }

  /** Every graph is well formed: distinct ids, edges from one service node each, and network and
      volume edges to one existing node each. */
  lemma {:induction false} AddServicesKeeps(ids: Ids, g: Graph, ss: seq<Service>)
    requires ids.Clear() && WellFormed(ids, g) && ids.AreServices(ss) && AllNew(g, ss)
    ensures WellFormed(ids, AddServices(g, ss))
    decreases |ss|
  {
    if ss != [] {
      AddServiceKeeps(ids, g, ss[0]);
      AllNewNext(ids, g, ss);
      TailAreServices(ids, ss);
      AddServicesKeeps(ids, AddService(g, ss[0]), ss[1..]);
    }
  }

  // ---- Edges and declarations

  function EdgesOf(ms: seq<Mention>): seq<Edge> {
    if ms == [] then [] else [ms[0].edge] + EdgesOf(ms[1..])
  }

  function AllEdges(ss: seq<Service>): seq<Edge> {
    if ss == [] then [] else EdgesOf(ss[0].mentions) + AllEdges(ss[1..])
  }

  lemma {:induction false} TouchAllEdges(g: Graph, ms: seq<Mention>)
    ensures TouchAll(g, ms).edges == g.edges + EdgesOf(ms)
    ensures g.nodes <= TouchAll(g, ms).nodes
    decreases |ms|
  {
    if ms == [] {
      assert g.edges + [] == g.edges;
    } else {
      TouchAllEdges(Touch(g, ms[0]), ms[1..]);
      assert g.edges + [ms[0].edge] + EdgesOf(ms[1..]) == g.edges + ([ms[0].edge] + EdgesOf(ms[1..]));
    }
  }

  /** Services append their edges, and a node that is there stays as it is where it is. */
  lemma {:induction false} AddServicesAppends(g: Graph, ss: seq<Service>)
    ensures AddServices(g, ss).edges == g.edges + AllEdges(ss)
    ensures g.nodes <= AddServices(g, ss).nodes
    decreases |ss|
  {
    if ss == [] {
      assert g.edges + [] == g.edges;
    } else {
      var g1 := g.(nodes := g.nodes + [ss[0].node]);
      TouchAllEdges(g1, ss[0].mentions);
      AddServicesAppends(AddService(g, ss[0]), ss[1..]);
      assert g.edges + EdgesOf(ss[0].mentions) + AllEdges(ss[1..]) ==
          g.edges + (EdgesOf(ss[0].mentions) + AllEdges(ss[1..]));
    }
  }

  // ---- Sorting

  function KindRank(d: Details): string {
    match d
    case OfService(_) => "0"
    case OfNetwork(_, _) => "1"
    case OfVolume(_, _, _, _) => "2"
  }

  function NodeKey(n: Node): (string, string) {
    (KindRank(n.details), n.name)
  }

  function EdgeKey(e: Edge): (string, string) {
    (e.source, e.target)
  }

  function SortedNodes(nodes: seq<Node>): seq<Node> {
    Sort(nodes, NodeKey, PairLe)
  }

  function SortedEdges(edges: seq<Edge>): seq<Edge> {
    Sort(edges, EdgeKey, PairLe)
  }

  // ---- The order of services does not change the edges

  /** The same services, in any order. */
  ghost predicate SameServices(ss: seq<Service>, tt: seq<Service>) {
    forall s :: s in ss <==> s in tt
  }

  lemma {:induction false} ForeignEdges(ids: Ids, source: string, ms: seq<Mention>, k: (string, string))
    requires forall i :: 0 <= i < |ms| ==> ids.IsMention(source, ms[i])
    requires k.0 != source
    ensures With(EdgesOf(ms), EdgeKey, k) == []
  {
    if ms != [] {
      ForeignEdges(ids, source, ms[1..], k);
      assert ids.IsMention(source, ms[0]);
      var es := EdgesOf(ms);
      assert es[0] == ms[0].edge && es[1..] == EdgesOf(ms[1..]);
    }
  }

  /** The edges with one key come from the one service whose id the key names. */
  lemma {:induction false} EdgesOfOneService(ids: Ids, ss: seq<Service>, s: Service, k: (string, string))
    requires ids.Clear() && ids.AreServices(ss) && s in ss && k.0 == s.node.id
    ensures With(AllEdges(ss), EdgeKey, k) == With(EdgesOf(s.mentions), EdgeKey, k)
  {
    var first, rest := ss[0], ss[1..];
    assert ids.IsService(first);
    WithAppend(EdgesOf(first.mentions), AllEdges(rest), EdgeKey, k);
    TailAreServices(ids, ss);
    if first == s {
      EdgesOfNoService(ids, rest, k, s, ss);
    } else {
      assert s in rest;
      OtherService(ids, ss, s);
      ForeignEdges(ids, first.node.id, first.mentions, k);
      EdgesOfOneService(ids, rest, s, k);
    }
  }

  lemma OtherService(ids: Ids, ss: seq<Service>, s: Service)
    requires ids.Clear() && ids.AreServices(ss) && ss != [] && s in ss && s != ss[0]
    ensures ss[0].node.id != s.node.id
  {
    var i :| 0 <= i < |ss| && ss[i] == s;
    assert ids.IsService(ss[0]) && ids.IsService(ss[i]);
  }

  lemma EdgesOfNoService(ids: Ids, rest: seq<Service>, k: (string, string), s: Service, ss: seq<Service>)
    requires ids.Clear() && ids.AreServices(ss) && ss == [s] + rest && k.0 == s.node.id
    ensures With(AllEdges(rest), EdgeKey, k) == []
  {
    forall i | 0 <= i < |rest| ensures rest[i].node.id != k.0 && ids.IsService(rest[i]) {
      assert ss[i + 1] == rest[i] && ss[0] == s;
      assert ids.IsService(ss[0]) && ids.IsService(ss[i + 1]);
    }
    NobodysEdges(ids, rest, k);
  }

  lemma {:induction false} NobodysEdges(ids: Ids, ss: seq<Service>, k: (string, string))
    requires forall i :: 0 <= i < |ss| ==> ids.IsService(ss[i]) && ss[i].node.id != k.0
    ensures With(AllEdges(ss), EdgeKey, k) == []
  {
    if ss != [] {
      WithAppend(EdgesOf(ss[0].mentions), AllEdges(ss[1..]), EdgeKey, k);
      ForeignEdges(ids, ss[0].node.id, ss[0].mentions, k);
      NobodysEdges(ids, ss[1..], k);
    }
  }

  lemma SameGroups(ids: Ids, ss: seq<Service>, tt: seq<Service>, k: (string, string))
    requires ids.Clear() && ids.AreServices(ss) && ids.AreServices(tt) && SameServices(ss, tt)
    ensures With(AllEdges(ss), EdgeKey, k) == With(AllEdges(tt), EdgeKey, k)
  {
    if s :| s in ss && s.node.id == k.0 {
      EdgesOfOneService(ids, ss, s, k);
      EdgesOfOneService(ids, tt, s, k);
    } else {
      NobodysEdges(ids, ss, k);
      NobodysEdges(ids, tt, k);
    }
  }

  /** Reordering the services never changes the sorted edges: edges with equal keys come from one
      service, and the sort keeps their order. */
  lemma EdgesIgnoreServiceOrder(ids: Ids, g: Graph, ss: seq<Service>, tt: seq<Service>)
    requires ids.Clear() && ids.AreServices(ss) && ids.AreServices(tt) && SameServices(ss, tt) && g.edges == []
    ensures SortedEdges(AddServices(g, ss).edges) == SortedEdges(AddServices(g, tt).edges)
  {
    AddServicesAppends(g, ss);
    AddServicesAppends(g, tt);
    assert [] + AllEdges(ss) == AllEdges(ss) && [] + AllEdges(tt) == AllEdges(tt);
    forall k: (string, string) ensures With(AllEdges(ss), EdgeKey, k) == With(AllEdges(tt), EdgeKey, k) {
      SameGroups(ids, ss, tt, k);
    }
    PairLeIsTotal();
    SameGroupsSameSort(AllEdges(ss), AllEdges(tt), EdgeKey, PairLe);
  }

  // ---- When the order of services does not change the nodes

  /** The first node with the id that the mentions bring. */
  function FirstIn(ms: seq<Mention>, id: string): Option<Node> {
    if ms == [] then None
    else if ms[0].node.Some? && ms[0].node.value.id == id then ms[0].node
    else FirstIn(ms[1..], id)
  }

  /** What a service adds when the ids of `d` are declared. */
  ghost predicate Contributes(d: set<string>, s: Service, x: Node) {
    x == s.node || (x.id !in d && FirstIn(s.mentions, x.id) == Some(x))
  }

  lemma {:induction false} TouchAllMembers(g: Graph, ms: seq<Mention>, x: Node)
    ensures x in TouchAll(g, ms).nodes <==> x in g.nodes || (x.id !in g.declared && FirstIn(ms, x.id) == Some(x))
    ensures x.id in TouchAll(g, ms).declared <==> x.id in g.declared || FirstIn(ms, x.id).Some?
    decreases |ms|
  {
    if ms != [] {
      TouchAllMembers(Touch(g, ms[0]), ms[1..], x);
    }
  }

  lemma AddServiceMembers(g: Graph, s: Service, x: Node)
    ensures x in AddService(g, s).nodes <==> x in g.nodes || Contributes(g.declared, s, x)
    ensures x.id in AddService(g, s).declared <==> x.id in g.declared || FirstIn(s.mentions, x.id).Some?
  {
    TouchAllMembers(g.(nodes := g.nodes + [s.node]), s.mentions, x);
  }

  /** Two services that mention an undeclared id mention the same node first. */
  ghost predicate NoClash(d: set<string>, ss: seq<Service>) {
    forall s, s', id ::
      s in ss && s' in ss && id !in d && FirstIn(s.mentions, id).Some? && FirstIn(s'.mentions, id).Some?
      ==> FirstIn(s.mentions, id) == FirstIn(s'.mentions, id)
  }

  ghost predicate SomeoneContributes(d: set<string>, ss: seq<Service>, x: Node) {
    exists s :: s in ss && Contributes(d, s, x)
  }

  lemma DeclaredGrows(g: Graph, s: Service, id: string)
    requires id in g.declared
    ensures id in AddService(g, s).declared
  {
    AddServiceMembers(g, s, Node(id, [], OfNetwork(None, false)));
  }

  lemma NoClashNext(g: Graph, ss: seq<Service>)
    requires ss != [] && NoClash(g.declared, ss)
    ensures NoClash(AddService(g, ss[0]).declared, ss[1..])
  {
    forall s, s', id | s in ss[1..] && s' in ss[1..] && id !in AddService(g, ss[0]).declared
                       && FirstIn(s.mentions, id).Some? && FirstIn(s'.mentions, id).Some?
      ensures FirstIn(s.mentions, id) == FirstIn(s'.mentions, id)
    {
      if id in g.declared {
        DeclaredGrows(g, ss[0], id);
      }
    }
  }

  /** Without a clash, the nodes are those that some service contributes on its own. */
  lemma {:induction false} AddServicesMembers(g: Graph, ss: seq<Service>, x: Node)
    requires NoClash(g.declared, ss)
    ensures x in AddServices(g, ss).nodes <==> x in g.nodes || SomeoneContributes(g.declared, ss, x)
    decreases |ss|
  {
    if ss != [] {
      var first, rest := ss[0], ss[1..];
      var g1 := AddService(g, first);
      NoClashNext(g, ss);
      AddServicesMembers(g1, rest, x);
      AddServiceMembers(g, first, x);
      assert ss == [first] + rest;
      if s :| s in ss && Contributes(g.declared, s, x) {
        ContributionSurvives(g, ss, s, x);
      }
      if s :| s in rest && Contributes(g1.declared, s, x) {
        assert Contributes(g.declared, s, x);
      }
    }
  }

  lemma ContributionSurvives(g: Graph, ss: seq<Service>, s: Service, x: Node)
    requires ss != [] && NoClash(g.declared, ss) && s in ss && Contributes(g.declared, s, x)
    ensures Contributes(g.declared, ss[0], x) || (s in ss[1..] && Contributes(AddService(g, ss[0]).declared, s, x))
  {
    AddServiceMembers(g, ss[0], x);
    assert ss == [ss[0]] + ss[1..];
  }

  /** The nodes that services bring have a key of their own. */
  ghost predicate Brought(ids: Ids, n: Node) {
    ids.IsServiceNode(n) || ids.IsImplicit(n)
  }

  lemma SameKeySameId(ids: Ids, a: Node, b: Node)
    requires Brought(ids, a) && Brought(ids, b) && NodeKey(a) == NodeKey(b)
    ensures a.id == b.id
  {
  }

  lemma {:induction false} NewNodesAreBrought(ids: Ids, g: Graph, ss: seq<Service>, i: nat)
    requires forall k :: 0 <= k < |ss| ==> ids.IsService(ss[k])
    requires i < |AddServices(g, ss).nodes|
    ensures AddServices(g, ss).nodes[i] in g.nodes || Brought(ids, AddServices(g, ss).nodes[i])
    decreases |ss|
  {
    if ss != [] {
      NewNodesAreBrought(ids, AddService(g, ss[0]), ss[1..], i);
      var x := AddServices(g, ss).nodes[i];
      if x in AddService(g, ss[0]).nodes {
        var g1 := g.(nodes := g.nodes + [ss[0].node]);
        var j :| 0 <= j < |AddService(g, ss[0]).nodes| && AddService(g, ss[0]).nodes[j] == x;
        TouchAllNewNodes(ids, g1, ss[0].mentions, ss[0].node.id, j);
      }
    }
  }

  /** What services add to the nodes of `g`. */
  function Added(g: Graph, ss: seq<Service>): seq<Node> {
    AddServicesAppends(g, ss);
    AddServices(g, ss).nodes[|g.nodes|..]
  }

  ghost predicate DistinctKeys(nodes: seq<Node>) {
    forall i, j :: 0 <= i < |nodes| && 0 <= j < |nodes| && NodeKey(nodes[i]) == NodeKey(nodes[j]) ==> i == j
  }

  lemma AddedSplit(g: Graph, ss: seq<Service>)
    ensures AddServices(g, ss).nodes == g.nodes + Added(g, ss)
  {
    AddServicesAppends(g, ss);
  }

  lemma AddedIsNew(ids: Ids, g: Graph, ss: seq<Service>, x: Node)
    requires WellFormed(ids, AddServices(g, ss))
    ensures x in Added(g, ss) <==> x in AddServices(g, ss).nodes && x !in g.nodes
  {
    AddedSplit(g, ss);
    var nodes, added := AddServices(g, ss).nodes, Added(g, ss);
    forall i, j | 0 <= i < |added| && 0 <= j < |g.nodes| ensures added[i] != g.nodes[j] {
      assert added[i] == nodes[|g.nodes| + i] && g.nodes[j] == nodes[j];
    }
  }

  lemma AddedHasDistinctKeys(ids: Ids, g: Graph, ss: seq<Service>)
    requires ids.AreServices(ss) && WellFormed(ids, AddServices(g, ss))
    ensures DistinctKeys(Added(g, ss))
  {
    var added := Added(g, ss);
    forall i, j | 0 <= i < |added| && 0 <= j < |added| && NodeKey(added[i]) == NodeKey(added[j]) ensures i == j {
      AddedIsBrought(ids, g, ss, i);
      AddedIsBrought(ids, g, ss, j);
      SameKeySameId(ids, added[i], added[j]);
      SameAddedId(ids, g, ss, i, j);
    }
  }

  lemma AddedIsBrought(ids: Ids, g: Graph, ss: seq<Service>, i: nat)
    requires ids.AreServices(ss) && WellFormed(ids, AddServices(g, ss)) && i < |Added(g, ss)|
    ensures Brought(ids, Added(g, ss)[i])
  {
    AddedSplit(g, ss);
    AddedIsNew(ids, g, ss, Added(g, ss)[i]);
    NewNodesAreBrought(ids, g, ss, |g.nodes| + i);
  }

  lemma SameAddedId(ids: Ids, g: Graph, ss: seq<Service>, i: nat, j: nat)
    requires WellFormed(ids, AddServices(g, ss)) && i < |Added(g, ss)| && j < |Added(g, ss)|
    requires Added(g, ss)[i].id == Added(g, ss)[j].id
    ensures i == j
  {
    AddedSplit(g, ss);
    var nodes, n := AddServices(g, ss).nodes, |g.nodes|;
    assert Added(g, ss)[i] == nodes[n + i] && Added(g, ss)[j] == nodes[n + j];
  }

  lemma {:induction false} AbsentKey(nodes: seq<Node>, k: (string, string))
    requires forall i :: 0 <= i < |nodes| ==> NodeKey(nodes[i]) != k
    ensures With(nodes, NodeKey, k) == []
  {
    if nodes != [] {
      AbsentKey(nodes[1..], k);
    }
  }

  lemma {:induction false} OneWithKey(nodes: seq<Node>, x: Node)
    requires DistinctKeys(nodes) && x in nodes
    ensures With(nodes, NodeKey, NodeKey(x)) == [x]
  {
    if nodes[0] == x {
      forall i | 0 <= i < |nodes[1..]| ensures NodeKey(nodes[1..][i]) != NodeKey(x) {
        assert nodes[1..][i] == nodes[i + 1];
      }
      AbsentKey(nodes[1..], NodeKey(x));
    } else {
      var i :| 0 <= i < |nodes| && nodes[i] == x;
      assert NodeKey(nodes[0]) != NodeKey(nodes[i]);
      assert x in nodes[1..];
      assert forall j :: 0 <= j < |nodes[1..]| ==> nodes[1..][j] == nodes[j + 1];
      OneWithKey(nodes[1..], x);
    }
  }

  lemma SameNodesSameGroups(a: seq<Node>, b: seq<Node>, k: (string, string))
    requires DistinctKeys(a) && DistinctKeys(b) && forall x :: x in a <==> x in b
    ensures With(a, NodeKey, k) == With(b, NodeKey, k)
  {
    if x :| x in a && NodeKey(x) == k {
      OneWithKey(a, x);
      OneWithKey(b, x);
    } else {
      AbsentKey(a, k);
      AbsentKey(b, k);
    }
  }

  lemma SameServicesSameMembers(ids: Ids, g: Graph, ss: seq<Service>, tt: seq<Service>, x: Node)
    requires NoClash(g.declared, ss) && SameServices(ss, tt)
    ensures NoClash(g.declared, tt)
    ensures x in AddServices(g, ss).nodes <==> x in AddServices(g, tt).nodes
  {
    AddServicesMembers(g, ss, x);
    AddServicesMembers(g, tt, x);
  }

  /** Without a clash, reordering the services does not change the sorted nodes. */
  lemma NodesIgnoreServiceOrder(ids: Ids, g: Graph, ss: seq<Service>, tt: seq<Service>)
    requires ids.Clear() && WellFormed(ids, g) && ids.AreServices(ss) && ids.AreServices(tt) && AllNew(g, ss)
    requires SameServices(ss, tt) && NoClash(g.declared, ss)
    ensures SortedNodes(AddServices(g, ss).nodes) == SortedNodes(AddServices(g, tt).nodes)
  {
    AllNewEither(g, ss, tt);
    AddServicesKeeps(ids, g, ss);
    AddServicesKeeps(ids, g, tt);
    var a, b := Added(g, ss), Added(g, tt);
    AddedHasDistinctKeys(ids, g, ss);
    AddedHasDistinctKeys(ids, g, tt);
    forall x ensures x in a <==> x in b {
      AddedIsNew(ids, g, ss, x);
      AddedIsNew(ids, g, tt, x);
      SameServicesSameMembers(ids, g, ss, tt, x);
    }
    AddedSplit(g, ss);
    AddedSplit(g, tt);
    forall k: (string, string)
      ensures With(AddServices(g, ss).nodes, NodeKey, k) == With(AddServices(g, tt).nodes, NodeKey, k)
    {
      WithAppend(g.nodes, a, NodeKey, k);
      WithAppend(g.nodes, b, NodeKey, k);
      SameNodesSameGroups(a, b, k);
    }
    PairLeIsTotal();
    SameGroupsSameSort(AddServices(g, ss).nodes, AddServices(g, tt).nodes, NodeKey, PairLe);
  }

  lemma AllNewEither(g: Graph, ss: seq<Service>, tt: seq<Service>)
    requires AllNew(g, ss) && SameServices(ss, tt)
    ensures AllNew(g, tt)
  {
    forall k, i | 0 <= k < |tt| && 0 <= i < |g.nodes| ensures g.nodes[i].id != tt[k].node.id {
      assert tt[k] in ss;
    }
  }

  /** The services with the one at `i` in front. */
  function ToFront(ss: seq<Service>, i: nat): seq<Service>
    requires i < |ss|
  {
    [ss[i]] + ss[..i] + ss[i + 1..]
  }

  lemma ToFrontIsSame(ids: Ids, ss: seq<Service>, i: nat)
    requires i < |ss| && ids.AreServices(ss)
    ensures SameServices(ss, ToFront(ss, i)) && ids.AreServices(ToFront(ss, i))
  {
    var tt := ToFront(ss, i);
    assert ss == ss[..i] + [ss[i]] + ss[i + 1..];
    forall a, b | 0 <= a < |tt| && 0 <= b < |tt| && tt[a].node.name == tt[b].node.name ensures a == b {
      var a', b' := Origin(ss, i, a), Origin(ss, i, b);
      assert ss[a'] == tt[a] && ss[b'] == tt[b];
    }
    forall a | 0 <= a < |tt| ensures ids.IsService(tt[a]) {
      assert tt[a] == ss[Origin(ss, i, a)];
    }
  }

  /** Where the service at `a` of `ToFront(ss, i)` was before. */
  function Origin(ss: seq<Service>, i: nat, a: nat): (o: nat)
    requires i < |ss| && a < |ss|
    ensures o < |ss| && ToFront(ss, i)[a] == ss[o]
  {
    if a == 0 then i else if a <= i then a - 1 else a
  }

  /** The service in front decides the node of an undeclared id. */
  lemma FrontDecides(g: Graph, ss: seq<Service>, x: Node)
    requires ss != [] && x.id !in g.declared && FirstIn(ss[0].mentions, x.id) == Some(x)
    ensures x in AddServices(g, ss).nodes
  {
    AddServiceMembers(g, ss[0], x);
    AddServicesAppends(AddService(g, ss[0]), ss[1..]);
  }

  lemma SortedHasTheNodes(nodes: seq<Node>, x: Node)
    ensures x in SortedNodes(nodes) <==> x in nodes
  {
    SortKeepsElements(nodes, NodeKey, PairLe);
    assert x in multiset(SortedNodes(nodes)) <==> x in multiset(nodes);
  }

  lemma SortedHasTheEdges(edges: seq<Edge>, x: Edge)
    ensures x in SortedEdges(edges) <==> x in edges
  {
    SortKeepsElements(edges, EdgeKey, PairLe);
    assert x in multiset(SortedEdges(edges)) <==> x in multiset(edges);
  }

  lemma {:induction false} InsertKeepsDistinctIds(x: Node, xs: seq<Node>)
    requires DistinctIds(xs) && forall i :: 0 <= i < |xs| ==> xs[i].id != x.id
    ensures DistinctIds(Insert(x, xs, NodeKey, PairLe))
    ensures forall i :: 0 <= i < |Insert(x, xs, NodeKey, PairLe)| ==>
      Insert(x, xs, NodeKey, PairLe)[i] == x || Insert(x, xs, NodeKey, PairLe)[i] in xs
  {
    if xs != [] && !PairLe(NodeKey(x), NodeKey(xs[0])) {
      var rest := xs[1..];
      assert forall i :: 0 <= i < |rest| ==> rest[i] == xs[i + 1];
      InsertKeepsDistinctIds(x, rest);
      var tail := Insert(x, rest, NodeKey, PairLe);
      forall i | 0 <= i < |tail| ensures tail[i].id != xs[0].id && (tail[i] == x || tail[i] in xs) {
        assert tail[i] == x || tail[i] in rest;
      }
    }
  }

  lemma {:induction false} SortKeepsDistinctIds(nodes: seq<Node>)
    requires DistinctIds(nodes)
    ensures DistinctIds(SortedNodes(nodes))
  {
    if nodes != [] {
      var rest := nodes[1..];
      assert forall i :: 0 <= i < |rest| ==> rest[i] == nodes[i + 1];
      SortKeepsDistinctIds(rest);
      var sorted := SortedNodes(rest);
      forall i | 0 <= i < |sorted| ensures sorted[i].id != nodes[0].id {
        SortedHasTheNodes(rest, sorted[i]);
        var j :| 0 <= j < |rest| && rest[j] == sorted[i];
      }
      InsertKeepsDistinctIds(nodes[0], sorted);
    }
  }

  lemma FirstInHasTheId(ms: seq<Mention>, id: string)
    requires FirstIn(ms, id).Some?
    ensures FirstIn(ms, id).value.id == id
  {
    if !(ms[0].node.Some? && ms[0].node.value.id == id) {
      FirstInHasTheId(ms[1..], id);
    }
  }

  /** A clash makes the nodes depend on the order: one of the two services in front changes them. */
  lemma ClashShows(ids: Ids, g: Graph, ss: seq<Service>, i: nat, j: nat, id: string)
    requires ids.Clear() && WellFormed(ids, g) && ids.AreServices(ss) && AllNew(g, ss)
    requires i < |ss| && j < |ss| && id !in g.declared
    requires FirstIn(ss[i].mentions, id).Some? && FirstIn(ss[j].mentions, id).Some?
    requires FirstIn(ss[i].mentions, id) != FirstIn(ss[j].mentions, id)
    ensures SortedNodes(AddServices(g, ToFront(ss, i)).nodes) != SortedNodes(AddServices(g, ToFront(ss, j)).nodes)
  {
    var x, y := FirstIn(ss[i].mentions, id).value, FirstIn(ss[j].mentions, id).value;
    FirstInHasTheId(ss[i].mentions, id);
    FirstInHasTheId(ss[j].mentions, id);
    var a, b := AddServices(g, ToFront(ss, i)).nodes, AddServices(g, ToFront(ss, j)).nodes;
    FrontDecides(g, ToFront(ss, i), x);
    FrontDecides(g, ToFront(ss, j), y);
    ToFrontIsSame(ids, ss, i);
    AllNewEither(g, ss, ToFront(ss, i));
    AddServicesKeeps(ids, g, ToFront(ss, i));
    assert y !in a by {
      TwoWithOneId(a, x, y);
    }
    SortedHasTheNodes(a, y);
    SortedHasTheNodes(b, y);
  }

  lemma TwoWithOneId(nodes: seq<Node>, x: Node, y: Node)
    requires DistinctIds(nodes) && x in nodes && x.id == y.id && x != y
    ensures y !in nodes
  {
    var i :| 0 <= i < |nodes| && nodes[i] == x;
    assert forall j :: 0 <= j < |nodes| && nodes[j].id == nodes[i].id ==> j == i;
  }

  ghost predicate NodesIgnoreOrder(ids: Ids, g: Graph, ss: seq<Service>) {
    forall tt :: ids.AreServices(tt) && SameServices(ss, tt) ==>
      SortedNodes(AddServices(g, tt).nodes) == SortedNodes(AddServices(g, ss).nodes)
  }

  /** The exact condition: no order of the services changes the sorted nodes if and only if no two
      services clash over an id that the top level does not declare. */
  lemma NodesIgnoreOrderIffNoClash(ids: Ids, g: Graph, ss: seq<Service>)
    requires ids.Clear() && WellFormed(ids, g) && ids.AreServices(ss) && AllNew(g, ss)
    ensures NodesIgnoreOrder(ids, g, ss) <==> NoClash(g.declared, ss)
  {
    if NoClash(g.declared, ss) {
      forall tt | ids.AreServices(tt) && SameServices(ss, tt)
        ensures SortedNodes(AddServices(g, tt).nodes) == SortedNodes(AddServices(g, ss).nodes)
      {
        NodesIgnoreServiceOrder(ids, g, ss, tt);
      }
    } else {
      var s, s', id :| s in ss && s' in ss && id !in g.declared && FirstIn(s.mentions, id).Some?
        && FirstIn(s'.mentions, id).Some? && FirstIn(s.mentions, id) != FirstIn(s'.mentions, id);
      var i :| 0 <= i < |ss| && ss[i] == s;
      var j :| 0 <= j < |ss| && ss[j] == s';
      ClashShows(ids, g, ss, i, j, id);
      ToFrontIsSame(ids, ss, i);
      ToFrontIsSame(ids, ss, j);
    }
  }

  // ---- The summary

  datatype Summary = Summary(services: nat, networks: nat, volumes: nat, running: nat, healthy: nat)

  function Count(nodes: seq<Node>, p: Node -> bool): nat {
    if nodes == [] then 0 else Count(nodes[..|nodes| - 1], p) + if p(nodes[|nodes| - 1]) then 1 else 0
  }

  function IsServiceOf(n: Node): bool { n.details.OfService? }

  function IsNetworkOf(n: Node): bool { n.details.OfNetwork? }

  function IsVolumeOf(n: Node): bool { n.details.OfVolume? }

  function IsRunning(n: Node): bool { n.details.OfService? && n.details.service.state == Some("running") }

  function IsHealthy(n: Node): bool { n.details.OfService? && n.details.service.health == Some(Healthy) }

  function SummaryOf(nodes: seq<Node>): Summary {
    Summary(Count(nodes, IsServiceOf), Count(nodes, IsNetworkOf), Count(nodes, IsVolumeOf), Count(nodes, IsRunning),
        Count(nodes, IsHealthy))
  }

  method CalculateSummary(nodes: seq<Node>) returns (summary: Summary)
    ensures summary == SummaryOf(nodes)
    ensures summary.services + summary.networks + summary.volumes == |nodes|
    ensures summary.running <= summary.services && summary.healthy <= summary.services
  {
    summary := Summary(0, 0, 0, 0, 0);
    for i := 0 to |nodes|
      invariant summary.services == Count(nodes[..i], IsServiceOf)
      invariant summary.networks == Count(nodes[..i], IsNetworkOf)
      invariant summary.volumes == Count(nodes[..i], IsVolumeOf)
      invariant summary.running == Count(nodes[..i], IsRunning)
      invariant summary.healthy == Count(nodes[..i], IsHealthy)
      invariant summary.services + summary.networks + summary.volumes == i
      invariant summary.running <= summary.services && summary.healthy <= summary.services
    {
      assert nodes[..i + 1][..i] == nodes[..i];
      match nodes[i].details {
        case OfService(service) =>
          summary := summary.(services := summary.services + 1);
          if service.state == Some("running") {
            summary := summary.(running := summary.running + 1);
          }
          if service.health == Some(Healthy) {
            summary := summary.(healthy := summary.healthy + 1);
          }
        case OfNetwork(_, _) => summary := summary.(networks := summary.networks + 1);
        case OfVolume(_, _, _, _) => summary := summary.(volumes := summary.volumes + 1);
      }
    }
    assert nodes[..|nodes|] == nodes;
  }
}
