/** The builder of a Compose topology: helpers that push to shared lists of nodes and edges and insert
    into two sets of declared ids, then two sorts and a summary. Each helper is proved against the
    mentions that `Compose` reads from the same part of the document. */
module ComposeBuilder {
  import opened Basics
  import opened Text
  import opened Topology
  import opened Compose

  lemma {:induction false} TouchAllAppend(g: Graph, a: seq<Mention>, b: seq<Mention>)
    ensures TouchAll(g, a + b) == TouchAll(TouchAll(g, a), b)
    decreases |a|
  {
    if a == [] {
      assert a + b == b;
    } else {
      assert (a + b)[0] == a[0] && (a + b)[1..] == a[1..] + b;
      TouchAllAppend(Touch(g, a[0]), a[1..], b);
    }
  }

  lemma TouchOne(g: Graph, m: Mention)
    ensures TouchAll(g, [m]) == Touch(g, m)
  {
    assert [m][1..] == [];
  }

  ghost predicate IsNetworkId(ids: Ids, id: string) {
    exists name :: ids.network(name) == id
  }

  ghost predicate IsVolumeId(ids: Ids, id: string) {
    exists name :: ids.volume(name) == id || ids.bind(name) == id
  }

  class TopologyBuilder {
    const ids: Ids
    var nodes: seq<Node>
    var edges: seq<Edge>
    var networks: set<string>
    var volumes: set<string>

    /** What has been built so far. */
    ghost function Built(): Graph
      reads this
    {
      Graph(nodes, edges, networks + volumes)
    }

    /** The two sets never share an id. */
    ghost predicate Valid()
      reads this
    {
      && ids.Clear()
      && (forall id :: id in networks ==> IsNetworkId(ids, id))
      && (forall id :: id in volumes ==> IsVolumeId(ids, id))
    }

    constructor (ids: Ids)
      requires ids.Clear()
      ensures Valid() && this.ids == ids && Built() == Graph([], [], {})
    {
      this.ids := ids;
      nodes, edges, networks, volumes := [], [], {}, {};
    }

    method AttachNetwork(sid: string, name: string)
      requires Valid()
      modifies this
      ensures Valid() && Built() == Touch(old(Built()), NetworkMention(ids, sid, name))
    {
      var id := ids.network(name);
      assert IsNetworkId(ids, id) && id !in volumes;
      if id !in networks {
        networks := networks + {id};
        nodes := nodes + [ids.ImplicitNetwork(name)];
      }
      edges := edges + [Edge(sid, id, NetworkEdge, None)];
    }

    method MountVolume(sid: string, source: string, target: Option<string>, mode: Option<string>)
      requires Valid()
      modifies this
      ensures Valid() && Built() == Touch(old(Built()), VolumeMention(ids, sid, source, target, mode))
    {
      var id := ids.VolumeId(source);
      assert IsVolumeId(ids, id) && id !in networks;
      if id !in volumes {
        volumes := volumes + {id};
        nodes := nodes + [ids.ImplicitVolume(source)];
      }
      edges := edges + [Edge(sid, id, VolumeEdge(target, mode), mode)];
    }

    method PushEdge(e: Edge)
      requires Valid()
      modifies this
      ensures Valid() && Built() == TouchAll(old(Built()), [Mention(e, None)])
    {
      TouchOne(Built(), Mention(e, None));
      edges := edges + [e];
    }

    method CollectDependsOnList(sid: string, items: seq<Yaml>)
      requires Valid()
      modifies this
      ensures Valid() && Built() == TouchAll(old(Built()), DependsOnItems(ids, sid, items))
    {
      ghost var g := Built();
      var i := 0;
      while i < |items|
        invariant 0 <= i <= |items| && Valid()
        invariant TouchAll(Built(), DependsOnItems(ids, sid, items[i..])) ==
                  TouchAll(g, DependsOnItems(ids, sid, items))
      {
        assert items[i..][0] == items[i] && items[i..][1..] == items[i + 1..];
        TouchAllAppend(Built(), DependsOnItem(ids, sid, items[i]), DependsOnItems(ids, sid, items[i + 1..]));
        if items[i].Str? {
          PushEdge(Edge(sid, ids.service(items[i].s), DependsOn(None), None));
        }
        i := i + 1;
      }
    }

    method CollectDependsOnMapping(sid: string, entries: seq<(Yaml, Yaml)>)
      requires Valid()
      modifies this
      ensures Valid() && Built() == TouchAll(old(Built()), DependsOnEntries(ids, sid, entries))
    {
      ghost var g := Built();
      var i := 0;
      while i < |entries|
        invariant 0 <= i <= |entries| && Valid()
        invariant TouchAll(Built(), DependsOnEntries(ids, sid, entries[i..])) ==
                  TouchAll(g, DependsOnEntries(ids, sid, entries))
      {
        assert entries[i..][0] == entries[i] && entries[i..][1..] == entries[i + 1..];
        TouchAllAppend(Built(), DependsOnEntry(ids, sid, entries[i]), DependsOnEntries(ids, sid, entries[i + 1..]));
        if entries[i].0.Str? {
          var condition := AsStr(Get(AsMap(Some(entries[i].1)), "condition"));
          var annotation := if condition.None? then None else Some(ConditionLabel(condition.value));
          PushEdge(Edge(sid, ids.service(entries[i].0.s), DependsOn(condition), annotation));
        }
        i := i + 1;
      }
    }

    method CollectDependsOn(sid: string, deps: Option<Yaml>)
      requires Valid()
      modifies this
      ensures Valid() && Built() == TouchAll(old(Built()), DependsOnMentions(ids, sid, deps))
    {
      TouchAllAppend(Built(), DependsOnItems(ids, sid, AsSeq(deps)), DependsOnEntries(ids, sid, AsMap(deps)));
      CollectDependsOnList(sid, AsSeq(deps));
      CollectDependsOnMapping(sid, AsMap(deps));
    }

    method CollectServiceNetworks(sid: string, nets: Option<Yaml>)
      requires Valid()
      modifies this
      ensures Valid() && Built() == TouchAll(old(Built()), NetworkMentions(ids, sid, NetworkNames(nets)))
    {
      ghost var g := Built();
      var names := NetworkNames(nets);
      var i := 0;
      while i < |names|
        invariant 0 <= i <= |names| && Valid()
        invariant TouchAll(Built(), NetworkMentions(ids, sid, names[i..])) ==
                  TouchAll(g, NetworkMentions(ids, sid, names))
      {
        assert names[i..][0] == names[i] && names[i..][1..] == names[i + 1..];
        TouchAllAppend(Built(), [NetworkMention(ids, sid, names[i])], NetworkMentions(ids, sid, names[i + 1..]));
        TouchOne(Built(), NetworkMention(ids, sid, names[i]));
        AttachNetwork(sid, names[i]);
        i := i + 1;
      }
    }

    method ParseStringVolume(sid: string, text: string)
      requires Valid()
      modifies this
      ensures Valid() && Built() == TouchAll(old(Built()), StringVolume(ids, sid, text))
    {
      var parts := Split(text, ':');
      var source := Trim(parts[0]);
      if source == [] {
        return;
      }
      TouchOne(Built(), VolumeMention(ids, sid, source, TrimmedAt(parts, 1), TrimmedAt(parts, 2)));
      MountVolume(sid, source, TrimmedAt(parts, 1), TrimmedAt(parts, 2));
    }

    method ParseMappingVolume(sid: string, m: seq<(Yaml, Yaml)>)
      requires Valid()
      modifies this
      ensures Valid() && Built() == TouchAll(old(Built()), MappingVolume(ids, sid, m))
    {
      var source := AsStr(Get(m, "source"));
      if source.None? || source.value == [] {
        return;
      }
      var target := AsStr(Get(m, "target"));
      var mode := if AsBool(Get(m, "read_only")) then Some("ro") else None;
      TouchOne(Built(), VolumeMention(ids, sid, source.value, target, mode));
      MountVolume(sid, source.value, target, mode);
    }

    method CollectServiceVolumes(sid: string, items: seq<Yaml>)
      requires Valid()
      modifies this
      ensures Valid() && Built() == TouchAll(old(Built()), VolumeMentions(ids, sid, items))
    {
      ghost var g := Built();
      var i := 0;
      while i < |items|
        invariant 0 <= i <= |items| && Valid()
        invariant TouchAll(Built(), VolumeMentions(ids, sid, items[i..])) ==
                  TouchAll(g, VolumeMentions(ids, sid, items))
      {
        assert items[i..][0] == items[i] && items[i..][1..] == items[i + 1..];
        TouchAllAppend(Built(), VolumeItem(ids, sid, items[i]), VolumeMentions(ids, sid, items[i + 1..]));
        match items[i] {
          case Str(s) => ParseStringVolume(sid, s);
          case Map(m) => ParseMappingVolume(sid, m);
          case _ =>
        }
        i := i + 1;
      }
    }

    method CollectServiceLinks(sid: string, items: seq<Yaml>)
      requires Valid()
      modifies this
      ensures Valid() && Built() == TouchAll(old(Built()), LinkMentions(ids, sid, items))
    {
      ghost var g := Built();
      var i := 0;
      while i < |items|
        invariant 0 <= i <= |items| && Valid()
        invariant TouchAll(Built(), LinkMentions(ids, sid, items[i..])) == TouchAll(g, LinkMentions(ids, sid, items))
      {
        assert items[i..][0] == items[i] && items[i..][1..] == items[i + 1..];
        TouchAllAppend(Built(), LinkItem(ids, sid, items[i]), LinkMentions(ids, sid, items[i + 1..]));
        if items[i].Str? {
          var target := Trim(Split(items[i].s, ':')[0]);
          if target != [] {
            PushEdge(Edge(sid, ids.service(target), Link, Some("link")));
          }
        }
        i := i + 1;
      }
    }

    method CollectServiceEdges(sid: string, m: seq<(Yaml, Yaml)>)
      requires Valid()
      modifies this
      ensures Valid() && Built() == TouchAll(old(Built()), ServiceMentions(ids, sid, m))
    {
      ghost var g := Built();
      ghost var d := DependsOnMentions(ids, sid, Get(m, "depends_on"));
      ghost var n := NetworkMentions(ids, sid, NetworkNames(Get(m, "networks")));
      ghost var v := VolumeMentions(ids, sid, AsSeq(Get(m, "volumes")));
      ghost var l := LinkMentions(ids, sid, AsSeq(Get(m, "links")));
      CollectDependsOn(sid, Get(m, "depends_on"));
      CollectServiceNetworks(sid, Get(m, "networks"));
      CollectServiceVolumes(sid, AsSeq(Get(m, "volumes")));
      CollectServiceLinks(sid, AsSeq(Get(m, "links")));
      TouchAllAppend(g, d, n);
      TouchAllAppend(g, d + n, v);
      TouchAllAppend(g, d + n + v, l);
    }

    method AddService(c: Context, name: string, body: Yaml)
      requires Valid()
      modifies this
      ensures Valid() && Built() == Topology.AddService(old(Built()), ServiceOf(ids, c, name, body))
    {
      var sid := ids.service(name);
      nodes := nodes + [Node(sid, name, OfService(ServiceDetailsOf(c, name)))];
      if body.Map? {
        CollectServiceEdges(sid, body.entries);
      } else {
        assert ServiceMentions(ids, sid, []) == [];
      }
    }

    method ParseServices(c: Context, m: seq<(Yaml, Yaml)>)
      requires Valid()
      modifies this
      ensures Valid() && Built() == AddServices(old(Built()), ServicesOf(ids, c, m))
    {
      ghost var g := Built();
      var i := 0;
      assert m[0..] == m;
      while i < |m|
        invariant 0 <= i <= |m| && Valid()
        invariant AddServices(Built(), ServicesOf(ids, c, m[i..])) == AddServices(g, ServicesOf(ids, c, m))
      {
        ghost var before := Built();
        ServicesStep(ids, c, before, m, i);
        if m[i].0.Str? {
          AddService(c, m[i].0.s, m[i].1);
          assert Built() == Topology.AddService(before, ServiceOf(ids, c, m[i].0.s, m[i].1));
        } else {
          assert Built() == before;
        }
        i := i + 1;
      }
      assert m[i..] == [];
    }

    method DeclareNetwork(name: string, body: Yaml)
      requires Valid()
      modifies this
      ensures Valid() && edges == old(edges) && volumes == old(volumes)
      ensures var n := TopNetwork(ids, name, body); nodes == old(nodes) + [n] && networks == old(networks) + {n.id}
    {
      var id := ids.network(name);
      networks := networks + {id};
      var m := AsMap(Some(body));
      nodes := nodes + [Node(id, name, OfNetwork(AsStr(Get(m, "driver")), AsBool(Get(m, "external"))))];
    }

    method DeclareVolume(name: string, body: Yaml)
      requires Valid()
      modifies this
      ensures Valid() && edges == old(edges) && networks == old(networks)
      ensures var n := TopVolume(ids, name, body); nodes == old(nodes) + [n] && volumes == old(volumes) + {n.id}
    {
      var id := ids.volume(name);
      volumes := volumes + {id};
      var m := AsMap(Some(body));
      nodes := nodes + [Node(id, name,
          OfVolume(AsStr(Get(m, "driver")), AsBool(Get(m, "external")), false, Some(name)))];
    }

    method ParseTopLevelNetworks(m: seq<(Yaml, Yaml)>)
      requires Valid()
      modifies this
      ensures Valid() && edges == old(edges) && volumes == old(volumes)
      ensures nodes == old(nodes) + TopNetworks(ids, m) && networks == old(networks) + IdsIn(TopNetworks(ids, m))
    {
      ghost var done: seq<Node> := [];
      var i := 0;
      while i < |m|
        invariant 0 <= i <= |m| && Valid() && edges == old(edges) && volumes == old(volumes)
        invariant TopNetworks(ids, m) == done + TopNetworks(ids, m[i..])
        invariant nodes == old(nodes) + done && networks == old(networks) + IdsIn(done)
      {
        EachStep(m, NetworkMaker(ids), i, done);
        if m[i].0.Str? {
          IdsInMore(done, TopNetwork(ids, m[i].0.s, m[i].1));
          DeclareNetwork(m[i].0.s, m[i].1);
          done := done + [TopNetwork(ids, m[i].0.s, m[i].1)];
        }
        i := i + 1;
      }
      assert m[i..] == [] && done + [] == done;
    }

    method ParseTopLevelVolumes(m: seq<(Yaml, Yaml)>)
      requires Valid()
      modifies this
      ensures Valid() && edges == old(edges) && networks == old(networks)
      ensures nodes == old(nodes) + TopVolumes(ids, m) && volumes == old(volumes) + IdsIn(TopVolumes(ids, m))
    {
      ghost var done: seq<Node> := [];
      var i := 0;
      while i < |m|
        invariant 0 <= i <= |m| && Valid() && edges == old(edges) && networks == old(networks)
        invariant TopVolumes(ids, m) == done + TopVolumes(ids, m[i..])
        invariant nodes == old(nodes) + done && volumes == old(volumes) + IdsIn(done)
      {
        EachStep(m, VolumeMaker(ids), i, done);
        if m[i].0.Str? {
          IdsInMore(done, TopVolume(ids, m[i].0.s, m[i].1));
          DeclareVolume(m[i].0.s, m[i].1);
          done := done + [TopVolume(ids, m[i].0.s, m[i].1)];
        }
        i := i + 1;
      }
      assert m[i..] == [] && done + [] == done;
    }
  }

  lemma EachStep<T(!new)>(m: seq<(Yaml, Yaml)>, f: (string, Yaml) -> T, i: nat, done: seq<T>)
    requires i < |m| && Each(m, f) == done + Each(m[i..], f)
    ensures Each(m, f) == (if m[i].0.Str? then done + [f(m[i].0.s, m[i].1)] else done) + Each(m[i + 1..], f)
  {
    assert m[i..][0] == m[i] && m[i..][1..] == m[i + 1..];
  }

  lemma IdsInMore(nodes: seq<Node>, n: Node)
    ensures IdsIn(nodes + [n]) == IdsIn(nodes) + {n.id}
  {
    var more := nodes + [n];
    forall id | id in IdsIn(nodes) + {n.id} ensures id in IdsIn(more) {
      if id == n.id {
        assert more[|nodes|].id == id;
      } else {
        var i :| 0 <= i < |nodes| && nodes[i].id == id;
        assert more[i].id == id;
      }
    }
  }

  lemma IdsInJoin(a: seq<Node>, b: seq<Node>)
    ensures IdsIn(a + b) == IdsIn(a) + IdsIn(b)
  {
    forall id | id in IdsIn(a) + IdsIn(b) ensures id in IdsIn(a + b) {
      if id in IdsIn(a) {
        var i :| 0 <= i < |a| && a[i].id == id;
        assert (a + b)[i].id == id;
      } else {
        var i :| 0 <= i < |b| && b[i].id == id;
        assert (a + b)[|a| + i].id == id;
      }
    }
  }

  lemma ServicesStep(ids: Ids, c: Context, g: Graph, m: seq<(Yaml, Yaml)>, i: nat)
    requires i < |m|
    ensures var g' := if m[i].0.Str? then AddService(g, ServiceOf(ids, c, m[i].0.s, m[i].1)) else g;
      AddServices(g, ServicesOf(ids, c, m[i..])) == AddServices(g', ServicesOf(ids, c, m[i + 1..]))
  {
    assert m[i..][0] == m[i] && m[i..][1..] == m[i + 1..];
    var all, rest := ServicesOf(ids, c, m[i..]), ServicesOf(ids, c, m[i + 1..]);
    if m[i].0.Str? {
      assert all[0] == ServiceOf(ids, c, m[i].0.s, m[i].1) && all[1..] == rest;
    } else {
      assert all == rest;
    }
  }

  /** `parse_compose_topology`; `parse` is the YAML library. */
  method ParseComposeTopology(ids: Ids, c: Context, yaml: string, parse: string -> Result<Yaml, string>)
    returns (r: Result<ComposeTopology, string>)
    requires ids.Clear()
    ensures Trim(yaml) == [] ==> r == Ok(ComposeTopology([], [], Summary(0, 0, 0, 0, 0)))
    ensures Trim(yaml) != [] ==> (r.Ok? <==> parse(yaml).Ok? && parse(yaml).value.Map?)
    ensures Trim(yaml) != [] && r.Ok? ==>
      && IsTopologyOf(ids, c, parse(yaml).value.entries, r.value)
      && r.value.summary.services + r.value.summary.networks + r.value.summary.volumes == |r.value.nodes|
  {
    if Trim(yaml) == [] {
      return Ok(ComposeTopology([], [], Summary(0, 0, 0, 0, 0)));
    }
    var parsed := parse(yaml);
    if parsed.Err? {
      return Err(parsed.error);
    }
    if !parsed.value.Map? {
      return Err("compose YAML must be a mapping of top-level keys");
    }
    var doc := parsed.value.entries;
    var builder := new TopologyBuilder(ids);
    builder.ParseTopLevelNetworks(AsMap(Get(doc, "networks")));
    builder.ParseTopLevelVolumes(AsMap(Get(doc, "volumes")));
    TopIsBuilt(ids, doc, builder.Built());
    builder.ParseServices(c, AsMap(Get(doc, "services")));
    var nodes, edges := SortedNodes(builder.nodes), SortedEdges(builder.edges);
    var summary := CalculateSummary(nodes);
    return Ok(ComposeTopology(nodes, edges, summary));
  }

  lemma TopIsBuilt(ids: Ids, doc: seq<(Yaml, Yaml)>, g: Graph)
    requires var a, b := TopNetworks(ids, AsMap(Get(doc, "networks"))), TopVolumes(ids, AsMap(Get(doc, "volumes")));
      g == Graph([] + a + b, [], {} + IdsIn(a) + ({} + IdsIn(b)))
    ensures g == TopLevel(ids, doc)
  {
    var a, b := TopNetworks(ids, AsMap(Get(doc, "networks"))), TopVolumes(ids, AsMap(Get(doc, "volumes")));
    IdsInJoin(a, b);
    assert [] + a == a;
  }
}
