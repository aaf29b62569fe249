/** The ids that the program makes of the names in a Compose document, and what they mean for the order
    of its services. */
module ComposeIds {
  import opened Basics
  import opened Topology
  import opened Compose

  function ServiceId(name: string): string { "service:" + name }

  function NetworkId(name: string): string { "network:" + name }

  function NamedVolumeId(name: string): string { "volume:" + name }

  function BindVolumeId(name: string): string { "volume:bind:" + name }

  predicate IsBindSource(source: string) {
    source != [] && (source[0] == '.' || source[0] == '/' || source[0] == '~')
  }

  function ProgramIds(): Ids {
    Ids(ServiceId, NetworkId, NamedVolumeId, BindVolumeId, IsBindSource)
  }

  lemma SamePrefix(p: string, a: string, b: string)
    requires p + a == p + b
    ensures a == b
  {
    assert a == (p + a)[|p|..] && b == (p + b)[|p|..];
  }

  lemma PrefixIsInjective(p: string)
    ensures forall a, b :: p + a == p + b ==> a == b
  {
    forall a, b | p + a == p + b ensures a == b {
      SamePrefix(p, a, b);
    }
  }

  lemma StartsDiffer(p: string, q: string)
    requires p != [] && q != [] && p[0] != q[0]
    ensures forall a, b :: p + a != q + b
  {
    forall a, b ensures p + a != q + b {
      assert (p + a)[0] == p[0] && (q + b)[0] == q[0];
    }
  }

  lemma ProgramIdsAreClear()
    ensures ProgramIds().Clear()
  {
    PrefixIsInjective("service:");
    PrefixIsInjective("network:");
    PrefixIsInjective("volume:");
    PrefixIsInjective("volume:bind:");
    StartsDiffer("service:", "network:");
    StartsDiffer("service:", "volume:");
    StartsDiffer("service:", "volume:bind:");
    StartsDiffer("network:", "volume:");
    StartsDiffer("network:", "volume:bind:");
  }

  /** A named volume shares its id with a bind mount exactly when its name spells the mount out. */
  lemma SharedVolumeId(name: string, source: string)
    ensures NamedVolumeId(name) == BindVolumeId(source) <==> name == "bind:" + source
  {
    assert BindVolumeId(source) == "volume:" + ("bind:" + source);
    if NamedVolumeId(name) == BindVolumeId(source) {
      SamePrefix("volume:", name, "bind:" + source);
    }
  }

  /** No service mentions a volume whose source starts with `bind:`. */
  ghost predicate NoBindNames(ss: seq<Service>) {
    forall s, m :: s in ss && m in s.mentions && m.node.Some? && m.node.value.details.OfVolume? ==>
        !("bind:" <= m.node.value.name)
  }

  lemma SameIdSameNode(x: Node, y: Node)
    requires ProgramIds().IsImplicit(x) && ProgramIds().IsImplicit(y) && x.id == y.id
    requires x.details.OfVolume? ==> !("bind:" <= x.name)
    requires y.details.OfVolume? ==> !("bind:" <= y.name)
    ensures x == y
  {
    ProgramIdsAreClear();
    SharedVolumeId(x.name, y.name);
    SharedVolumeId(y.name, x.name);
  }

  lemma {:induction false} FirstInIsMentioned(ms: seq<Mention>, id: string)
    requires FirstIn(ms, id).Some?
    ensures exists i :: 0 <= i < |ms| && ms[i].node == FirstIn(ms, id) && ms[i].node.value.id == id
  {
    if !(ms[0].node.Some? && ms[0].node.value.id == id) {
      FirstInIsMentioned(ms[1..], id);
    }
  }

  /** Without such a source no two services clash, so the order of the services cannot be seen. */
  lemma NoBindNamesNoClash(d: set<string>, ss: seq<Service>)
    requires ProgramIds().AreServices(ss) && NoBindNames(ss)
    ensures NoClash(d, ss)
  {
    forall s, s', id | s in ss && s' in ss && id !in d && FirstIn(s.mentions, id).Some?
        && FirstIn(s'.mentions, id).Some?
      ensures FirstIn(s.mentions, id) == FirstIn(s'.mentions, id)
    {
      FirstInIsMentioned(s.mentions, id);
      FirstInIsMentioned(s'.mentions, id);
      SameIdSameNode(FirstIn(s.mentions, id).value, FirstIn(s'.mentions, id).value);
    }
  }

  /** Reordering the services of a document that names no volume `bind:...` changes nothing. */
  lemma OrderIsInvisible(c: Context, doc: seq<(Yaml, Yaml)>, doc': seq<(Yaml, Yaml)>, t: ComposeTopology,
      t': ComposeTopology)
    requires ValidDocument(doc) && ValidDocument(doc') && SameButOrder(doc, doc')
    requires NoBindNames(ServicesOf(ProgramIds(), c, AsMap(Get(doc, "services"))))
    requires IsTopologyOf(ProgramIds(), c, doc, t) && IsTopologyOf(ProgramIds(), c, doc', t')
    ensures t == t'
  {
    var m := AsMap(Get(doc, "services"));
    ProgramIdsAreClear();
    ServicesAreServices(ProgramIds(), c, m);
    NoBindNamesNoClash(TopLevel(ProgramIds(), doc).declared, ServicesOf(ProgramIds(), c, m));
    TopologyIgnoresServiceOrder(ProgramIds(), c, doc, doc', t, t');
  }

  // ---- A document whose services clash

  /** A service of a document with one volume in the long form. */
  function Mounting(name: string, source: string): (Yaml, Yaml) {
    (Str(name), Map([(Str("volumes"), Seq([Map([(Str("source"), Str(source))])]))]))
  }

  function DocumentOf(first: (Yaml, Yaml), second: (Yaml, Yaml)): seq<(Yaml, Yaml)> {
    [(Str("services"), Map([first, second]))]
  }

  lemma OnlyKey(key: string, value: Yaml, other: string)
    ensures Get([(Str(key), value)], other) == if key == other then Some(value) else None
  {
    assert [(Str(key), value)][1..] == [];
  }

  lemma LongFormMentions(ids: Ids, sid: string, source: string)
    requires source != []
    ensures MappingVolume(ids, sid, [(Str("source"), Str(source))]) == [VolumeMention(ids, sid, source, None, None)]
  {
    assert "source"[0] != "target"[0] && "source"[0] != "read_only"[0];
    OnlyKey("source", Str(source), "source");
    OnlyKey("source", Str(source), "target");
    OnlyKey("source", Str(source), "read_only");
  }

  lemma MountingMentions(ids: Ids, sid: string, name: string, source: string)
    requires source != []
    ensures ServiceMentions(ids, sid, AsMap(Some(Mounting(name, source).1))) ==
            [VolumeMention(ids, sid, source, None, None)]
  {
    var item := Map([(Str("source"), Str(source))]);
    var body := [(Str("volumes"), Seq([item]))];
    assert |"volumes"| != |"depends_on"| && |"volumes"| != |"networks"| && |"volumes"| != |"links"|;
    OnlyKey("volumes", Seq([item]), "depends_on");
    OnlyKey("volumes", Seq([item]), "networks");
    OnlyKey("volumes", Seq([item]), "volumes");
    OnlyKey("volumes", Seq([item]), "links");
    LongFormMentions(ids, sid, source);
    assert [item][1..] == [] && VolumeMentions(ids, sid, [item]) == VolumeItem(ids, sid, item) + [];
    assert ServiceMentions(ids, sid, body) == [] + [] + [VolumeMention(ids, sid, source, None, None)] + [];
  }

  /** The service of such an entry: its node and its one mention. */
  function MountingService(ids: Ids, c: Context, name: string, source: string): Service {
    Service(Node(ids.service(name), name, OfService(ServiceDetailsOf(c, name))),
            [VolumeMention(ids, ids.service(name), source, None, None)])
  }

  lemma TwoMountings(ids: Ids, c: Context, a: string, x: string, b: string, y: string)
    requires x != [] && y != []
    ensures var doc := DocumentOf(Mounting(a, x), Mounting(b, y));
      && ServicesOf(ids, c, AsMap(Get(doc, "services"))) ==
          [MountingService(ids, c, a, x), MountingService(ids, c, b, y)]
      && TopLevel(ids, doc) == Graph([], [], {})
  {
    var doc, m := DocumentOf(Mounting(a, x), Mounting(b, y)), [Mounting(a, x), Mounting(b, y)];
    assert |"services"| != |"volumes"| && "services"[0] != "networks"[0];
    OnlyKey("services", Map(m), "services");
    OnlyKey("services", Map(m), "networks");
    OnlyKey("services", Map(m), "volumes");
    MountingMentions(ids, ids.service(a), a, x);
    MountingMentions(ids, ids.service(b), b, y);
    assert m[1..] == [Mounting(b, y)] && m[1..][1..] == [];
    EachOfTwo(ServiceMaker(ids, c), Mounting(a, x), Mounting(b, y));
  }

  lemma EachOfTwo<T(!new)>(f: (string, Yaml) -> T, first: (Yaml, Yaml), second: (Yaml, Yaml))
    requires first.0.Str? && second.0.Str?
    ensures Each([first, second], f) == [f(first.0.s, first.1), f(second.0.s, second.1)]
  {
    var m, tail := [first, second], [second];
    assert m[1..] == tail && tail[1..] == [] && m[0] == first && tail[0] == second;
    assert Each(tail, f) == [f(second.0.s, second.1)] + Each(tail[1..], f);
    assert Each(m, f) == [f(first.0.s, first.1)] + Each(tail, f);
  }

  lemma FirstMounted(ids: Ids, c: Context, name: string, source: string)
    ensures FirstIn(MountingService(ids, c, name, source).mentions, ids.VolumeId(source)) ==
            Some(ids.ImplicitVolume(source))
    ensures ids.IsService(MountingService(ids, c, name, source))
  {
  }

  lemma TwoServices(ids: Ids, s: Service, s': Service)
    requires ids.IsService(s) && ids.IsService(s') && s.node.name != s'.node.name
    ensures ids.AreServices([s, s']) && AllNew(Graph([], [], {}), [s, s']) && WellFormed(ids, Graph([], [], {}))
    ensures ToFront([s, s'], 0) == [s, s'] && ToFront([s, s'], 1) == [s', s]
  {
    var ss := [s, s'];
    assert ss[..0] == [] && ss[1..] == [s'] && ss[..1] == [s] && ss[2..] == [];
  }

  lemma OrderShowsFor(ids: Ids, s: Service, s': Service, id: string)
    requires ids.Clear() && ids.IsService(s) && ids.IsService(s') && s.node.name != s'.node.name
    requires FirstIn(s.mentions, id).Some? && FirstIn(s'.mentions, id).Some?
             && FirstIn(s.mentions, id) != FirstIn(s'.mentions, id)
    ensures SortedNodes(AddServices(Graph([], [], {}), [s, s']).nodes) !=
            SortedNodes(AddServices(Graph([], [], {}), [s', s]).nodes)
  {
    TwoServices(ids, s, s');
    ClashShows(ids, Graph([], [], {}), [s, s'], 0, 1, id);
  }

  lemma MountingsClash(c: Context, a: string, b: string, source: string)
    requires a != b && IsBindSource(source)
    ensures var ids, spelled := ProgramIds(), "bind:" + source;
      var s, s' := MountingService(ids, c, a, source), MountingService(ids, c, b, spelled);
      SortedNodes(AddServices(Graph([], [], {}), [s, s']).nodes) !=
          SortedNodes(AddServices(Graph([], [], {}), [s', s]).nodes)
  {
    var ids, spelled := ProgramIds(), "bind:" + source;
    assert !IsBindSource(spelled) by { assert spelled[0] == 'b'; }
    SharedVolumeId(spelled, source);
    ProgramIdsAreClear();
    FirstMounted(ids, c, a, source);
    FirstMounted(ids, c, b, spelled);
    OrderShowsFor(ids, MountingService(ids, c, a, source), MountingService(ids, c, b, spelled), BindVolumeId(source));
  }

  /** A document with a bind mount and a named volume that spells it out, and the same document with its
      services in the other order: their topologies have different nodes. */
  lemma OrderCanShow(c: Context, a: string, b: string, source: string, t: ComposeTopology, t': ComposeTopology)
    requires a != b && IsBindSource(source)
    requires IsTopologyOf(ProgramIds(), c, DocumentOf(Mounting(a, source), Mounting(b, "bind:" + source)), t)
    requires IsTopologyOf(ProgramIds(), c, DocumentOf(Mounting(b, "bind:" + source), Mounting(a, source)), t')
    ensures ValidDocument(DocumentOf(Mounting(a, source), Mounting(b, "bind:" + source)))
    ensures SameButOrder(DocumentOf(Mounting(a, source), Mounting(b, "bind:" + source)),
                         DocumentOf(Mounting(b, "bind:" + source), Mounting(a, source)))
    ensures t.nodes != t'.nodes
  {
    MountingsAreReordered(a, b, source, "bind:" + source);
    TwoMountings(ProgramIds(), c, a, source, b, "bind:" + source);
    TwoMountings(ProgramIds(), c, b, "bind:" + source, a, source);
    MountingsClash(c, a, b, source);
  }

  lemma MountingsAreReordered(a: string, b: string, x: string, y: string)
    requires a != b
    ensures var doc, doc' := DocumentOf(Mounting(a, x), Mounting(b, y)), DocumentOf(Mounting(b, y), Mounting(a, x));
      ValidDocument(doc) && ValidDocument(doc') && SameButOrder(doc, doc')
  {
    var m, m' := [Mounting(a, x), Mounting(b, y)], [Mounting(b, y), Mounting(a, x)];
    assert |"services"| != |"volumes"| && "services"[0] != "networks"[0];
    OnlyKey("services", Map(m), "services");
    OnlyKey("services", Map(m), "networks");
    OnlyKey("services", Map(m), "volumes");
    OnlyKey("services", Map(m'), "services");
    OnlyKey("services", Map(m'), "networks");
    OnlyKey("services", Map(m'), "volumes");
    assert m[0] == m'[1] && m[1] == m'[0];
  }
}
