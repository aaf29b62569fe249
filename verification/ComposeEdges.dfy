/** Which edges and nodes the topology of a Compose document has, stated on the document: each place in it
    that calls for an edge, by index, and what that edge is. */
module ComposeEdges {
  import opened Basics
  import opened Text
  import opened Topology
  import opened Compose

  // ---- The document

  /** The key has the value in the mapping; of two entries with one key the first counts. */
  ghost predicate Holds(m: seq<(Yaml, Yaml)>, key: string, value: Yaml) {
    exists k :: 0 <= k < |m| && IsFirst(m, key, k) && m[k].1 == value
  }

  ghost predicate IsFirst(m: seq<(Yaml, Yaml)>, key: string, k: nat)
    requires k < |m|
  {
    m[k].0 == Str(key) && forall q :: 0 <= q < k ==> m[q].0 != Str(key)
  }

  /** The text of the key, if it has one. */
  ghost predicate HoldsText(m: seq<(Yaml, Yaml)>, key: string, text: Option<string>) {
    if text.Some? then Holds(m, key, Str(text.value)) else forall s :: !Holds(m, key, Str(s))
  }

  /** A part of a service: the kinds of dependency, network, volume and link, in the order of reading. */
  datatype Section = DependencyList | DependencyMap | NetworkList | NetworkMap | VolumeList | LinkList

  function Rank(s: Section): nat {
    match s
    case DependencyList => 0
    case DependencyMap => 1
    case NetworkList => 2
    case NetworkMap => 3
    case VolumeList => 4
    case LinkList => 5
  }

  /** An item of a section of the service at an index of the `services` mapping. */
  datatype Place = Place(entry: nat, section: Section, item: nat)

  predicate Before(p: Place, q: Place) {
    || p.entry < q.entry
    || (p.entry == q.entry && Rank(p.section) < Rank(q.section))
    || (p.entry == q.entry && p.section == q.section && p.item < q.item)
  }

  // ---- What a place calls for

  ghost predicate ListItem(body: seq<(Yaml, Yaml)>, key: string, j: nat, item: Yaml) {
    exists items :: Holds(body, key, Seq(items)) && j < |items| && items[j] == item
  }

  ghost predicate MapItem(body: seq<(Yaml, Yaml)>, key: string, j: nat, name: Yaml, value: Yaml) {
    exists entries :: Holds(body, key, Map(entries)) && j < |entries| && entries[j] == (name, value)
  }

  /** The label of a dependency with a condition. */
  predicate IsLabel(condition: Option<string>, note: Option<string>) {
    if condition.None? then note.None?
    else
      note.Some? &&
      if condition.value == "service_healthy" then note.value == "healthy"
      else if condition.value == "service_started" then note.value == "started"
      else if condition.value == "service_completed_successfully" then note.value == "completed"
      else note.value == condition.value
  }

  ghost predicate ConditionIs(value: Yaml, condition: Option<string>) {
    if value.Map? then HoldsText(value.entries, "condition", condition) else condition.None?
  }

  predicate IsDependency(
    ids: Ids, sid: string, name: string, condition: Option<string>, note: Option<string>, m: Mention) {
    m == Mention(Edge(sid, ids.service(name), DependsOn(condition), note), None)
  }

  predicate IsNetwork(ids: Ids, sid: string, name: string, m: Mention) {
    && m.edge == Edge(sid, ids.network(name), NetworkEdge, None)
    && m.node == Some(Node(ids.network(name), name, OfNetwork(None, false)))
  }

  /** The id of a volume is that of a bind mount when its source is a path. */
  predicate IsVolume(ids: Ids, sid: string, source: string, target: Option<string>, mode: Option<string>, m: Mention) {
    var bind := ids.isBind(source);
    var id := if bind then ids.bind(source) else ids.volume(source);
    && source != []
    && m.edge == Edge(sid, id, VolumeEdge(target, mode), mode)
    && m.node == Some(Node(id, source, OfVolume(None, false, bind, Some(source))))
  }

  /** The short form: source, target and mode between colons, trimmed. */
  predicate IsShortVolume(ids: Ids, sid: string, text: string, m: Mention) {
    var parts := Split(text, ':');
    IsVolume(ids, sid, Trim(parts[0]),
             if |parts| > 1 then Some(Trim(parts[1])) else None, if |parts| > 2 then Some(Trim(parts[2])) else None, m)
  }

  ghost predicate IsLongVolume(ids: Ids, sid: string, entries: seq<(Yaml, Yaml)>, m: Mention) {
    exists source, target, mode ::
      && Holds(entries, "source", Str(source)) && HoldsText(entries, "target", target)
      && (mode == if Holds(entries, "read_only", Bool(true)) then Some("ro") else None)
      && IsVolume(ids, sid, source, target, mode, m)
  }

  ghost predicate IsVolumeItem(ids: Ids, sid: string, item: Yaml, m: Mention) {
    || (item.Str? && IsShortVolume(ids, sid, item.s, m))
    || (item.Map? && IsLongVolume(ids, sid, item.entries, m))
  }

  predicate IsLink(ids: Ids, sid: string, text: string, m: Mention) {
    var target := Trim(Split(text, ':')[0]);
    target != [] && m == Mention(Edge(sid, ids.service(target), Link, Some("link")), None)
  }

  /** The item at the place in the body of the service calls for the mention. */
  ghost predicate CallsIn(ids: Ids, sid: string, body: seq<(Yaml, Yaml)>, s: Section, j: nat, m: Mention) {
    match s
    case DependencyList =>
      exists name :: ListItem(body, "depends_on", j, Str(name)) && IsDependency(ids, sid, name, None, None, m)
    case DependencyMap =>
      exists name, value, condition, note :: MapItem(body, "depends_on", j, Str(name), value)
        && ConditionIs(value, condition) && IsLabel(condition, note) && IsDependency(ids, sid, name, condition, note, m)
    case NetworkList => exists name :: ListItem(body, "networks", j, Str(name)) && IsNetwork(ids, sid, name, m)
    case NetworkMap =>
      exists name, value :: MapItem(body, "networks", j, Str(name), value) && IsNetwork(ids, sid, name, m)
    case VolumeList => exists item :: ListItem(body, "volumes", j, item) && IsVolumeItem(ids, sid, item, m)
    case LinkList => exists text :: ListItem(body, "links", j, Str(text)) && IsLink(ids, sid, text, m)
  }

  /** The entry of the `services` mapping is a service with this name and body. */
  ghost predicate ServiceAt(doc: seq<(Yaml, Yaml)>, i: nat, name: string, body: Yaml) {
    exists m :: Holds(doc, "services", Map(m)) && i < |m| && m[i] == (Str(name), body)
  }

  /** The place in the document calls for the mention. */
  ghost predicate Calls(ids: Ids, doc: seq<(Yaml, Yaml)>, p: Place, m: Mention) {
    exists name, body :: ServiceAt(doc, p.entry, name, Map(body))
      && CallsIn(ids, ids.service(name), body, p.section, p.item, m)
  }

  // ---- Looking up a key

  lemma {:induction false} HoldsIsGet(m: seq<(Yaml, Yaml)>, key: string, value: Yaml)
    ensures Holds(m, key, value) <==> Get(m, key) == Some(value)
  {
    if m != [] {
      var rest := m[1..];
      HoldsIsGet(rest, key, value);
      assert forall k :: 0 <= k < |rest| ==> rest[k] == m[k + 1];
      if m[0].0 == Str(key) {
        assert IsFirst(m, key, 0);
      } else {
        if k :| 0 <= k < |m| && IsFirst(m, key, k) && m[k].1 == value {
          assert k > 0 && IsFirst(rest, key, k - 1);
        }
        if k :| 0 <= k < |rest| && IsFirst(rest, key, k) && rest[k].1 == value {
          assert IsFirst(m, key, k + 1);
        }
      }
    }
  }

  lemma HoldsTextIsGet(m: seq<(Yaml, Yaml)>, key: string, text: Option<string>)
    ensures HoldsText(m, key, text) <==> AsStr(Get(m, key)) == text
  {
    forall s ensures Holds(m, key, Str(s)) <==> Get(m, key) == Some(Str(s)) {
      HoldsIsGet(m, key, Str(s));
    }
    var get := AsStr(Get(m, key));
    if text.None? && get.Some? {
      assert Holds(m, key, Str(get.value));
    }
  }

  lemma ListItemIsGet(body: seq<(Yaml, Yaml)>, key: string, j: nat, item: Yaml)
    ensures ListItem(body, key, j, item) <==> j < |AsSeq(Get(body, key))| && AsSeq(Get(body, key))[j] == item
  {
    if items :| Holds(body, key, Seq(items)) && j < |items| && items[j] == item {
      HoldsIsGet(body, key, Seq(items));
    }
    var items := AsSeq(Get(body, key));
    if j < |items| && items[j] == item {
      HoldsIsGet(body, key, Seq(items));
    }
  }

  lemma MapItemIsGet(body: seq<(Yaml, Yaml)>, key: string, j: nat, name: Yaml, value: Yaml)
    ensures MapItem(body, key, j, name, value) <==>
            j < |AsMap(Get(body, key))| && AsMap(Get(body, key))[j] == (name, value)
  {
    if entries :| Holds(body, key, Map(entries)) && j < |entries| && entries[j] == (name, value) {
      HoldsIsGet(body, key, Map(entries));
    }
    var entries := AsMap(Get(body, key));
    if j < |entries| && entries[j] == (name, value) {
      HoldsIsGet(body, key, Map(entries));
    }
  }

  // ---- Items that give at most one mention each

  function Flat<A>(xs: seq<A>, f: A -> seq<Mention>): seq<Mention> {
    if xs == [] then [] else f(xs[0]) + Flat(xs[1..], f)
  }

  ghost predicate Gives<A(!new)>(xs: seq<A>, f: A -> seq<Mention>, m: Mention, j: nat) {
    j < |xs| && f(xs[j]) == [m]
  }

  ghost predicate Ascends(ks: seq<nat>) {
    forall k, l :: 0 <= k < l < |ks| ==> ks[k] < ks[l]
  }

  lemma {:induction false} ShiftedAscends(ks: seq<nat>)
    requires Ascends(ks)
    ensures Ascends(Shifted(ks)) && Ascends([0] + Shifted(ks))
  {
    var all := [0] + Shifted(ks);
    forall k, l | 0 <= k < l < |all| ensures all[k] < all[l] {
      assert all[l] == ks[l - 1] + 1;
      if k > 0 { assert all[k] == ks[k - 1] + 1; }
    }
  }

  /** The mentions come from the items at increasing indices, and no item that gives one is left out. */
  ghost predicate ComesFrom<A(!new)>(xs: seq<A>, f: A -> seq<Mention>, ms: seq<Mention>, ks: seq<nat>) {
    && |ms| == |ks|
    && (forall k :: 0 <= k < |ks| ==> Gives(xs, f, ms[k], ks[k]))
    && Ascends(ks)
    && (forall j, m :: Gives(xs, f, m, j) ==> j in ks)
  }

  lemma {:induction false} FlatFrom<A(!new)>(xs: seq<A>, f: A -> seq<Mention>) returns (ks: seq<nat>)
    requires forall x :: |f(x)| <= 1
    ensures ComesFrom(xs, f, Flat(xs, f), ks)
  {
    if xs == [] {
      ks := [];
    } else {
      var rest := FlatFrom(xs[1..], f);
      if f(xs[0]) == [] {
        SkipItem(xs, f, Flat(xs[1..], f), rest);
        ks := Shifted(rest);
        assert [] + Flat(xs[1..], f) == Flat(xs[1..], f);
      } else {
        var m := f(xs[0])[0];
        assert f(xs[0]) == [m];
        TakeItem(xs, f, m, Flat(xs[1..], f), rest);
        ks := [0] + Shifted(rest);
      }
    }
  }

  lemma {:induction false} LaterItem<A(!new)>(xs: seq<A>, f: A -> seq<Mention>, m: Mention, j: nat)
    requires xs != []
    ensures Gives(xs[1..], f, m, j) <==> Gives(xs, f, m, j + 1)
  {
    if j < |xs| - 1 { assert xs[1..][j] == xs[j + 1]; }
  }

  lemma {:induction false} InShifted(ks: seq<nat>, j: nat)
    requires j in ks
    ensures j + 1 in Shifted(ks)
  {
    var k :| 0 <= k < |ks| && ks[k] == j;
    assert Shifted(ks)[k] == j + 1;
  }

  lemma {:induction false} SkipItem<A(!new)>(xs: seq<A>, f: A -> seq<Mention>, ms: seq<Mention>, rest: seq<nat>)
    requires xs != [] && f(xs[0]) == [] && ComesFrom(xs[1..], f, ms, rest)
    ensures ComesFrom(xs, f, ms, Shifted(rest))
  {
    var ks := Shifted(rest);
    ShiftedAscends(rest);
    forall k | 0 <= k < |ks| ensures Gives(xs, f, ms[k], ks[k]) {
      LaterItem(xs, f, ms[k], rest[k]);
    }
    forall j: nat, m | Gives(xs, f, m, j) ensures j in ks {
      LaterItem(xs, f, m, j - 1);
      InShifted(rest, j - 1);
    }
  }

  lemma {:induction false} TakeItem<A(!new)>(
    xs: seq<A>, f: A -> seq<Mention>, first: Mention, ms: seq<Mention>, rest: seq<nat>)
    requires xs != [] && f(xs[0]) == [first] && ComesFrom(xs[1..], f, ms, rest)
    ensures ComesFrom(xs, f, [first] + ms, [0] + Shifted(rest))
  {
    var ks, all := [0] + Shifted(rest), [first] + ms;
    ShiftedAscends(rest);
    forall k | 0 <= k < |ks| ensures Gives(xs, f, all[k], ks[k]) {
      TakenAt(xs, f, first, ms, rest, k);
    }
    forall j: nat, m | Gives(xs, f, m, j) ensures j in ks {
      if j == 0 {
        assert ks[0] == 0;
      } else {
        LaterItem(xs, f, m, j - 1);
        InShifted(rest, j - 1);
        InBehind(j, Shifted(rest));
      }
    }
  }

  lemma InBehind(j: nat, ks: seq<nat>)
    requires j in ks
    ensures j in [0] + ks
  {
  }

  lemma {:induction false} TakenAt<A(!new)>(
    xs: seq<A>, f: A -> seq<Mention>, first: Mention, ms: seq<Mention>, rest: seq<nat>, k: nat)
    requires xs != [] && f(xs[0]) == [first] && |ms| == |rest| && k <= |rest|
    requires k > 0 ==> Gives(xs[1..], f, ms[k - 1], rest[k - 1])
    ensures Gives(xs, f, ([first] + ms)[k], ([0] + Shifted(rest))[k])
  {
    if k > 0 {
      assert ([first] + ms)[k] == ms[k - 1] && ([0] + Shifted(rest))[k] == rest[k - 1] + 1;
      LaterItem(xs, f, ms[k - 1], rest[k - 1]);
    }
  }

  // ---- The sections of a service

  function DependencyItems(ids: Ids, sid: string): Yaml -> seq<Mention> {
    (item: Yaml) => DependsOnItem(ids, sid, item)
  }

  function DependencyEntries(ids: Ids, sid: string): ((Yaml, Yaml)) -> seq<Mention> {
    (entry: (Yaml, Yaml)) => DependsOnEntry(ids, sid, entry)
  }

  function NetworkItems(ids: Ids, sid: string): Yaml -> seq<Mention> {
    (item: Yaml) => if item.Str? then [NetworkMention(ids, sid, item.s)] else []
  }

  function NetworkKeys(ids: Ids, sid: string): ((Yaml, Yaml)) -> seq<Mention> {
    (entry: (Yaml, Yaml)) => if entry.0.Str? then [NetworkMention(ids, sid, entry.0.s)] else []
  }

  function VolumeItems(ids: Ids, sid: string): Yaml -> seq<Mention> {
    (item: Yaml) => VolumeItem(ids, sid, item)
  }

  function LinkItems(ids: Ids, sid: string): Yaml -> seq<Mention> {
    (item: Yaml) => LinkItem(ids, sid, item)
  }

  function SectionOf(ids: Ids, sid: string, body: seq<(Yaml, Yaml)>, s: Section): seq<Mention> {
    match s
    case DependencyList => Flat(AsSeq(Get(body, "depends_on")), DependencyItems(ids, sid))
    case DependencyMap => Flat(AsMap(Get(body, "depends_on")), DependencyEntries(ids, sid))
    case NetworkList => Flat(AsSeq(Get(body, "networks")), NetworkItems(ids, sid))
    case NetworkMap => Flat(AsMap(Get(body, "networks")), NetworkKeys(ids, sid))
    case VolumeList => Flat(AsSeq(Get(body, "volumes")), VolumeItems(ids, sid))
    case LinkList => Flat(AsSeq(Get(body, "links")), LinkItems(ids, sid))
  }

  lemma {:induction false} DependencyItemsAre(ids: Ids, sid: string, items: seq<Yaml>)
    ensures DependsOnItems(ids, sid, items) == Flat(items, DependencyItems(ids, sid))
  {
    if items != [] { DependencyItemsAre(ids, sid, items[1..]); }
  }

  lemma {:induction false} DependencyEntriesAre(ids: Ids, sid: string, m: seq<(Yaml, Yaml)>)
    ensures DependsOnEntries(ids, sid, m) == Flat(m, DependencyEntries(ids, sid))
  {
    if m != [] { DependencyEntriesAre(ids, sid, m[1..]); }
  }

  lemma {:induction false} NetworkItemsAre(ids: Ids, sid: string, items: seq<Yaml>)
    ensures NetworkMentions(ids, sid, NamesIn(items)) == Flat(items, NetworkItems(ids, sid))
  {
    if items != [] {
      NetworkItemsAre(ids, sid, items[1..]);
      if items[0].Str? {
        assert NamesIn(items)[1..] == NamesIn(items[1..]);
      } else {
        assert NamesIn(items) == NamesIn(items[1..]);
      }
    }
  }

  lemma {:induction false} NetworkKeysAre(ids: Ids, sid: string, m: seq<(Yaml, Yaml)>)
    ensures NetworkMentions(ids, sid, NamesIn(KeysOf(m))) == Flat(m, NetworkKeys(ids, sid))
  {
    NetworkItemsAre(ids, sid, KeysOf(m));
    KeysFlat(ids, sid, m);
  }

  lemma {:induction false} KeysFlat(ids: Ids, sid: string, m: seq<(Yaml, Yaml)>)
    ensures Flat(KeysOf(m), NetworkItems(ids, sid)) == Flat(m, NetworkKeys(ids, sid))
  {
    if m != [] {
      KeysFlat(ids, sid, m[1..]);
      assert KeysOf(m)[1..] == KeysOf(m[1..]);
    }
  }

  lemma {:induction false} VolumeItemsAre(ids: Ids, sid: string, items: seq<Yaml>)
    ensures VolumeMentions(ids, sid, items) == Flat(items, VolumeItems(ids, sid))
  {
    if items != [] { VolumeItemsAre(ids, sid, items[1..]); }
  }

  lemma {:induction false} LinkItemsAre(ids: Ids, sid: string, items: seq<Yaml>)
    ensures LinkMentions(ids, sid, items) == Flat(items, LinkItems(ids, sid))
  {
    if items != [] { LinkItemsAre(ids, sid, items[1..]); }
  }

  /** The sections of a service one behind the other. */
  function AllSections(ids: Ids, sid: string, body: seq<(Yaml, Yaml)>): seq<Mention> {
    SectionOf(ids, sid, body, DependencyList) + SectionOf(ids, sid, body, DependencyMap)
    + SectionOf(ids, sid, body, NetworkList) + SectionOf(ids, sid, body, NetworkMap)
    + SectionOf(ids, sid, body, VolumeList) + SectionOf(ids, sid, body, LinkList)
  }

  lemma NetworksAre(ids: Ids, sid: string, body: seq<(Yaml, Yaml)>)
    ensures NetworkMentions(ids, sid, NetworkNames(Get(body, "networks"))) ==
            SectionOf(ids, sid, body, NetworkList) + SectionOf(ids, sid, body, NetworkMap)
  {
    var nets := Get(body, "networks");
    NetworkItemsAre(ids, sid, AsSeq(nets));
    NetworkKeysAre(ids, sid, AsMap(nets));
    if nets.Some? && nets.value.Seq? {
      assert AsMap(nets) == [];
    } else {
      assert AsSeq(nets) == [];
    }
  }

  lemma MentionsAreSections(ids: Ids, sid: string, body: seq<(Yaml, Yaml)>)
    ensures ServiceMentions(ids, sid, body) == AllSections(ids, sid, body)
  {
    DependenciesAre(ids, sid, body);
    NetworksAre(ids, sid, body);
    VolumesAre(ids, sid, body);
    LinksAre(ids, sid, body);
    FromGroups(ids, sid, body,
               SectionOf(ids, sid, body, DependencyList), SectionOf(ids, sid, body, DependencyMap),
               SectionOf(ids, sid, body, NetworkList), SectionOf(ids, sid, body, NetworkMap),
               SectionOf(ids, sid, body, VolumeList), SectionOf(ids, sid, body, LinkList));
  }

  lemma VolumesAre(ids: Ids, sid: string, body: seq<(Yaml, Yaml)>)
    ensures VolumeMentions(ids, sid, AsSeq(Get(body, "volumes"))) == SectionOf(ids, sid, body, VolumeList)
  {
    VolumeItemsAre(ids, sid, AsSeq(Get(body, "volumes")));
  }

  lemma LinksAre(ids: Ids, sid: string, body: seq<(Yaml, Yaml)>)
    ensures LinkMentions(ids, sid, AsSeq(Get(body, "links"))) == SectionOf(ids, sid, body, LinkList)
  {
    LinkItemsAre(ids, sid, AsSeq(Get(body, "links")));
  }

  lemma FromGroups(ids: Ids, sid: string, body: seq<(Yaml, Yaml)>, a: seq<Mention>, b: seq<Mention>,
                   c: seq<Mention>, d: seq<Mention>, e: seq<Mention>, f: seq<Mention>)
    requires DependsOnMentions(ids, sid, Get(body, "depends_on")) == a + b
    requires NetworkMentions(ids, sid, NetworkNames(Get(body, "networks"))) == c + d
    requires VolumeMentions(ids, sid, AsSeq(Get(body, "volumes"))) == e
    requires LinkMentions(ids, sid, AsSeq(Get(body, "links"))) == f
    ensures ServiceMentions(ids, sid, body) == a + b + c + d + e + f
  {
    assert (a + b) + (c + d) == a + b + c + d;
  }

  lemma DependenciesAre(ids: Ids, sid: string, body: seq<(Yaml, Yaml)>)
    ensures DependsOnMentions(ids, sid, Get(body, "depends_on")) ==
            SectionOf(ids, sid, body, DependencyList) + SectionOf(ids, sid, body, DependencyMap)
  {
    var deps := Get(body, "depends_on");
    DependencyItemsAre(ids, sid, AsSeq(deps));
    DependencyEntriesAre(ids, sid, AsMap(deps));
  }

  // ---- The items give what their places call for

  lemma DependencyListIff(ids: Ids, sid: string, body: seq<(Yaml, Yaml)>, j: nat, m: Mention)
    ensures CallsIn(ids, sid, body, DependencyList, j, m) <==>
            Gives(AsSeq(Get(body, "depends_on")), DependencyItems(ids, sid), m, j)
  {
    var items := AsSeq(Get(body, "depends_on"));
    if name :| ListItem(body, "depends_on", j, Str(name)) && IsDependency(ids, sid, name, None, None, m) {
      ListItemIsGet(body, "depends_on", j, Str(name));
    }
    if Gives(items, DependencyItems(ids, sid), m, j) {
      ListItemIsGet(body, "depends_on", j, items[j]);
      assert IsDependency(ids, sid, items[j].s, None, None, m);
    }
  }

  lemma ConditionIff(value: Yaml, condition: Option<string>)
    ensures ConditionIs(value, condition) <==> AsStr(Get(AsMap(Some(value)), "condition")) == condition
  {
    if value.Map? { HoldsTextIsGet(value.entries, "condition", condition); }
  }

  lemma LabelIff(condition: Option<string>, note: Option<string>)
    ensures IsLabel(condition, note) <==>
            note == if condition.None? then None else Some(ConditionLabel(condition.value))
  {
  }

  lemma DependencyMapIff(ids: Ids, sid: string, body: seq<(Yaml, Yaml)>, j: nat, m: Mention)
    ensures CallsIn(ids, sid, body, DependencyMap, j, m) <==>
            Gives(AsMap(Get(body, "depends_on")), DependencyEntries(ids, sid), m, j)
  {
    var entries := AsMap(Get(body, "depends_on"));
    if CallsIn(ids, sid, body, DependencyMap, j, m) {
      var name, value, condition, note :| MapItem(body, "depends_on", j, Str(name), value)
        && ConditionIs(value, condition) && IsLabel(condition, note)
        && IsDependency(ids, sid, name, condition, note, m);
      MapItemIsGet(body, "depends_on", j, Str(name), value);
      ConditionIff(value, condition);
      LabelIff(condition, note);
    }
    if Gives(entries, DependencyEntries(ids, sid), m, j) {
      var entry := entries[j];
      var condition := AsStr(Get(AsMap(Some(entry.1)), "condition"));
      MapItemIsGet(body, "depends_on", j, entry.0, entry.1);
      ConditionIff(entry.1, condition);
      LabelIff(condition, m.edge.annotation);
      assert IsDependency(ids, sid, entry.0.s, condition, m.edge.annotation, m);
      assert MapItem(body, "depends_on", j, Str(entry.0.s), entry.1);
    }
  }

  lemma NetworkListIff(ids: Ids, sid: string, body: seq<(Yaml, Yaml)>, j: nat, m: Mention)
    ensures CallsIn(ids, sid, body, NetworkList, j, m) <==>
            Gives(AsSeq(Get(body, "networks")), NetworkItems(ids, sid), m, j)
  {
    var items := AsSeq(Get(body, "networks"));
    if name :| ListItem(body, "networks", j, Str(name)) && IsNetwork(ids, sid, name, m) {
      ListItemIsGet(body, "networks", j, Str(name));
    }
    if Gives(items, NetworkItems(ids, sid), m, j) {
      ListItemIsGet(body, "networks", j, items[j]);
      assert IsNetwork(ids, sid, items[j].s, m);
    }
  }

  lemma NetworkMapIff(ids: Ids, sid: string, body: seq<(Yaml, Yaml)>, j: nat, m: Mention)
    ensures CallsIn(ids, sid, body, NetworkMap, j, m) <==>
            Gives(AsMap(Get(body, "networks")), NetworkKeys(ids, sid), m, j)
  {
    var entries := AsMap(Get(body, "networks"));
    if name, value :| MapItem(body, "networks", j, Str(name), value) && IsNetwork(ids, sid, name, m) {
      MapItemIsGet(body, "networks", j, Str(name), value);
    }
    if Gives(entries, NetworkKeys(ids, sid), m, j) {
      MapItemIsGet(body, "networks", j, entries[j].0, entries[j].1);
      assert IsNetwork(ids, sid, entries[j].0.s, m);
      assert MapItem(body, "networks", j, Str(entries[j].0.s), entries[j].1);
    }
  }

  lemma ShortVolumeIff(ids: Ids, sid: string, text: string, m: Mention)
    ensures IsShortVolume(ids, sid, text, m) <==> StringVolume(ids, sid, text) == [m]
  {
  }

  lemma LongVolumeIff(ids: Ids, sid: string, entries: seq<(Yaml, Yaml)>, m: Mention)
    ensures IsLongVolume(ids, sid, entries, m) <==> MappingVolume(ids, sid, entries) == [m]
  {
    HoldsIsGet(entries, "read_only", Bool(true));
    if IsLongVolume(ids, sid, entries, m) {
      var source, target, mode :| Holds(entries, "source", Str(source)) && HoldsText(entries, "target", target)
        && (mode == if Holds(entries, "read_only", Bool(true)) then Some("ro") else None)
        && IsVolume(ids, sid, source, target, mode, m);
      HoldsIsGet(entries, "source", Str(source));
      HoldsTextIsGet(entries, "target", target);
    }
    var source, target := AsStr(Get(entries, "source")), AsStr(Get(entries, "target"));
    if MappingVolume(ids, sid, entries) == [m] {
      HoldsIsGet(entries, "source", Str(source.value));
      HoldsTextIsGet(entries, "target", target);
      assert IsVolume(ids, sid, source.value, target, m.edge.annotation, m);
    }
  }

  lemma VolumeItemIff(ids: Ids, sid: string, item: Yaml, m: Mention)
    ensures IsVolumeItem(ids, sid, item, m) <==> VolumeItem(ids, sid, item) == [m]
  {
    if item.Str? { ShortVolumeIff(ids, sid, item.s, m); }
    if item.Map? { LongVolumeIff(ids, sid, item.entries, m); }
  }

  lemma VolumeListIff(ids: Ids, sid: string, body: seq<(Yaml, Yaml)>, j: nat, m: Mention)
    ensures CallsIn(ids, sid, body, VolumeList, j, m) <==>
            Gives(AsSeq(Get(body, "volumes")), VolumeItems(ids, sid), m, j)
  {
    var items := AsSeq(Get(body, "volumes"));
    if item :| ListItem(body, "volumes", j, item) && IsVolumeItem(ids, sid, item, m) {
      ListItemIsGet(body, "volumes", j, item);
      VolumeItemIff(ids, sid, item, m);
    }
    if Gives(items, VolumeItems(ids, sid), m, j) {
      ListItemIsGet(body, "volumes", j, items[j]);
      VolumeItemIff(ids, sid, items[j], m);
    }
  }

  lemma LinkListIff(ids: Ids, sid: string, body: seq<(Yaml, Yaml)>, j: nat, m: Mention)
    ensures CallsIn(ids, sid, body, LinkList, j, m) <==> Gives(AsSeq(Get(body, "links")), LinkItems(ids, sid), m, j)
  {
    var items := AsSeq(Get(body, "links"));
    if text :| ListItem(body, "links", j, Str(text)) && IsLink(ids, sid, text, m) {
      ListItemIsGet(body, "links", j, Str(text));
    }
    if Gives(items, LinkItems(ids, sid), m, j) {
      ListItemIsGet(body, "links", j, items[j]);
      assert IsLink(ids, sid, items[j].s, m);
    }
  }

  // ---- A section with its places

  /** The mentions of a section with the items that call for them, in order and without a gap. */
  ghost predicate SectionFrom(
    ids: Ids, sid: string, body: seq<(Yaml, Yaml)>, s: Section, ms: seq<Mention>, ks: seq<nat>) {
    && |ms| == |ks| && Ascends(ks)
    && (forall k :: 0 <= k < |ks| ==> CallsIn(ids, sid, body, s, ks[k], ms[k]))
    && (forall j: nat, m :: CallsIn(ids, sid, body, s, j, m) ==> j in ks)
  }

  lemma SectionOfItems<A(!new)>(
    ids: Ids, sid: string, body: seq<(Yaml, Yaml)>, s: Section, xs: seq<A>, f: A -> seq<Mention>)
    returns (ks: seq<nat>)
    requires forall x :: |f(x)| <= 1
    requires forall j: nat, m :: CallsIn(ids, sid, body, s, j, m) <==> Gives(xs, f, m, j)
    ensures SectionFrom(ids, sid, body, s, Flat(xs, f), ks)
  {
    ks := FlatFrom(xs, f);
  }

  lemma SectionHasPlaces(ids: Ids, sid: string, body: seq<(Yaml, Yaml)>, s: Section) returns (ks: seq<nat>)
    ensures SectionFrom(ids, sid, body, s, SectionOf(ids, sid, body, s), ks)
  {
    match s {
      case DependencyList =>
        forall j: nat, m { DependencyListIff(ids, sid, body, j, m); }
        ks := SectionOfItems(ids, sid, body, s, AsSeq(Get(body, "depends_on")), DependencyItems(ids, sid));
      case DependencyMap =>
        forall j: nat, m { DependencyMapIff(ids, sid, body, j, m); }
        ks := SectionOfItems(ids, sid, body, s, AsMap(Get(body, "depends_on")), DependencyEntries(ids, sid));
      case NetworkList =>
        forall j: nat, m { NetworkListIff(ids, sid, body, j, m); }
        ks := SectionOfItems(ids, sid, body, s, AsSeq(Get(body, "networks")), NetworkItems(ids, sid));
      case NetworkMap =>
        forall j: nat, m { NetworkMapIff(ids, sid, body, j, m); }
        ks := SectionOfItems(ids, sid, body, s, AsMap(Get(body, "networks")), NetworkKeys(ids, sid));
      case VolumeList =>
        forall j: nat, m { VolumeListIff(ids, sid, body, j, m); }
        ks := SectionOfItems(ids, sid, body, s, AsSeq(Get(body, "volumes")), VolumeItems(ids, sid));
      case LinkList =>
        forall j: nat, m { LinkListIff(ids, sid, body, j, m); }
        ks := SectionOfItems(ids, sid, body, s, AsSeq(Get(body, "links")), LinkItems(ids, sid));
    }
  }
}
