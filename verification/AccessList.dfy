/** Access lists: an IP filter and an authentication policy that proxies and routes share by id.

    `A` is the authentication policy, which the modelled code only copies. */
module AccessList {
  import opened Basics
  import opened Text
  import opened Net

  // ---- Networks

  function Pow2(n: nat): (p: nat)
    ensures p >= 1
  {
    if n == 0 then 1 else 2 * Pow2(n - 1)
  }

  datatype IpNet = Net4(addr4: nat, prefix4: nat) | Net6(addr6: nat, prefix6: nat) {

    /** The address has the family and the leading bits of the network. */
    predicate Contains(ip: IpAddr) {
      match this
      case Net4(a, p) => p <= 32 && ip.V4? && ip.bits / Pow2(32 - p) == a / Pow2(32 - p)
      case Net6(a, p) => p <= 128 && ip.V6? && ip.bits / Pow2(128 - p) == a / Pow2(128 - p)
    }
  }

  ghost predicate IsAddress(ip: IpAddr) {
    if ip.V4? then ip.bits < Pow2(32) else ip.bits < Pow2(128)
  }

  /** `to_canonical`: an IPv4 address mapped into IPv6 is that IPv4 address. */
  function Canonical(ip: IpAddr): IpAddr {
    if ip.V6? && ip.bits / Pow2(32) == 0xFFFF then V4(ip.bits % Pow2(32)) else ip
  }

  lemma EverythingIsIn(ip: IpAddr)
    requires IsAddress(ip)
    ensures ip.V4? ==> Net4(0, 0).Contains(ip)
    ensures ip.V6? ==> Net6(0, 0).Contains(ip)
  {
    SmallIsZero(0, Pow2(32));
    SmallIsZero(0, Pow2(128));
    if ip.V4? { SmallIsZero(ip.bits, Pow2(32)); } else { SmallIsZero(ip.bits, Pow2(128)); }
  }

  lemma SmallIsZero(n: nat, d: nat)
    requires n < d
    ensures n / d == 0
  {
  }

  // ---- The filter

  datatype IpFilter = IpFilter(allow: seq<IpNet>, deny: seq<IpNet>, allowCountries: seq<string>,
      denyCountries: seq<string>)

  predicate InAny(nets: seq<IpNet>, ip: IpAddr) {
    exists i :: 0 <= i < |nets| && nets[i].Contains(ip)
  }

  predicate Listed(countries: seq<string>, country: Option<string>) {
    country.Some? && exists i :: 0 <= i < |countries| && EqIgnoreCase(countries[i], country.value)
  }

  /** `allows_with_country` */
  predicate Allows(f: IpFilter, client: IpAddr, country: Option<string>) {
    var ip := Canonical(client);
    if InAny(f.deny, ip) || Listed(f.denyCountries, country) then false
    else if f.allow != [] && InAny(f.allow, ip) then true
    else if f.allowCountries != [] then Listed(f.allowCountries, country)
    else f.allow == []
  }

  /** A client is let in if and only if no deny list has it and an allow list does, or there is none. */
  lemma AllowsIff(f: IpFilter, client: IpAddr, country: Option<string>)
    ensures Allows(f, client, country) <==>
            var ip := Canonical(client);
            && (forall i :: 0 <= i < |f.deny| ==> !f.deny[i].Contains(ip))
            && (country.Some? ==>
                  forall i :: 0 <= i < |f.denyCountries| ==> !EqIgnoreCase(f.denyCountries[i], country.value))
            && (|| (f.allow == [] && f.allowCountries == [])
                || (exists i :: 0 <= i < |f.allow| && f.allow[i].Contains(ip))
                || (country.Some? &&
                    exists i :: 0 <= i < |f.allowCountries| && EqIgnoreCase(f.allowCountries[i], country.value)))
  {
    if InAny(f.allow, Canonical(client)) {
      var i :| 0 <= i < |f.allow| && f.allow[i].Contains(Canonical(client));
    }
  }

  lemma Multiples(a: int, b: int, d: nat)
    ensures a < b ==> a * d + d <= b * d
  {
    if a < b {
      assert (a + 1) * d <= b * d;
      assert (a + 1) * d == a * d + d;
    }
  }

  lemma SameQuotient(n: nat, m: nat, d: nat)
    requires d > 0
    ensures n / d == m / d <==> (m / d) * d <= n < (m / d) * d + d
  {
    assert n == (n / d) * d + n % d;
    Multiples(n / d, m / d, d);
    Multiples(m / d, n / d, d);
  }

  /** A network with `k` free bits is the block of 2^k addresses of its family around its address. */
  lemma ContainsIff(net: IpNet, ip: IpAddr)
    requires if net.Net4? then net.prefix4 <= 32 else net.prefix6 <= 128
    ensures net.Contains(ip) <==>
            var size := Pow2(if net.Net4? then 32 - net.prefix4 else 128 - net.prefix6);
            var first := (if net.Net4? then net.addr4 else net.addr6) / size * size;
            ip.V4? == net.Net4? && first <= ip.bits < first + size
    ensures Pow2(0) == 1 && forall k: nat :: Pow2(k + 1) == Pow2(k) + Pow2(k)
  {
    if net.Net4? {
      SameQuotient(ip.bits, net.addr4, Pow2(32 - net.prefix4));
    } else {
      SameQuotient(ip.bits, net.addr6, Pow2(128 - net.prefix6));
    }
  }

  lemma Quotient(h: nat, l: nat, d: nat)
    requires l < d
    ensures (h * d + l) / d == h && (h * d + l) % d == l
  {
    var n := h * d + l;
    assert n == (n / d) * d + n % d;
    Multiples(n / d, h, d);
    Multiples(h, n / d, d);
  }

  lemma Pow2Is(n: nat)
    ensures Pow2(0) == 1 && Pow2(n + 1) == Pow2(n) + Pow2(n)
    ensures Pow2(32) == 0x1_0000_0000
  {
    assert Pow2(8) == 0x100;
    assert Pow2(16) == 0x1_0000;
    assert Pow2(24) == 0x100_0000;
  }

  /** Exactly the IPv6 addresses ::ffff:0:0/96 stand for an IPv4 address. */
  lemma CanonicalIff(ip: IpAddr, high: nat, low: nat)
    requires ip.V6? ==> ip.bits == high * 0x1_0000_0000 + low && low < 0x1_0000_0000
    ensures Canonical(ip) == if ip.V6? && high == 0xFFFF then V4(low) else ip
  {
    Pow2Is(0);
    if ip.V6? { Quotient(high, low, Pow2(32)); }
  }

  /** Adding to the deny lists never lets a client in, and adding to an allow list that is not empty
      never shuts one out. */
  lemma FilterIsMonotone(f: IpFilter, g: IpFilter, client: IpAddr, country: Option<string>)
    requires f.deny <= g.deny && f.denyCountries <= g.denyCountries
    requires g.allow <= f.allow && g.allowCountries <= f.allowCountries
    requires (g.allow == [] ==> f.allow == []) && (g.allowCountries == [] ==> f.allowCountries == [])
    ensures Allows(g, client, country) ==> Allows(f, client, country)
  {
    var ip := Canonical(client);
    if InAny(f.deny, ip) {
      var i :| 0 <= i < |f.deny| && f.deny[i].Contains(ip);
      assert g.deny[i] == f.deny[i];
    }
    if Listed(f.denyCountries, country) {
      var i :| 0 <= i < |f.denyCountries| && EqIgnoreCase(f.denyCountries[i], country.value);
      assert g.denyCountries[i] == f.denyCountries[i];
    }
    if InAny(g.allow, ip) {
      var i :| 0 <= i < |g.allow| && g.allow[i].Contains(ip);
      assert f.allow[i] == g.allow[i];
    }
    if Listed(g.allowCountries, country) {
      var i :| 0 <= i < |g.allowCountries| && EqIgnoreCase(g.allowCountries[i], country.value);
      assert f.allowCountries[i] == g.allowCountries[i];
    }
  }

  // ---- The lists

  datatype AccessList<A> = AccessList(ipFilter: IpFilter, auth: A)

  datatype Entry<A> = Entry(id: nat, list: AccessList<A>)

  function DenyAll<A>(noAuth: A): AccessList<A> {
    AccessList(IpFilter([], [Net4(0, 0), Net6(0, 0)], [], []), noAuth)
  }

  lemma CanonicalIsAddress(ip: IpAddr)
    requires IsAddress(ip)
    ensures IsAddress(Canonical(ip))
  {
  }

  /** Every IPv4 and IPv6 client from every country is turned away. */
  ghost predicate RejectsEveryone(f: IpFilter) {
    forall ip, country :: IsAddress(ip) ==> !Allows(f, ip, country)
  }

  lemma DenyAllRejects<A>(noAuth: A, ip: IpAddr, country: Option<string>)
    requires IsAddress(ip)
    ensures !Allows(DenyAll(noAuth).ipFilter, ip, country)
  {
    CanonicalIsAddress(ip);
    EverythingIsIn(Canonical(ip));
    var deny := DenyAll(noAuth).ipFilter.deny;
    assert deny[0] == Net4(0, 0) && deny[1] == Net6(0, 0);
  }

  /** The list of a missing id rejects every client from every country. */
  lemma DenyAllRejectsEveryone<A>(noAuth: A)
    ensures RejectsEveryone(DenyAll(noAuth).ipFilter)
  {
    forall ip, country | IsAddress(ip) ensures !Allows(DenyAll(noAuth).ipFilter, ip, country) {
      DenyAllRejects(noAuth, ip, country);
    }
  }

  function Lookup<A>(lists: seq<Entry<A>>, id: nat): Option<AccessList<A>> {
    if lists == [] then None
    else if lists[0].id == id then Some(lists[0].list)
    else Lookup(lists[1..], id)
  }

  /** The first list with the id. */
  ghost predicate IsFound<A>(lists: seq<Entry<A>>, id: nat, k: nat) {
    k < |lists| && lists[k].id == id && forall q :: 0 <= q < k ==> lists[q].id != id
  }

  lemma {:induction false} LookupIff<A>(lists: seq<Entry<A>>, id: nat)
    ensures Lookup(lists, id).None? <==> forall k :: 0 <= k < |lists| ==> lists[k].id != id
    ensures forall k: nat :: IsFound(lists, id, k) ==> Lookup(lists, id) == Some(lists[k].list)
  {
    if lists != [] {
      var rest := lists[1..];
      LookupIff(rest, id);
      assert forall k :: 0 <= k < |rest| ==> rest[k] == lists[k + 1];
      assert forall k :: 1 <= k < |lists| ==> lists[k] == rest[k - 1];
      forall k: nat | IsFound(lists, id, k) && k > 0 ensures Lookup(lists, id) == Some(lists[k].list) {
        assert lists[0].id != id && IsFound(rest, id, k - 1);
      }
    }
  }

  function Chosen<A>(lists: seq<Entry<A>>, noAuth: A, id: nat): AccessList<A> {
    match Lookup(lists, id)
    case Some(list) => list
    case None => DenyAll(noAuth)
  }

  datatype Route<A> = Route(accessList: Option<nat>, ipFilter: Option<IpFilter>, auth: Option<A>)

  function RouteWith<A>(lists: seq<Entry<A>>, noAuth: A, r: Route<A>): Route<A> {
    if r.accessList.None? then r
    else
      var list := Chosen(lists, noAuth, r.accessList.value);
      Route(r.accessList, Some(list.ipFilter), Some(list.auth))
  }

  /** The ids that no list has, in order. */
  function Missing<A>(lists: seq<Entry<A>>, ids: seq<Option<nat>>): seq<nat> {
    if ids == [] then []
    else
      var n := |ids| - 1;
      Missing(lists, ids[..n]) + MissingOne(lists, ids[n])
  }

  function MissingOne<A>(lists: seq<Entry<A>>, id: Option<nat>): seq<nat> {
    if id.Some? && Lookup(lists, id.value).None? then [id.value] else []
  }

  lemma MissingNext<A>(lists: seq<Entry<A>>, ids: seq<Option<nat>>, n: nat)
    requires n < |ids|
    ensures Missing(lists, ids[..n + 1]) == Missing(lists, ids[..n]) + MissingOne(lists, ids[n])
  {
    assert ids[..n + 1][..n] == ids[..n];
  }

  /** The missing ids are the named ones that no list has, each as often as it is named, in order: `ks` tells
      where. */
  lemma {:induction false} MissingIff<A>(lists: seq<Entry<A>>, ids: seq<Option<nat>>) returns (ks: seq<nat>)
    ensures AreAt(Missing(lists, ids), ids, ks)
    ensures forall k: nat :: k in ks <==> k < |ids| && Unknown(lists, ids[k])
  {
    if ids == [] {
      ks := [];
    } else {
      var n := |ids| - 1;
      var init := ids[..n];
      var before := MissingIff(lists, init);
      UnknownIff(lists, ids[n]);
      ks := OneMore(ids, n, Missing(lists, init), before, Unknown(lists, ids[n]));
      forall k: nat ensures k in ks <==> k < |ids| && Unknown(lists, ids[k]) {
        assert k < n ==> ids[k] == init[k];
      }
    }
  }

  ghost predicate AreAt(values: seq<nat>, ids: seq<Option<nat>>, ks: seq<nat>) {
    && |ks| == |values|
    && (forall i :: 0 <= i < |ks| ==> ks[i] < |ids| && ids[ks[i]] == Some(values[i]))
    && (forall i, j :: 0 <= i < j < |ks| ==> ks[i] < ks[j])
  }

  lemma OneMore(ids: seq<Option<nat>>, n: nat, values: seq<nat>, before: seq<nat>, more: bool) returns (ks: seq<nat>)
    requires n < |ids| && AreAt(values, ids[..n], before) && (more ==> ids[n].Some?)
    ensures AreAt(if more then values + [ids[n].value] else values, ids, ks)
    ensures forall k: nat :: k in ks <==> k in before || (more && k == n)
  {
    ks := if more then before + [n] else before;
    var all := if more then values + [ids[n].value] else values;
    forall i | 0 <= i < |before| ensures ks[i] == before[i] < n && all[i] == values[i] && ids[ks[i]] == Some(all[i]) {
      assert ids[..n][before[i]] == ids[before[i]];
    }
  }

  lemma UnknownIff<A>(lists: seq<Entry<A>>, id: Option<nat>)
    ensures MissingOne(lists, id) == if Unknown(lists, id) then [id.value] else []
  {
    if id.Some? { LookupIff(lists, id.value); }
  }

  ghost predicate Unknown<A>(lists: seq<Entry<A>>, id: Option<nat>) {
    id.Some? && forall q :: 0 <= q < |lists| ==> lists[q].id != id.value
  }

  function IdsOf<A>(routes: seq<Route<A>>): (ids: seq<Option<nat>>)
    ensures |ids| == |routes| && forall i :: 0 <= i < |routes| ==> ids[i] == routes[i].accessList
  {
    if routes == [] then [] else [routes[0].accessList] + IdsOf(routes[1..])
  }

  class HttpProxy<A(==)> {
    var accessList: Option<nat>
    var ipFilter: IpFilter
    var auth: A
    var routes: seq<Route<A>>

    constructor (accessList: Option<nat>, ipFilter: IpFilter, auth: A, routes: seq<Route<A>>)
      ensures this.accessList == accessList && this.ipFilter == ipFilter && this.auth == auth && this.routes == routes
    {
      this.accessList, this.ipFilter, this.auth, this.routes := accessList, ipFilter, auth, routes;
    }

    /** The ids that the proxy and its routes name, the proxy first. */
    function Named(): seq<Option<nat>>
      reads this
    {
      [accessList] + IdsOf(routes)
    }

    method ApplyToProxy(lists: seq<Entry<A>>, noAuth: A) returns (missing: seq<nat>)
      modifies `ipFilter, `auth
      ensures accessList.None? ==> ipFilter == old(ipFilter) && auth == old(auth)
      ensures accessList.Some? ==> AccessList(ipFilter, auth) == Chosen(lists, noAuth, accessList.value)
      ensures missing == Missing(lists, [accessList])
    {
      missing := [];
      assert [accessList][..0] == [];
      if accessList.Some? {
        var list;
        list, missing := Find(lists, noAuth, accessList.value, missing);
        ipFilter := list.ipFilter;
        auth := list.auth;
      }
    }

    method ApplyToRoutes(lists: seq<Entry<A>>, noAuth: A, before: seq<nat>) returns (missing: seq<nat>)
      requires before == Missing(lists, [accessList])
      modifies `routes
      ensures AllWith(lists, noAuth, old(routes), routes)
      ensures missing == Missing(lists, old(Named()))
    {
      ghost var ids := Named();
      assert ids[..1] == [accessList];
      missing := before;
      for i := 0 to |routes|
        invariant |routes| == |old(routes)|
        invariant forall k :: 0 <= k < i ==> routes[k] == RouteWith(lists, noAuth, old(routes)[k])
        invariant forall k :: i <= k < |routes| ==> routes[k] == old(routes)[k]
        invariant missing == Missing(lists, ids[..i + 1])
      {
        MissingNext(lists, ids, i + 1);
        var route;
        route, missing := ApplyToRoute(lists, noAuth, routes[i], missing);
        routes := routes[i := route];
      }
      assert ids[..|ids|] == ids;
    }

    /** The proxy and its routes have the settings of their lists. */
    ghost predicate Applied(lists: seq<Entry<A>>, noAuth: A)
      reads this
    {
      && (accessList.Some? ==> AccessList(ipFilter, auth) == Chosen(lists, noAuth, accessList.value))
      && AllWith(lists, noAuth, routes, routes)
    }

    /** A second call finds everything applied, so it changes nothing, and it names the same ids. */
    method ApplyAccessLists(lists: seq<Entry<A>>, noAuth: A) returns (missing: seq<nat>)
      modifies `ipFilter, `auth, `routes
      ensures Named() == old(Named()) && missing == Missing(lists, Named())
      ensures accessList.None? ==> ipFilter == old(ipFilter) && auth == old(auth)
      ensures AllWith(lists, noAuth, old(routes), routes)
      ensures Applied(lists, noAuth)
      ensures old(Applied(lists, noAuth)) ==> ipFilter == old(ipFilter) && auth == old(auth) && routes == old(routes)
      ensures accessList.Some? && Lookup(lists, accessList.value).None? ==> RejectsEveryone(ipFilter)
      ensures forall i ::
        0 <= i < |routes| && routes[i].accessList.Some? && Lookup(lists, routes[i].accessList.value).None? ==>
        routes[i].ipFilter.Some? && RejectsEveryone(routes[i].ipFilter.value)
    {
      missing := ApplyToProxy(lists, noAuth);
      missing := ApplyToRoutes(lists, noAuth, missing);
      SameIds(lists, noAuth, old(routes), routes);
      SettledAfterOnce(lists, noAuth, old(routes), routes);
      if old(Applied(lists, noAuth)) {
        SecondTimeNothing(lists, noAuth, old(routes), old(routes), routes);
      }
      DenyAllRejectsEveryone(noAuth);
      forall i | 0 <= i < |routes| && routes[i].accessList.Some? && Lookup(lists, routes[i].accessList.value).None?
        ensures routes[i].ipFilter.Some? && RejectsEveryone(routes[i].ipFilter.value)
      {
        UnknownListRejects(lists, noAuth, old(routes)[i]);
      }
    }
  }

  lemma SettledAfterOnce<A>(lists: seq<Entry<A>>, noAuth: A, before: seq<Route<A>>, after: seq<Route<A>>)
    requires AllWith(lists, noAuth, before, after)
    ensures AllWith(lists, noAuth, after, after)
  {
    forall i | 0 <= i < |after| ensures after[i] == RouteWith(lists, noAuth, after[i]) {
      assert after[i] == RouteWith(lists, noAuth, before[i]);
    }
  }

  method ApplyToRoute<A>(lists: seq<Entry<A>>, noAuth: A, r: Route<A>, before: seq<nat>)
      returns (route: Route<A>, missing: seq<nat>)
    ensures route == RouteWith(lists, noAuth, r)
    ensures missing == before + MissingOne(lists, r.accessList)
  {
    route, missing := r, before;
    if r.accessList.Some? {
      var list;
      list, missing := Find(lists, noAuth, r.accessList.value, missing);
      route := Route(r.accessList, Some(list.ipFilter), Some(list.auth));
    }
  }

  /** The closure that looks a list up and notes a missing id. */
  method Find<A>(lists: seq<Entry<A>>, noAuth: A, id: nat, before: seq<nat>)
      returns (list: AccessList<A>, missing: seq<nat>)
    ensures list == Chosen(lists, noAuth, id)
    ensures missing == before + if Lookup(lists, id).None? then [id] else []
  {
    missing := before;
    for i := 0 to |lists|
      invariant missing == before && Lookup(lists, id) == Lookup(lists[i..], id)
    {
      if lists[i].id == id {
        return lists[i].list, missing;
      }
      assert lists[i..][1..] == lists[i + 1..];
    }
    return DenyAll(noAuth), missing + [id];
  }

  ghost predicate AllWith<A>(lists: seq<Entry<A>>, noAuth: A, before: seq<Route<A>>, after: seq<Route<A>>) {
    |after| == |before| && forall i :: 0 <= i < |after| ==> after[i] == RouteWith(lists, noAuth, before[i])
  }

  lemma SameIds<A>(lists: seq<Entry<A>>, noAuth: A, before: seq<Route<A>>, after: seq<Route<A>>)
    requires AllWith(lists, noAuth, before, after)
    ensures IdsOf(after) == IdsOf(before)
  {
    var a, b := IdsOf(after), IdsOf(before);
    forall i | 0 <= i < |a| ensures a[i] == b[i] {
      assert after[i] == RouteWith(lists, noAuth, before[i]);
    }
  }

  /** A second application finds every route as the first one left it. */
  lemma SecondTimeNothing<A>(lists: seq<Entry<A>>, noAuth: A, before: seq<Route<A>>, once: seq<Route<A>>,
      twice: seq<Route<A>>)
    requires AllWith(lists, noAuth, before, once) && AllWith(lists, noAuth, once, twice)
    ensures twice == once
  {
    forall i | 0 <= i < |once| ensures twice[i] == once[i] {
      assert once[i] == RouteWith(lists, noAuth, before[i]) && twice[i] == RouteWith(lists, noAuth, once[i]);
    }
  }

  /** A route that names an unknown list rejects every client from every country. */
  lemma UnknownListRejects<A>(lists: seq<Entry<A>>, noAuth: A, r: Route<A>)
    requires r.accessList.Some? && Lookup(lists, r.accessList.value).None?
    ensures RouteWith(lists, noAuth, r).ipFilter.Some? && RejectsEveryone(RouteWith(lists, noAuth, r).ipFilter.value)
  {
    DenyAllRejectsEveryone(noAuth);
  }
}
